/**
 * `dui create-app`: how `main` turns the command line into the options
 * object, how `createApp` validates those options and fills in defaults
 * (from the prompts in an interactive run), and the README text the new
 * project receives. Everything here is the decision part: the prompts'
 * answers and the set of directories that already exist are inputs, and
 * `process.exit(1)` is an `Exit` outcome.
 */
module CreateApp {
  import opened Js
  import opened Text
  import opened CliText
  import opened CliArgs

  /** The options object `main` builds for `createApp`. */
  datatype CreateOptions = CreateOptions(
    appName: JsValue,
    targetDir: JsValue,
    appId: JsValue,
    accent: JsValue,
    theme: JsValue,
    iconPath: JsValue,
    firstPage: JsValue,
    description: JsValue,
    unattended: bool,
    noInstall: bool,
    signing: bool,
    apkAction: bool,
    gitInit: bool,
    gitRemote: JsValue)

  /** `parsed._[0]`. */
  function FirstPositional(p: Parsed): JsValue {
    if p.positional == [] then Undefined else Str(p.positional[0])
  }

  /** The options object of `main`, read off the parser's result. */
  function OptionsOf(p: Parsed): (r: CreateOptions)
    ensures "dir" !in p.flags ==> r.targetDir == FirstPositional(p)
    ensures "signing" !in p.flags ==> r.signing
    ensures "yes" !in p.flags ==> !r.unattended
    ensures "no-install" !in p.flags && "apk-action" !in p.flags && "git-init" !in p.flags ==>
      !r.noInstall && !r.apkAction && !r.gitInit
    ensures "name" !in p.flags && "theme" !in p.flags ==> r.appName == Undefined && r.theme == Undefined
  {
    CreateOptions(
      appName := p.Get("name"),
      targetDir := Or(p.Get("dir"), FirstPositional(p)),
      appId := p.Get("app-id"),
      accent := p.Get("accent"),
      theme := p.Get("theme"),
      iconPath := p.Get("icon"),
      firstPage := p.Get("page"),
      description := p.Get("description"),
      unattended := Truthy(p.Get("yes")),
      noInstall := Truthy(p.Get("no-install")),
      signing := p.Get("signing") != Bool(false),
      apkAction := Truthy(p.Get("apk-action")),
      gitInit := Truthy(p.Get("git-init")),
      gitRemote := p.Get("git-remote"))
  }

  /** The lines typed at the prompts of an interactive run, in prompt order. */
  datatype Answers = Answers(
    name: string,
    dir: string,
    appId: string,
    accent: string,
    description: string,
    theme: Option<Num>,
    icon: string,
    page: Option<Num>)

  /**
   * The project settings `createApp` settles on. The fields hold what the
   * source holds: a value of the options object, a prompt's answer, or
   * `undefined` when a menu selection fell outside the list.
   */
  datatype Settings = Settings(
    appName: JsValue,
    targetDir: JsValue,
    appId: JsValue,
    accent: JsValue,
    description: JsValue,
    theme: JsValue,
    iconPath: JsValue,
    firstPage: JsValue)

  /** Why `dui` stops with exit status 1. */
  datatype CliError =
    | InvalidTheme(theme: string)
    | InvalidPage(page: string)
    | DirectoryExists(dir: string)
    | TargetDirNotText
    | UnknownCommand(command: string)

  const DefaultName: string := "Disco App"
  const DefaultDescription: string := "DiscoUI Capacitor app"
  const DefaultAccent: string := "#D80073"
  const AppIdPrefix: string := "com.disco."
  /** `THEME_OPTIONS.indexOf('auto')` and `PAGE_OPTIONS.indexOf('single page')`. */
  const ThemeDefaultIndex: nat := 0
  const PageDefaultIndex: nat := 1

  /** `normalizeTheme(options.theme)` when a theme was given. */
  function ProvidedTheme(theme: JsValue): Option<string> {
    if Truthy(theme) then NormalizeTheme(theme) else None
  }

  function ProvidedPage(page: JsValue): Option<string> {
    if Truthy(page) then NormalizePage(page) else None
  }

  function OptStr(v: Option<string>): JsValue {
    if v.Some? then Str(v.value) else Undefined
  }

  /** `options.appName || 'Disco App'`. */
  function BaseName(o: CreateOptions): JsValue {
    Or(o.appName, Str(DefaultName))
  }

  /**
   * The settings of a `--yes` run: options as given, defaults for the
   * rest. `theme` and `page` are the normalized theme and page, when given.
   */
  function UnattendedSettings(o: CreateOptions, theme: Option<string>, page: Option<string>): (s: Settings)
    requires theme.Some? ==> theme.value in ThemeOptions
    requires page.Some? ==> page.value in PageOptions
    ensures Truthy(s.targetDir)
    ensures s.theme.Str? && s.theme.s in ThemeOptions
    ensures s.firstPage.Str? && s.firstPage.s in PageOptions
  {
    var name := BaseName(o);
    Settings(
      appName := name,
      targetDir := Or(o.targetDir, Str(Slugify(name))),
      appId := Or(o.appId, Str(AppIdPrefix + Slugify(name))),
      accent := Or(o.accent, Str(DefaultAccent)),
      description := Or(o.description, Str(DefaultDescription)),
      theme := Str(theme.GetOr("auto")),
      iconPath := Or(o.iconPath, Str("")),
      firstPage := Str(page.GetOr("single page")))
  }

  /** The `Theme` menu: `pick(rl, 'Theme', THEME_OPTIONS, themeIndex)`. */
  function PickTheme(answer: Option<Num>): (r: Option<string>)
    ensures r.Some? ==> r.value in ThemeOptions
  {
    Pick(ThemeOptions, ThemeDefaultIndex, answer)
  }

  /** The `First page template` menu. */
  function PickPage(answer: Option<Num>): (r: Option<string>)
    ensures r.Some? ==> r.value in PageOptions
  {
    Pick(PageOptions, PageDefaultIndex, answer)
  }

  /** The theme given (already validated), else the `Theme` menu's selection. */
  function ThemeChoice(o: CreateOptions, theme: Option<string>, answer: Option<Num>): (r: JsValue)
    requires theme.Some? ==> theme.value in ThemeOptions
    ensures r.Str? ==> r.s in ThemeOptions
  {
    if Truthy(o.theme) then OptStr(theme) else OptStr(PickTheme(answer))
  }

  /** The page template given (already validated), else the `First page template` menu's selection. */
  function PageChoice(o: CreateOptions, page: Option<string>, answer: Option<Num>): (r: JsValue)
    requires page.Some? ==> page.value in PageOptions
    ensures r.Str? ==> r.s in PageOptions
  {
    if Truthy(o.firstPage) then OptStr(page) else OptStr(PickPage(answer))
  }

  /** The directory given, else the `Directory` prompt, offering the name's slug. */
  function DirectoryOf(given: JsValue, answer: string, name: JsValue): (r: JsValue)
    ensures Truthy(r)
  {
    Or(given, Question(answer, Str(Slugify(name))))
  }

  /** The answer to the `App name` prompt, which offers `--name` or `Disco App`. */
  function TypedName(o: CreateOptions, a: Answers): (name: JsValue)
    ensures Truthy(name)
  {
    Question(a.name, BaseName(o))
  }

  /**
   * The settings of an interactive run: each prompt offers the option's
   * value (or its default) and the answer replaces it unless it is blank.
   * The directory prompt is skipped when a directory was given, and the
   * theme, icon and page prompts when those were given.
   */
  function InteractiveSettings(o: CreateOptions, a: Answers, theme: Option<string>, page: Option<string>): (s: Settings)
    requires theme.Some? ==> theme.value in ThemeOptions
    requires page.Some? ==> page.value in PageOptions
    ensures Truthy(s.targetDir)
    ensures s.theme.Str? ==> s.theme.s in ThemeOptions
    ensures s.firstPage.Str? ==> s.firstPage.s in PageOptions
  {
    var name := TypedName(o, a);
    Settings(
      appName := name,
      targetDir := DirectoryOf(o.targetDir, a.dir, name),
      appId := Question(a.appId, Or(o.appId, Str(AppIdPrefix + Slugify(name)))),
      accent := Question(a.accent, Or(o.accent, Str(DefaultAccent))),
      description := Question(a.description, Or(o.description, Str(DefaultDescription))),
      theme := ThemeChoice(o, theme, a.theme),
      iconPath := if Truthy(o.iconPath) then o.iconPath else Question(a.icon, Str("")),
      firstPage := PageChoice(o, page, a.page))
  }

  /**
   * `createApp(options)` up to the point where it starts writing files:
   * the theme and page are validated first, then the settings are
   * resolved, then the target directory must be text and must not exist.
   */
  function ResolveCreateApp(o: CreateOptions, a: Answers, existing: set<string>): (r: Result<Settings, CliError>)
    ensures Truthy(o.theme) && NormalizeTheme(o.theme).None? ==> r == Err(InvalidTheme(ToStr(o.theme)))
    ensures Truthy(o.firstPage) && NormalizePage(o.firstPage).None? ==>
      r.Err? && (r.error.InvalidTheme? || r.error == InvalidPage(ToStr(o.firstPage)))
    ensures r.Err? && r.error.DirectoryExists? ==> r.error.dir in existing
    ensures r.Ok? ==> r.value.targetDir.Str? && r.value.targetDir.s != [] && r.value.targetDir.s !in existing
    ensures r.Ok? && r.value.theme.Str? ==> r.value.theme.s in ThemeOptions
    ensures r.Ok? && r.value.firstPage.Str? ==> r.value.firstPage.s in PageOptions
    ensures r.Ok? && Truthy(o.theme) ==> r.value.theme == OptStr(NormalizeTheme(o.theme))
    ensures r.Ok? && Truthy(o.firstPage) ==> r.value.firstPage == OptStr(NormalizePage(o.firstPage))
  {
    ResolveWith(o, a, existing, ProvidedTheme(o.theme), ProvidedPage(o.firstPage))
  }

  /** `createApp` once `providedTheme` and `providedPage` are computed. */
  function ResolveWith(o: CreateOptions, a: Answers, existing: set<string>, theme: Option<string>, page: Option<string>): (r: Result<Settings, CliError>)
    requires theme.Some? ==> theme.value in ThemeOptions
    requires page.Some? ==> page.value in PageOptions
    ensures Truthy(o.theme) && theme.None? ==> r == Err(InvalidTheme(ToStr(o.theme)))
    ensures Truthy(o.firstPage) && page.None? ==>
      r.Err? && (r.error.InvalidTheme? || r.error == InvalidPage(ToStr(o.firstPage)))
    ensures r.Err? && r.error.DirectoryExists? ==> r.error.dir in existing
    ensures r.Ok? ==> r.value.targetDir.Str? && r.value.targetDir.s != [] && r.value.targetDir.s !in existing
    ensures r.Ok? && r.value.theme.Str? ==> r.value.theme.s in ThemeOptions
    ensures r.Ok? && r.value.firstPage.Str? ==> r.value.firstPage.s in PageOptions
    ensures r.Ok? && Truthy(o.theme) ==> r.value.theme == OptStr(theme)
    ensures r.Ok? && Truthy(o.firstPage) ==> r.value.firstPage == OptStr(page)
  {
    if Truthy(o.theme) && theme.None? then Err(InvalidTheme(ToStr(o.theme)))
    else if Truthy(o.firstPage) && page.None? then Err(InvalidPage(ToStr(o.firstPage)))
    else
      var s := if o.unattended then UnattendedSettings(o, theme, page) else InteractiveSettings(o, a, theme, page);
      CheckTarget(s, existing)
  }

  /** The target directory must be text (`path.resolve` throws otherwise) and must not exist. */
  function CheckTarget(s: Settings, existing: set<string>): (r: Result<Settings, CliError>)
    ensures r.Ok? <==> s.targetDir.Str? && s.targetDir.s !in existing
    ensures r.Ok? ==> r.value == s
    ensures r.Err? ==> r.error == (if s.targetDir.Str? then DirectoryExists(s.targetDir.s) else TargetDirNotText)
  {
    match s.targetDir
    case Str(d) => if d in existing then Err(DirectoryExists(d)) else Ok(s)
    case _ => Err(TargetDirNotText)
  }

  /* ---------------------------------------------------------------- */
  /* Properties of the resolution                                     */
  /* ---------------------------------------------------------------- */

  /** Every prompt was answered with a blank line. */
  predicate BlankAnswers(a: Answers) {
    Trim(a.name) == "" && Trim(a.dir) == "" && Trim(a.appId) == "" && Trim(a.accent) == ""
    && Trim(a.description) == "" && a.theme == None && Trim(a.icon) == "" && a.page == None
  }

  /** A blank answer to a prompt whose default is set keeps the default. */
  lemma BlankKeepsDefault(answer: string, def: JsValue)
    requires Trim(answer) == "" && Truthy(def)
    ensures Question(answer, def) == def
  {
  }

  /** Blank answers at the menus select `auto` and `single page`. */
  lemma BlankMenus()
    ensures PickTheme(None) == Some("auto") && PickPage(None) == Some("single page")
  {
    PickDefault(ThemeOptions, ThemeDefaultIndex);
    PickDefault(PageOptions, PageDefaultIndex);
  }

  /**
   * Pressing Enter at every prompt gives the settings of an unattended
   * run: the prompts offer exactly the defaults `--yes` would use.
   */
  lemma BlankAnswersMatchUnattended(o: CreateOptions, a: Answers, existing: set<string>)
    requires BlankAnswers(a)
    ensures ResolveCreateApp(o.(unattended := false), a, existing) == ResolveCreateApp(o.(unattended := true), a, existing)
  {
    var oi, ou := o.(unattended := false), o.(unattended := true);
    var theme, page := ProvidedTheme(o.theme), ProvidedPage(o.firstPage);
    assert oi.theme == ou.theme == o.theme && oi.firstPage == ou.firstPage == o.firstPage;
    BlankResolve(o, a, existing, theme, page);
  }

  lemma BlankResolve(o: CreateOptions, a: Answers, existing: set<string>, theme: Option<string>, page: Option<string>)
    requires BlankAnswers(a)
    requires theme.Some? ==> theme.value in ThemeOptions
    requires page.Some? ==> page.value in PageOptions
    requires Truthy(o.theme) || theme.None?
    requires Truthy(o.firstPage) || page.None?
    ensures ResolveWith(o.(unattended := false), a, existing, theme, page) == ResolveWith(o.(unattended := true), a, existing, theme, page)
  {
    if !(Truthy(o.theme) && theme.None?) && !(Truthy(o.firstPage) && page.None?) {
      BlankSettings(o, a, theme, page);
      IgnoresUnattended(o, a, theme, page);
    }
  }

  lemma IgnoresUnattended(o: CreateOptions, a: Answers, theme: Option<string>, page: Option<string>)
    requires theme.Some? ==> theme.value in ThemeOptions
    requires page.Some? ==> page.value in PageOptions
    ensures InteractiveSettings(o.(unattended := false), a, theme, page) == InteractiveSettings(o, a, theme, page)
    ensures UnattendedSettings(o.(unattended := true), theme, page) == UnattendedSettings(o, theme, page)
  {
  }

  /** With blank answers every prompt keeps the default it offered. */
  lemma BlankSettings(o: CreateOptions, a: Answers, theme: Option<string>, page: Option<string>)
    requires BlankAnswers(a)
    requires theme.Some? ==> theme.value in ThemeOptions
    requires page.Some? ==> page.value in PageOptions
    requires Truthy(o.theme) <==> theme.Some?
    requires Truthy(o.firstPage) <==> page.Some?
    ensures InteractiveSettings(o, a, theme, page) == UnattendedSettings(o, theme, page)
  {
    BlankAppName(o, a, theme, page);
    BlankTargetDir(o, a, theme, page);
    BlankAppId(o, a, theme, page);
    BlankAccent(o, a, theme, page);
    BlankDescription(o, a, theme, page);
    BlankIcon(o, a, theme, page);
    BlankTheme(o, a, theme, page);
    BlankPage(o, a, theme, page);
  }

  lemma BlankAppName(o: CreateOptions, a: Answers, theme: Option<string>, page: Option<string>)
    requires theme.Some? ==> theme.value in ThemeOptions
    requires page.Some? ==> page.value in PageOptions
    requires Trim(a.name) == ""
    ensures InteractiveSettings(o, a, theme, page).appName == BaseName(o)
  {
    BlankName(o, a);
  }

  lemma BlankName(o: CreateOptions, a: Answers)
    requires Trim(a.name) == ""
    ensures TypedName(o, a) == BaseName(o)
  {
    BlankKeepsDefault(a.name, BaseName(o));
  }

  lemma BlankTargetDir(o: CreateOptions, a: Answers, theme: Option<string>, page: Option<string>)
    requires theme.Some? ==> theme.value in ThemeOptions
    requires page.Some? ==> page.value in PageOptions
    requires Trim(a.name) == "" && Trim(a.dir) == ""
    ensures InteractiveSettings(o, a, theme, page).targetDir == UnattendedSettings(o, theme, page).targetDir
  {
    BlankName(o, a);
    BlankKeepsDefault(a.dir, Str(Slugify(BaseName(o))));
  }

  lemma BlankAppId(o: CreateOptions, a: Answers, theme: Option<string>, page: Option<string>)
    requires theme.Some? ==> theme.value in ThemeOptions
    requires page.Some? ==> page.value in PageOptions
    requires Trim(a.name) == "" && Trim(a.appId) == ""
    ensures InteractiveSettings(o, a, theme, page).appId == UnattendedSettings(o, theme, page).appId
  {
    BlankName(o, a);
    BlankKeepsDefault(a.appId, Or(o.appId, Str(AppIdPrefix + Slugify(BaseName(o)))));
  }

  lemma BlankAccent(o: CreateOptions, a: Answers, theme: Option<string>, page: Option<string>)
    requires theme.Some? ==> theme.value in ThemeOptions
    requires page.Some? ==> page.value in PageOptions
    requires Trim(a.accent) == ""
    ensures InteractiveSettings(o, a, theme, page).accent == UnattendedSettings(o, theme, page).accent
  {
    BlankKeepsDefault(a.accent, Or(o.accent, Str(DefaultAccent)));
  }

  lemma BlankDescription(o: CreateOptions, a: Answers, theme: Option<string>, page: Option<string>)
    requires theme.Some? ==> theme.value in ThemeOptions
    requires page.Some? ==> page.value in PageOptions
    requires Trim(a.description) == ""
    ensures InteractiveSettings(o, a, theme, page).description == UnattendedSettings(o, theme, page).description
  {
    BlankKeepsDefault(a.description, Or(o.description, Str(DefaultDescription)));
  }

  lemma BlankIcon(o: CreateOptions, a: Answers, theme: Option<string>, page: Option<string>)
    requires theme.Some? ==> theme.value in ThemeOptions
    requires page.Some? ==> page.value in PageOptions
    requires Trim(a.icon) == ""
    ensures InteractiveSettings(o, a, theme, page).iconPath == UnattendedSettings(o, theme, page).iconPath
  {
  }

  lemma BlankTheme(o: CreateOptions, a: Answers, theme: Option<string>, page: Option<string>)
    requires theme.Some? ==> theme.value in ThemeOptions
    requires page.Some? ==> page.value in PageOptions
    requires a.theme == None && (Truthy(o.theme) <==> theme.Some?)
    ensures InteractiveSettings(o, a, theme, page).theme == UnattendedSettings(o, theme, page).theme
  {
    BlankMenus();
  }

  lemma BlankPage(o: CreateOptions, a: Answers, theme: Option<string>, page: Option<string>)
    requires theme.Some? ==> theme.value in ThemeOptions
    requires page.Some? ==> page.value in PageOptions
    requires a.page == None && (Truthy(o.firstPage) <==> page.Some?)
    ensures InteractiveSettings(o, a, theme, page).firstPage == UnattendedSettings(o, theme, page).firstPage
  {
    BlankMenus();
  }

  /** Nothing but the options was given: `--yes` and nothing else that `createApp` reads. */
  predicate OnlyYes(o: CreateOptions) {
    o.unattended && !Truthy(o.targetDir) && !Truthy(o.appId) && !Truthy(o.accent) && !Truthy(o.description)
    && !Truthy(o.theme) && !Truthy(o.iconPath) && !Truthy(o.firstPage)
  }

  /**
   * The defaults of an unattended run: the name (`Disco App` when none is
   * given), its slug as directory, `com.disco.<slug>` as app id, accent
   * `#D80073`, theme `auto`, template `single page`, no icon.
   */
  lemma UnattendedDefaults(o: CreateOptions, a: Answers, existing: set<string>)
    requires OnlyYes(o)
    ensures var name := if Truthy(o.appName) then o.appName else Str(DefaultName);
      var slug := Slugify(name);
      IsSlug(slug) &&
      ResolveCreateApp(o, a, existing) ==
        if slug in existing then Err(DirectoryExists(slug))
        else Ok(Settings(name, Str(slug), Str(AppIdPrefix + slug), Str(DefaultAccent),
          Str(DefaultDescription), Str("auto"), Str(""), Str("single page")))
  {
    SlugifyIsSlug(BaseName(o));
  }

  /**
   * In an interactive run the name typed at the first prompt, not the
   * `--name` option, is what the directory and app id defaults are made
   * from.
   */
  lemma TypedNameDrivesDefaults(o: CreateOptions, a: Answers, theme: Option<string>, page: Option<string>)
    requires theme.Some? ==> theme.value in ThemeOptions
    requires page.Some? ==> page.value in PageOptions
    requires Trim(a.name) != "" && Trim(a.dir) == "" && Trim(a.appId) == ""
    requires !Truthy(o.targetDir) && !Truthy(o.appId)
    ensures var slug := Slugify(Str(Trim(a.name)));
      var s := InteractiveSettings(o, a, theme, page);
      s.appName == Str(Trim(a.name)) && s.targetDir == Str(slug) && s.appId == Str(AppIdPrefix + slug)
  {
    var slug := Slugify(Str(Trim(a.name)));
    BlankKeepsDefault(a.dir, Str(slug));
    BlankKeepsDefault(a.appId, Str(AppIdPrefix + slug));
  }

  /* ---------------------------------------------------------------- */
  /* main                                                             */
  /* ---------------------------------------------------------------- */

  /** What a run of `dui` does. */
  datatype Outcome =
    | Usage
    | CreateAppUsage
    | Created(options: CreateOptions, settings: Settings)
    | Exit(error: CliError)

  /** The commands that print the general usage. */
  const HelpCommands: set<string> := {"", "help", "--help", "-h"}

  /** The options object for `dui create-app <tail>`. */
  function ParsedOptions(tail: seq<string>): CreateOptions {
    OptionsOf(ParseFrom(tail, Empty))
  }

  /**
   * `main()` given `process.argv.slice(2)`, the prompts' answers and the
   * directories that already exist.
   */
  function RunCli(args: seq<string>, a: Answers, existing: set<string>): (r: Outcome)
    ensures r == Usage <==> args == [] || args[0] in HelpCommands
    ensures r.Exit? && r.error.UnknownCommand? <==>
      args != [] && args[0] !in HelpCommands && args[0] != "create-app"
    ensures r.Created? ==> r.settings.targetDir.Str? && r.settings.targetDir.s !in existing
  {
    if args == [] || args[0] in HelpCommands then Usage
    else if args[0] == "create-app" then CreateAppCommand(args[1..], a, existing)
    else Exit(UnknownCommand(args[0]))
  }

  /** `dui create-app <tail>`: its usage on `--help`, else `createApp` on the parsed options. */
  function CreateAppCommand(tail: seq<string>, a: Answers, existing: set<string>): (r: Outcome)
    ensures r != Usage && !(r.Exit? && r.error.UnknownCommand?)
    ensures r == CreateAppUsage <==> Truthy(ParseFrom(tail, Empty).Get("help"))
    ensures r.Created? ==> r.options == ParsedOptions(tail) && ResolveCreateApp(r.options, a, existing) == Ok(r.settings)
    ensures r.Exit? ==> ResolveCreateApp(ParsedOptions(tail), a, existing) == Err(r.error)
  {
    var parsed := ParseFrom(tail, Empty);
    if Truthy(parsed.Get("help")) then CreateAppUsage
    else
      var o := OptionsOf(parsed);
      match ResolveCreateApp(o, a, existing)
      case Ok(s) => Created(o, s)
      case Err(e) => Exit(e)
  }

  /** `dui create-app -t <theme>` with a theme outside the list stops with status 1. */
  lemma InvalidThemeExits(t: string, a: Answers, existing: set<string>)
    requires t != "" && NormalizeTheme(Str(t)).None?
    ensures RunCli(["create-app", "-t", t], a, existing) == Exit(InvalidTheme(t))
  {
    assert ["create-app", "-t", t] == ["create-app"] + ["-t", t];
    var parsed := ThemeParsed(t);
    var o := OptionsOf(parsed);
    assert parsed.Get("help") == Undefined;
    assert o.theme == Str(t);
    assert ResolveCreateApp(o, a, existing) == Err(InvalidTheme(t));
    assert CreateAppCommand(["-t", t], a, existing) == Exit(InvalidTheme(t));
    RunCreateApp(["-t", t], a, existing);
  }

  lemma RunCreateApp(tail: seq<string>, a: Answers, existing: set<string>)
    ensures RunCli(["create-app"] + tail, a, existing) == CreateAppCommand(tail, a, existing)
  {
    var args := ["create-app"] + tail;
    assert args[0] == "create-app" && args[1..] == tail;
    assert args[0] !in HelpCommands;
  }

  lemma ThemeParsed(t: string) returns (parsed: Parsed)
    ensures parsed == ParseFrom(["-t", t], Empty) == Empty.Set("theme", Str(t))
  {
    ShortTakesAnyValue("-t", t, [], Empty);
    assert ["-t", t] + [] == ["-t", t];
    parsed := Empty.Set("theme", Str(t));
  }

  /** Signing is on unless some argument is `--no-signing`. */
  lemma SigningDefaultOn(tail: seq<string>)
    requires forall i :: 0 <= i < |tail| ==> !TurnsSigningOff(tail[i])
    ensures ParsedOptions(tail).signing
  {
    SigningStaysOn(tail, Empty);
  }

  /**
   * Arguments without dashes: the first one is the target directory, the
   * run is interactive and signing is on.
   */
  lemma PositionalDirectory(tail: seq<string>)
    requires tail != []
    requires forall i :: 0 <= i < |tail| ==> !StartsWith(tail[i], "-")
    ensures ParsedOptions(tail).targetDir == Str(tail[0])
    ensures !ParsedOptions(tail).unattended && ParsedOptions(tail).signing
  {
    PlainArgumentsArePositional(tail, Empty);
  }

  /** `-d <dir>` wins over a positional directory. */
  lemma DirOptionBeatsPositional(d: string, tail: seq<string>)
    requires d != ""
    requires forall i :: 0 <= i < |tail| ==> !StartsWith(tail[i], "-")
    ensures ParsedOptions(["-d", d] + tail).targetDir == Str(d)
  {
    ShortTakesAnyValue("-d", d, tail, Empty);
    PlainArgumentsArePositional(tail, Empty.Set("dir", Str(d)));
  }

  /**
   * `--yes <word>` takes the word as the value of `yes`: the run is
   * unattended, but the word is not the target directory.
   */
  lemma LongYesSwallowsDirectory(d: string)
    requires d != "" && !StartsWith(d, "-")
    ensures ParsedOptions(["--yes", d]).unattended
    ensures ParsedOptions(["--yes", d]).targetDir == Undefined
  {
    var parsed := LongYesParsed(d);
    assert parsed.positional == [] && parsed.Get("dir") == Undefined;
  }

  lemma LongYesParsed(d: string) returns (parsed: Parsed)
    requires !StartsWith(d, "-")
    ensures parsed == ParseFrom(["--yes", d], Empty) == Empty.Set("yes", Str(d))
  {
    var k := YesKey();
    LongNextValue(k, d, [], Empty);
    assert ["--" + k, d] + [] == ["--yes", d];
    parsed := Empty.Set(k, Str(d));
  }

  lemma YesKey() returns (k: string)
    ensures k == "yes" && "--" + k == "--yes"
    ensures PlainKey(k) && k != [] && k != "signing" && k != "no-signing"
  {
    k := "yes";
    TrimNoSpaceEnds(k);
  }

  /** `-y <word>` sets `yes` alone, and the word is the target directory. */
  lemma ShortYesKeepsDirectory(d: string)
    requires !StartsWith(d, "-")
    ensures ParsedOptions(["-y", d]).unattended
    ensures ParsedOptions(["-y", d]).targetDir == Str(d)
  {
    var rest := ["-y", d];
    assert ShortStep(rest, Empty) == Next(1, Empty.Set("yes", Bool(true)));
    ParseFromStep(rest, Empty);
    assert rest[1..] == [d];
    PlainArgumentsArePositional([d], Empty.Set("yes", Bool(true)));
  }

  /**
   * The process's exit status, where the modelled part decides it: 0
   * after a usage text, 1 after `process.exit(1)`. For a created app the
   * status is decided later, by the installation steps this model leaves
   * out (they can still exit with 1), so it is `None`.
   */
  function ExitStatus(r: Outcome): (code: Option<int>)
    ensures code == Some(1) <==> r.Exit?
    ensures code.None? <==> r.Created?
    ensures code.Some? ==> code.value == 0 || code.value == 1
  {
    match r
    case Usage => Some(0)
    case CreateAppUsage => Some(0)
    case Exit(_) => Some(1)
    case Created(_, _) => None
  }

  /**
   * `dui create-app` without `--help` stops with status 1 exactly when
   * `createApp` rejects its options (a bad theme or page, a target that
   * is not text or already exists); otherwise the run goes on past the
   * modelled part.
   */
  lemma CreateAppStatus(tail: seq<string>, a: Answers, existing: set<string>)
    requires !Truthy(ParseFrom(tail, Empty).Get("help"))
    ensures ExitStatus(RunCli(["create-app"] + tail, a, existing)) == Some(1)
      <==> ResolveCreateApp(ParsedOptions(tail), a, existing).Err?
    ensures ExitStatus(RunCli(["create-app"] + tail, a, existing)).None?
      <==> ResolveCreateApp(ParsedOptions(tail), a, existing).Ok?
  {
    RunCreateApp(tail, a, existing);
  }

  /** `dui create-app -t <not a theme>` exits with status 1. */
  lemma InvalidThemeStatus(t: string, a: Answers, existing: set<string>)
    requires t != "" && NormalizeTheme(Str(t)).None?
    ensures ExitStatus(RunCli(["create-app", "-t", t], a, existing)) == Some(1)
  {
    InvalidThemeExits(t, a, existing);
  }

  /** `dui create-app -p <not a template>` stops with an invalid-page error and status 1. */
  lemma InvalidPageExits(pg: string, a: Answers, existing: set<string>)
    requires pg != "" && NormalizePage(Str(pg)).None?
    ensures RunCli(["create-app", "-p", pg], a, existing) == Exit(InvalidPage(pg))
    ensures ExitStatus(RunCli(["create-app", "-p", pg], a, existing)) == Some(1)
  {
    assert ["create-app", "-p", pg] == ["create-app"] + ["-p", pg];
    var parsed := PageParsed(pg);
    PageRejected(pg, a, existing);
    assert parsed.Get("help") == Undefined;
    assert CreateAppCommand(["-p", pg], a, existing) == Exit(InvalidPage(pg));
    RunCreateApp(["-p", pg], a, existing);
  }

  lemma PageParsed(pg: string) returns (parsed: Parsed)
    ensures parsed == ParseFrom(["-p", pg], Empty) == Empty.Set("page", Str(pg))
  {
    ShortTakesAnyValue("-p", pg, [], Empty);
    assert ["-p", pg] + [] == ["-p", pg];
    parsed := Empty.Set("page", Str(pg));
  }

  lemma PageRejected(pg: string, a: Answers, existing: set<string>)
    requires pg != "" && NormalizePage(Str(pg)).None?
    ensures ResolveCreateApp(OptionsOf(Empty.Set("page", Str(pg))), a, existing) == Err(InvalidPage(pg))
  {
    var o := OptionsOf(Empty.Set("page", Str(pg)));
    assert o.theme == Undefined && o.firstPage == Str(pg);
  }

  /** `dui create-app -y <dir>` with a directory that already exists stops with status 1. */
  lemma ExistingTargetExits(d: string, a: Answers, existing: set<string>)
    requires d != "" && !StartsWith(d, "-") && d in existing
    ensures RunCli(["create-app", "-y", d], a, existing) == Exit(DirectoryExists(d))
    ensures ExitStatus(RunCli(["create-app", "-y", d], a, existing)) == Some(1)
  {
    assert ["create-app", "-y", d] == ["create-app"] + ["-y", d];
    var parsed := YesDirParsed(d);
    YesDirRejected(d, a, existing);
    assert parsed.Get("help") == Undefined;
    assert CreateAppCommand(["-y", d], a, existing) == Exit(DirectoryExists(d));
    RunCreateApp(["-y", d], a, existing);
  }

  lemma YesDirParsed(d: string) returns (parsed: Parsed)
    requires !StartsWith(d, "-")
    ensures parsed == ParseFrom(["-y", d], Empty) == Parsed([d], map["yes" := Bool(true)])
  {
    var rest := ["-y", d];
    var yes := Empty.Set("yes", Bool(true));
    assert ShortStep(rest, Empty) == Next(1, yes);
    ParseFromStep(rest, Empty);
    assert rest[1..] == [d];
    PlainArgumentsArePositional([d], yes);
    parsed := Parsed([d], map["yes" := Bool(true)]);
  }

  lemma YesDirRejected(d: string, a: Answers, existing: set<string>)
    requires d != "" && d in existing
    ensures ResolveCreateApp(OptionsOf(Parsed([d], map["yes" := Bool(true)])), a, existing) == Err(DirectoryExists(d))
  {
    var o := OptionsOf(Parsed([d], map["yes" := Bool(true)]));
    assert o.unattended && o.targetDir == Str(d) && o.theme == Undefined && o.firstPage == Undefined;
  }

  /** `dui create-app --no-signing` turns signing off. */
  lemma NoSigningOption()
    ensures !ParsedOptions(["--no-signing"]).signing
  {
    NoSigningTurnsOff([], Empty);
    assert ["--no-signing"] + [] == ["--no-signing"];
    var q := Empty.Set("signing", Bool(false));
    assert ParseFrom([], q) == q;
  }

  /* ---------------------------------------------------------------- */
  /* createReadme                                                     */
  /* ---------------------------------------------------------------- */

  /** The README's title, description and package summary. */
  function ReadmeHeader(s: Settings): (lines: seq<string>)
    ensures |lines| == 10
    ensures lines[0] == "# " + ToStr(s.appName) && lines[2] == ToStr(s.description)
    ensures lines[6] == "- App Id: " + ToStr(s.appId) && lines[7] == "- Theme: " + ToStr(s.theme)
    ensures lines[8] == "- Accent: " + ToStr(s.accent) && lines[9] == "- Template: " + ToStr(s.firstPage)
  {
    [ "# " + ToStr(s.appName),
      "",
      ToStr(s.description),
      "",
      "## Package",
      "",
      "- App Id: " + ToStr(s.appId),
      "- Theme: " + ToStr(s.theme),
      "- Accent: " + ToStr(s.accent),
      "- Template: " + ToStr(s.firstPage) ]
  }

  /** The fixed instructions that follow the header. */
  const ReadmeBody: seq<string> := [
    "",
    "## Quick Start",
    "",
    "```bash",
    "npm install",
    "npm run start",
    "```",
    "",
    "## Build",
    "",
    "```bash",
    "npm run build",
    "npx cap sync android",
    "```",
    "",
    "## Android Signing",
    "",
    "If you enabled signing, your keystore lives in `android/keystore` and is ignored by git.",
    "Keep it safe and provide secrets in CI before building a release APK." ]

  /** The section added for `--apk-action`. */
  const ApkReadme: seq<string> := [
    "",
    "## GitHub Actions",
    "",
    "The workflow expects these secrets:",
    "",
    "- ANDROID_KEYSTORE_BASE64",
    "- ANDROID_KEYSTORE_PASSWORD",
    "- ANDROID_KEY_ALIAS",
    "- ANDROID_KEY_PASSWORD",
    "",
    "To generate the base64 value:",
    "",
    "```bash",
    "base64 -i android/keystore/release.keystore | pbcopy",
    "```" ]

  /** The README's lines. */
  function ReadmeLines(s: Settings, apkAction: bool): (lines: seq<string>)
    ensures |lines| == if apkAction then 44 else 29
    ensures lines[0] == "# " + ToStr(s.appName) && lines[2] == ToStr(s.description)
    ensures lines[6] == "- App Id: " + ToStr(s.appId) && lines[7] == "- Theme: " + ToStr(s.theme)
    ensures lines[8] == "- Accent: " + ToStr(s.accent) && lines[9] == "- Template: " + ToStr(s.firstPage)
    ensures lines[..10] == ReadmeHeader(s) && lines[10..29] == ReadmeBody
    ensures apkAction ==> lines[29..] == ApkReadme
  {
    var base := ReadmeHeader(s) + ReadmeBody;
    if apkAction then base + ApkReadme else base
  }

  /** `createReadme(...)`: the lines joined by newlines, with a final newline. */
  method CreateReadme(s: Settings, apkAction: bool) returns (text: string)
    ensures text == Join(ReadmeLines(s, apkAction), '\n') + "\n"
  {
    var lines := ReadmeHeader(s) + ReadmeBody;
    if apkAction {
      lines := lines + ApkReadme;
    }
    text := Join(lines, '\n') + "\n";
  }
}
