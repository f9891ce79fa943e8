# DiscoUI Capacitor, modelled in Dafny

DiscoUI Capacitor packages the DiscoUI web toolkit for Capacitor apps. It has four parts:

- a `dui` command-line tool, whose `create-app` command scaffolds a new app (`scripts/dui.js`);
- `DiscoCapacitorApp`, a DiscoUI app that syncs the native status and navigation bars, the splash screen and the back button with the web app (`src/app.js`);
- the plugin's web implementation, which bootstraps an app in a plain browser (`src/web.js`);
- a Vite plugin that finds the installed `discoui` package and links its stylesheet into `index.html` (`src/vite.js`), plus a build script that embeds the stylesheet in a JavaScript module (`scripts/embed-css.js`).

Modules:

| module | file | models |
|---|---|---|
| `Js` | `js.dfy` | `undefined`/value options, results with an error path, the string and boolean values `parseArgs` stores, truthiness and `String()` |
| `Text` | `text.dfy` | the string built-ins the sources use: `trim`, ASCII `toLowerCase`, `indexOf`/`includes`, run-collapsing `replace`, `join`/`split`, and the `$` patterns of a `replace` replacement string |
| `CliText` | `cli_text.dfy` | `slugify`, `normalizeTheme`, `normalizePage`, `question`, `pick` |
| `CliArgs` | `cli_args.dfy` | `parseArgs`: the loop as a method, proved against a recursive specification |
| `CreateApp` | `create_app.dfy` | `main`'s options object, `createApp`'s validation and defaults up to the target-directory check, `createReadme` |
| `AppConfig` | `config.dfy` | configurations as JSON values, `loadConfig`, `mergeConfigs` (app.js) and `mergeConfig` (web.js) |
| `CapacitorApp` | `capacitor_app.dfy` | the `DiscoCapacitorApp` class: its fields, and every request to the native bridge recorded in a call log |
| `WebPlugin` | `web_plugin.dfy` | `ensurePreloadCss` on a `Document` class, `resolveDiscoAppConstructor`, `DiscoUIWeb.initialize` on a `Window` class |
| `VitePlugin` | `vite_plugin.dfy` | `findDiscoUIRoot`, the package lookup of `buildStart`, `transformIndexHtml` (as written and corrected) |
| `EmbedCss` | `embed_css.dfy` | the escaping chain, the generated module, and reading the template literal back |

The following are parameters of the model:

- the prompts' answers;
- the directories and files that exist;
- what `fetch` answers;
- which modules `import()` can load;
- which bridge requests fail;
- what the system colour scheme is;
- what the frame's `canGoBack()` answers.

## Model

| member | source | states |
|---|---|---|
| Js.ToStr | scripts/dui.js:82 | `String(v)` gives a string as itself and `true` as `"true"` |
| Js.TextOr | scripts/dui.js:31 | the text of a logical or with a fallback: a truthy value's text, otherwise the fallback |
| Text.Trim | scripts/dui.js:32 | the trimmed text neither starts nor ends with whitespace |
| Text.TrimSlice | scripts/dui.js:32 | the trimmed text is a slice of the input, and only whitespace is cut from either end |
| Text.TrimNoSpaceEnds | scripts/dui.js:32 | a text that neither starts nor ends with whitespace is its own trim |
| Text.Lower | scripts/dui.js:33 | `toLowerCase()` keeps the length and maps each character through its ASCII lower case |
| Text.CollapseRuns | scripts/dui.js:34 | `replace(/[class]+/g, c)`: every maximal run of class characters becomes one `c`, everything else is kept in order; the result is never longer than the input |
| Text.CollapseRunsKeeps | scripts/dui.js:34 | no character outside the class is lost, and a text with a class character keeps `c` |
| Text.CollapseRunsShape | scripts/dui.js:34 | after `replace(/[class]+/g, c)` each character is `c` or an input character outside the class; when `c` is in the class, no two class characters are adjacent |
| Text.CollapseRunsFixpoint | scripts/dui.js:92-93 | a text with no run of two class characters, and no class characters except `c`, is left unchanged |
| Text.CollapseRunsAppend | scripts/dui.js:34 | collapsing works piece by piece except at the seam between the pieces |
| Text.IndexOf | src/vite.js:64 | `indexOf` returns the first position where the pattern occurs, or none exactly when it occurs nowhere |
| Text.MissingCharNotContained | src/vite.js:64 | a text missing one of the pattern's characters does not include the pattern |
| Text.TakeUntil | scripts/dui.js:116 | the first piece of `split('=')`: the longest prefix without the separator |
| Text.AfterFirst | scripts/dui.js:116 | the text after the first separator, present exactly when the separator occurs |
| Text.SplitJoin | scripts/dui.js:322 | splitting a newline-joined list of newline-free lines gives back the lines |
| Text.Expand | src/vite.js:65 | the text `replace` inserts for a string replacement (GetSubstitution): `$$`, `$&`, `` $` `` and `$'` are expanded and any other character stands; a replacement of at most one character, a lone `$` included, stands as it is |
| Text.ExpandWithoutDollar | src/vite.js:65 | a replacement string without `$` is inserted by `replace` as written |
| Text.ExpandPrefix | src/vite.js:65 | a `$`-free head of a replacement string is copied as written |
| Text.ExpandQuote | src/vite.js:65 | a `$'` in a replacement string becomes the text after the match |
| CliText.Slugify | scripts/dui.js:30-35 | `slugify` never returns the empty string |
| CliText.SlugifyIsSlug | scripts/dui.js:30-35 | the result uses only `[a-z0-9-]`; it has no leading or trailing `-` and no `--` |
| CliText.SlugifyKeepsLettersAndDigits | scripts/dui.js:30-35 | the result keeps the lower-cased input's letters and digits in order; it is `disco-app` exactly when the input has none |
| CliText.SlugifyFixpoint | scripts/dui.js:30-35 | a well-formed slug is its own slug |
| CliText.SlugifyIdempotent | scripts/dui.js:30-35 | `slugify(slugify(x)) == slugify(x)` |
| CliText.SlugBodyKeepsSlugChars | scripts/dui.js:31-35 | trimming, collapsing and stripping hyphens keep exactly the letters and digits |
| CliText.CollapseKeepsSlugChars | scripts/dui.js:34 | collapsing runs of other characters into `-` keeps every letter and digit |
| CliText.StripGivesSlug | scripts/dui.js:35 | stripping the hyphens at both ends of the collapsed text gives a slug or nothing |
| CliText.NormalizeTheme | scripts/dui.js:80-84 | the result is null or one of `auto`, `dark` and `light` |
| CliText.NormalizeThemeInsensitive | scripts/dui.js:82 | a theme name is recognised regardless of case and surrounding whitespace |
| CliText.NormalizeThemeCanonical | scripts/dui.js:80-84 | each listed theme maps to itself, so normalising twice changes nothing |
| CliText.PlusToSpace | scripts/dui.js:91 | every `+` becomes a space; everything else is unchanged |
| CliText.NormalizePage | scripts/dui.js:86-101 | the result is null or one of the page templates |
| CliText.CleanPageHasNoPlus | scripts/dui.js:91-95 | the cleaned text never holds `+`, so the `+` spelling compared at line 95 can never match |
| CliText.CleanJoinsWords | scripts/dui.js:88-93 | any non-empty run of spaces, `+`, `-` and `_` between two template words becomes one space |
| CliText.NormalizeTemplate | scripts/dui.js:86-101 | each page template, including `single page + list view`, maps to itself |
| CliText.NormalizeWordText | scripts/dui.js:99-100 | lower-case word text other than the list-view spellings is accepted exactly when it names a template |
| CliText.NormalizePageCanonical | scripts/dui.js:86-101 | normalising an accepted page again changes nothing |
| CliText.NormalizePageSeparators | scripts/dui.js:88-97 | `single-page`, `single_page + list view` and the like name the two-word templates |
| CliText.Question | scripts/dui.js:60-67 | the answer is the trimmed input, else the default when the input is blank, else `''`; a truthy default gives a truthy answer |
| CliText.Pick | scripts/dui.js:69-78 | the selection is one of the options, or nothing for a `NaN` index |
| CliText.PickClamps | scripts/dui.js:76-77 | answer `n` selects index `min(len-1, max(0, n-1))`: in range it is entry `n`, below range the first entry, above range the last |
| CliText.PickDefault | scripts/dui.js:75-77 | a blank answer selects the default entry; `NaN` selects nothing |
| CliText.PickFraction | scripts/dui.js:76-77 | a fractional answer selects no entry |
| CliArgs.Parsed.Set | scripts/dui.js:126-130 | setting any key other than `_` changes that key only and keeps the positional list |
| CliArgs.Parsed.Push | scripts/dui.js:204 | pushing appends to the positional list and keeps the keys |
| CliArgs.LongValue | scripts/dui.js:116 | the inline value exists exactly when the option has an `=`, and it holds no `=` |
| CliArgs.ShortValueKey | scripts/dui.js:140-184 | the value-taking short flags map to long keys |
| CliArgs.Step | scripts/dui.js:107-206 | each turn of the loop consumes at least one argument and at most what is left, only appends to `_` and keeps every key already set |
| CliArgs.ParseFrom | scripts/dui.js:106-209 | the loop from a given point on, stopping at `--` after pushing the rest; it only ever appends to `_` and never unsets a key |
| CliArgs.ParseArgs | scripts/dui.js:103-209 | the loop computes the recursive specification `ParseFrom(args, {_: []})`, for arguments that never name the key `_` |
| CliArgs.DoubleDashRest | scripts/dui.js:110-113 | after `--` every argument is positional, verbatim, and parsing stops |
| CliArgs.LongInlineValue | scripts/dui.js:116-130 | `--key=a=b` sets `key` to `a` |
| CliArgs.LongNextValue | scripts/dui.js:120-130 | `--key value` takes the next argument when it does not start with `-` |
| CliArgs.LongBareFlag | scripts/dui.js:120-130 | `--key` followed by a `-` argument, or by nothing, sets `key` to true |
| CliArgs.SigningSwallowsNext | scripts/dui.js:120-126 | `--signing foo` sets signing to true and discards `foo` |
| CliArgs.ShortMatchesLong | scripts/dui.js:140-184 | `-n`, `-d`, `-i`, `-a`, `-t`, `-I`, `-p`, `-D` and `-o` with a value set the same key as their long forms |
| CliArgs.ShortTakesAnyValue | scripts/dui.js:140-184 | a value-taking short flag takes the next argument even when it starts with `-` |
| CliArgs.PlainArgumentsArePositional | scripts/dui.js:204-205 | when no argument starts with `-`, all of them are positional, in their original order |
| CliArgs.PositionalIndices | scripts/dui.js:103-209 | the places of the positional arguments are strictly increasing, and each holds an argument that does not start with `-` (or is `-`), or comes after `--` |
| CliArgs.StepPositional | scripts/dui.js:115-205 | one turn consumes the option, its value if it takes one, or the one plain argument, and only a plain argument is pushed |
| CliArgs.ParseFromPositional | scripts/dui.js:103-209 | from any position on, parsing appends exactly the arguments at the positional places, in their original order |
| CliArgs.PositionalOrder | scripts/dui.js:103-209 | `_` is exactly the arguments at the positional places, each once and in the original order: plain arguments not taken as an option's value, then everything after `--` |
| CliArgs.NoSigningTurnsOff | scripts/dui.js:120-128 | `--no-signing` followed by an option, or by nothing, sets signing to false |
| CliArgs.NoSigningSwallowsNext | scripts/dui.js:120-128 | `--no-signing foo` sets signing to false and discards `foo` |
| CliArgs.ShortSigning | scripts/dui.js:185-189 | `-s` sets signing to true and takes no value |
| CliArgs.SigningStaysOn | scripts/dui.js:125-189 | signing is never `false` unless some argument is `--no-signing` |
| CreateApp.UnattendedSettings | scripts/dui.js:512-558 | an unattended run always has a target directory, and its theme and page come from the lists |
| CreateApp.PickTheme | scripts/dui.js:535-536 | the Theme menu selects one of the themes |
| CreateApp.PickPage | scripts/dui.js:546-547 | the First page template menu selects one of the templates |
| CreateApp.ThemeChoice | scripts/dui.js:532-537 | the theme is the validated option or a menu selection |
| CreateApp.PageChoice | scripts/dui.js:543-548 | the page template is the validated option or a menu selection |
| CreateApp.DirectoryOf | scripts/dui.js:526-527 | the directory prompt always gives a directory |
| CreateApp.TypedName | scripts/dui.js:512-525 | the App name prompt always gives a name |
| CreateApp.InteractiveSettings | scripts/dui.js:522-553 | an interactive run always has a target directory, and its theme and page come from the lists |
| CreateApp.ResolveCreateApp | scripts/dui.js:497-563 | an invalid theme or page exits with that error; success means a text directory that does not exist yet; a given theme or page appears in the settings in normalised form |
| CreateApp.CheckTarget | scripts/dui.js:559-563 | the check passes exactly for a text directory that does not exist; otherwise it names the existing directory or rejects a non-text one |
| CreateApp.BlankAnswersMatchUnattended | scripts/dui.js:512-558 | pressing Enter at every prompt gives exactly the result of a `--yes` run |
| CreateApp.BlankSettings | scripts/dui.js:522-558 | with blank answers every prompt keeps the default it offered |
| CreateApp.BlankMenus | scripts/dui.js:535-547 | blank answers at the menus select `auto` and `single page` |
| CreateApp.UnattendedDefaults | scripts/dui.js:512-558 | `--yes` alone gives `Disco App`, its slug as directory, `com.disco.<slug>`, `#D80073`, `auto`, `single page` and no icon |
| CreateApp.TypedNameDrivesDefaults | scripts/dui.js:525-528 | in an interactive run the typed name, not `--name`, makes the directory and app id defaults |
| CreateApp.OptionsOf | scripts/dui.js:741-755 | the options object `main` builds; a missing `--dir` falls back to the first positional, a missing `--signing` means signing, and missing `--yes`, `--no-install`, `--apk-action`, `--git-init`, `--name`, `--theme` read as false or `undefined` |
| CreateApp.RunCli | scripts/dui.js:724-764 | usage is shown exactly for no command or a help command; an unknown command exits; a created app's directory did not exist |
| CreateApp.CreateAppCommand | scripts/dui.js:733-757 | `--help` shows the create-app usage; otherwise the outcome is `createApp` on the options `main` builds |
| CreateApp.InvalidThemeExits | scripts/dui.js:500-504 | `dui create-app -t <not a theme>` exits with an invalid-theme error |
| CreateApp.SigningDefaultOn | scripts/dui.js:751 | signing is on unless `--no-signing` is given |
| CreateApp.PositionalDirectory | scripts/dui.js:742 | the first positional argument is the target directory |
| CreateApp.DirOptionBeatsPositional | scripts/dui.js:742 | `-d` wins over a positional directory |
| CreateApp.LongYesSwallowsDirectory | scripts/dui.js:742-748 | `--yes word` makes the run unattended and swallows the word, so it is not the directory |
| CreateApp.ShortYesKeepsDirectory | scripts/dui.js:742-748 | `-y word` makes the run unattended and keeps the word as the directory |
| CreateApp.ExitStatus | scripts/dui.js:724-764 | 0 after a usage text and 1 for each error outcome; a created run's status is decided by the installation steps left out (scripts/dui.js:689-705), so it is none |
| CreateApp.CreateAppStatus | scripts/dui.js:739-764 | `create-app` without `--help` exits with 1 exactly when `createApp` rejects its options, and otherwise goes on past the modelled part |
| CreateApp.InvalidThemeStatus | scripts/dui.js:500-504 | `create-app -t <not a theme>` exits with status 1 |
| CreateApp.InvalidPageExits | scripts/dui.js:506-510 | `create-app -p <not a template>` exits with the invalid-page error and status 1 |
| CreateApp.ExistingTargetExits | scripts/dui.js:560-563 | `create-app -y <dir>` with an existing directory exits with the directory-exists error and status 1 |
| CreateApp.NoSigningOption | scripts/dui.js:751 | `create-app --no-signing` turns signing off |
| CreateApp.ReadmeLines | scripts/dui.js:270-320 | the `lines` array has 29 entries, or 44 with the workflow section; the title, description and package entries carry the settings |
| CreateApp.CreateReadme | scripts/dui.js:260-323 | the README text is the lines joined by newlines, with a final newline |
| AppConfig.Coalesce | src/web.js:76 | `v ?? fallback` keeps anything but `undefined` and `null` |
| AppConfig.Get | src/app.js:139 | reading a missing key, or reading from something that is not an object, gives `undefined` |
| AppConfig.LoadConfig | src/app.js:16-25 | the parsed file, or `undefined` for no path, a failed fetch, a response that is not ok, or a body that is not JSON |
| AppConfig.MergeConfigs | src/app.js:33-44 | the result is an object with a `splash` object; its other keys overlay the constructor's over the file's; its splash overlays the constructor's splash over the file's |
| AppConfig.MergeConfig | src/web.js:10-20 | without overrides, a copy equal to an object base; with overrides, the same merge as `mergeConfigs` |
| AppConfig.MissingMergesAsEmpty | src/app.js:34-35 | a missing configuration on either side merges exactly like `{}` |
| AppConfig.OverrideWins | src/app.js:36-38 | a key the constructor gives wins; a key only the file gives is kept; no other key appears |
| AppConfig.MergeWithNothing | src/app.js:33-44 | merging with nothing keeps a configuration's own keys and values |
| AppConfig.MergeAbsorbs | src/app.js:33-44 | merging the constructor configuration in a second time changes nothing |
| CapacitorApp.ResolveTheme | src/app.js:235-241 | `auto` resolves to `dark` or `light` by the system preference; any other theme stands |
| CapacitorApp.ThemeStyle | src/app.js:219-220 | the bar style is dark exactly for `dark`, or for `auto` under a dark system preference |
| CapacitorApp.ThemeCalls | src/app.js:216-227 | the status bar gets the style, and the navigation bar gets the same style unless the first request fails |
| CapacitorApp.AccentCalls | src/app.js:248-257 | the accent goes to the navigation bar exactly when it is non-empty |
| CapacitorApp.SplashCalls | src/app.js:138-158 | `native: false` hides the splash at once, `native: true` hides it with a 300 ms fade on `ready`, and anything else makes no request |
| CapacitorApp.BackFlowCalls | src/app.js:190-196 | the frame goes back exactly when one was launched, it has `canGoBack` and that answers true |
| CapacitorApp.DiscoCapacitorApp.constructor | src/app.js:54-67 | the configuration is the one given, or `{}`; the app starts uninitialized with no frame |
| CapacitorApp.DiscoCapacitorApp.Initialize | src/app.js:74-111 | the file is merged under the constructor configuration; then come the insets, the three subscriptions, splash, theme and accent in that order; `initialized` is set last |
| CapacitorApp.DiscoCapacitorApp.LoadAndMerge | src/app.js:77-79 | the configuration becomes the file merged under the old configuration |
| CapacitorApp.DiscoCapacitorApp.Subscribe | src/app.js:85-98 | subscribes to `insetsChanged`, `backButton` and `systemThemeChanged`, in that order |
| CapacitorApp.DiscoCapacitorApp.SyncAll | src/app.js:101-105 | the splash, theme and accent requests, in that order |
| CapacitorApp.DiscoCapacitorApp.UpdateInsets | src/app.js:118-131 | the insets are read from the bridge; a failed request leaves them as they were |
| CapacitorApp.DiscoCapacitorApp.HandleInsetsChanged | src/app.js:85-88 | refreshes the insets, then emits `insetsChanged` |
| CapacitorApp.DiscoCapacitorApp.ConfigureSplash | src/app.js:138-158 | makes exactly the requests of the splash policy |
| CapacitorApp.DiscoCapacitorApp.HandleBackButton | src/app.js:165-184 | emits `backButton`, then runs the default back flow exactly when no listener called `preventDefault()` |
| CapacitorApp.DiscoCapacitorApp.DefaultBackFlow | src/app.js:190-196 | goes back only under the conditions above; otherwise nothing happens |
| CapacitorApp.DiscoCapacitorApp.HandleSystemThemeChanged | src/app.js:203-209 | re-syncs the bars only while the theme is `auto` |
| CapacitorApp.DiscoCapacitorApp.SyncTheme | src/app.js:216-227 | makes exactly the theme requests; a failure is swallowed |
| CapacitorApp.DiscoCapacitorApp.SyncAccent | src/app.js:248-257 | makes exactly the accent request |
| CapacitorApp.DiscoCapacitorApp.SetTheme | src/app.js:264-267 | takes the theme, then syncs the bars to it |
| CapacitorApp.DiscoCapacitorApp.SetAccent | src/app.js:274-277 | takes the colour, then syncs the navigation bar to it |
| CapacitorApp.DiscoCapacitorApp.Launch | src/app.js:283-286 | remembers the frame for the back flow |
| CapacitorApp.InitOrder | src/app.js:82-105 | initialisation asks for the insets first, then makes the three subscriptions, then the splash requests, then the status bar style; the accent colour is last whenever one is set |
| CapacitorApp.ConstructorSplashWins | src/app.js:39-42 | a constructor `splash.native` setting decides the splash policy whatever the file says |
| CapacitorApp.AutoThemeFollowsSystem | src/app.js:235-239 | under `auto` the bars follow the system preference |
| CapacitorApp.FixedThemeIgnoresSystem | src/app.js:235-241 | any other theme ignores the system preference |
| WebPlugin.OrDefault | src/web.js:65-67 | `??` falls back only for a missing option; an empty string stands |
| WebPlugin.DefaultsOnlyWhenMissing | src/web.js:65-67 | the defaults are `discoui.css`, `discoui` and `/disco.config.json`; a given option, even `''`, is kept |
| WebPlugin.PreloadLink | src/web.js:26-30 | the link created is a `data-disco-preload="true"` link to the href |
| WebPlugin.CountPreload | src/web.js:24 | zero preload links exactly when no element matches the selector |
| WebPlugin.Document.EnsurePreloadCss | src/web.js:22-32 | the head becomes the head as `EnsuredHead` defines it: unchanged without a head or with a preload link anywhere, otherwise with the link appended |
| WebPlugin.EnsureAddsAtMostOne | src/web.js:22-32 | the old children stay first; exactly one link is added when there is a head and no preload link, none otherwise; with a head the document then has a preload link |
| WebPlugin.EnsureIdempotent | src/web.js:22-32 | a second call, with the same or another href, changes nothing |
| WebPlugin.ResolveCtor | src/web.js:34-46 | the order is `window.DiscoApp`, `window.Disco.DiscoApp`, the module's `DiscoApp`, then its default export; a failed import gives none |
| WebPlugin.PageCtorSkipsImport | src/web.js:37-38 | a constructor already on the page wins, whatever the module would give |
| WebPlugin.NewApp | src/web.js:75-81 | an app is built exactly when a constructor is found, with the merged configuration |
| WebPlugin.Initialize | src/web.js:64-82 | the preload link is ensured first; an existing `window.discoApp` is kept; otherwise the new app, if any, is stored |
| WebPlugin.InitializeTwice | src/web.js:69-73 | once an app is stored, another `initialize` keeps it; the head holds at most the first call's link |
| WebPlugin.MissingFileMergesAsEmpty | src/web.js:48-57 | an empty path, a failed fetch, a bad response, a non-JSON body or `null` all merge like `{}` |
| WebPlugin.FileConfigAlone | src/web.js:10-11 | without caller configuration the app gets the file's object |
| WebPlugin.CallerConfigWins | src/web.js:12-19 | the caller's keys win over the file's; keys only in the file are kept |
| VitePlugin.Dirname | src/vite.js:24 | `dirname` drops the last segment, and the root is its own parent |
| VitePlugin.NearestRoot | src/vite.js:19-29 | where `findDiscoUIRoot` ends: the candidate of the directory or of its nearest ancestor; whatever it finds exists |
| VitePlugin.FindDiscoUIRoot | src/vite.js:19-29 | the loop returns `NearestRoot`: the candidate of the start directory or of its nearest ancestor, or none |
| VitePlugin.NearestRootIsNearest | src/vite.js:19-29 | the candidate found exists and belongs to the nearest such ancestor; none is found exactly when no ancestor up to the root has one |
| VitePlugin.PackageRoot | src/vite.js:45-49 | the three searches joined by logical or (working directory, plugin directory, its parent); a root it finds exists, and it finds none only when the first two searches fail |
| VitePlugin.PackageRootFirstFound | src/vite.js:46-49 | the working directory's result wins; there is no package exactly when all three searches fail |
| VitePlugin.ParentSearchRedundant | src/vite.js:49 | searching from the plugin directory's parent finds what searching from the plugin directory finds, when the plugin directory has no candidate |
| VitePlugin.BuildStart | src/vite.js:43-58 | the package-not-found error is raised exactly when all three searches fail; assets are returned only when both files exist under the package root found, and the assets error means one of them is missing |
| VitePlugin.DefaultHref | src/vite.js:15-63 | by default the link points at `/discoui.css` |
| VitePlugin.LinkLine | src/vite.js:65 | the link line holds the href |
| VitePlugin.ReplaceFirstExpanding | src/vite.js:65 | `replace` of the first occurrence with a string replacement whose `$` patterns are expanded; a text without the pattern is unchanged |
| VitePlugin.TransformIndexHtmlAsWritten | src/vite.js:62-66 | `transformIndexHtml` as written, the link line passed as a replacement string; a page that already has the href, or has no `</head>`, is unchanged (the rest of its behaviour is in the Findings rows) |
| VitePlugin.TransformIndexHtml | src/vite.js:62-66 | the corrected transform (see "## Findings"): a page that already has the href is unchanged, and so is a page without `</head>`; otherwise the link line is inserted just before the first `</head>` and nothing else changes |
| VitePlugin.TransformIdempotent | src/vite.js:62-66 | transforming twice equals transforming once |
| VitePlugin.AsWrittenAgreesWithoutDollar | src/vite.js:63-65 | when `publicPath` has no `$`, the code as written equals the corrected transform |
| VitePlugin.DollarPublicPathCounterexample | src/vite.js:63-65 | with `publicPath` `$'` the code as written links `discoui.css`, and a second run inserts a second link |
| EmbedCss.ReplaceAll | scripts/embed-css.js:14 | a global `replace` leaves a text without the character unchanged; with a replacement that holds the character, nothing is lost and the text does not shrink |
| EmbedCss.EscapeChain | scripts/embed-css.js:14 | the three `replace` calls as written, one after the other; the result is never shorter than the stylesheet and keeps every character of it |
| EmbedCss.EscapeChainIsEscape | scripts/embed-css.js:14 | the three `replace` calls put one backslash before each `\`, `` ` `` and `$` and change nothing else |
| EmbedCss.ReplacementsAreLiteral | scripts/embed-css.js:14 | the three replacement strings hold no `$` pattern |
| EmbedCss.EscapeLength | scripts/embed-css.js:14 | the output is as long as the input plus the number of `\`, `` ` `` and `$` |
| EmbedCss.EscapePlain | scripts/embed-css.js:14 | a text without those characters is embedded as it is |
| EmbedCss.Cook | scripts/embed-css.js:16 | the string value of the template literal `` `${escapedCss}` `` when it reads back: the escapes `\\`, `` \` `` and `\$` give their character, CR and CR LF give LF; the value is never longer than the body |
| EmbedCss.CookEscape | scripts/embed-css.js:13-16 | the template literal reads back as the stylesheet, with line ends read as line feeds; it neither ends early nor opens a substitution |
| EmbedCss.RoundTrip | scripts/embed-css.js:13-16 | a stylesheet without carriage returns reads back unchanged |
| EmbedCss.ModuleEmbedsCss | scripts/embed-css.js:16 | the module is `` export const cssContent = ` `` + the escape + `` `;\n ``, and its literal reads back as the stylesheet |

## Left out

- Everything `dui` does outside the modelled decisions is left out:
  - prompts are given as answers;
  - colour logging and the usage texts are left out;
  - `process.exit` becomes an `Exit` outcome;
  - `randomSecret` is left out.
- `createApp` after the target-directory check (scripts/dui.js:564-722) is left out. This covers writing the project files, npm, `cap add/sync`, git, `keytool` and the signing setup; it is file and process I/O.
  - The helpers it calls are left out with it: `createGitIgnore`, `ensureAndroidPlatform`, `updateAndroidBuildGradle`, `generateAndroidSigning`, `createAndroidReleaseWorkflow` and `initGitRepo`.
  - `createReadme` is modelled up to the text it writes.
- `pick` takes the answer as a number: a finite value, an infinity or `NaN`. `Number()`'s parsing of the typed text is not modelled.
- `toLowerCase` is modelled for ASCII letters only.
- CliArgs.Parsed.Set: the key `_` is not modelled. In `parseArgs` the positional list is the property `_` of the same object, so `--_ x` overwrites that list with the string or `true`. A later positional argument then makes `push` throw a `TypeError`, and `_[0]` reads the first character. The model keeps the positional list apart from the keys. Keys that `Object.prototype` already has, such as `__proto__`, are treated as ordinary keys.
- CliArgs.ParseArgs: because of the gap above, `ParseFrom` and `ParseArgs` match `parseArgs` only when no long option names the key `_`.
- CreateApp.ReadmeLines: counts entries of the `lines` array, not lines of the written file. A setting whose text holds a line feed (a `--description` with `\n`, say) gives the file more lines. That the fixed entries hold no line feed is not proved, because checking every character of those literals is beyond the solver's budget.
- CliText.Slugify, CliText.NormalizeTheme and CliText.NormalizePage: an argument that is not a string or a boolean is not modelled, because `parseArgs` stores nothing else.
- The base `DiscoApp` class is opaque:
  - `getTheme()` and `getAccent()` are the fields `theme` and `accent`;
  - `emit` and `on` are entries in the call log;
  - what `backButton` listeners do is the input `prevents`.
- CapacitorApp.DiscoCapacitorApp.constructor does not start `_initialize`; `Initialize` is a separate method. The un-awaited promises of the source are not modelled either (`_initialize` from the constructor, `_syncTheme` from `setTheme` and `_handleSystemThemeChanged`, the event listeners). So each call's requests appear together in the log, in program order.
- CapacitorApp.DiscoCapacitorApp.Initialize: the `catch` around `_initialize` is not modelled. None of the awaited steps can throw: each catches its own errors, so `initialized` always ends up true.
- CapacitorApp.DiscoCapacitorApp.UpdateInsets: `disco-inset-*` is kept as the last `Insets` record read, not as the attribute text `String(number)`.
- A rejected `addListener` is not modelled, because its promise is never awaited.
- AppConfig: JSON numbers are reals (`NaN` and infinities are not modelled). Object spread of a string or an array, which copies index keys, is treated as copying nothing.
- WebPlugin.Initialize: calls are modelled one after the other, each as one step. In the source a call checks `window.discoApp`, then awaits the configuration and the import, and stores the app only afterwards (src/web.js:73-80). So two overlapping calls can both pass the check, and the later one overwrites `window.discoApp` with a second app. The model does not capture this.
- WebPlugin: a `document` without `head` and a missing `document` are both `hasHead == false`. A constructor that throws, and options of the wrong type, are not modelled.
- VitePlugin: paths are absolute lists of segments. `path.resolve` of relative paths, `..`, drive letters and symbolic links are not modelled. A `null` `publicPath` is also not modelled.
- The Vite plugin's `config` hook is not modelled; it returns a constant.
- `buildStart`'s file reads and `generateBundle`'s `emitFile` calls are I/O and are left out. `buildStart` is modelled up to the two asset paths it would read.
- `embed-css.js`'s existence check, its file read and write, and its console output are left out.
- EmbedCss.Cook reads only the escapes `\\`, `` \` `` and `\$`, the only ones `Escape` produces. Other template-literal escapes give `None`.
- Not modelled because they are platform code or registration files without logic:
  - the Android and iOS sources;
  - the example app;
  - the build configuration;
  - `src/plugin.js`, `src/index.js`, `src/exports.js`;
  - the type declarations (whose record shapes the datatypes follow).

## Findings

| source | as written | input that shows it | evidently intended | confidence | as-written member | corrected member |
|---|---|---|---|---|---|---|
| src/vite.js:65 | `html.replace('</head>', `...${href}...`)` passes the link line as a replacement string, so `$'`, `` $` ``, `$&` and `$$` in `publicPath` are expanded | `publicPath` `$'`, page `</head>`: the link points at `discoui.css`, and a second run adds a second link | insert the link line literally, so the link names `publicPath + 'discoui.css'` and the transform is idempotent | not executed | VitePlugin.DollarPublicPathCounterexample | VitePlugin.TransformIdempotent |
