/**
 * The web implementation of the plugin (`src/web.js`): `initialize`
 * preloads the DiscoUI stylesheet, and unless the page already has an
 * app, loads the configuration file, merges the caller's configuration
 * over it, finds a `DiscoApp` constructor and stores the new app on
 * `window.discoApp`.
 *
 * The document is reduced to the elements `ensurePreloadCss` looks at
 * and adds to; the window to the globals `initialize` reads and writes.
 * What `fetch` answers and which modules `import()` can load are inputs.
 */
module WebPlugin {
  import opened AppConfig
  import Js

  const DefaultCssHref: string := "discoui.css"
  const DefaultImportPath: string := "discoui"
  const DefaultConfigPath: string := "/disco.config.json"

  /** `DiscoInitializeOptions`; `None` is a missing (`undefined` or `null`) option. */
  datatype InitializeOptions = InitializeOptions(
    config: Value,
    cssHref: Js.Option<string>,
    importPath: Js.Option<string>,
    configPath: Js.Option<string>)

  /** `initialize()` called with no options object at all. */
  const NoOptions: InitializeOptions := InitializeOptions(Undefined, Js.None, Js.None, Js.None)

  /** `option ?? fallback`: only a missing option falls back; an empty string stands. */
  function OrDefault(option: Js.Option<string>, fallback: string): (r: string)
    ensures option.None? ==> r == fallback
    ensures option.Some? ==> r == option.value
  {
    if option.Some? then option.value else fallback
  }

  /** The three settings of `initialize` after their defaults are applied. */
  function CssHref(options: InitializeOptions): string {
    OrDefault(options.cssHref, DefaultCssHref)
  }

  function ImportPath(options: InitializeOptions): string {
    OrDefault(options.importPath, DefaultImportPath)
  }

  function ConfigPathOf(options: InitializeOptions): string {
    OrDefault(options.configPath, DefaultConfigPath)
  }

  /* ---------------------------------------------------------------- */
  /* The preload link                                                 */
  /* ---------------------------------------------------------------- */

  /** A DOM element: its tag name and its attributes. */
  datatype Element = Element(tag: string, attributes: map<string, string>)

  /** What `link[data-disco-preload="true"]` selects. */
  predicate IsPreload(e: Element) {
    e.tag == "link" && "data-disco-preload" in e.attributes && e.attributes["data-disco-preload"] == "true"
  }

  /** The element `ensurePreloadCss` creates. */
  function PreloadLink(cssHref: string): (e: Element)
    ensures IsPreload(e) && "href" in e.attributes && e.attributes["href"] == cssHref
  {
    Element("link", map["rel" := "preload", "as" := "style", "href" := cssHref, "data-disco-preload" := "true"])
  }

  /** The number of preload links among `elements`. */
  function CountPreload(elements: seq<Element>): (n: nat)
    ensures n <= |elements|
    ensures n == 0 <==> forall i :: 0 <= i < |elements| ==> !IsPreload(elements[i])
  {
    if elements == [] then 0
    else CountPreload(elements[..|elements| - 1]) + (if IsPreload(elements[|elements| - 1]) then 1 else 0)
  }

  /**
   * The head after `ensurePreloadCss(cssHref)`: without a head nothing
   * happens; with a preload link anywhere in the document (its head or
   * the `rest`) nothing happens either; otherwise the link is appended.
   */
  function EnsuredHead(hasHead: bool, head: seq<Element>, rest: seq<Element>, cssHref: string): seq<Element> {
    if !hasHead || CountPreload(head + rest) > 0 then head else head + [PreloadLink(cssHref)]
  }

  /** The page's document. */
  class Document {
    /** `document.head` exists. */
    var hasHead: bool
    /** The children of `document.head`, in order. */
    var head: seq<Element>
    /** Every other element of the document. */
    var rest: seq<Element>

    constructor(hasHead: bool, head: seq<Element>, rest: seq<Element>)
      ensures this.hasHead == hasHead && this.head == head && this.rest == rest
    {
      this.hasHead := hasHead;
      this.head := head;
      this.rest := rest;
    }

    /** `ensurePreloadCss(cssHref)`. */
    method EnsurePreloadCss(cssHref: string)
      modifies this`head
      ensures head == EnsuredHead(hasHead, old(head), rest, cssHref)
    {
      if !hasHead {
        return;
      }
      if CountPreload(head + rest) > 0 {
        return;
      }
      var link := PreloadLink(cssHref);
      head := head + [link];
    }
  }

  /* ---------------------------------------------------------------- */
  /* The app constructor                                              */
  /* ---------------------------------------------------------------- */

  /** A `DiscoApp` constructor, told apart by where it came from. */
  datatype Ctor = Ctor(name: string)

  /** An app `initialize` constructed: with which constructor and which configuration. */
  datatype App = App(ctor: Ctor, config: Value)

  /** What `import(importPath)` gives: a module's `DiscoApp` and `default` exports. */
  datatype Module = Module(discoApp: Js.Option<Ctor>, defaultExport: Js.Option<Ctor>)

  /** The browser window. */
  class Window {
    /** `window.discoApp`. */
    var discoApp: Js.Option<App>
    /** `window.DiscoApp`. */
    var globalCtor: Js.Option<Ctor>
    /** `window.Disco?.DiscoApp`. */
    var namespaceCtor: Js.Option<Ctor>

    constructor(discoApp: Js.Option<App>, globalCtor: Js.Option<Ctor>, namespaceCtor: Js.Option<Ctor>)
      ensures this.discoApp == discoApp && this.globalCtor == globalCtor && this.namespaceCtor == namespaceCtor
    {
      this.discoApp := discoApp;
      this.globalCtor := globalCtor;
      this.namespaceCtor := namespaceCtor;
    }
  }

  /**
   * `resolveDiscoAppConstructor(importPath)`: the global constructor,
   * else the `Disco` namespace's, else the imported module's `DiscoApp`
   * export, else its default export; a failed import (a path not in
   * `modules`) gives none.
   */
  function ResolveCtor(globalCtor: Js.Option<Ctor>, namespaceCtor: Js.Option<Ctor>,
                       modules: map<string, Module>, importPath: string): (r: Js.Option<Ctor>)
    ensures globalCtor.Some? ==> r == globalCtor
    ensures globalCtor.None? && namespaceCtor.Some? ==> r == namespaceCtor
    ensures globalCtor.None? && namespaceCtor.None? && importPath !in modules ==> r.None?
    ensures globalCtor.None? && namespaceCtor.None? && importPath in modules ==>
      r == (if modules[importPath].discoApp.Some? then modules[importPath].discoApp else modules[importPath].defaultExport)
  {
    if globalCtor.Some? then globalCtor
    else if namespaceCtor.Some? then namespaceCtor
    else if importPath !in modules then Js.None
    else
      var mod := modules[importPath];
      if mod.discoApp.Some? then mod.discoApp else mod.defaultExport
  }

  /** A constructor already on the page wins: the module is then never looked at. */
  lemma PageCtorSkipsImport(globalCtor: Js.Option<Ctor>, namespaceCtor: Js.Option<Ctor>,
                            modules: map<string, Module>, modules': map<string, Module>, importPath: string, importPath': string)
    requires globalCtor.Some? || namespaceCtor.Some?
    ensures ResolveCtor(globalCtor, namespaceCtor, modules, importPath) == ResolveCtor(globalCtor, namespaceCtor, modules', importPath')
    ensures ResolveCtor(globalCtor, namespaceCtor, modules, importPath).Some?
  {
  }

  /** The configuration `initialize` gives the new app: the file (`{}` when missing or `null`) under the caller's. */
  function InitialConfig(options: InitializeOptions, fetch: FetchOutcome): Value {
    MergeConfig(Coalesce(LoadConfig(ConfigPathOf(options), fetch), EmptyObject), options.config)
  }

  /** The app `initialize` would construct, if it finds a constructor. */
  function NewApp(win: Js.Option<Ctor>, ns: Js.Option<Ctor>, modules: map<string, Module>,
                  options: InitializeOptions, fetch: FetchOutcome): (r: Js.Option<App>)
    ensures r.Some? <==> ResolveCtor(win, ns, modules, ImportPath(options)).Some?
    ensures r.Some? ==>
      r.value.ctor == ResolveCtor(win, ns, modules, ImportPath(options)).value && r.value.config == InitialConfig(options, fetch)
  {
    var ctor := ResolveCtor(win, ns, modules, ImportPath(options));
    if ctor.Some? then Js.Some(App(ctor.value, InitialConfig(options, fetch))) else Js.None
  }

  /**
   * `DiscoUIWeb.initialize(options)`: the stylesheet link is ensured
   * first, even on a page that already has an app; an existing
   * `window.discoApp` is then left alone, and otherwise a new app is
   * stored when a constructor is found.
   */
  method Initialize(win: Window, doc: Document, options: InitializeOptions,
                    fetch: FetchOutcome, modules: map<string, Module>)
    modifies win`discoApp, doc`head
    ensures doc.head == EnsuredHead(doc.hasHead, old(doc.head), doc.rest, CssHref(options))
    ensures old(win.discoApp).Some? ==> win.discoApp == old(win.discoApp)
    ensures old(win.discoApp).None? ==>
      win.discoApp == NewApp(win.globalCtor, win.namespaceCtor, modules, options, fetch)
  {
    var cssHref := OrDefault(options.cssHref, DefaultCssHref);
    var importPath := OrDefault(options.importPath, DefaultImportPath);
    var configPath := OrDefault(options.configPath, DefaultConfigPath);
    doc.EnsurePreloadCss(cssHref);
    if win.discoApp.Some? {
      return;
    }
    var configFromFile := LoadConfig(configPath, fetch);
    var mergedConfig := MergeConfig(Coalesce(configFromFile, EmptyObject), options.config);
    var ctor := ResolveCtor(win.globalCtor, win.namespaceCtor, modules, importPath);
    if ctor.Some? {
      win.discoApp := Js.Some(App(ctor.value, mergedConfig));
    }
  }

  /* ---------------------------------------------------------------- */
  /* Properties                                                       */
  /* ---------------------------------------------------------------- */

  /** The preload links of two pieces of a document add up. */
  lemma {:induction false} CountPreloadAppend(a: seq<Element>, b: seq<Element>)
    ensures CountPreload(a + b) == CountPreload(a) + CountPreload(b)
    decreases |b|
  {
    if b == [] {
      assert a + b == a;
    } else {
      var b' := b[..|b| - 1];
      assert (a + b)[..|a + b| - 1] == a + b';
      assert (a + b)[|a + b| - 1] == b[|b| - 1];
      CountPreloadAppend(a, b');
    }
  }

  /**
   * `ensurePreloadCss` adds a link only to a document with a head and no
   * preload link, adds exactly one, appends it after the existing
   * children, and leaves the document with a preload link whenever it
   * has a head.
   */
  lemma EnsureAddsAtMostOne(hasHead: bool, head: seq<Element>, rest: seq<Element>, cssHref: string)
    ensures var h := EnsuredHead(hasHead, head, rest, cssHref);
      && h[..|head|] == head
      && CountPreload(h) == CountPreload(head) + (if hasHead && CountPreload(head + rest) == 0 then 1 else 0)
      && (hasHead ==> CountPreload(h + rest) >= 1)
      && (!hasHead ==> h == head)
  {
    var h := EnsuredHead(hasHead, head, rest, cssHref);
    CountPreloadAppend(head, rest);
    if hasHead && CountPreload(head + rest) == 0 {
      CountPreloadAppend(head, [PreloadLink(cssHref)]);
      assert [PreloadLink(cssHref)][..0] == [];
      CountPreloadAppend(h, rest);
    } else {
      assert h == head;
      assert h[..|head|] == head;
    }
  }

  /**
   * A second `ensurePreloadCss`, with the same or another href, changes
   * nothing: the first one left a preload link, or there is no head.
   */
  lemma EnsureIdempotent(hasHead: bool, head: seq<Element>, rest: seq<Element>, href1: string, href2: string)
    ensures var h := EnsuredHead(hasHead, head, rest, href1);
      EnsuredHead(hasHead, h, rest, href2) == h
  {
    EnsureAddsAtMostOne(hasHead, head, rest, href1);
  }

  /** A missing option takes its default; any given option, even `''`, is kept. */
  lemma DefaultsOnlyWhenMissing(options: InitializeOptions)
    ensures CssHref(options) == DefaultCssHref <==> options.cssHref.None? || options.cssHref == Js.Some(DefaultCssHref)
    ensures options.importPath.Some? ==> ImportPath(options) == options.importPath.value
    ensures options.configPath == Js.Some("") ==> ConfigPathOf(options) == ""
    ensures CssHref(NoOptions) == "discoui.css" && ImportPath(NoOptions) == "discoui"
      && ConfigPathOf(NoOptions) == "/disco.config.json"
  {
  }

  /**
   * A configuration path of `''` skips the fetch, and a file that is
   * missing, unreadable or `null` merges like `{}`: the caller's
   * configuration alone decides.
   */
  lemma MissingFileMergesAsEmpty(options: InitializeOptions, fetch: FetchOutcome)
    requires ConfigPathOf(options) == "" || !fetch.Response? || !fetch.ok || fetch.body.None? || fetch.body == Js.Some(Null)
    ensures InitialConfig(options, fetch) == MergeConfig(EmptyObject, options.config)
  {
  }

  /** Without a caller configuration the app gets a copy of the file's object. */
  lemma FileConfigAlone(options: InitializeOptions, fetch: FetchOutcome, file: map<string, Value>)
    requires !Truthy(options.config)
    requires ConfigPathOf(options) != "" && fetch == Response(true, Js.Some(Object(file)))
    ensures InitialConfig(options, fetch) == Object(file)
  {
  }

  /** With a caller configuration its keys win over the file's; keys only in the file are kept. */
  lemma CallerConfigWins(options: InitializeOptions, fetch: FetchOutcome, k: string)
    requires Truthy(options.config) && k != "splash"
    ensures var m := InitialConfig(options, fetch).fields;
      var file := Spread(Coalesce(LoadConfig(ConfigPathOf(options), fetch), EmptyObject));
      && (k in Spread(options.config) ==> k in m && m[k] == Spread(options.config)[k])
      && (k !in Spread(options.config) && k in file ==> k in m && m[k] == file[k])
  {
    OverrideWins(Coalesce(LoadConfig(ConfigPathOf(options), fetch), EmptyObject), options.config, k);
  }

  /** Once there is an app, `initialize` never constructs another, for calls made one after the other. */
  method InitializeTwice(win: Window, doc: Document, options1: InitializeOptions, options2: InitializeOptions,
                         fetch: FetchOutcome, modules: map<string, Module>)
    modifies win`discoApp, doc`head
    ensures old(win.discoApp).Some? ==> win.discoApp == old(win.discoApp)
    ensures old(win.discoApp).None? && NewApp(win.globalCtor, win.namespaceCtor, modules, options1, fetch).Some? ==>
      win.discoApp == NewApp(win.globalCtor, win.namespaceCtor, modules, options1, fetch)
    ensures doc.head == EnsuredHead(doc.hasHead, old(doc.head), doc.rest, CssHref(options1))
  {
    Initialize(win, doc, options1, fetch, modules);
    Initialize(win, doc, options2, fetch, modules);
    EnsureIdempotent(doc.hasHead, old(doc.head), doc.rest, CssHref(options1), CssHref(options2));
  }
}
