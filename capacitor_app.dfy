/**
 * `DiscoCapacitorApp` (`src/app.js`): a DiscoUI app that loads its
 * configuration file, keeps the native status and navigation bars in
 * step with its theme and accent, hides the native splash screen as
 * configured and routes the hardware back button.
 *
 * The native bridge (`DiscoUIPlugin`) is opaque, so every request the
 * app makes of it, every `emit` and the launched frame's `goBack` are
 * appended to a call log; a request the bridge rejects is named in a
 * `failing` set. The frame's `canGoBack()` answer is an input. The base
 * `DiscoApp` class is opaque too: `getTheme()` and `getAccent()` are the
 * `theme` and `accent` fields.
 */
module CapacitorApp {
  import opened AppConfig
  import Js

  /** The path `_initialize` loads the configuration file from. */
  const ConfigPath: string := "/disco.config.json"

  /** The `style` of `setStatusBarStyle` and `setNavigationBarStyle`. */
  datatype BarStyle = Light | Dark

  /** `Insets` of `src/types.d.ts`: what `getInsets()` answers. */
  datatype Insets = Insets(top: real, bottom: real, left: real, right: real)

  /** The element given to `launch`; `hasCanGoBack`: it has a `canGoBack` method. */
  datatype Frame = Frame(hasCanGoBack: bool)

  /** A call the app makes on the bridge, on the base app or on the frame. */
  datatype Call =
    | GetInsets
    | AddListener(event: string)
    | HideSplash(fadeOutDuration: nat)
    | HideSplashOnReady(fadeOutDuration: nat)  // a `ready` handler that will call `hideSplash`
    | SetStatusBarStyle(style: BarStyle)
    | SetNavigationBarStyle(style: BarStyle)
    | SetNavigationBarColor(color: string)
    | EmitInsetsChanged
    | EmitBackButton
    | GoBack

  /** `_resolveTheme(theme)`: `auto` follows the system preference, any other theme stands. */
  function ResolveTheme(theme: string, prefersDark: bool): (r: string)
    ensures theme != "auto" ==> r == theme
    ensures theme == "auto" ==> (r == "dark" || r == "light") && (r == "dark" <==> prefersDark)
  {
    if theme == "auto" then (if prefersDark then "dark" else "light") else theme
  }

  /** The bar style `_syncTheme` sends for a theme. */
  function ThemeStyle(theme: string, prefersDark: bool): (style: BarStyle)
    ensures style == Dark <==> theme == "dark" || (theme == "auto" && prefersDark)
  {
    if ResolveTheme(theme, prefersDark) == "dark" then Dark else Light
  }

  /**
   * The requests of `_syncTheme`: the status bar style, then the same
   * style for the navigation bar, unless the first request was rejected.
   */
  function ThemeCalls(theme: string, prefersDark: bool, failing: set<Call>): (calls: seq<Call>)
    ensures 1 <= |calls| <= 2 && calls[0] == SetStatusBarStyle(ThemeStyle(theme, prefersDark))
    ensures |calls| == 2 <==> calls[0] !in failing
    ensures |calls| == 2 ==> calls[1] == SetNavigationBarStyle(ThemeStyle(theme, prefersDark))
  {
    var style := ThemeStyle(theme, prefersDark);
    if SetStatusBarStyle(style) in failing then [SetStatusBarStyle(style)]
    else [SetStatusBarStyle(style), SetNavigationBarStyle(style)]
  }

  /** The request of `_syncAccent`: the accent as navigation bar colour, when there is one. */
  function AccentCalls(accent: string): (calls: seq<Call>)
    ensures |calls| <= 1
    ensures calls != [] <==> accent != ""
    ensures calls != [] ==> calls[0] == SetNavigationBarColor(accent)
  {
    if accent != "" then [SetNavigationBarColor(accent)] else []
  }

  /** `this._config.splash?.native`. */
  function SplashNative(config: Value): Value {
    Get(Get(config, "splash"), "native")
  }

  /**
   * `_configureSplash`: `native: false` hides the native splash at once;
   * `native: true` keeps it until `ready`, then fades it out over 300 ms;
   * anything else leaves it alone.
   */
  function SplashCalls(config: Value): (calls: seq<Call>)
    ensures SplashNative(config) == Boolean(false) ==> calls == [HideSplash(0)]
    ensures SplashNative(config) == Boolean(true) ==> calls == [HideSplashOnReady(300)]
    ensures !SplashNative(config).Boolean? ==> calls == []
  {
    match SplashNative(config)
    case Boolean(native) => if native then [HideSplashOnReady(300)] else [HideSplash(0)]
    case _ => []
  }

  /** `_defaultBackFlow`: the frame goes back only if there is one, it has `canGoBack` and that says yes. */
  function BackFlowCalls(frame: Js.Option<Frame>, canGoBack: bool): (calls: seq<Call>)
    ensures calls == [GoBack] <==> frame.Some? && frame.value.hasCanGoBack && canGoBack
    ensures calls != [GoBack] ==> calls == []
  {
    if frame.Some? && frame.value.hasCanGoBack && canGoBack then [GoBack] else []
  }

  /** The events `_initialize` subscribes to, in order. */
  function Subscriptions(): (calls: seq<Call>)
    ensures |calls| == 3
  {
    [AddListener("insetsChanged"), AddListener("backButton"), AddListener("systemThemeChanged")]
  }

  /** The requests of the last steps of `_initialize`: splash, theme, accent. */
  function SyncCalls(config: Value, theme: string, accent: string, prefersDark: bool, failing: set<Call>): (calls: seq<Call>)
  {
    SplashCalls(config) + ThemeCalls(theme, prefersDark, failing) + AccentCalls(accent)
  }

  /** The calls of `_initialize` after the configuration is merged, in order. */
  function InitCalls(config: Value, theme: string, accent: string, prefersDark: bool, failing: set<Call>): (calls: seq<Call>)
  {
    [GetInsets] + Subscriptions() + SyncCalls(config, theme, accent, prefersDark, failing)
  }

  /** Regrouping the pieces of a call log. */
  lemma Assoc(o: seq<Call>, a: seq<Call>, b: seq<Call>, c: seq<Call>)
    ensures o + a + b + c == o + (a + b + c)
  {
  }

  class DiscoCapacitorApp {
    /** `_config`. */
    var config: Value
    /** `_initialized`. */
    var initialized: bool
    /** `_frame`, set by `launch`. */
    var frame: Js.Option<Frame>
    /** What the base app's `getTheme()` reports. */
    var theme: string
    /** What the base app's `getAccent()` reports. */
    var accent: string
    /** The insets last written to the root element's `disco-inset-*` attributes. */
    var insets: Js.Option<Insets>
    /** Every call made so far, oldest first. */
    var log: seq<Call>

    /** `new DiscoCapacitorApp(config)`; the base app starts with `theme` and `accent`. */
    constructor(config: Value, theme: string, accent: string)
      ensures this.config == (if Truthy(config) then config else EmptyObject)
      ensures !initialized && frame.None? && insets.None? && log == []
      ensures this.theme == theme && this.accent == accent
    {
      this.config := if Truthy(config) then config else EmptyObject;
      initialized := false;
      frame := Js.None;
      this.theme := theme;
      this.accent := accent;
      insets := Js.None;
      log := [];
    }

    /**
     * `_initialize()`: load and merge the configuration file, read the
     * insets, subscribe to the bridge's events, apply the splash policy,
     * sync theme and accent, and only then mark the app initialized.
     */
    method Initialize(fetch: FetchOutcome, native: Insets, prefersDark: bool, failing: set<Call>)
      modifies this`config, this`log, this`insets, this`initialized
      ensures config == MergeConfigs(LoadConfig(ConfigPath, fetch), old(config))
      ensures log == old(log) + InitCalls(config, theme, accent, prefersDark, failing)
      ensures insets == (if GetInsets in failing then old(insets) else Js.Some(native))
      ensures initialized
    {
      LoadAndMerge(fetch);
      UpdateInsets(native, failing);
      Subscribe();
      SyncAll(prefersDark, failing);
      Assoc(old(log), [GetInsets], Subscriptions(), SyncCalls(config, theme, accent, prefersDark, failing));
      initialized := true;
    }

    /** The configuration step of `_initialize`: the file is merged under the constructor configuration. */
    method LoadAndMerge(fetch: FetchOutcome)
      modifies this`config
      ensures config == MergeConfigs(LoadConfig(ConfigPath, fetch), old(config))
    {
      var fileConfig := LoadConfig(ConfigPath, fetch);
      config := MergeConfigs(fileConfig, config);
    }

    /** The subscriptions of `_initialize`, in order. */
    method Subscribe()
      modifies this`log
      ensures log == old(log) + Subscriptions()
    {
      log := log + [AddListener("insetsChanged")];
      log := log + [AddListener("backButton")];
      log := log + [AddListener("systemThemeChanged")];
    }

    /** The last steps of `_initialize`: splash, theme, accent. */
    method SyncAll(prefersDark: bool, failing: set<Call>)
      modifies this`log
      ensures log == old(log) + SyncCalls(config, theme, accent, prefersDark, failing)
    {
      ConfigureSplash();
      SyncTheme(prefersDark, failing);
      SyncAccent();
    }

    /** `_updateInsets()`: a rejected `getInsets` leaves the attributes as they were. */
    method UpdateInsets(native: Insets, failing: set<Call>)
      modifies this`log, this`insets
      ensures log == old(log) + [GetInsets]
      ensures insets == (if GetInsets in failing then old(insets) else Js.Some(native))
    {
      log := log + [GetInsets];
      if GetInsets !in failing {
        insets := Js.Some(native);
      }
    }

    /** `_configureSplash()`. */
    method ConfigureSplash()
      modifies this`log
      ensures log == old(log) + SplashCalls(config)
    {
      var native := SplashNative(config);
      if native == Boolean(false) {
        log := log + [HideSplash(0)];
      } else if native == Boolean(true) {
        log := log + [HideSplashOnReady(300)];
      }
    }

    /**
     * `_handleBackButton(event)`: emit a cancelable `backButton` event to
     * the listeners (`prevents[i]`: the i-th listener calls
     * `preventDefault()`), then run the default back flow unless one did.
     */
    method HandleBackButton(prevents: seq<bool>, canGoBack: bool)
      modifies this`log
      ensures log == old(log) + [EmitBackButton] + (if true in prevents then [] else BackFlowCalls(frame, canGoBack))
    {
      log := log + [EmitBackButton];
      var defaultPrevented := true in prevents;
      if !defaultPrevented {
        DefaultBackFlow(canGoBack);
      }
    }

    /** The `insetsChanged` listener of `_initialize`: refresh the insets, then re-emit the event. */
    method HandleInsetsChanged(native: Insets, failing: set<Call>)
      modifies this`log, this`insets
      ensures log == old(log) + [GetInsets, EmitInsetsChanged]
      ensures insets == (if GetInsets in failing then old(insets) else Js.Some(native))
    {
      UpdateInsets(native, failing);
      log := log + [EmitInsetsChanged];
    }

    /** `_defaultBackFlow()`; `canGoBack` is what the frame's `canGoBack()` answers. */
    method DefaultBackFlow(canGoBack: bool)
      modifies this`log
      ensures log == old(log) + BackFlowCalls(frame, canGoBack)
    {
      if frame.Some? && frame.value.hasCanGoBack && canGoBack {
        log := log + [GoBack];
      }
    }

    /** `_handleSystemThemeChanged(event)`: re-sync the bars only while the theme is `auto`. */
    method HandleSystemThemeChanged(prefersDark: bool, failing: set<Call>)
      modifies this`log
      ensures log == old(log) + (if theme == "auto" then ThemeCalls(theme, prefersDark, failing) else [])
    {
      if theme == "auto" {
        SyncTheme(prefersDark, failing);
      }
    }

    /** `_syncTheme()`: a rejected request ends the sync, and the error is swallowed. */
    method SyncTheme(prefersDark: bool, failing: set<Call>)
      modifies this`log
      ensures log == old(log) + ThemeCalls(theme, prefersDark, failing)
    {
      var style := if ResolveTheme(theme, prefersDark) == "dark" then Dark else Light;
      log := log + [SetStatusBarStyle(style)];
      if SetStatusBarStyle(style) !in failing {
        log := log + [SetNavigationBarStyle(style)];
      }
    }

    /** `_syncAccent()`. */
    method SyncAccent()
      modifies this`log
      ensures log == old(log) + AccentCalls(accent)
    {
      if accent != "" {
        log := log + [SetNavigationBarColor(accent)];
      }
    }

    /** `setTheme(theme)`: the base app takes the theme, then the bars follow. */
    method SetTheme(newTheme: string, prefersDark: bool, failing: set<Call>)
      modifies this`theme, this`log
      ensures theme == newTheme
      ensures log == old(log) + ThemeCalls(newTheme, prefersDark, failing)
    {
      theme := newTheme;
      SyncTheme(prefersDark, failing);
    }

    /** `setAccent(color)`: the base app takes the colour, then the navigation bar follows. */
    method SetAccent(color: string)
      modifies this`accent, this`log
      ensures accent == color
      ensures log == old(log) + AccentCalls(color)
    {
      accent := color;
      SyncAccent();
    }

    /** `launch(frame)`: remember the frame for the back flow. */
    method Launch(f: Frame)
      modifies this`frame
      ensures frame == Js.Some(f)
    {
      frame := Js.Some(f);
    }
  }

  /* ---------------------------------------------------------------- */
  /* Properties                                                       */
  /* ---------------------------------------------------------------- */

  /** A constructor `splash.native` setting wins over the file's. */
  lemma ConstructorSplashWins(fileConfig: Value, ctorConfig: Value)
    requires "native" in SplashOf(ctorConfig)
    ensures SplashCalls(MergeConfigs(fileConfig, ctorConfig)) == SplashCalls(Object(map["splash" := Object(SplashOf(ctorConfig))]))
  {
    var m := MergeConfigs(fileConfig, ctorConfig);
    assert SplashOf(m)["native"] == SplashOf(ctorConfig)["native"];
    assert SplashNative(m) == SplashOf(ctorConfig)["native"];
  }

  /**
   * The order of `_initialize`: the insets first, then the three
   * subscriptions, then the splash decision, the theme and, last, the
   * accent colour.
   */
  lemma InitOrder(config: Value, theme: string, accent: string, prefersDark: bool, failing: set<Call>)
    ensures var calls := InitCalls(config, theme, accent, prefersDark, failing);
      var n := |SplashCalls(config)|;
      && |calls| == 4 + n + |ThemeCalls(theme, prefersDark, failing)| + |AccentCalls(accent)|
      && calls[0] == GetInsets
      && calls[1..4] == [AddListener("insetsChanged"), AddListener("backButton"), AddListener("systemThemeChanged")]
      && calls[4..4 + n] == SplashCalls(config)
      && calls[4 + n] == SetStatusBarStyle(ThemeStyle(theme, prefersDark))
      && (accent != "" <==> calls[|calls| - 1] == SetNavigationBarColor(accent))
  {
    var calls := InitCalls(config, theme, accent, prefersDark, failing);
    var subs := Subscriptions();
    var sync := SyncCalls(config, theme, accent, prefersDark, failing);
    var splash, th, ac := SplashCalls(config), ThemeCalls(theme, prefersDark, failing), AccentCalls(accent);
    assert calls == [GetInsets] + subs + sync;
    assert sync == splash + th + ac;
    assert calls[1..4] == subs;
    assert calls[4..] == sync;
    assert sync[..|splash|] == splash;
    assert sync[|splash|] == th[0];
    if accent == "" {
      assert calls[|calls| - 1] == th[|th| - 1];
    }
  }

  /** Under the `auto` theme the bars follow the system preference. */
  lemma AutoThemeFollowsSystem(prefersDark: bool, failing: set<Call>)
    ensures ThemeCalls("auto", prefersDark, failing)[0] == SetStatusBarStyle(if prefersDark then Dark else Light)
  {
  }

  /** Any other theme ignores the system preference. */
  lemma FixedThemeIgnoresSystem(theme: string, prefersDark: bool, prefersDark': bool, failing: set<Call>)
    requires theme != "auto"
    ensures ThemeCalls(theme, prefersDark, failing) == ThemeCalls(theme, prefersDark', failing)
  {
  }
}
