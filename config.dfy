/**
 * The app configuration: the `disco.config.json` file, the options given
 * to the constructor or to `initialize`, and how the two are merged with
 * object spread (`src/app.js` `mergeConfigs`, `src/web.js` `mergeConfig`).
 *
 * A configuration is whatever JSON the file holds, so it is modelled as a
 * JSON value rather than as the typed `DiscoAppOptions` record: object
 * spread copies every own key, whatever its name or type.
 */
module AppConfig {
  import Js

  /** A JSON value, or `undefined`. */
  datatype Value =
    | Undefined
    | Null
    | Boolean(b: bool)
    | Number(x: real)
    | Text(s: string)
    | List(items: seq<Value>)
    | Object(fields: map<string, Value>)

  /** JavaScript truthiness of a JSON value. */
  predicate Truthy(v: Value) {
    match v
    case Undefined => false
    case Null => false
    case Boolean(b) => b
    case Number(x) => x != 0.0
    case Text(s) => s != ""
    case List(_) => true
    case Object(_) => true
  }

  /** `v ?? fallback`. */
  function Coalesce(v: Value, fallback: Value): (r: Value)
    ensures v != Undefined && v != Null ==> r == v
    ensures v == Undefined || v == Null ==> r == fallback
  {
    if v.Undefined? || v.Null? then fallback else v
  }

  /** `v.key` (and `v?.key`): a missing key, or a value that is not an object, gives `undefined`. */
  function Get(v: Value, key: string): (r: Value)
    ensures v.Object? && key in v.fields ==> r == v.fields[key]
    ensures !(v.Object? && key in v.fields) ==> r == Undefined
  {
    if v.Object? && key in v.fields then v.fields[key] else Undefined
  }

  /** The own keys `{...v}` copies: an object's fields; nothing for `undefined`, `null`, booleans and numbers. */
  function Spread(v: Value): map<string, Value> {
    if v.Object? then v.fields else map[]
  }

  /** `{}`. */
  const EmptyObject: Value := Object(map[])

  /**
   * `m` is `{...under, ...over}`: every key of either, with the value
   * from `over` where it has the key and from `under` elsewhere.
   */
  ghost predicate Overlays(m: map<string, Value>, under: map<string, Value>, over: map<string, Value>) {
    (forall k :: k in m <==> k in under || k in over)
    && (forall k :: k in over ==> m[k] == over[k])
    && (forall k :: k in under && k !in over ==> m[k] == under[k])
  }

  /** The merged configuration's `splash` object. */
  function SplashOf(config: Value): map<string, Value> {
    Spread(Get(config, "splash"))
  }

  /**
   * `mergeConfigs(fileConfig, ctorConfig)` of `src/app.js`: the
   * constructor configuration wins key by key over the file, except
   * `splash`, which is always present and merged one level deep. A
   * missing (falsy) configuration on either side counts as `{}`.
   */
  function MergeConfigs(fileConfig: Value, ctorConfig: Value): (r: Value)
    ensures r.Object? && "splash" in r.fields && r.fields["splash"].Object?
    ensures Overlays(r.fields - {"splash"}, Spread(fileConfig) - {"splash"}, Spread(ctorConfig) - {"splash"})
    ensures Overlays(SplashOf(r), SplashOf(fileConfig), SplashOf(ctorConfig))
  {
    var base := if Truthy(fileConfig) then fileConfig else EmptyObject;
    var override := if Truthy(ctorConfig) then ctorConfig else EmptyObject;
    Object(Spread(base) + Spread(override)
      + map["splash" := Object(Spread(Get(base, "splash")) + Spread(Get(override, "splash")))])
  }

  /**
   * `mergeConfig(base, overrides)` of `src/web.js`: without overrides a
   * copy of `base`; with them the same merge as `MergeConfigs`.
   */
  function MergeConfig(base: Value, overrides: Value): (r: Value)
    ensures !Truthy(overrides) ==> r == Object(Spread(base))
    ensures !Truthy(overrides) && base.Object? ==> r == base
    ensures Truthy(overrides) ==> r == MergeConfigs(base, overrides)
  {
    if !Truthy(overrides) then Object(Spread(base))
    else Object(Spread(base) + Spread(overrides)
      + map["splash" := Object(Spread(Get(base, "splash")) + Spread(Get(overrides, "splash")))])
  }

  /** What `fetch(configPath, { cache: 'no-store' })` came to. */
  datatype FetchOutcome =
    | NetworkError
    | Response(ok: bool, body: Js.Option<Value>)  // `None`: the body is not JSON

  /**
   * `loadConfig(configPath)` (the same function in `src/app.js` and
   * `src/web.js`): the parsed file, or `undefined` when there is no path,
   * the fetch fails, the response is not ok or the body is not JSON.
   */
  function LoadConfig(configPath: string, fetch: FetchOutcome): (r: Value)
    ensures configPath == "" ==> r == Undefined
    ensures configPath != "" && fetch.Response? && fetch.ok && fetch.body.Some? ==> r == fetch.body.value
    ensures !(configPath != "" && fetch.Response? && fetch.ok && fetch.body.Some?) ==> r == Undefined
  {
    if configPath == "" then Undefined
    else match fetch
      case NetworkError => Undefined
      case Response(ok, body) => if !ok then Undefined else if body.None? then Undefined else body.value
  }

  /* ---------------------------------------------------------------- */
  /* Properties                                                       */
  /* ---------------------------------------------------------------- */

  /** A missing configuration on either side merges exactly like `{}`. */
  lemma MissingMergesAsEmpty(fileConfig: Value, ctorConfig: Value)
    requires !Truthy(fileConfig)
    ensures MergeConfigs(fileConfig, ctorConfig) == MergeConfigs(EmptyObject, ctorConfig)
    ensures MergeConfigs(ctorConfig, fileConfig) == MergeConfigs(ctorConfig, EmptyObject)
  {
  }

  /** A key the constructor gives wins; a key only the file gives is kept. */
  lemma OverrideWins(fileConfig: Value, ctorConfig: Value, k: string)
    requires k != "splash"
    ensures var m := MergeConfigs(fileConfig, ctorConfig).fields;
      (k in Spread(ctorConfig) ==> k in m && m[k] == Spread(ctorConfig)[k])
      && (k !in Spread(ctorConfig) && k in Spread(fileConfig) ==> k in m && m[k] == Spread(fileConfig)[k])
      && (k in m <==> k in Spread(fileConfig) || k in Spread(ctorConfig))
  {
    var m := MergeConfigs(fileConfig, ctorConfig).fields;
    var under, over := Spread(fileConfig) - {"splash"}, Spread(ctorConfig) - {"splash"};
    assert Overlays(m - {"splash"}, under, over);
    assert k in m <==> k in m - {"splash"};
    assert k in Spread(ctorConfig) <==> k in over;
    assert k in Spread(fileConfig) <==> k in under;
  }

  /** Merging over nothing, or nothing over a configuration, keeps its keys. */
  lemma MergeWithNothing(config: Value)
    requires config.Object?
    ensures var m := MergeConfigs(config, Undefined).fields;
      forall k :: k != "splash" ==> (k in m <==> k in config.fields) && (k in m ==> m[k] == config.fields[k])
    ensures var m := MergeConfigs(Undefined, config).fields;
      forall k :: k != "splash" ==> (k in m <==> k in config.fields) && (k in m ==> m[k] == config.fields[k])
  {
    forall k | k != "splash"
      ensures var m := MergeConfigs(config, Undefined).fields;
        (k in m <==> k in config.fields) && (k in m ==> m[k] == config.fields[k])
    {
      OverrideWins(config, Undefined, k);
    }
    forall k | k != "splash"
      ensures var m := MergeConfigs(Undefined, config).fields;
        (k in m <==> k in config.fields) && (k in m ==> m[k] == config.fields[k])
    {
      OverrideWins(Undefined, config, k);
    }
  }

  /** Merging the constructor configuration in a second time changes nothing. */
  lemma MergeAbsorbs(fileConfig: Value, ctorConfig: Value)
    ensures var m := MergeConfigs(fileConfig, ctorConfig);
      MergeConfigs(m, ctorConfig) == m
  {
    var m := MergeConfigs(fileConfig, ctorConfig);
    var m2 := MergeConfigs(m, ctorConfig);
    OverlayAgain(m.fields - {"splash"}, Spread(fileConfig) - {"splash"}, Spread(ctorConfig) - {"splash"}, m2.fields - {"splash"});
    OverlayAgain(SplashOf(m), SplashOf(fileConfig), SplashOf(ctorConfig), SplashOf(m2));
    SameParts(m.fields, m2.fields, "splash");
  }

  /** Overlaying `over` a second time adds nothing. */
  lemma OverlayAgain(m: map<string, Value>, under: map<string, Value>, over: map<string, Value>, m2: map<string, Value>)
    requires Overlays(m, under, over) && Overlays(m2, m, over)
    ensures m2 == m
  {
    assert m2.Keys == m.Keys;
  }

  lemma SameParts(a: map<string, Value>, b: map<string, Value>, key: string)
    requires key in a && key in b && a[key] == b[key] && a - {key} == b - {key}
    ensures a == b
  {
    assert a.Keys == b.Keys by {
      forall k ensures k in a <==> k in b {
        if k != key { assert k in a <==> k in a - {key}; assert k in b <==> k in b - {key}; }
      }
    }
    forall k | k in a ensures a[k] == b[k] {
      if k != key { assert a[k] == (a - {key})[k]; assert b[k] == (b - {key})[k]; }
    }
  }
}
