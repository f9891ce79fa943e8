/**
 * The Vite plugin (`src/vite.js`): at build start it finds the installed
 * `discoui` package by walking up from a start directory, and it adds a
 * stylesheet link for `discoui.css` to `index.html`.
 *
 * A directory is the list of its path segments from the filesystem
 * root (`[]`), so `path.dirname` drops the last segment and reaches a
 * fixed point at the root, and `path.resolve(dir, 'node_modules',
 * 'discoui')` appends two segments. Which paths exist is an input.
 */
module VitePlugin {
  import opened Js
  import opened Text

  /** An absolute path, as its segments below the root. */
  type Path = seq<string>

  /** `path.dirname`: the parent directory; the root is its own parent. */
  function Dirname(p: Path): (r: Path)
    ensures p == [] ==> r == []
    ensures p != [] ==> |r| == |p| - 1 && p == r + [p[|p| - 1]]
  {
    if p == [] then [] else p[..|p| - 1]
  }

  /** `path.resolve(dir, 'node_modules', 'discoui')`. */
  function Candidate(dir: Path): Path {
    dir + ["node_modules", "discoui"]
  }

  /**
   * Where `findDiscoUIRoot(dir)` ends: the candidate of `dir` itself if it
   * exists, otherwise that of the nearest ancestor, otherwise none.
   */
  function NearestRoot(dir: Path, existing: set<Path>): (r: Option<Path>)
    ensures r.Some? ==> r.value in existing
    decreases |dir|
  {
    if Candidate(dir) in existing then Some(Candidate(dir))
    else if Dirname(dir) == dir then None
    else NearestRoot(Dirname(dir), existing)
  }

  /** `findDiscoUIRoot(startDir)`: walk up until a candidate exists or the root has been tried. */
  method FindDiscoUIRoot(startDir: Path, existing: set<Path>) returns (r: Option<Path>)
    ensures r == NearestRoot(startDir, existing)
  {
    var current := startDir;
    while true
      invariant NearestRoot(current, existing) == NearestRoot(startDir, existing)
      decreases |current|
    {
      var candidate := Candidate(current);
      if candidate in existing {
        return Some(candidate);
      }
      var parent := Dirname(current);
      if parent == current {
        break;
      }
      current := parent;
    }
    return None;
  }

  /** Why `buildStart` stops the build. */
  datatype BuildError = PackageNotFound | AssetsMissing

  /** The two files `buildStart` reads. */
  datatype Assets = Assets(css: Path, js: Path)

  /** The package root `buildStart` settles on: from the working directory, else the plugin's directory, else its parent. */
  function PackageRoot(rootDir: Path, pluginDir: Path, existing: set<Path>): (r: Option<Path>)
    ensures r.Some? ==> r.value in existing
    ensures r.None? ==> NearestRoot(rootDir, existing).None? && NearestRoot(pluginDir, existing).None?
  {
    var fromRoot := NearestRoot(rootDir, existing);
    if fromRoot.Some? then fromRoot
    else
      var fromPlugin := NearestRoot(pluginDir, existing);
      if fromPlugin.Some? then fromPlugin else NearestRoot(Dirname(pluginDir), existing)
  }

  /** The assets under a package root. */
  function AssetsOf(root: Path): Assets {
    Assets(root + ["dist", "discoui.css"], root + ["dist", "discoui.mjs"])
  }

  /**
   * The decisions of `buildStart`: locate the package and check that both
   * built assets exist; the files are then read from the paths returned.
   */
  method BuildStart(rootDir: Path, pluginDir: Path, existing: set<Path>) returns (r: Result<Assets, BuildError>)
    ensures r == Err(PackageNotFound) <==> PackageRoot(rootDir, pluginDir, existing).None?
    ensures r.Ok? ==>
      && PackageRoot(rootDir, pluginDir, existing).Some?
      && r.value == AssetsOf(PackageRoot(rootDir, pluginDir, existing).value)
      && r.value.css in existing && r.value.js in existing
    ensures r == Err(AssetsMissing) ==>
      && PackageRoot(rootDir, pluginDir, existing).Some?
      && var a := AssetsOf(PackageRoot(rootDir, pluginDir, existing).value);
        a.css !in existing || a.js !in existing
  {
    var root := FindDiscoUIRoot(rootDir, existing);
    if root.None? {
      root := FindDiscoUIRoot(pluginDir, existing);
    }
    if root.None? {
      root := FindDiscoUIRoot(Dirname(pluginDir), existing);
    }
    if root.None? {
      return Err(PackageNotFound);
    }
    var cssPath := root.value + ["dist", "discoui.css"];
    var jsPath := root.value + ["dist", "discoui.mjs"];
    if !(cssPath in existing && jsPath in existing) {
      return Err(AssetsMissing);
    }
    return Ok(Assets(cssPath, jsPath));
  }

  /* ---------------------------------------------------------------- */
  /* index.html                                                       */
  /* ---------------------------------------------------------------- */

  /** `publicPath` when the plugin options leave it out. */
  const DefaultPublicPath: string := "/"

  /** `const { publicPath = '/' } = options`. */
  function PublicPath(option: Option<string>): (r: string)
    ensures option.None? ==> r == DefaultPublicPath
    ensures option.Some? ==> r == option.value
  {
    option.GetOr(DefaultPublicPath)
  }

  /** The tag the stylesheet is closed by. */
  const HeadClose: string := "</head>"

  /** The href of the injected link. */
  function Href(publicPath: string): string {
    publicPath + "discoui.css"
  }

  /** The line inserted before `</head>`. */
  function LinkLine(href: string): (r: string)
    ensures OccursAt(r, href, 31)
  {
    var r := "  <link rel=\"stylesheet\" href=\"" + href + "\" />\n";
    assert r[31..31 + |href|] == href;
    r
  }

  /** `s.replace(pattern, () => replacement)`: the first occurrence is replaced by the text as it stands. */
  function ReplaceFirst(s: string, pattern: string, replacement: string): (r: string)
    ensures IndexOf(s, pattern).None? ==> r == s
  {
    match IndexOf(s, pattern)
    case None => s
    case Some(i) => s[..i] + replacement + s[i + |pattern|..]
  }

  /**
   * The corrected `transformIndexHtml(html)` (see "Findings" in the
   * README): a page that already names the stylesheet is returned as it
   * is; otherwise the link line goes in, as written, before the first
   * `</head>`, and a page without one is returned as it is.
   */
  function TransformIndexHtml(publicPath: string, html: string): (r: string)
    ensures Contains(html, Href(publicPath)) ==> r == html
    ensures !Contains(html, HeadClose) ==> r == html
    ensures !Contains(html, Href(publicPath)) && Contains(html, HeadClose) ==>
      var i := IndexOf(html, HeadClose).value;
      r == html[..i] + LinkLine(Href(publicPath)) + html[i..]
  {
    var href := Href(publicPath);
    if Contains(html, href) then html
    else
      var r := ReplaceFirst(html, HeadClose, LinkLine(href) + HeadClose);
      if IndexOf(html, HeadClose).Some? then
        var i := IndexOf(html, HeadClose).value;
        assert html[i..] == HeadClose + html[i + |HeadClose|..];
        r
      else r
  }

  /** `s.replace(pattern, replacement)` with a string replacement, patterns expanded. */
  function ReplaceFirstExpanding(s: string, pattern: string, replacement: string): (r: string)
    ensures IndexOf(s, pattern).None? ==> r == s
  {
    match IndexOf(s, pattern)
    case None => s
    case Some(i) => s[..i] + Expand(replacement, s[..i], pattern, s[i + |pattern|..]) + s[i + |pattern|..]
  }

  /**
   * `transformIndexHtml` as written: the link line is passed to `replace`
   * as a replacement string, so `$` patterns in it are expanded.
   */
  function TransformIndexHtmlAsWritten(publicPath: string, html: string): (r: string)
    ensures Contains(html, Href(publicPath)) ==> r == html
    ensures !Contains(html, HeadClose) ==> r == html
  {
    var href := Href(publicPath);
    if Contains(html, href) then html
    else ReplaceFirstExpanding(html, HeadClose, LinkLine(href) + HeadClose)
  }

  /* ---------------------------------------------------------------- */
  /* Properties                                                       */
  /* ---------------------------------------------------------------- */

  /** Where `findDiscoUIRoot` stops is a prefix of the start directory. */
  predicate IsAncestor(a: Path, dir: Path) {
    |a| <= |dir| && a == dir[..|a|]
  }

  /**
   * `findDiscoUIRoot(dir)` finds the candidate of the nearest directory,
   * from `dir` up to the root, whose candidate exists, and finds none
   * exactly when no such directory exists.
   */
  lemma {:induction false} NearestRootIsNearest(dir: Path, existing: set<Path>) returns (k: nat)
    ensures var r := NearestRoot(dir, existing);
      && (r.Some? ==> k <= |dir| && r.value == Candidate(dir[..k]) && r.value in existing)
      && (r.Some? ==> forall j :: k < j <= |dir| ==> Candidate(dir[..j]) !in existing)
      && (r.None? ==> forall j :: 0 <= j <= |dir| ==> Candidate(dir[..j]) !in existing)
    decreases |dir|
  {
    assert dir[..|dir|] == dir;
    if Candidate(dir) in existing {
      k := |dir|;
    } else if Dirname(dir) == dir {
      assert dir == [];
      k := 0;
    } else {
      var parent := Dirname(dir);
      k := NearestRootIsNearest(parent, existing);
      forall j | 0 <= j <= |parent|
        ensures dir[..j] == parent[..j]
      {
      }
    }
  }

  /** The package root is the nearest one above the first start directory that has one. */
  lemma PackageRootFirstFound(rootDir: Path, pluginDir: Path, existing: set<Path>)
    ensures NearestRoot(rootDir, existing).Some? ==> PackageRoot(rootDir, pluginDir, existing) == NearestRoot(rootDir, existing)
    ensures PackageRoot(rootDir, pluginDir, existing).None? <==>
      NearestRoot(rootDir, existing).None? && NearestRoot(pluginDir, existing).None? && NearestRoot(Dirname(pluginDir), existing).None?
  {
  }

  /** A plugin directory's parent adds nothing: any root above it is found from the plugin directory itself. */
  lemma {:induction false} ParentSearchRedundant(pluginDir: Path, existing: set<Path>)
    requires Candidate(pluginDir) !in existing
    ensures NearestRoot(Dirname(pluginDir), existing) == NearestRoot(pluginDir, existing)
  {
    if Dirname(pluginDir) == pluginDir {
      assert pluginDir == [];
    }
  }

  /** By default the link points at `/discoui.css`. */
  lemma DefaultHref()
    ensures Href(PublicPath(None)) == "/discoui.css"
  {
  }

  /** `s` holds `t`, wherever `s` sits between other text. */
  lemma ContainsInMiddle(a: string, s: string, b: string, t: string, j: int)
    requires OccursAt(s, t, j)
    ensures Contains(a + s + b, t)
  {
    var w := a + s + b;
    assert w[|a| + j..|a| + j + |t|] == s[j..j + |t|];
    ContainsAt(w, t, |a| + j);
  }

  /** Transforming a second time changes nothing: the first time either left the page alone or put the href in. */
  lemma TransformIdempotent(publicPath: string, html: string)
    ensures var once := TransformIndexHtml(publicPath, html);
      TransformIndexHtml(publicPath, once) == once
  {
    var href := Href(publicPath);
    var once := TransformIndexHtml(publicPath, html);
    if !Contains(html, href) && Contains(html, HeadClose) {
      var i := IndexOf(html, HeadClose).value;
      ContainsInMiddle(html[..i], LinkLine(href), html[i..], href, 31);
    }
  }

  /** The fixed text of the link line holds no `$`. */
  lemma LinkLineDollars(href: string)
    ensures '$' in LinkLine(href) + HeadClose <==> '$' in href
  {
    var r := LinkLine(href) + HeadClose;
    var a, c := "  <link rel=\"stylesheet\" href=\"", "\" />\n" + HeadClose;
    assert r == a + href + c;
    assert '$' !in a && '$' !in c;
  }

  /** With a `publicPath` free of `$`, the code as written does what was intended. */
  lemma AsWrittenAgreesWithoutDollar(publicPath: string, html: string)
    requires '$' !in publicPath
    ensures TransformIndexHtmlAsWritten(publicPath, html) == TransformIndexHtml(publicPath, html)
  {
    var href := Href(publicPath);
    LinkLineDollars(href);
    assert '$' !in "discoui.css";
    assert '$' !in href;
    match IndexOf(html, HeadClose)
    case None =>
    case Some(i) =>
      ExpandWithoutDollar(LinkLine(href) + HeadClose, html[..i], HeadClose, html[i + |HeadClose|..]);
  }

  /**
   * A `publicPath` of `$'` shows the code as written misbehaving: on
   * `</head>` the `$'` expands to the (empty) rest of the page, so the
   * link points at `discoui.css` instead, and since the page still does
   * not name `$'discoui.css` a second run injects a second link.
   */
  lemma DollarPublicPathCounterexample()
    ensures var once := TransformIndexHtmlAsWritten("$'", HeadClose);
      && once == LinkLine("discoui.css") + HeadClose
      && TransformIndexHtmlAsWritten("$'", once) != once
  {
    var a, c := SplitLink("$'", "discoui.css");
    FirstRunDrops("$'", a, c);
    SecondRunGrows(a + c, a, c, Href("$'"));
  }

  /** On `</head>` alone, the `$'` link line loses its `$'`. */
  lemma FirstRunDrops(pub: string, a: string, c: string)
    requires pub == "$'"
    requires LinkLine(Href(pub)) + HeadClose == a + pub + c && '$' !in a && '$' !in c
    ensures TransformIndexHtmlAsWritten(pub, HeadClose) == a + c
  {
    var href := Href(pub);
    assert href[0] == '$';
    assert !Contains(HeadClose, href) by { MissingCharNotContained(HeadClose, href, '$'); }
    assert IndexOf(HeadClose, HeadClose) == Some(0) by { assert StartsWith(HeadClose, HeadClose); }
    ReplaceFirstExpandingAt(HeadClose, HeadClose, LinkLine(href) + HeadClose, 0);
    ExpandQuote(a, c, [], HeadClose, []);
  }

  /** `replace` with a replacement string substitutes the expanded replacement for the first match. */
  lemma ReplaceFirstExpandingAt(s: string, pattern: string, replacement: string, i: nat)
    requires IndexOf(s, pattern) == Some(i)
    ensures i + |pattern| <= |s| && s[..i] + s[i..i + |pattern|] + s[i + |pattern|..] == s
    ensures ReplaceFirstExpanding(s, pattern, replacement)
      == s[..i] + Expand(replacement, s[..i], pattern, s[i + |pattern|..]) + s[i + |pattern|..]
  {
    assert s[..i] + s[i..i + |pattern|] + s[i + |pattern|..] == s;
  }

  /** The link line for `p + q` around its `p`, and the link line for `q` alone. */
  lemma SplitLink(p: string, q: string) returns (a: string, c: string)
    requires '$' !in q
    ensures LinkLine(p + q) + HeadClose == a + p + c
    ensures LinkLine(q) + HeadClose == a + c
    ensures '$' !in a && '$' !in c && |a| > |HeadClose|
    ensures OccursAt(c, HeadClose, |c| - |HeadClose|)
  {
    a := "  <link rel=\"stylesheet\" href=\"";
    var d := "\" />\n" + HeadClose;
    c := q + d;
    assert '$' !in d;
    assert c[|c| - |HeadClose|..] == HeadClose;
  }

  /** On a page that holds `</head>` but not the href, the `$'` link line is inserted again. */
  lemma SecondRunGrows(once: string, a: string, c: string, href: string)
    requires once == a + c && '$' !in a && '$' !in c && |a| > |HeadClose|
    requires OccursAt(c, HeadClose, |c| - |HeadClose|)
    requires href == Href("$'") && LinkLine(href) + HeadClose == a + "$'" + c
    ensures TransformIndexHtmlAsWritten("$'", once) != once
  {
    assert !Contains(once, href) by { MissingCharNotContained(once, href, '$'); }
    ContainsInMiddle(a, c, [], HeadClose, |c| - |HeadClose|);
    assert a + c + [] == once;
    var i := IndexOf(once, HeadClose).value;
    var tail := once[i + |HeadClose|..];
    ExpandQuote(a, c, once[..i], HeadClose, tail);
    var twice := TransformIndexHtmlAsWritten("$'", once);
    assert twice == once[..i] + (a + tail + c) + tail;
  }
}
