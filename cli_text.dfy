/**
 * The text helpers of the `dui` command-line tool: turning an app name
 * into a directory slug, recognising theme and first-page template names
 * typed in any case or spelling, the prompt helper that falls back to a
 * default, and the numbered menu that clamps the chosen number.
 */
module CliText {
  import opened Js
  import opened Text

  /* ---------------------------------------------------------------- */
  /* slugify                                                          */
  /* ---------------------------------------------------------------- */

  const DefaultSlug: string := "disco-app"

  /** Letters, digits and single hyphens, in any arrangement. */
  predicate SlugShaped(t: string) {
    && (forall i :: 0 <= i < |t| ==> IsSlugChar(t[i]) || t[i] == '-')
    && (forall i :: 0 <= i < |t| - 1 ==> !(t[i] == '-' && t[i + 1] == '-'))
  }

  /** A directory slug: lower-case letters and digits in hyphen-separated groups. */
  predicate IsSlug(t: string) {
    t != [] && SlugShaped(t) && t[0] != '-' && t[|t| - 1] != '-'
  }

  /** The letters and digits of `s`, in order. */
  function SlugChars(s: string): (r: string)
    ensures |r| <= |s|
  {
    if s == [] then []
    else (if IsSlugChar(s[0]) then [s[0]] else []) + SlugChars(s[1..])
  }

  /** The slug before the empty-result fallback: trim, lower-case, collapse, strip hyphens. */
  function SlugBody(s: string): string {
    DropWhileEnd(DropWhile(CollapseRuns(Lower(Trim(s)), NonSlug, '-'), Hyphen), Hyphen)
  }

  /** `slugify(value)`. */
  function Slugify(v: JsValue): (r: string)
    ensures r != []
  {
    var body := SlugBody(TextOr(v, ""));
    if body == [] then DefaultSlug else body
  }

  lemma {:induction false} SlugCharsAppend(a: string, b: string)
    ensures SlugChars(a + b) == SlugChars(a) + SlugChars(b)
    decreases |a|
  {
    if a == [] {
      assert a + b == b;
    } else {
      var h := if IsSlugChar(a[0]) then [a[0]] else [];
      assert (a + b)[0] == a[0];
      assert (a + b)[1..] == a[1..] + b;
      assert SlugChars(a + b) == h + SlugChars(a[1..] + b);
      SlugCharsAppend(a[1..], b);
      assert SlugChars(a) == h + SlugChars(a[1..]);
    }
  }

  /** A text has no letters or digits exactly when none of its characters is one. */
  lemma {:induction false} SlugCharsEmpty(s: string)
    ensures SlugChars(s) == [] <==> forall i :: 0 <= i < |s| ==> !IsSlugChar(s[i])
    decreases |s|
  {
    if s != [] {
      SlugCharsEmpty(s[1..]);
      assert forall i :: 1 <= i < |s| ==> s[i] == s[1..][i - 1];
    }
  }

  /** Collapsing non-slug runs into `-` keeps the letters and digits. */
  lemma {:induction false} CollapseKeepsSlugChars(s: string)
    ensures SlugChars(CollapseRuns(s, NonSlug, '-')) == SlugChars(s)
    decreases |s|
  {
    if s != [] {
      CollapseRunsStep(s, NonSlug, '-');
      CollapseKeepsSlugChars(s[1..]);
      var r' := CollapseRuns(s[1..], NonSlug, '-');
      if !(In(NonSlug, s[0]) && |s| > 1 && In(NonSlug, s[1])) {
        var h := if In(NonSlug, s[0]) then '-' else s[0];
        SlugCharsAppend([h], r');
      }
    }
  }

  /** Stripping leading hyphens keeps the letters and digits. */
  lemma StripStartKeepsSlugChars(s: string)
    ensures SlugChars(DropWhile(s, Hyphen)) == SlugChars(s)
  {
    var d := DropWhile(s, Hyphen);
    var pre := s[..|s| - |d|];
    assert s == pre + d;
    SlugCharsAppend(pre, d);
    assert forall i :: 0 <= i < |pre| ==> pre[i] == '-';
    SlugCharsEmpty(pre);
  }

  /** Stripping trailing hyphens keeps the letters and digits. */
  lemma StripEndKeepsSlugChars(s: string)
    ensures SlugChars(DropWhileEnd(s, Hyphen)) == SlugChars(s)
  {
    var e := DropWhileEnd(s, Hyphen);
    var post := s[|e|..];
    assert s == e + post;
    SlugCharsAppend(e, post);
    assert forall i :: 0 <= i < |post| ==> post[i] == '-';
    SlugCharsEmpty(post);
  }

  /** Lower-cased whitespace holds no letter or digit. */
  lemma SpacesHaveNoSlugChars(w: string)
    requires forall i :: 0 <= i < |w| ==> IsSpace(w[i])
    ensures SlugChars(Lower(w)) == []
  {
    forall i | 0 <= i < |w|
      ensures !IsSlugChar(Lower(w)[i])
    {
      assert Lower(w)[i] == w[i];
    }
    SlugCharsEmpty(Lower(w));
  }

  lemma SplitThree(s: string, i: nat, j: nat)
    requires i <= j <= |s|
    ensures s == s[..i] + s[i..j] + s[j..]
  {
  }

  lemma SlugCharsLowerAppend3(a: string, m: string, z: string)
    ensures SlugChars(Lower(a + m + z)) == SlugChars(Lower(a)) + SlugChars(Lower(m)) + SlugChars(Lower(z))
  {
    LowerAppend(a + m, z);
    LowerAppend(a, m);
    SlugCharsAppend(Lower(a) + Lower(m), Lower(z));
    SlugCharsAppend(Lower(a), Lower(m));
  }

  /** Trimming before lower-casing drops no letter or digit. */
  lemma TrimKeepsSlugChars(s: string)
    ensures SlugChars(Lower(Trim(s))) == SlugChars(Lower(s))
  {
    var i, j := TrimSlice(s);
    SplitThree(s, i, j);
    SlugCharsLowerAppend3(s[..i], s[i..j], s[j..]);
    SpacesHaveNoSlugChars(s[..i]);
    SpacesHaveNoSlugChars(s[j..]);
  }

  /** The slug body keeps exactly the letters and digits of the lower-cased input. */
  lemma SlugBodyKeepsSlugChars(s: string)
    ensures SlugChars(SlugBody(s)) == SlugChars(Lower(s))
  {
    var c := CollapseRuns(Lower(Trim(s)), NonSlug, '-');
    TrimKeepsSlugChars(s);
    CollapseKeepsSlugChars(Lower(Trim(s)));
    StripStartKeepsSlugChars(c);
    StripEndKeepsSlugChars(DropWhile(c, Hyphen));
  }

  /** Collapsing non-slug runs into `-` leaves only letters, digits and single hyphens. */
  lemma CollapseSlugShaped(l: string)
    ensures SlugShaped(CollapseRuns(l, NonSlug, '-'))
  {
    var c := CollapseRuns(l, NonSlug, '-');
    CollapseRunsShape(l, NonSlug, '-');
    forall i | 0 <= i < |c|
      ensures IsSlugChar(c[i]) || c[i] == '-'
    {
      assert c[i] == '-' || !In(NonSlug, c[i]);
    }
  }

  lemma SlugShapedSlice(c: string, i: nat, j: nat)
    requires SlugShaped(c) && i <= j <= |c|
    ensures SlugShaped(c[i..j])
  {
    var b := c[i..j];
    assert forall m :: 0 <= m < |b| ==> b[m] == c[i + m];
  }

  /** Stripping the hyphens at both ends of a slug-shaped text leaves a slug or nothing. */
  lemma StripGivesSlug(c: string)
    requires SlugShaped(c)
    ensures var b := DropWhileEnd(DropWhile(c, Hyphen), Hyphen); b != [] ==> IsSlug(b)
  {
    var d := DropWhile(c, Hyphen);
    SlugShapedSlice(c, |c| - |d|, |c|);
    StripEndGivesSlug(d);
  }

  lemma StripEndGivesSlug(d: string)
    requires SlugShaped(d) && (d == [] || d[0] != '-')
    ensures var b := DropWhileEnd(d, Hyphen); b != [] ==> IsSlug(b)
  {
    var b := DropWhileEnd(d, Hyphen);
    SlugShapedSlice(d, 0, |b|);
    assert b == d[0..|b|];
  }

  /** A non-empty slug body is a well-formed slug. */
  lemma SlugBodyShape(s: string)
    ensures SlugBody(s) != [] ==> IsSlug(SlugBody(s))
  {
    CollapseSlugShaped(Lower(Trim(s)));
    StripGivesSlug(CollapseRuns(Lower(Trim(s)), NonSlug, '-'));
  }

  lemma DefaultSlugIsSlug()
    ensures IsSlug(DefaultSlug)
  {
    var t := DefaultSlug;
    forall i | 0 <= i < |t|
      ensures IsSlugChar(t[i]) || t[i] == '-'
    {
      assert t[i] in "disco-app";
    }
  }

  /** `slugify` always yields a well-formed slug. */
  lemma SlugifyIsSlug(v: JsValue)
    ensures IsSlug(Slugify(v))
  {
    SlugBodyShape(TextOr(v, ""));
    DefaultSlugIsSlug();
  }

  /**
   * The slug keeps the letters and digits of the lower-cased input in
   * order, and falls back to `disco-app` exactly when the input has none.
   */
  lemma SlugifyKeepsLettersAndDigits(v: JsValue)
    ensures SlugChars(Lower(TextOr(v, ""))) == [] ==> Slugify(v) == DefaultSlug
    ensures SlugChars(Lower(TextOr(v, ""))) != [] ==>
      SlugChars(Slugify(v)) == SlugChars(Lower(TextOr(v, "")))
  {
    var s := TextOr(v, "");
    SlugBodyKeepsSlugChars(s);
    SlugBodyShape(s);
    var b := SlugBody(s);
    if b != [] {
      SlugCharsEmpty(b);
    }
  }

  /** A text without upper-case letters is its own lower-case form. */
  lemma LowerNoUpper(t: string)
    requires forall i :: 0 <= i < |t| ==> !IsUpper(t[i])
    ensures Lower(t) == t
  {
  }

  /** A well-formed slug is its own slug. */
  lemma SlugifyFixpoint(t: string)
    requires IsSlug(t)
    ensures Slugify(Str(t)) == t
  {
    assert TextOr(Str(t), "") == t;
    SlugBodyOfSlug(t);
  }

  /** Each step of the slug body leaves a slug as it is. */
  lemma SlugBodyOfSlug(t: string)
    requires IsSlug(t)
    ensures SlugBody(t) == t
  {
    SlugTrimmed(t);
    SlugLowered(t);
    SlugShapedCollapsed(t);
    HyphenFreeEnds(t);
  }

  lemma SlugTrimmed(t: string)
    requires IsSlug(t)
    ensures Trim(t) == t
  {
    assert !IsSpace(t[0]) && !IsSpace(t[|t| - 1]);
    TrimNoSpaceEnds(t);
  }

  lemma SlugLowered(t: string)
    requires SlugShaped(t)
    ensures Lower(t) == t
  {
    LowerNoUpper(t);
  }

  /** Stripping hyphens leaves a text that neither starts nor ends with one. */
  lemma HyphenFreeEnds(t: string)
    requires t != [] && t[0] != '-' && t[|t| - 1] != '-'
    ensures DropWhileEnd(DropWhile(t, Hyphen), Hyphen) == t
  {
    assert DropWhile(t, Hyphen) == t;
    assert DropWhileEnd(t, Hyphen) == t;
  }

  /** Collapsing leaves a slug-shaped text as it is: its only non-slug characters are single hyphens. */
  lemma SlugShapedCollapsed(t: string)
    requires SlugShaped(t)
    ensures CollapseRuns(t, NonSlug, '-') == t
  {
    CollapseRunsFixpoint(t, NonSlug, '-');
  }

  /** `slugify(slugify(x)) === slugify(x)`. */
  lemma SlugifyIdempotent(v: JsValue)
    ensures Slugify(Str(Slugify(v))) == Slugify(v)
  {
    SlugifyIsSlug(v);
    SlugifyFixpoint(Slugify(v));
  }

  /* ---------------------------------------------------------------- */
  /* normalizeTheme / normalizePage                                   */
  /* ---------------------------------------------------------------- */

  const ThemeOptions: seq<string> := ["auto", "dark", "light"]

  const ListView: string := "single page + list view"
  const PageOptions: seq<string> := ["page", "single page", "pivot", "hub", ListView]

  /** `normalizeTheme(value)`: `None` stands for the source's `null`. */
  function NormalizeTheme(v: JsValue): (r: Option<string>)
    ensures r.Some? ==> r.value in ThemeOptions
  {
    if !Truthy(v) then None
    else
      var n := Lower(Trim(ToStr(v)));
      if n in ThemeOptions then Some(n) else None
  }

  lemma LowerIdempotent(s: string)
    ensures Lower(Lower(s)) == Lower(s)
  {
  }

  /** Lower-casing neither creates nor removes whitespace at the ends. */
  lemma TrimLower(s: string)
    ensures Trim(Lower(Trim(s))) == Lower(Trim(s))
  {
    var t := Trim(s);
    TrimNoSpaceEnds(Lower(t));
  }

  /** Theme names are recognised regardless of case and surrounding whitespace. */
  lemma NormalizeThemeInsensitive(s: string)
    ensures NormalizeTheme(Str(s)) == NormalizeTheme(Str(Lower(Trim(s))))
  {
    if Lower(Trim(s)) == [] {
      BlankThemeText(s);
    } else {
      WordThemeText(s);
    }
  }

  lemma BlankThemeText(s: string)
    requires Lower(Trim(s)) == []
    ensures NormalizeTheme(Str(s)) == None == NormalizeTheme(Str(Lower(Trim(s))))
  {
    NormalizeThemeText(s);
    assert ThemeNamed([]) == None;
  }

  lemma WordThemeText(s: string)
    requires Lower(Trim(s)) != []
    ensures NormalizeTheme(Str(s)) == NormalizeTheme(Str(Lower(Trim(s))))
  {
    var n := Lower(Trim(s));
    NormalizeThemeText(s);
    NormalizeThemeText(n);
    TrimLower(s);
    LowerIdempotent(Trim(s));
    assert Lower(Trim(n)) == n;
  }

  lemma NormalizeThemeText(s: string)
    ensures NormalizeTheme(Str(s)) == if s == [] then None else ThemeNamed(Lower(Trim(s)))
  {
  }

  /** The theme a cleaned, non-empty name selects. */
  function ThemeNamed(n: string): Option<string> {
    if n in ThemeOptions then Some(n) else None
  }

  /** Every listed theme is accepted as itself, so normalising twice changes nothing. */
  lemma NormalizeThemeCanonical(v: JsValue)
    ensures forall o :: o in ThemeOptions ==> NormalizeTheme(Str(o)) == Some(o)
    ensures NormalizeTheme(v).Some? ==> NormalizeTheme(Str(NormalizeTheme(v).value)) == NormalizeTheme(v)
  {
    forall o | o in ThemeOptions
      ensures NormalizeTheme(Str(o)) == Some(o)
    {
      ThemeIsClean(o);
    }
  }

  lemma ThemeIsClean(o: string)
    requires o in ThemeOptions
    ensures o != "" && Lower(Trim(o)) == o
  {
    assert o != [] && 'a' <= o[0] <= 'z' && 'a' <= o[|o| - 1] <= 'z';
    TrimNoSpaceEnds(o);
    assert forall i :: 0 <= i < |o| ==> 'a' <= o[i] <= 'z';
    LowerNoUpper(o);
  }

  /** `.replace(/[+]/g, ' ')`: every `+` becomes a space. */
  function PlusToSpace(s: string): (r: string)
    ensures |r| == |s| && '+' !in r
    ensures forall i :: 0 <= i < |s| ==> r[i] == (if s[i] == '+' then ' ' else s[i])
  {
    seq(|s|, i requires 0 <= i < |s| => if s[i] == '+' then ' ' else s[i])
  }

  /** The cleaned form `normalizePage` compares against the template names. */
  function CleanPage(s: string): string {
    CollapseRuns(CollapseRuns(PlusToSpace(Lower(Trim(s))), HyphenOrUnderscore, ' '), Whitespace, ' ')
  }

  /** `normalizePage(value)`: `None` stands for the source's `null`. */
  function NormalizePage(v: JsValue): (r: Option<string>)
    ensures r.Some? ==> r.value in PageOptions
  {
    if !Truthy(v) then None
    else
      var cleaned := CleanPage(ToStr(v));
      if cleaned == "single page list view" || cleaned == ListView then Some(ListView)
      else if cleaned in PageOptions then Some(cleaned)
      else None
  }

  /**
   * The cleaned text never holds a `+`, so of the two spellings the
   * source compares against for the list-view template only the one
   * without `+` can ever match.
   */
  lemma CleanPageHasNoPlus(s: string)
    ensures '+' !in CleanPage(s)
  {
    var p := PlusToSpace(Lower(Trim(s)));
    var h := CollapseRuns(p, HyphenOrUnderscore, ' ');
    CollapseRunsShape(p, HyphenOrUnderscore, ' ');
    CollapseRunsShape(h, Whitespace, ' ');
  }

  /** Lower-case words separated by single spaces: the form template names take. */
  predicate IsWordText(s: string) {
    && s != [] && s[0] != ' ' && s[|s| - 1] != ' '
    && (forall i :: 0 <= i < |s| ==> 'a' <= s[i] <= 'z' || s[i] == ' ')
    && (forall i :: 0 <= i < |s| - 1 ==> !(s[i] == ' ' && s[i + 1] == ' '))
  }

  /** The characters `normalizePage` turns into word separators. */
  predicate IsSeparator(c: char) {
    c == '+' || c == '-' || c == '_' || IsSpace(c)
  }

  /** Collapsing either class leaves word text as it is. */
  lemma WordTextFixpoint(s: string)
    requires IsWordText(s)
    ensures CollapseRuns(s, HyphenOrUnderscore, ' ') == s
    ensures CollapseRuns(s, Whitespace, ' ') == s
  {
    CollapseRunsFixpoint(s, HyphenOrUnderscore, ' ');
    assert forall i :: 0 <= i < |s| && IsSpace(s[i]) ==> s[i] == ' ';
    CollapseRunsFixpoint(s, Whitespace, ' ');
  }

  /** The facts about word text the cleaning steps rely on, one by one. */
  lemma WordTextFacts(s: string)
    requires IsWordText(s)
    ensures !IsSpace(s[0]) && !IsSpace(s[|s| - 1])
    ensures forall i :: 0 <= i < |s| ==> !IsUpper(s[i])
    ensures '+' !in s
    ensures !In(HyphenOrUnderscore, s[0]) && !In(HyphenOrUnderscore, s[|s| - 1])
    ensures CollapseRuns(s, HyphenOrUnderscore, ' ') == s
    ensures CollapseRuns(s, Whitespace, ' ') == s
  {
    WordTextFixpoint(s);
  }

  /** Trimming, lower-casing and replacing `+` leave word text as it is. */
  lemma WordTextPrepared(s: string)
    requires s != [] && !IsSpace(s[0]) && !IsSpace(s[|s| - 1])
    requires forall i :: 0 <= i < |s| ==> !IsUpper(s[i])
    requires '+' !in s
    ensures PlusToSpace(Lower(Trim(s))) == s
  {
    TrimNoSpaceEnds(s);
    LowerNoUpper(s);
    assert PlusToSpace(s) == s;
  }

  /** Word text is its own cleaned form. */
  lemma CleanPageFixpoint(s: string)
    requires IsWordText(s)
    ensures CleanPage(s) == s
  {
    WordTextFacts(s);
    WordTextPrepared(s);
  }

  /** A run of whitespace before a non-space collapses to one space. */
  lemma {:induction false} SpacesCollapse(q: string, b: string)
    requires q != [] && forall i :: 0 <= i < |q| ==> IsSpace(q[i])
    requires b == [] || !IsSpace(b[0])
    ensures CollapseRuns(q + b, Whitespace, ' ') == [' '] + CollapseRuns(b, Whitespace, ' ')
    decreases |q|
  {
    var s := q + b;
    assert s[0] == q[0] && s[1..] == q[1..] + b;
    CollapseRunsStep(s, Whitespace, ' ');
    if |q| == 1 {
      assert q[1..] + b == b;
    } else {
      assert s[1] == q[1];
      SpacesCollapse(q[1..], b);
    }
  }

  /**
   * A run of separators, once `+` has become a space, turns into a run of
   * whitespace when hyphen/underscore runs are replaced by one space.
   */
  lemma {:induction false} SeparatorsToSpaces(p: string, b: string) returns (q: string)
    requires p != [] && forall i :: 0 <= i < |p| ==> In(HyphenOrUnderscore, p[i]) || IsSpace(p[i])
    requires b == [] || !In(HyphenOrUnderscore, b[0])
    ensures q != [] && forall i :: 0 <= i < |q| ==> IsSpace(q[i])
    ensures CollapseRuns(p + b, HyphenOrUnderscore, ' ') == q + CollapseRuns(b, HyphenOrUnderscore, ' ')
    decreases |p|
  {
    var s := p + b;
    var y := CollapseRuns(b, HyphenOrUnderscore, ' ');
    assert s[0] == p[0] && s[1..] == p[1..] + b;
    CollapseRunsStep(s, HyphenOrUnderscore, ' ');
    var h := if In(HyphenOrUnderscore, p[0]) then ' ' else p[0];
    if |p| == 1 {
      assert p[1..] + b == b;
      q := [h];
    } else {
      assert s[1] == p[1];
      var q' := SeparatorsToSpaces(p[1..], b);
      if In(HyphenOrUnderscore, p[0]) && In(HyphenOrUnderscore, p[1]) {
        q := q';
      } else {
        q := [h] + q';
        assert [h] + (q' + y) == q + y;
      }
    }
  }

  lemma PlusToSpaceAppend3(a: string, r: string, b: string)
    requires '+' !in a && '+' !in b
    ensures PlusToSpace(a + r + b) == a + PlusToSpace(r) + b
  {
    assert PlusToSpace(a) == a;
    assert PlusToSpace(b) == b;
    var s := a + r + b;
    assert forall i :: 0 <= i < |s| ==> PlusToSpace(s)[i] == (a + PlusToSpace(r) + b)[i];
  }

  lemma NoUpperAppend3(a: string, r: string, b: string)
    requires forall i :: 0 <= i < |a| ==> !IsUpper(a[i])
    requires forall i :: 0 <= i < |r| ==> !IsUpper(r[i])
    requires forall i :: 0 <= i < |b| ==> !IsUpper(b[i])
    ensures Lower(a + r + b) == a + r + b
  {
    LowerNoUpper(a);
    LowerNoUpper(r);
    LowerNoUpper(b);
    LowerAppend(a + r, b);
    LowerAppend(a, r);
  }

  /** Word text, a separator run, word text: the trimmed, lower-cased, `+`-free form. */
  lemma JoinedPrepared(a: string, r: string, b: string)
    requires a != [] && b != [] && !IsSpace(a[0]) && !IsSpace(b[|b| - 1])
    requires forall i :: 0 <= i < |a| ==> !IsUpper(a[i])
    requires forall i :: 0 <= i < |r| ==> !IsUpper(r[i])
    requires forall i :: 0 <= i < |b| ==> !IsUpper(b[i])
    requires '+' !in a && '+' !in b
    ensures PlusToSpace(Lower(Trim(a + r + b))) == a + PlusToSpace(r) + b
  {
    var s := a + r + b;
    assert s[0] == a[0] && s[|s| - 1] == b[|b| - 1];
    TrimNoSpaceEnds(s);
    NoUpperAppend3(a, r, b);
    PlusToSpaceAppend3(a, r, b);
  }

  /** What a separator run looks like before and after `+` becomes a space. */
  lemma SeparatorFacts(r: string)
    requires forall i :: 0 <= i < |r| ==> IsSeparator(r[i])
    ensures forall i :: 0 <= i < |r| ==> !IsUpper(r[i])
    ensures forall i :: 0 <= i < |PlusToSpace(r)| ==>
      In(HyphenOrUnderscore, PlusToSpace(r)[i]) || IsSpace(PlusToSpace(r)[i])
  {
  }

  /** Hyphen/underscore runs between two words become whitespace runs. */
  lemma HyphenRunsBetween(a: string, p: string, b: string) returns (q: string)
    requires a != [] && !In(HyphenOrUnderscore, a[|a| - 1]) && CollapseRuns(a, HyphenOrUnderscore, ' ') == a
    requires b != [] && !In(HyphenOrUnderscore, b[0]) && CollapseRuns(b, HyphenOrUnderscore, ' ') == b
    requires p != [] && forall i :: 0 <= i < |p| ==> In(HyphenOrUnderscore, p[i]) || IsSpace(p[i])
    ensures q != [] && forall i :: 0 <= i < |q| ==> IsSpace(q[i])
    ensures CollapseRuns(a + p + b, HyphenOrUnderscore, ' ') == a + q + b
  {
    CollapseRunsAppend(a, p + b, HyphenOrUnderscore, ' ');
    q := SeparatorsToSpaces(p, b);
    assert a + p + b == a + (p + b);
    assert a + (q + b) == a + q + b;
  }

  /** A whitespace run between two words becomes one space. */
  lemma SpaceRunBetween(a: string, q: string, b: string)
    requires a != [] && !IsSpace(a[|a| - 1]) && CollapseRuns(a, Whitespace, ' ') == a
    requires b != [] && !IsSpace(b[0]) && CollapseRuns(b, Whitespace, ' ') == b
    requires q != [] && forall i :: 0 <= i < |q| ==> IsSpace(q[i])
    ensures CollapseRuns(a + q + b, Whitespace, ' ') == a + " " + b
  {
    var qb := q + b;
    assert a + q + b == a + qb;
    AppendAfterWord(a, qb);
    SpacesCollapse(q, b);
  }

  /** Collapsing after a collapsed word ending outside the whitespace class keeps the word. */
  lemma AppendAfterWord(a: string, s: string)
    requires a != [] && !IsSpace(a[|a| - 1]) && CollapseRuns(a, Whitespace, ' ') == a
    ensures CollapseRuns(a + s, Whitespace, ' ') == a + CollapseRuns(s, Whitespace, ' ')
  {
    CollapseRunsAppend(a, s, Whitespace, ' ');
  }

  /**
   * Any non-empty run of spaces, hyphens, underscores and pluses between
   * two template words becomes a single space.
   */
  lemma CleanJoinsWords(a: string, r: string, b: string)
    requires IsWordText(a) && IsWordText(b)
    requires r != [] && forall i :: 0 <= i < |r| ==> IsSeparator(r[i])
    ensures CleanPage(a + r + b) == a + " " + b
  {
    WordTextFacts(a);
    WordTextFacts(b);
    SeparatorFacts(r);
    JoinedPrepared(a, r, b);
    var q := HyphenRunsBetween(a, PlusToSpace(r), b);
    SpaceRunBetween(a, q, b);
  }

  /** The words of `single page`, as word texts. */
  lemma SinglePageWords() returns (a: string, b: string)
    ensures a == "single" && b == "page" && a + " " + b == "single page"
    ensures IsWordText(a) && IsWordText(b)
  {
    a, b := "single", "page";
  }

  /** The words of the list-view template, as word texts. */
  lemma ListViewWords() returns (a: string, b: string)
    ensures a == "single page" && b == "list view"
    ensures a + " + " + b == ListView && a + " " + b == "single page list view"
    ensures IsWordText(a) && IsWordText(b)
  {
    a, b := "single page", "list view";
  }

  /** The `+` spelling of the list-view template cleans to its plain spelling. */
  lemma ListViewClean(o: string)
    requires o == ListView
    ensures CleanPage(o) == "single page list view"
  {
    var a, b := ListViewWords();
    CleanJoinsWords(a, " + ", b);
  }

  /** Each template name is accepted as itself. */
  lemma NormalizeTemplate(o: string)
    requires o in PageOptions
    ensures NormalizePage(Str(o)) == Some(o)
  {
    if o == ListView {
      NormalizeListView(o);
    } else {
      NormalizeOneWordTemplate(o);
    }
  }

  lemma NormalizeListView(o: string)
    requires o == ListView
    ensures NormalizePage(Str(o)) == Some(o)
  {
    ListViewClean(o);
  }

  lemma NormalizeOneWordTemplate(o: string)
    requires o in PageOptions && o != ListView
    ensures NormalizePage(Str(o)) == Some(o)
  {
    TemplateIsWordText(o);
    NormalizeWordText(o);
  }

  lemma TemplateIsWordText(o: string)
    requires o in PageOptions && o != ListView
    ensures IsWordText(o) && o != "single page list view"
  {
  }

  /** Word text other than the list-view spellings is accepted exactly when it names a template. */
  lemma NormalizeWordText(o: string)
    requires IsWordText(o) && o != "single page list view" && o != ListView
    ensures NormalizePage(Str(o)) == (if o in PageOptions then Some(o) else None)
  {
    CleanPageFixpoint(o);
  }

  /** Every template name is accepted as itself, so normalising twice changes nothing. */
  lemma NormalizePageCanonical(v: JsValue)
    ensures forall o :: o in PageOptions ==> NormalizePage(Str(o)) == Some(o)
    ensures NormalizePage(v).Some? ==> NormalizePage(Str(NormalizePage(v).value)) == NormalizePage(v)
  {
    forall o | o in PageOptions
      ensures NormalizePage(Str(o)) == Some(o)
    {
      NormalizeTemplate(o);
    }
  }

  /**
   * The two-word templates are recognised whatever run of separators
   * stands between their words: `single-page`, `single_page + list view`,
   * `single page list view` and so on.
   */
  lemma NormalizePageSeparators(r: string)
    requires r != [] && forall i :: 0 <= i < |r| ==> IsSeparator(r[i])
    ensures NormalizePage(Str("single" + r + "page")) == Some("single page")
    ensures NormalizePage(Str("single page" + r + "list view")) == Some(ListView)
  {
    SinglePageSeparators(r);
    ListViewSeparators(r);
  }

  lemma SinglePageSeparators(r: string)
    requires r != [] && forall i :: 0 <= i < |r| ==> IsSeparator(r[i])
    ensures NormalizePage(Str("single" + r + "page")) == Some("single page")
  {
    var a, b := SinglePageWords();
    CleanJoinsWords(a, r, b);
  }

  lemma ListViewSeparators(r: string)
    requires r != [] && forall i :: 0 <= i < |r| ==> IsSeparator(r[i])
    ensures NormalizePage(Str("single page" + r + "list view")) == Some(ListView)
  {
    var c, d := ListViewWords();
    CleanJoinsWords(c, r, d);
  }

  /* ---------------------------------------------------------------- */
  /* question / pick                                                  */
  /* ---------------------------------------------------------------- */

  /**
   * `question(rl, text, def)` given the line the user typed: the trimmed
   * answer, or the default when the answer is blank, or `''` when the
   * default is falsy too.
   */
  function Question(answer: string, def: JsValue): (r: JsValue)
    ensures Trim(answer) != "" ==> r == Str(Trim(answer))
    ensures Trim(answer) == "" && Truthy(def) ==> r == def
    ensures Trim(answer) == "" && !Truthy(def) ==> r == Str("")
    ensures Truthy(def) ==> Truthy(r)
  {
    var value := Trim(answer);
    if value != "" then Str(value) else if Truthy(def) then def else Str("")
  }

  /** A JavaScript number, as `Number(answer)` yields it (floating-point rounding aside). */
  datatype Num = Finite(x: real) | PosInfinity | NegInfinity | NaN

  function MinNum(a: real, b: Num): Num {
    match b
    case Finite(x) => Finite(if x < a then x else a)
    case PosInfinity => Finite(a)
    case NegInfinity => NegInfinity
    case NaN => NaN
  }

  function MaxNum(a: real, b: Num): Num {
    match b
    case Finite(x) => Finite(if x > a then x else a)
    case PosInfinity => PosInfinity
    case NegInfinity => Finite(a)
    case NaN => NaN
  }

  function Decrement(b: Num): Num {
    match b
    case Finite(x) => Finite(x - 1.0)
    case _ => b
  }

  /**
   * `pick(rl, text, options, defIndex)` given the number typed at the
   * `Select` prompt (`None` for a blank line, which selects the default).
   * The index `Math.min(len - 1, Math.max(0, n - 1))` reads `undefined`
   * (`None`) unless it is a whole number inside the list.
   */
  function Pick<T>(options: seq<T>, defIndex: nat, answer: Option<Num>): (r: Option<T>)
    ensures r.Some? ==> r.value in options
  {
    var n := answer.GetOr(Finite((defIndex + 1) as real));
    var idx := MinNum((|options| - 1) as real, MaxNum(0.0, Decrement(n)));
    match idx
    case Finite(x) =>
      if x == x.Floor as real && 0 <= x.Floor < |options| then Some(options[x.Floor]) else None
    case _ => None
  }

  /** A number in range selects that (1-based) entry; a number out of range is clamped. */
  lemma PickClamps<T>(options: seq<T>, defIndex: nat, n: int)
    requires options != []
    ensures 1 <= n <= |options| ==> Pick(options, defIndex, Some(Finite(n as real))) == Some(options[n - 1])
    ensures n < 1 ==> Pick(options, defIndex, Some(Finite(n as real))) == Some(options[0])
    ensures n > |options| ==> Pick(options, defIndex, Some(Finite(n as real))) == Some(options[|options| - 1])
    ensures Pick(options, defIndex, Some(PosInfinity)) == Some(options[|options| - 1])
    ensures Pick(options, defIndex, Some(NegInfinity)) == Some(options[0])
  {
    var x := (n - 1) as real;
    assert x.Floor == n - 1;
  }

  /** A blank answer picks the default entry; `NaN` picks nothing. */
  lemma PickDefault<T>(options: seq<T>, defIndex: nat)
    requires defIndex < |options|
    ensures Pick(options, defIndex, None) == Some(options[defIndex])
    ensures Pick(options, defIndex, Some(NaN)) == None
  {
    assert (defIndex as real).Floor == defIndex;
  }

  /** A fraction strictly between two entries selects nothing. */
  lemma PickFraction<T>(options: seq<T>, defIndex: nat)
    requires |options| >= 3
    ensures Pick(options, defIndex, Some(Finite(2.5))) == None
  {
    assert (1.5).Floor == 1;
  }
}
