/**
 * The JavaScript string operations the modelled sources use, on
 * `string == seq<char>`: `trim`, ASCII `toLowerCase`, `startsWith`,
 * `indexOf`/`includes`, the regular-expression rewrite "replace every
 * maximal run of such characters by one character", and `join`/`split`
 * on a one-character separator, and the `$` patterns of a `replace`
 * replacement string.
 */
module Text {
  import opened Js

  /**
   * The characters `String.prototype.trim` removes and `\s` matches:
   * ECMAScript WhiteSpace and LineTerminator code points.
   */
  predicate IsSpace(c: char) {
    c == '\t' || c == '\n' || c == '\U{000B}' || c == '\U{000C}' || c == '\r' || c == ' '
    || c == '\U{00A0}' || c == '\U{1680}' || ('\U{2000}' <= c <= '\U{200A}')
    || c == '\U{2028}' || c == '\U{2029}' || c == '\U{202F}' || c == '\U{205F}'
    || c == '\U{3000}' || c == '\U{FEFF}'
  }

  /** The character classes the modelled regular expressions rewrite. */
  datatype CharClass =
    | Whitespace          // `\s`
    | NonSlug             // `[^a-z0-9]`
    | Hyphen              // `-`
    | HyphenOrUnderscore  // `[-_]`

  predicate IsSlugChar(c: char) { 'a' <= c <= 'z' || '0' <= c <= '9' }

  predicate In(k: CharClass, c: char) {
    match k
    case Whitespace => IsSpace(c)
    case NonSlug => !IsSlugChar(c)
    case Hyphen => c == '-'
    case HyphenOrUnderscore => c == '-' || c == '_'
  }

  predicate IsUpper(c: char) { 'A' <= c <= 'Z' }

  /** `toLowerCase` on one character, restricted to ASCII letters. */
  function LowerChar(c: char): (r: char)
    ensures IsUpper(c) ==> r as int == c as int + 32
    ensures !IsUpper(c) ==> r == c
  {
    if IsUpper(c) then (c as int + 32) as char else c
  }

  function Lower(s: string): (r: string)
    ensures |r| == |s|
    ensures forall i :: 0 <= i < |s| ==> r[i] == LowerChar(s[i])
  {
    seq(|s|, i requires 0 <= i < |s| => LowerChar(s[i]))
  }

  lemma LowerAppend(a: string, b: string)
    ensures Lower(a + b) == Lower(a) + Lower(b)
  {
    assert forall i :: 0 <= i < |a + b| ==> Lower(a + b)[i] == (Lower(a) + Lower(b))[i];
  }

  /** Drops the longest prefix whose characters all satisfy `p`. */
  function DropWhile(s: string, k: CharClass): (r: string)
    ensures |r| <= |s| && r == s[|s| - |r|..]
    ensures r == [] || !In(k, r[0])
    ensures forall i :: 0 <= i < |s| - |r| ==> In(k, s[i])
  {
    if s != [] && In(k, s[0]) then DropWhile(s[1..], k) else s
  }

  /** Drops the longest suffix whose characters all satisfy `p`. */
  function DropWhileEnd(s: string, k: CharClass): (r: string)
    ensures |r| <= |s| && r == s[..|r|]
    ensures r == [] || !In(k, r[|r| - 1])
    ensures forall i :: |r| <= i < |s| ==> In(k, s[i])
  {
    if s != [] && In(k, s[|s| - 1]) then DropWhileEnd(s[..|s| - 1], k) else s
  }

  /** `String.prototype.trim`. */
  function Trim(s: string): (r: string)
    ensures r == [] || (!IsSpace(r[0]) && !IsSpace(r[|r| - 1]))
  {
    DropWhileEnd(DropWhile(s, Whitespace), Whitespace)
  }

  /** Trim removes exactly a whitespace prefix and a whitespace suffix. */
  lemma TrimSlice(s: string) returns (i: nat, j: nat)
    ensures i <= j <= |s| && Trim(s) == s[i..j]
    ensures forall k :: 0 <= k < i ==> IsSpace(s[k])
    ensures forall k :: j <= k < |s| ==> IsSpace(s[k])
  {
    var d := DropWhile(s, Whitespace);
    i := |s| - |d|;
    j := i + |DropWhileEnd(d, Whitespace)|;
    assert forall k :: j <= k < |s| ==> s[k] == d[k - i];
  }

  lemma TrimNoSpaceEnds(s: string)
    requires s == [] || (!IsSpace(s[0]) && !IsSpace(s[|s| - 1]))
    ensures Trim(s) == s
  {
  }

  predicate StartsWith(s: string, prefix: string) {
    |prefix| <= |s| && s[..|prefix|] == prefix
  }

  /**
   * `s.replace(/[K]+/g, rep)`: every maximal run of characters of class
   * `k` becomes the single character `rep`; everything else is kept in
   * order. A run character followed by another run character vanishes,
   * the last one of the run is replaced.
   */
  function CollapseRuns(s: string, k: CharClass, rep: char): (r: string)
    ensures |r| <= |s|
    decreases |s|
  {
    if s == [] then []
    else if In(k, s[0]) && |s| > 1 && In(k, s[1]) then CollapseRuns(s[1..], k, rep)
    else [if In(k, s[0]) then rep else s[0]] + CollapseRuns(s[1..], k, rep)
  }

  /** Collapsing loses no character outside the class, and a run leaves `rep` behind. */
  lemma {:induction false} CollapseRunsKeeps(s: string, k: CharClass, rep: char)
    ensures forall c :: c in s && !In(k, c) ==> c in CollapseRuns(s, k, rep)
    ensures (exists c :: c in s && In(k, c)) ==> rep in CollapseRuns(s, k, rep)
    decreases |s|
  {
    if s != [] {
      CollapseRunsKeeps(s[1..], k, rep);
      assert forall c :: c in s ==> c == s[0] || c in s[1..];
    }
  }

  /** A text that starts outside the run class keeps its first character. */
  lemma CollapseRunsHead(s: string, k: CharClass, rep: char)
    requires s != [] && !In(k, s[0])
    ensures CollapseRuns(s, k, rep) == [s[0]] + CollapseRuns(s[1..], k, rep)
  {
  }

  /**
   * Every character of the rewritten text is `rep` or a kept character of
   * the input, and when `rep` itself belongs to the run class no two
   * run-class characters end up adjacent.
   */
  lemma {:induction false} CollapseRunsShape(s: string, k: CharClass, rep: char)
    ensures forall i :: 0 <= i < |CollapseRuns(s, k, rep)| ==>
      CollapseRuns(s, k, rep)[i] == rep || (CollapseRuns(s, k, rep)[i] in s && !In(k, CollapseRuns(s, k, rep)[i]))
    ensures In(k, rep) ==> forall i :: 0 <= i < |CollapseRuns(s, k, rep)| - 1 ==>
      !(In(k, CollapseRuns(s, k, rep)[i]) && In(k, CollapseRuns(s, k, rep)[i + 1]))
    decreases |s|
  {
    if s != [] {
      var r := CollapseRuns(s, k, rep);
      var r' := CollapseRuns(s[1..], k, rep);
      CollapseRunsShape(s[1..], k, rep);
      assert forall c :: c in s[1..] ==> c in s;
      if In(k, s[0]) && |s| > 1 && In(k, s[1]) {
        assert r == r';
      } else {
        var h := if In(k, s[0]) then rep else s[0];
        assert r == [h] + r';
        if In(k, rep) && In(k, h) && |s| > 1 {
          CollapseRunsHead(s[1..], k, rep);
          assert r'[0] == s[1];
        }
      }
    }
  }

  /** A text whose run characters are single, isolated `rep`s is left unchanged. */
  lemma {:induction false} CollapseRunsFixpoint(s: string, k: CharClass, rep: char)
    requires forall i :: 0 <= i < |s| && In(k, s[i]) ==> s[i] == rep
    requires forall i :: 0 <= i < |s| - 1 ==> !(In(k, s[i]) && In(k, s[i + 1]))
    ensures CollapseRuns(s, k, rep) == s
    decreases |s|
  {
    if s != [] {
      assert |s| > 1 ==> !(In(k, s[0]) && In(k, s[1]));
      assert CollapseRuns(s, k, rep) == [s[0]] + CollapseRuns(s[1..], k, rep);
      CollapseRunsFixpoint(s[1..], k, rep);
      assert [s[0]] + s[1..] == s;
    }
  }

  /** One step of the rewrite, stated for a text with a known first two characters. */
  lemma CollapseRunsStep(s: string, k: CharClass, rep: char)
    requires s != []
    ensures In(k, s[0]) && |s| > 1 && In(k, s[1]) ==> CollapseRuns(s, k, rep) == CollapseRuns(s[1..], k, rep)
    ensures !(In(k, s[0]) && |s| > 1 && In(k, s[1])) ==>
      CollapseRuns(s, k, rep) == [if In(k, s[0]) then rep else s[0]] + CollapseRuns(s[1..], k, rep)
  {
  }

  /** Runs never cross a character outside the class, so the rewrite splits there. */
  lemma {:induction false} CollapseRunsAppend(a: string, b: string, k: CharClass, rep: char)
    requires a == [] || !In(k, a[|a| - 1])
    ensures CollapseRuns(a + b, k, rep) == CollapseRuns(a, k, rep) + CollapseRuns(b, k, rep)
    decreases |a|
  {
    if a == [] {
      assert a + b == b;
    } else {
      CollapseRunsAppend(a[1..], b, k, rep);
      CollapseRunsAppendStep(a, b, k, rep);
    }
  }

  /** The inductive step of `CollapseRunsAppend`, split by how `a` starts. */
  lemma CollapseRunsAppendStep(a: string, b: string, k: CharClass, rep: char)
    requires a != [] && !In(k, a[|a| - 1])
    requires CollapseRuns(a[1..] + b, k, rep) == CollapseRuns(a[1..], k, rep) + CollapseRuns(b, k, rep)
    ensures CollapseRuns(a + b, k, rep) == CollapseRuns(a, k, rep) + CollapseRuns(b, k, rep)
  {
    if |a| == 1 { AppendSingle(a, b, k, rep); }
    else if In(k, a[0]) && In(k, a[1]) { AppendRunStart(a, b, k, rep); }
    else { AppendKept(a, b, k, rep); }
  }
  /** `a` is one character outside the class. */
  lemma AppendSingle(a: string, b: string, k: CharClass, rep: char)
    requires |a| == 1 && !In(k, a[0])
    ensures CollapseRuns(a + b, k, rep) == CollapseRuns(a, k, rep) + CollapseRuns(b, k, rep)
  {
    var ab := a + b;
    assert ab[0] == a[0];
    assert ab[1..] == b;
    CollapseRunsStep(ab, k, rep);
    CollapseRunsStep(a, k, rep);
    assert a[1..] == [];
  }
  /** `a` starts with two run characters: the first one vanishes in both texts. */
  lemma AppendRunStart(a: string, b: string, k: CharClass, rep: char)
    requires |a| > 1 && In(k, a[0]) && In(k, a[1])
    requires CollapseRuns(a[1..] + b, k, rep) == CollapseRuns(a[1..], k, rep) + CollapseRuns(b, k, rep)
    ensures CollapseRuns(a + b, k, rep) == CollapseRuns(a, k, rep) + CollapseRuns(b, k, rep)
  {
    var ab := a + b;
    assert ab[0] == a[0] && ab[1] == a[1];
    assert ab[1..] == a[1..] + b;
    CollapseRunsStep(ab, k, rep);
    CollapseRunsStep(a, k, rep);
  }
  /** The first character of `a` is kept (or replaced) in both texts. */
  lemma AppendKept(a: string, b: string, k: CharClass, rep: char)
    requires |a| > 1 && !(In(k, a[0]) && In(k, a[1]))
    requires CollapseRuns(a[1..] + b, k, rep) == CollapseRuns(a[1..], k, rep) + CollapseRuns(b, k, rep)
    ensures CollapseRuns(a + b, k, rep) == CollapseRuns(a, k, rep) + CollapseRuns(b, k, rep)
  {
    var ab := a + b;
    assert ab[0] == a[0] && ab[1] == a[1];
    assert ab[1..] == a[1..] + b;
    CollapseRunsStep(ab, k, rep);
    CollapseRunsStep(a, k, rep);
    var h := if In(k, a[0]) then rep else a[0];
    var x, y := CollapseRuns(a[1..], k, rep), CollapseRuns(b, k, rep);
    assert [h] + (x + y) == [h] + x + y;
  }

  /** `s` holds `t` starting at index `j`. */
  predicate OccursAt(s: string, t: string, j: int) {
    0 <= j && j + |t| <= |s| && s[j..j + |t|] == t
  }

  /** `s.indexOf(t)`: the first index where `t` occurs, or none. */
  function IndexOf(s: string, t: string): (r: Option<nat>)
    ensures r.Some? ==> OccursAt(s, t, r.value)
    ensures r.Some? ==> forall j :: 0 <= j < r.value ==> !OccursAt(s, t, j)
    ensures r.None? ==> forall j :: !OccursAt(s, t, j)
    decreases |s|
  {
    if StartsWith(s, t) then Some(0)
    else if s == [] then None
    else
      var r := IndexOf(s[1..], t);
      OccursShift(s, t);
      assert !OccursAt(s, t, 0) by { if |t| <= |s| { assert s[0..|t|] == s[..|t|]; } }
      if r.None? then None else Some(r.value + 1)
  }

  lemma OccursShift(s: string, t: string)
    requires s != []
    ensures forall j :: 0 <= j ==> (OccursAt(s[1..], t, j) <==> OccursAt(s, t, j + 1))
    ensures forall j :: 1 <= j ==> (OccursAt(s, t, j) <==> OccursAt(s[1..], t, j - 1))
  {
    forall j | 0 <= j
      ensures OccursAt(s[1..], t, j) <==> OccursAt(s, t, j + 1)
    {
      if 0 <= j && j + 1 + |t| <= |s| {
        assert s[1..][j..j + |t|] == s[j + 1..j + 1 + |t|];
      }
    }
    forall j | 1 <= j
      ensures OccursAt(s, t, j) <==> OccursAt(s[1..], t, j - 1)
    {
      assert OccursAt(s[1..], t, j - 1) <==> OccursAt(s, t, j - 1 + 1);
    }
  }

  /** `s.includes(t)`. */
  predicate Contains(s: string, t: string) {
    IndexOf(s, t).Some?
  }

  lemma ContainsAt(s: string, t: string, j: int)
    requires OccursAt(s, t, j)
    ensures Contains(s, t)
  {
  }

  /** A text lacking some character of `t` cannot contain `t`. */
  lemma MissingCharNotContained(s: string, t: string, c: char)
    requires c in t && c !in s
    ensures !Contains(s, t)
  {
  }

  /** The text before the first `c` (all of `s` when there is none). */
  function TakeUntil(s: string, c: char): (r: string)
    ensures |r| <= |s| && r == s[..|r|] && c !in r
    ensures |r| < |s| ==> s[|r|] == c
  {
    if s == [] || s[0] == c then [] else [s[0]] + TakeUntil(s[1..], c)
  }

  /** The text after the first `c`, or none when `s` has no `c`. */
  function AfterFirst(s: string, c: char): (r: Option<string>)
    ensures r.Some? <==> c in s
    ensures r.Some? ==> |TakeUntil(s, c)| < |s| && r.value == s[|TakeUntil(s, c)| + 1..]
  {
    var k := |TakeUntil(s, c)|;
    if k < |s| then Some(s[k + 1..]) else None
  }

  lemma TakeUntilSeparated(a: string, c: char, b: string)
    requires c !in a
    ensures TakeUntil(a + [c] + b, c) == a
    ensures AfterFirst(a + [c] + b, c) == Some(b)
  {
    var s := a + [c] + b;
    var r := TakeUntil(s, c);
    assert s[|a|] == c;
    assert |r| <= |a|;
    assert s[|a| + 1..] == b;
  }

  lemma TakeUntilAbsent(a: string, c: char)
    requires c !in a
    ensures TakeUntil(a, c) == a && AfterFirst(a, c) == None
  {
  }

  /** `lines.join(sep)`. */
  function Join(lines: seq<string>, sep: char): string
  {
    if lines == [] then ""
    else if |lines| == 1 then lines[0]
    else lines[0] + [sep] + Join(lines[1..], sep)
  }

  /** `s.split(sep)`. */
  function Split(s: string, sep: char): (r: seq<string>)
    ensures |r| >= 1
    decreases |s|
  {
    match AfterFirst(s, sep)
    case None => [s]
    case Some(rest) => [TakeUntil(s, sep)] + Split(rest, sep)
  }

  /** Splitting a join of separator-free lines gives the lines back. */
  lemma {:induction false} SplitJoin(lines: seq<string>, sep: char)
    requires lines != []
    requires forall i :: 0 <= i < |lines| ==> sep !in lines[i]
    ensures Split(Join(lines, sep), sep) == lines
    decreases |lines|
  {
    if |lines| == 1 {
      TakeUntilAbsent(lines[0], sep);
    } else {
      TakeUntilSeparated(lines[0], sep, Join(lines[1..], sep));
      SplitJoin(lines[1..], sep);
    }
  }

  /**
   * The replacement text `String.prototype.replace` actually inserts for
   * a string pattern (ECMAScript `GetSubstitution`): `$$` is `$`, `$&`
   * the matched text, `` $` `` the text before the match and `$'` the
   * text after it; any other `$` stands as it is (a string pattern has
   * no capture groups).
   */
  function Expand(replacement: string, before: string, matched: string, after: string): (r: string)
    ensures |replacement| <= 1 ==> r == replacement
    decreases |replacement|
  {
    if |replacement| >= 2 && replacement[0] == '$' && replacement[1] == '$' then
      "$" + Expand(replacement[2..], before, matched, after)
    else if |replacement| >= 2 && replacement[0] == '$' && replacement[1] == '&' then
      matched + Expand(replacement[2..], before, matched, after)
    else if |replacement| >= 2 && replacement[0] == '$' && replacement[1] == '`' then
      before + Expand(replacement[2..], before, matched, after)
    else if |replacement| >= 2 && replacement[0] == '$' && replacement[1] == '\'' then
      after + Expand(replacement[2..], before, matched, after)
    else if replacement == [] then []
    else [replacement[0]] + Expand(replacement[1..], before, matched, after)
  }

  /** Without a `$` in the replacement, `replace` inserts it as it stands. */
  lemma {:induction false} ExpandWithoutDollar(replacement: string, before: string, matched: string, after: string)
    requires '$' !in replacement
    ensures Expand(replacement, before, matched, after) == replacement
    decreases |replacement|
  {
    if replacement != [] {
      assert replacement == [replacement[0]] + replacement[1..];
      ExpandWithoutDollar(replacement[1..], before, matched, after);
    }
  }

  /** A `$`-free head of the replacement is copied as it stands. */
  lemma {:induction false} ExpandPrefix(a: string, b: string, before: string, matched: string, after: string)
    requires '$' !in a
    ensures Expand(a + b, before, matched, after) == a + Expand(b, before, matched, after)
    decreases |a|
  {
    if a == [] {
      assert a + b == b;
    } else {
      assert a[0] in a;
      assert a + b == [a[0]] + (a[1..] + b);
      ExpandPlainHead(a[0], a[1..] + b, before, matched, after);
      ExpandPrefix(a[1..], b, before, matched, after);
      assert a == [a[0]] + a[1..];
    }
  }

  /** A character other than `$` at the head of a replacement string is copied. */
  lemma ExpandPlainHead(c: char, rest: string, before: string, matched: string, after: string)
    requires c != '$'
    ensures Expand([c] + rest, before, matched, after) == [c] + Expand(rest, before, matched, after)
  {
    assert ([c] + rest)[1..] == rest;
  }

  /** `$'` in the replacement becomes the text after the match. */
  lemma ExpandQuote(a: string, c: string, before: string, matched: string, after: string)
    requires '$' !in a && '$' !in c
    ensures Expand(a + "$'" + c, before, matched, after) == a + after + c
  {
    assert a + "$'" + c == a + ("$'" + c);
    ExpandPrefix(a, "$'" + c, before, matched, after);
    assert ("$'" + c)[2..] == c;
    ExpandWithoutDollar(c, before, matched, after);
  }
}
