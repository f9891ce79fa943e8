/**
 * `scripts/embed-css.js`: the DiscoUI stylesheet is turned into a
 * JavaScript module that exports it as a template literal. Backslashes,
 * backticks and dollar signs are escaped with a backslash, backslashes
 * first, so that the literal evaluates back to the stylesheet. Reading
 * the stylesheet and writing the module are left out.
 */
module EmbedCss {
  import opened Js
  import opened Text

  /** `s.replace(/c/g, replacement)`: every `c` replaced. */
  function ReplaceAll(s: string, c: char, replacement: string): (r: string)
    ensures c !in s ==> r == s
    ensures c in replacement ==> |r| >= |s| && forall x :: x in s ==> x in r
    decreases |s|
  {
    if s == [] then []
    else (if s[0] == c then replacement else [s[0]]) + ReplaceAll(s[1..], c, replacement)
  }

  /** The escaping chain of line 14, one `replace` after the other. */
  function EscapeChain(css: string): (r: string)
    ensures |r| >= |css|
    ensures forall c :: c in css ==> c in r
  {
    ReplaceAll(ReplaceAll(ReplaceAll(css, '\\', "\\\\"), '`', "\\`"), '$', "\\$")
  }

  /** The characters that need a backslash inside a template literal. */
  predicate IsSpecial(c: char) {
    c == '\\' || c == '`' || c == '$'
  }

  /** The escape of one character. */
  function EscapeChar(c: char): (r: string)
    ensures IsSpecial(c) ==> r == ['\\', c]
    ensures !IsSpecial(c) ==> r == [c]
  {
    if IsSpecial(c) then ['\\', c] else [c]
  }

  /** The escape of a whole text, character by character. */
  function Escape(s: string): string
    decreases |s|
  {
    if s == [] then [] else EscapeChar(s[0]) + Escape(s[1..])
  }

  /** The number of characters `Escape` puts a backslash before. */
  function CountSpecial(s: string): (n: nat)
    ensures n <= |s|
    decreases |s|
  {
    if s == [] then 0 else (if IsSpecial(s[0]) then 1 else 0) + CountSpecial(s[1..])
  }

  /** The generated `src/css.js`. */
  function ModuleText(css: string): string {
    ModulePrefix() + Escape(css) + ModuleSuffix()
  }

  function ModulePrefix(): string { "export const cssContent = `" }

  function ModuleSuffix(): string { "`;\n" }

  /* ---------------------------------------------------------------- */
  /* Reading the literal back                                         */
  /* ---------------------------------------------------------------- */

  /** `c` in front of a cooked text, if there is one. */
  function Prepend(c: char, rest: Option<string>): Option<string> {
    if rest.Some? then Some([c] + rest.value) else None
  }

  /**
   * The value of a template literal whose body (between the backticks) is
   * `t`: `\\`, `` \` `` and `\$` stand for the character after the
   * backslash, a carriage return or a CR LF pair reads as a line feed,
   * and everything else stands for itself. `None`: the body would end the
   * literal early (a bare backtick), open a substitution (a bare `${`),
   * or hold an escape sequence this model does not read.
   */
  function Cook(t: string): (r: Option<string>)
    ensures r.Some? ==> |r.value| <= |t|
    decreases |t|
  {
    if t == [] then Some([])
    else if t[0] == '\\' then
      if |t| >= 2 && IsSpecial(t[1]) then Prepend(t[1], Cook(t[2..])) else None
    else if t[0] == '`' then None
    else if t[0] == '$' && |t| >= 2 && t[1] == '{' then None
    else if t[0] == '\r' then
      if |t| >= 2 && t[1] == '\n' then Prepend('\n', Cook(t[2..])) else Prepend('\n', Cook(t[1..]))
    else Prepend(t[0], Cook(t[1..]))
  }

  /** The text with every CR LF pair and every lone CR read as a line feed. */
  function NormalizeLineEnds(s: string): (r: string)
    ensures '\r' !in s ==> r == s
    decreases |s|
  {
    if s == [] then []
    else if s[0] == '\r' then
      if |s| >= 2 && s[1] == '\n' then ['\n'] + NormalizeLineEnds(s[2..]) else ['\n'] + NormalizeLineEnds(s[1..])
    else [s[0]] + NormalizeLineEnds(s[1..])
  }

  /* ---------------------------------------------------------------- */
  /* Properties                                                       */
  /* ---------------------------------------------------------------- */

  /** `replace` works piece by piece. */
  lemma {:induction false} ReplaceAllAppend(a: string, b: string, c: char, replacement: string)
    ensures ReplaceAll(a + b, c, replacement) == ReplaceAll(a, c, replacement) + ReplaceAll(b, c, replacement)
    decreases |a|
  {
    if a == [] {
      assert a + b == b;
    } else {
      assert (a + b)[0] == a[0];
      assert (a + b)[1..] == a[1..] + b;
      ReplaceAllAppend(a[1..], b, c, replacement);
    }
  }

  /** The chain of three `replace` calls works piece by piece. */
  lemma EscapeChainAppend(a: string, b: string)
    ensures EscapeChain(a + b) == EscapeChain(a) + EscapeChain(b)
  {
    var r1a, r1b := ReplaceAll(a, '\\', "\\\\"), ReplaceAll(b, '\\', "\\\\");
    ReplaceAllAppend(a, b, '\\', "\\\\");
    var r2a, r2b := ReplaceAll(r1a, '`', "\\`"), ReplaceAll(r1b, '`', "\\`");
    ReplaceAllAppend(r1a, r1b, '`', "\\`");
    ReplaceAllAppend(r2a, r2b, '$', "\\$");
  }

  /** On one character the chain is its escape: a backslash is escaped before the others add theirs. */
  lemma EscapeChainChar(c: char)
    ensures EscapeChain([c]) == EscapeChar(c)
  {
    if c == '\\' {
      assert ReplaceAll([c], '\\', "\\\\") == "\\\\";
      assert ReplaceAll("\\\\", '`', "\\`") == "\\\\";
      assert ReplaceAll("\\\\", '$', "\\$") == "\\\\";
    } else if c == '`' {
      assert ReplaceAll([c], '`', "\\`") == "\\`";
      assert ReplaceAll("\\`", '$', "\\$") == "\\`";
    } else if c == '$' {
      assert ReplaceAll([c], '$', "\\$") == "\\$";
    }
  }

  /** The three `replace` calls of line 14 escape each special character once. */
  lemma {:induction false} EscapeChainIsEscape(css: string)
    ensures EscapeChain(css) == Escape(css)
    decreases |css|
  {
    if css != [] {
      assert css == [css[0]] + css[1..];
      EscapeChainAppend([css[0]], css[1..]);
      EscapeChainChar(css[0]);
      EscapeChainIsEscape(css[1..]);
    }
  }

  /** None of the three replacement strings holds a `$` pattern, so each is inserted as written. */
  lemma ReplacementsAreLiteral(before: string, matched: string, after: string)
    ensures Expand("\\\\", before, matched, after) == "\\\\"
    ensures Expand("\\`", before, matched, after) == "\\`"
    ensures Expand("\\$", before, matched, after) == "\\$"
  {
    ExpandPrefix("\\", "$", before, matched, after);
    assert Expand("$", before, matched, after) == "$";
  }

  /** The escaped text is one backslash longer per special character. */
  lemma {:induction false} EscapeLength(s: string)
    ensures |Escape(s)| == |s| + CountSpecial(s)
    decreases |s|
  {
    if s != [] {
      EscapeLength(s[1..]);
    }
  }

  /** Without special characters the text is embedded as it stands. */
  lemma {:induction false} EscapePlain(s: string)
    requires forall i :: 0 <= i < |s| ==> !IsSpecial(s[i])
    ensures Escape(s) == s
    decreases |s|
  {
    if s != [] {
      EscapePlain(s[1..]);
      assert s == [s[0]] + s[1..];
    }
  }

  /** The escape of a text starts with a backslash exactly when the text starts with a special character. */
  lemma EscapeHead(s: string)
    requires s != []
    ensures Escape(s)[0] == (if IsSpecial(s[0]) then '\\' else s[0])
  {
  }

  /**
   * The template literal reads back as the stylesheet, with its line
   * ends read as line feeds: the escaping is undone exactly, and the
   * literal neither ends early nor opens a substitution.
   */
  lemma {:induction false} CookEscape(s: string)
    ensures Cook(Escape(s)) == Some(NormalizeLineEnds(s))
    decreases |s|
  {
    if s == [] {
    } else if IsSpecial(s[0]) {
      CookEscape(s[1..]);
      CookSpecialStep(s);
    } else if s[0] == '\r' && |s| >= 2 && s[1] == '\n' {
      CookEscape(s[2..]);
      CookCrLfStep(s);
    } else {
      CookEscape(s[1..]);
      CookPlainStep(s);
    }
  }

  /** An escaped `\`, `` ` `` or `$` cooks back to itself. */
  lemma CookSpecialStep(s: string)
    requires s != [] && IsSpecial(s[0])
    requires Cook(Escape(s[1..])) == Some(NormalizeLineEnds(s[1..]))
    ensures Cook(Escape(s)) == Some(NormalizeLineEnds(s))
  {
    assert Escape(s) == EscapeChar(s[0]) + Escape(s[1..]);
    assert Escape(s)[2..] == Escape(s[1..]);
  }

  /** A CR LF pair cooks to one line feed. */
  lemma CookCrLfStep(s: string)
    requires |s| >= 2 && s[0] == '\r' && s[1] == '\n'
    requires Cook(Escape(s[2..])) == Some(NormalizeLineEnds(s[2..]))
    ensures Cook(Escape(s)) == Some(NormalizeLineEnds(s))
  {
    var rest := s[1..];
    assert Escape(s) == EscapeChar(s[0]) + Escape(rest);
    assert Escape(rest) == [rest[0]] + Escape(rest[1..]);
    assert rest[1..] == s[2..];
    assert Escape(s)[2..] == Escape(s[2..]);
  }

  /** Any other character, a lone CR included, cooks to its own reading. */
  lemma CookPlainStep(s: string)
    requires s != [] && !IsSpecial(s[0]) && !(s[0] == '\r' && |s| >= 2 && s[1] == '\n')
    requires Cook(Escape(s[1..])) == Some(NormalizeLineEnds(s[1..]))
    ensures Cook(Escape(s)) == Some(NormalizeLineEnds(s))
  {
    var rest := s[1..];
    assert Escape(s) == EscapeChar(s[0]) + Escape(rest);
    if s[0] == '\r' && rest != [] {
      EscapeHead(rest);
    }
    assert Escape(s)[1..] == Escape(rest);
  }

  /** A stylesheet without carriage returns comes back unchanged. */
  lemma RoundTrip(css: string)
    requires '\r' !in css
    ensures Cook(Escape(css)) == Some(css)
  {
    CookEscape(css);
  }

  /** The module is the stylesheet's escape between `` export const cssContent = ` `` and `` `;\n ``. */
  lemma ModuleEmbedsCss(css: string)
    ensures var m := ModuleText(css);
      && |m| == |ModulePrefix()| + |css| + CountSpecial(css) + |ModuleSuffix()|
      && m[..|ModulePrefix()|] == ModulePrefix()
      && m[|m| - |ModuleSuffix()|..] == ModuleSuffix()
      && Cook(m[|ModulePrefix()|..|m| - |ModuleSuffix()|]) == Some(NormalizeLineEnds(css))
  {
    var m := ModuleText(css);
    EscapeLength(css);
    assert m[|ModulePrefix()|..|m| - |ModuleSuffix()|] == Escape(css);
    CookEscape(css);
  }
}
