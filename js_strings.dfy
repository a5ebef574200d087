/** The JavaScript string built-ins the core relies on: `indexOf` for one character,
    `replaceAll` with a one-character pattern, `trim`, and the character class `\s`. */
module JsStrings {

  /** The characters JavaScript counts as white space, both for `String.prototype.trim`
      and for `\s` in a regular expression: the WhiteSpace and LineTerminator sets of the
      language standard, with the space separators (category Zs) of Unicode 15 written out. */
  const JsSpaceChars: set<char> := {
    ' ', '\t', '\n', '\r', '\U{000B}', '\U{000C}', '\U{00A0}', '\U{1680}',
    '\U{2000}', '\U{2001}', '\U{2002}', '\U{2003}', '\U{2004}', '\U{2005}',
    '\U{2006}', '\U{2007}', '\U{2008}', '\U{2009}', '\U{200A}',
    '\U{2028}', '\U{2029}', '\U{202F}', '\U{205F}', '\U{3000}', '\U{FEFF}'
  }

  predicate IsJsSpace(c: char) {
    c in JsSpaceChars
  }

  /** Every character of `s` is white space (true of the empty string). */
  predicate IsBlank(s: string) {
    forall k :: 0 <= k < |s| ==> IsJsSpace(s[k])
  }

  /** `s.indexOf(c)`, with "not found" (-1 in JavaScript) given as `|s|`. */
  function IndexOf(s: string, c: char): (i: nat)
    ensures i <= |s|
  {
    if s == [] then 0
    else if s[0] == c then 0
    else 1 + IndexOf(s[1..], c)
  }

  /** `indexOf` finds the first occurrence, and reports "not found" only when there is none. */
  lemma {:induction false} IndexOfSpec(s: string, c: char)
    ensures var i := IndexOf(s, c);
            && (i < |s| ==> s[i] == c)
            && (forall k :: 0 <= k < i ==> s[k] != c)
            && (i == |s| <==> c !in s)
  {
    if s != [] && s[0] != c {
      IndexOfSpec(s[1..], c);
      var i := IndexOf(s, c);
      forall k | 0 <= k < i ensures s[k] != c {
        if k > 0 { assert s[k] == s[1..][k - 1]; }
      }
      if c in s {
        var k :| 0 <= k < |s| && s[k] == c;
        assert s[1..][k - 1] == c;
      }
    }
  }

  /** `s.replaceAll(c, rep)` for a one-character pattern and a replacement without `$`:
      find the next occurrence, copy the text before it, emit `rep`, carry on after it. */
  function ReplaceAll(s: string, c: char, rep: string): string
    decreases |s|
  {
    var i := IndexOf(s, c);
    if i == |s| then s
    else s[..i] + rep + ReplaceAll(s[i + 1..], c, rep)
  }

  /** Reference definition: every character equal to `c` becomes `rep`, every other
      character stays, in order. */
  function ReplaceEach(s: string, c: char, rep: string): string {
    if s == [] then []
    else (if s[0] == c then rep else [s[0]]) + ReplaceEach(s[1..], c, rep)
  }

  lemma {:induction false} ReplaceEachAbsent(s: string, c: char, rep: string)
    requires c !in s
    ensures ReplaceEach(s, c, rep) == s
  {
    if s != [] {
      ReplaceEachAbsent(s[1..], c, rep);
    }
  }

  lemma {:induction false} ReplaceEachConcat(a: string, b: string, c: char, rep: string)
    ensures ReplaceEach(a + b, c, rep) == ReplaceEach(a, c, rep) + ReplaceEach(b, c, rep)
  {
    if a == [] {
      assert a + b == b;
    } else {
      assert (a + b)[0] == a[0] && (a + b)[1..] == a[1..] + b;
      ReplaceEachConcat(a[1..], b, c, rep);
    }
  }

  /** The search-and-copy loop of `replaceAll` agrees with the character-by-character
      reference: each `c` is replaced by `rep` and nothing else changes. */
  lemma {:induction false} ReplaceAllIsReplaceEach(s: string, c: char, rep: string)
    ensures ReplaceAll(s, c, rep) == ReplaceEach(s, c, rep)
    decreases |s|
  {
    var i := IndexOf(s, c);
    IndexOfSpec(s, c);
    if i == |s| {
      ReplaceEachAbsent(s, c, rep);
    } else {
      var pre, rest := s[..i], s[i + 1..];
      PrefixBeforeIndex(s, c);
      ReplaceAllIsReplaceEach(rest, c, rep);
      ReplaceEachAbsent(pre, c, rep);
      ReplaceEachSplitAt(s, i, c, rep);
    }
  }

  /** The text before the first `c` holds no `c`. */
  lemma PrefixBeforeIndex(s: string, c: char)
    ensures c !in s[..IndexOf(s, c)]
  {
    var i := IndexOf(s, c);
    IndexOfSpec(s, c);
    forall k | 0 <= k < i ensures s[..i][k] != c { assert s[..i][k] == s[k]; }
  }

  /** Splitting at an occurrence of `c`: the text before it, then `rep`, then the rest. */
  lemma ReplaceEachSplitAt(s: string, i: nat, c: char, rep: string)
    requires i < |s| && s[i] == c
    ensures ReplaceEach(s, c, rep) == ReplaceEach(s[..i], c, rep) + rep + ReplaceEach(s[i + 1..], c, rep)
  {
    var tail := s[i..];
    assert s == s[..i] + tail;
    assert tail[0] == c && tail[1..] == s[i + 1..];
    ReplaceEachConcat(s[..i], tail, c, rep);
  }

  /** No occurrence of `c` survives, provided `rep` does not reintroduce one. */
  lemma {:induction false} ReplaceEachRemoves(s: string, c: char, rep: string)
    requires c !in rep
    ensures c !in ReplaceEach(s, c, rep)
  {
    if s != [] {
      ReplaceEachRemoves(s[1..], c, rep);
    }
  }

  /** `s.trimStart()`. */
  function TrimStart(s: string): string {
    if s != [] && IsJsSpace(s[0]) then TrimStart(s[1..]) else s
  }

  /** `s.trimEnd()`. */
  function TrimEnd(s: string): string {
    if s != [] && IsJsSpace(s[|s| - 1]) then TrimEnd(s[..|s| - 1]) else s
  }

  /** `s.trim()`. */
  function Trim(s: string): string {
    TrimEnd(TrimStart(s))
  }

  /** `trimStart` removes a white-space prefix and stops at the first other character. */
  lemma {:induction false} TrimStartSpec(s: string)
    ensures var r := TrimStart(s);
            && |r| <= |s| && r == s[|s| - |r|..]
            && IsBlank(s[..|s| - |r|])
            && (r != [] ==> !IsJsSpace(r[0]))
  {
    if s != [] && IsJsSpace(s[0]) {
      TrimStartSpec(s[1..]);
      var r := TrimStart(s[1..]);
      var n := |s| - |r|;
      assert s[..n] == [s[0]] + s[1..][..n - 1];
    }
  }

  /** `trimEnd` removes a white-space suffix and stops at the last other character. */
  lemma {:induction false} TrimEndSpec(s: string)
    ensures var r := TrimEnd(s);
            && |r| <= |s| && r == s[..|r|]
            && IsBlank(s[|r|..])
            && (r != [] ==> !IsJsSpace(r[|r| - 1]))
  {
    if s != [] && IsJsSpace(s[|s| - 1]) {
      var t := s[..|s| - 1];
      TrimEndSpec(t);
      var r := TrimEnd(t);
      assert s[|r|..] == t[|r|..] + [s[|s| - 1]];
    }
  }

  /** `s.trim()` is empty exactly when `s` consists of white space only. */
  lemma TrimEmptyIff(s: string)
    ensures Trim(s) == [] <==> IsBlank(s)
  {
    TrimStartSpec(s);
    var t := TrimStart(s);
    TrimEndSpec(t);
    var r := TrimEnd(t);
    var i := |s| - |t|;
    assert s == s[..i] + t;
    if r == [] {
      assert t[|r|..] == t;
      forall k | 0 <= k < |s| ensures IsJsSpace(s[k]) {
        assert s[k] == s[..i][k];
      }
    } else {
      assert t[0] == r[0];
      assert s[i] == t[0];
    }
  }
}
