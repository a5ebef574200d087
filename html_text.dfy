/** The two string helpers of server/controllers/contactController.js that prepare
    submitted text for the HTML body of the notification email. */
module HtmlText {
  import opened JsStrings

  /** `escapeHtml`: five `replaceAll` passes, `&` first. */
  function EscapeHtml(s: string): string {
    ReplaceAll(ReplaceAll(ReplaceAll(ReplaceAll(ReplaceAll(s,
      '&', "&amp;"), '<', "&lt;"), '>', "&gt;"), '"', "&quot;"), '\'', "&#039;")
  }

  /** `nl2br`: every line feed becomes a `<br/>` tag. */
  function Nl2br(s: string): string {
    ReplaceAll(s, '\n', "<br/>")
  }

  /** The characters that could open or close markup or an attribute value. */
  predicate IsMarkupChar(c: char) {
    c == '<' || c == '>' || c == '"' || c == '\''
  }

  predicate IsSpecialChar(c: char) {
    c == '&' || IsMarkupChar(c)
  }

  /** What a single character turns into: its entity, or itself. */
  function EscapeChar(c: char): (r: string)
    ensures r == [c] <==> !IsSpecialChar(c)
    ensures forall k :: 0 <= k < |r| ==> !IsMarkupChar(r[k])
  {
    match c
    case '&' => "&amp;"
    case '<' => "&lt;"
    case '>' => "&gt;"
    case '"' => "&quot;"
    case '\'' => "&#039;"
    case _ => [c]
  }

  /** Reference definition of escaping: each character replaced by `EscapeChar`. */
  function EscapeEach(s: string): string {
    if s == [] then [] else EscapeChar(s[0]) + EscapeEach(s[1..])
  }

  /** The five entities `escapeHtml` produces. */
  predicate StartsWithEntity(t: string) {
    || (|t| >= 5 && t[..5] == "&amp;")
    || (|t| >= 4 && t[..4] == "&lt;")
    || (|t| >= 4 && t[..4] == "&gt;")
    || (|t| >= 6 && t[..6] == "&quot;")
    || (|t| >= 6 && t[..6] == "&#039;")
  }

  /** No markup character occurs in `t`. */
  predicate NoMarkupChars(t: string) {
    forall k :: 0 <= k < |t| ==> !IsMarkupChar(t[k])
  }

  /** Every `&` in `t` is the start of one of the five entities. */
  predicate AmpersandsAreEntities(t: string) {
    forall k :: 0 <= k < |t| && t[k] == '&' ==> StartsWithEntity(t[k..])
  }

  /** Decoding of the five entities, read from left to right; any other text is kept. */
  function UnescapeHtml(t: string): string
    decreases |t|
  {
    if t == [] then []
    else if |t| >= 5 && t[..5] == "&amp;" then "&" + UnescapeHtml(t[5..])
    else if |t| >= 4 && t[..4] == "&lt;" then "<" + UnescapeHtml(t[4..])
    else if |t| >= 4 && t[..4] == "&gt;" then ">" + UnescapeHtml(t[4..])
    else if |t| >= 6 && t[..6] == "&quot;" then "\"" + UnescapeHtml(t[6..])
    else if |t| >= 6 && t[..6] == "&#039;" then "'" + UnescapeHtml(t[6..])
    else [t[0]] + UnescapeHtml(t[1..])
  }

  /** Turns `<br/>` tags back into line feeds; any other text is kept. */
  function Br2nl(t: string): string
    decreases |t|
  {
    if t == [] then []
    else if |t| >= 5 && t[..5] == "<br/>" then "\n" + Br2nl(t[5..])
    else [t[0]] + Br2nl(t[1..])
  }

  lemma {:induction false} EscapeEachConcat(a: string, b: string)
    ensures EscapeEach(a + b) == EscapeEach(a) + EscapeEach(b)
  {
    if a == [] {
      assert a + b == b;
    } else {
      assert (a + b)[0] == a[0] && (a + b)[1..] == a[1..] + b;
      EscapeEachConcat(a[1..], b);
    }
  }

  lemma ReplaceEachSingle(x: char, c: char, rep: string)
    ensures ReplaceEach([x], c, rep) == if x == c then rep else [x]
  {
    assert [x][1..] == [];
  }

  /** The five passes of `escapeHtml`, each in its character-wise form. */
  function Passes(s: string): string {
    ReplaceEach(ReplaceEach(ReplaceEach(ReplaceEach(ReplaceEach(s,
      '&', "&amp;"), '<', "&lt;"), '>', "&gt;"), '"', "&quot;"), '\'', "&#039;")
  }

  lemma EscapeHtmlIsPasses(s: string)
    ensures EscapeHtml(s) == Passes(s)
  {
    var s1 := ReplaceEach(s, '&', "&amp;");
    var s2 := ReplaceEach(s1, '<', "&lt;");
    var s3 := ReplaceEach(s2, '>', "&gt;");
    var s4 := ReplaceEach(s3, '"', "&quot;");
    ReplaceAllIsReplaceEach(s, '&', "&amp;");
    ReplaceAllIsReplaceEach(s1, '<', "&lt;");
    ReplaceAllIsReplaceEach(s2, '>', "&gt;");
    ReplaceAllIsReplaceEach(s3, '"', "&quot;");
    ReplaceAllIsReplaceEach(s4, '\'', "&#039;");
  }

  /** The passes applied to a concatenation are the passes applied to each part. */
  lemma PassesConcat(a: string, b: string)
    ensures Passes(a + b) == Passes(a) + Passes(b)
  {
    var a1, b1 := ReplaceEach(a, '&', "&amp;"), ReplaceEach(b, '&', "&amp;");
    var a2, b2 := ReplaceEach(a1, '<', "&lt;"), ReplaceEach(b1, '<', "&lt;");
    var a3, b3 := ReplaceEach(a2, '>', "&gt;"), ReplaceEach(b2, '>', "&gt;");
    var a4, b4 := ReplaceEach(a3, '"', "&quot;"), ReplaceEach(b3, '"', "&quot;");
    ReplaceEachConcat(a, b, '&', "&amp;");
    ReplaceEachConcat(a1, b1, '<', "&lt;");
    ReplaceEachConcat(a2, b2, '>', "&gt;");
    ReplaceEachConcat(a3, b3, '"', "&quot;");
    ReplaceEachConcat(a4, b4, '\'', "&#039;");
  }

  /** The later passes leave a text without markup characters alone. */
  lemma LaterPassesKeep(t: string)
    requires NoMarkupChars(t)
    ensures ReplaceEach(t, '<', "&lt;") == t && ReplaceEach(t, '>', "&gt;") == t
    ensures ReplaceEach(t, '"', "&quot;") == t && ReplaceEach(t, '\'', "&#039;") == t
  {
    ReplaceEachAbsent(t, '<', "&lt;");
    ReplaceEachAbsent(t, '>', "&gt;");
    ReplaceEachAbsent(t, '"', "&quot;");
    ReplaceEachAbsent(t, '\'', "&#039;");
  }

  /** The five passes applied to a one-character string give that character's entity. */
  lemma PassesChar(c: char)
    ensures Passes([c]) == EscapeChar(c)
  {
    var s1 := ReplaceEach([c], '&', "&amp;");
    ReplaceEachSingle(c, '&', "&amp;");
    if c == '&' {
      LaterPassesKeep(s1);
    } else {
      var s2 := ReplaceEach(s1, '<', "&lt;");
      ReplaceEachSingle(c, '<', "&lt;");
      if c == '<' {
        LaterPassesKeep(s2);
      } else {
        var s3 := ReplaceEach(s2, '>', "&gt;");
        ReplaceEachSingle(c, '>', "&gt;");
        if c == '>' {
          LaterPassesKeep(s3);
        } else {
          var s4 := ReplaceEach(s3, '"', "&quot;");
          ReplaceEachSingle(c, '"', "&quot;");
          if c == '"' {
            LaterPassesKeep(s4);
          } else {
            ReplaceEachSingle(c, '\'', "&#039;");
          }
        }
      }
    }
  }

  lemma {:induction false} PassesIsEscapeEach(s: string)
    ensures Passes(s) == EscapeEach(s)
  {
    if s == [] {
      LaterPassesKeep(s);
      ReplaceEachAbsent(s, '&', "&amp;");
    } else {
      assert s == [s[0]] + s[1..];
      PassesConcat([s[0]], s[1..]);
      PassesChar(s[0]);
      PassesIsEscapeEach(s[1..]);
    }
  }

  /** `escapeHtml` works character by character: it is the reference `EscapeEach`. */
  lemma EscapeHtmlIsEscapeEach(s: string)
    ensures EscapeHtml(s) == EscapeEach(s)
  {
    EscapeHtmlIsPasses(s);
    PassesIsEscapeEach(s);
  }

  /** The output of `escapeHtml` contains none of `<`, `>`, `"` and `'`. */
  lemma {:induction false} EscapeHtmlNoMarkup(s: string)
    ensures NoMarkupChars(EscapeHtml(s))
  {
    EscapeHtmlIsEscapeEach(s);
    EscapeEachNoMarkup(s);
  }

  lemma {:induction false} EscapeEachNoMarkup(s: string)
    ensures NoMarkupChars(EscapeEach(s))
  {
    if s != [] {
      EscapeEachNoMarkup(s[1..]);
      var e, rest := EscapeChar(s[0]), EscapeEach(s[1..]);
      forall k | 0 <= k < |e + rest| ensures !IsMarkupChar((e + rest)[k]) {
        if k >= |e| { assert (e + rest)[k] == rest[k - |e|]; }
      }
    }
  }

  /** Every `&` in the output of `escapeHtml` begins one of the five entities. */
  lemma {:induction false} EscapeHtmlAmpersands(s: string)
    ensures AmpersandsAreEntities(EscapeHtml(s))
  {
    EscapeHtmlIsEscapeEach(s);
    EscapeEachAmpersands(s);
  }

  lemma {:induction false} EscapeEachAmpersands(s: string)
    ensures AmpersandsAreEntities(EscapeEach(s))
  {
    if s != [] {
      EscapeEachAmpersands(s[1..]);
      EntityThenRest(s[0], EscapeEach(s[1..]));
    }
  }

  /** Putting one escaped character in front keeps every `&` at an entity. */
  lemma EntityThenRest(c: char, rest: string)
    requires AmpersandsAreEntities(rest)
    ensures AmpersandsAreEntities(EscapeChar(c) + rest)
  {
    var e := EscapeChar(c);
    var t := e + rest;
    forall k | 0 <= k < |t| && t[k] == '&' ensures StartsWithEntity(t[k..]) {
      if k >= |e| {
        assert t[k..] == rest[k - |e|..];
        assert rest[k - |e|] == t[k];
      } else {
        assert t[..|e|] == e;
        assert k == 0 && IsSpecialChar(c);
        assert t[k..] == t;
      }
    }
  }

  /** Decoding the five entities recovers the input of `escapeHtml`. */
  lemma {:induction false} UnescapeEscapeHtml(s: string)
    ensures UnescapeHtml(EscapeHtml(s)) == s
  {
    EscapeHtmlIsEscapeEach(s);
    UnescapeEscapeEach(s);
  }

  lemma {:induction false} UnescapeEscapeEach(s: string)
    ensures UnescapeHtml(EscapeEach(s)) == s
  {
    if s != [] {
      UnescapeEscapeEach(s[1..]);
      UnescapeChunk(s[0], EscapeEach(s[1..]));
      assert s == [s[0]] + s[1..];
    }
  }

  /** Decoding an escaped character followed by more text yields the character first. */
  lemma UnescapeChunk(c: char, rest: string)
    ensures UnescapeHtml(EscapeChar(c) + rest) == [c] + UnescapeHtml(rest)
  {
    if IsSpecialChar(c) {
      DecodeEntity(c, rest);
    } else {
      DecodePlain(c, rest);
    }
  }

  /** Any other character decodes to itself: no entity starts with it. */
  lemma DecodePlain(c: char, rest: string)
    requires !IsSpecialChar(c)
    ensures UnescapeHtml([c] + rest) == [c] + UnescapeHtml(rest)
  {
    var t := [c] + rest;
    assert t[0] == c && t[1..] == rest;
    assert !StartsWithEntity(t) by {
      if |t| >= 4 { assert t[..4][0] == c; }
      if |t| >= 5 { assert t[..5][0] == c; }
      if |t| >= 6 { assert t[..6][0] == c; }
    }
  }

  /** An entity at the front of the text decodes to its character; the second character
      of the entity tells it apart from the entities tried before it. */
  lemma DecodeEntity(c: char, rest: string)
    requires IsSpecialChar(c)
    ensures UnescapeHtml(EscapeChar(c) + rest) == [c] + UnescapeHtml(rest)
  {
    var e := EscapeChar(c);
    var t := e + rest;
    assert t[..|e|] == e && t[|e|..] == rest;
    match c
    case '&' => assert t[1] == 'a';
    case '<' => assert t[1] == 'l';
    case '>' => assert t[1] == 'g';
    case '"' => assert t[1] == 'q';
    case '\'' => assert t[1] == '#';
  }

  /** `escapeHtml` is the identity on text without any of the five special characters. */
  lemma {:induction false} EscapeHtmlIdentity(s: string)
    requires forall k :: 0 <= k < |s| ==> !IsSpecialChar(s[k])
    ensures EscapeHtml(s) == s
  {
    EscapeHtmlIsEscapeEach(s);
    EscapeEachIdentity(s);
  }

  lemma {:induction false} EscapeEachIdentity(s: string)
    requires forall k :: 0 <= k < |s| ==> !IsSpecialChar(s[k])
    ensures EscapeEach(s) == s
  {
    if s != [] {
      assert forall k :: 0 <= k < |s[1..]| ==> s[1..][k] == s[k + 1];
      EscapeEachIdentity(s[1..]);
      assert s == [s[0]] + s[1..];
    }
  }

  /** The output of `nl2br` holds no line feed, and it is the input with each line feed
      replaced by `<br/>` and every other character kept in order. */
  lemma Nl2brReplacesLineFeeds(s: string)
    ensures Nl2br(s) == ReplaceEach(s, '\n', "<br/>")
    ensures '\n' !in Nl2br(s)
  {
    ReplaceAllIsReplaceEach(s, '\n', "<br/>");
    ReplaceEachRemoves(s, '\n', "<br/>");
  }

  /** On text without `<`, turning the `<br/>` tags back into line feeds undoes `nl2br`. */
  lemma {:induction false} Br2nlNl2br(t: string)
    requires '<' !in t
    ensures Br2nl(Nl2br(t)) == t
  {
    Nl2brReplacesLineFeeds(t);
    Br2nlReplaceEach(t);
  }

  lemma {:induction false} Br2nlReplaceEach(t: string)
    requires '<' !in t
    ensures Br2nl(ReplaceEach(t, '\n', "<br/>")) == t
  {
    if t != [] {
      var rest := ReplaceEach(t[1..], '\n', "<br/>");
      Br2nlReplaceEach(t[1..]);
      if t[0] == '\n' {
        assert ("<br/>" + rest)[..5] == "<br/>" && ("<br/>" + rest)[5..] == rest;
      } else {
        assert ([t[0]] + rest)[0] == t[0] && ([t[0]] + rest)[1..] == rest;
      }
      assert t == [t[0]] + t[1..];
    }
  }

  /** The message slot of the HTML body, `nl2br(escapeHtml(m))`, decodes back to `m`:
      line breaks back to line feeds, then the five entities back to characters. */
  lemma MessageSlotDecodes(m: string)
    ensures UnescapeHtml(Br2nl(Nl2br(EscapeHtml(m)))) == m
  {
    EscapeHtmlNoMarkup(m);
    assert '<' !in EscapeHtml(m);
    Br2nlNl2br(EscapeHtml(m));
    UnescapeEscapeHtml(m);
  }
}
