/**
 The two pieces of the dashboard script that decide what reaches the server
 and what reaches the page: the guard on a new todo's title, which trims it
 and drops the submission when nothing is left, and `escapeHtml`, which
 rewrites the five HTML-special characters before a title is put into the
 list's markup.
 */
module DashboardScript {
  import opened Wrappers

  // ------------------------------------------------------------- escapeHtml

  /** How many times `c` occurs in `s`. */
  function Occurrences(s: string, c: char): nat
  {
    if |s| == 0 then 0 else (if s[0] == c then 1 else 0) + Occurrences(s[1..], c)
  }

  /**
   `s.replace(/c/g, rep)` for a one-character pattern: every occurrence of
   `c` becomes `rep`, scanning left to right over the original string only,
   so a `c` inside an inserted `rep` is not replaced again. This agrees with
   JavaScript only for a `rep` without `$`, which `replace` would read as a
   substitution pattern; none of the five entities has one.
   */
  function ReplaceAll(s: string, c: char, rep: string): (r: string)
    ensures c !in rep ==> c !in r
    ensures c !in s ==> r == s
  {
    if |s| == 0 then []
    else (if s[0] == c then rep else [s[0]]) + ReplaceAll(s[1..], c, rep)
  }

  /** Each occurrence of the character grows the text by the replacement's extra length. */
  lemma {:induction false} ReplaceAllLength(s: string, c: char, rep: string)
    ensures |ReplaceAll(s, c, rep)| == |s| + Occurrences(s, c) * (|rep| - 1)
  {
    if |s| > 0 {
      ReplaceAllLength(s[1..], c, rep);
      var head := if s[0] == c then rep else [s[0]];
      var o := Occurrences(s[1..], c);
      assert ReplaceAll(s, c, rep) == head + ReplaceAll(s[1..], c, rep);
      if s[0] == c {
        assert Occurrences(s, c) == 1 + o;
        OneMore(o, |rep| - 1);
      } else {
        assert Occurrences(s, c) == o;
      }
    }
  }

  lemma OneMore(o: int, k: int)
    ensures (1 + o) * k == k + o * k
  {
  }

  /** A replacement pass introduces no character that neither the input nor the replacement holds. */
  lemma {:induction false} ReplaceAllIntroducesNothing(s: string, c: char, rep: string, x: char)
    requires x !in s && x !in rep
    ensures x !in ReplaceAll(s, c, rep)
  {
    if |s| > 0 {
      assert s[0] != x;
      assert x !in s[1..];
      ReplaceAllIntroducesNothing(s[1..], c, rep, x);
    }
  }

  /** Replacing in a concatenation replaces in each part. */
  lemma {:induction false} ReplaceAllConcat(a: string, b: string, c: char, rep: string)
    ensures ReplaceAll(a + b, c, rep) == ReplaceAll(a, c, rep) + ReplaceAll(b, c, rep)
  {
    if |a| > 0 {
      assert (a + b)[1..] == a[1..] + b;
      ReplaceAllConcat(a[1..], b, c, rep);
    } else {
      assert a + b == b;
    }
  }

  /** The five characters the dashboard escapes. */
  predicate IsSpecial(ch: char)
  {
    ch == '&' || ch == '<' || ch == '>' || ch == '"' || ch == '\''
  }

  /**
   `escapeHtml(unsafe)`: five global replacements applied in the order the
   script applies them, `&` first. No `<`, `>`, `"` or `'` survives: each
   pass removes its character, and no entity a later pass inserts contains
   an earlier pass's character.
   */
  function EscapeHtml(s: string): (r: string)
    ensures '<' !in r && '>' !in r && '"' !in r && '\'' !in r
  {
    var amp := ReplaceAll(s, '&', "&amp;");
    var lt := ReplaceAll(amp, '<', "&lt;");
    var gt := ReplaceAll(lt, '>', "&gt;");
    var quot := ReplaceAll(gt, '"', "&quot;");
    var r := ReplaceAll(quot, '\'', "&#039;");
    LaterPassesKeepMarkupOut(lt, gt, quot, r);
    r
  }

  /** The `>`, `"` and `'` passes bring back no character an earlier pass removed. */
  lemma LaterPassesKeepMarkupOut(lt: string, gt: string, quot: string, r: string)
    requires '<' !in lt
    requires gt == ReplaceAll(lt, '>', "&gt;")
    requires quot == ReplaceAll(gt, '"', "&quot;")
    requires r == ReplaceAll(quot, '\'', "&#039;")
    ensures '<' !in r && '>' !in r && '"' !in r && '\'' !in r
  {
    EntityFacts();
    ReplaceAllIntroducesNothing(lt, '>', "&gt;", '<');
    ReplaceAllIntroducesNothing(gt, '"', "&quot;", '<');
    ReplaceAllIntroducesNothing(gt, '"', "&quot;", '>');
    ReplaceAllIntroducesNothing(quot, '\'', "&#039;", '<');
    ReplaceAllIntroducesNothing(quot, '\'', "&#039;", '>');
    ReplaceAllIntroducesNothing(quot, '\'', "&#039;", '"');
  }

  /** Which of the five characters each entity contains: only `&`. */
  lemma EntityFacts()
    ensures forall x :: IsSpecial(x) && x != '&' ==>
              x !in "&amp;" && x !in "&lt;" && x !in "&gt;" && x !in "&quot;" && x !in "&#039;"
  {
  }

  /** The entity one character becomes, or the character itself. */
  function EscapeChar(ch: char): (r: string)
    ensures |r| >= 1
    ensures |r| == 1 <==> !IsSpecial(ch)
    ensures !IsSpecial(ch) ==> r == [ch]
  {
    match ch
    case '&' => "&amp;"
    case '<' => "&lt;"
    case '>' => "&gt;"
    case '"' => "&quot;"
    case '\'' => "&#039;"
    case _ => [ch]
  }

  /** The reference escaping: each character of the input replaced by its own entity, in order. */
  function Escape(s: string): (r: string)
    ensures |r| >= |s|
  {
    if |s| == 0 then [] else EscapeChar(s[0]) + Escape(s[1..])
  }

  lemma {:induction false} EscapeConcat(a: string, b: string)
    ensures Escape(a + b) == Escape(a) + Escape(b)
  {
    if |a| > 0 {
      assert (a + b)[1..] == a[1..] + b;
      EscapeConcat(a[1..], b);
    } else {
      assert a + b == b;
    }
  }

  /** `escapeHtml` distributes over concatenation, because each pass does. */
  lemma EscapeHtmlConcat(a: string, b: string)
    ensures EscapeHtml(a + b) == EscapeHtml(a) + EscapeHtml(b)
  {
    var a1, b1 := ReplaceAll(a, '&', "&amp;"), ReplaceAll(b, '&', "&amp;");
    ReplaceAllConcat(a, b, '&', "&amp;");
    var a2, b2 := ReplaceAll(a1, '<', "&lt;"), ReplaceAll(b1, '<', "&lt;");
    ReplaceAllConcat(a1, b1, '<', "&lt;");
    var a3, b3 := ReplaceAll(a2, '>', "&gt;"), ReplaceAll(b2, '>', "&gt;");
    ReplaceAllConcat(a2, b2, '>', "&gt;");
    var a4, b4 := ReplaceAll(a3, '"', "&quot;"), ReplaceAll(b3, '"', "&quot;");
    ReplaceAllConcat(a3, b3, '"', "&quot;");
    ReplaceAllConcat(a4, b4, '\'', "&#039;");
  }

  /** One replacement pass over a one-character string. */
  lemma ReplaceAllSingle(ch: char, c: char, rep: string)
    ensures ReplaceAll([ch], c, rep) == if ch == c then rep else [ch]
  {
    assert [ch][1..] == [];
  }

  /**
   On one character the five passes give exactly that character's entity:
   the entities inserted by the later passes contain `&` but no character a
   still later pass looks for, and the `&` pass has already run.
   */
  lemma EscapeHtmlChar(ch: char)
    ensures EscapeHtml([ch]) == EscapeChar(ch)
  {
    ReplaceAllSingle(ch, '&', "&amp;");
    if ch == '&' {
      EntityFacts();
      assert ReplaceAll("&amp;", '<', "&lt;") == "&amp;";
      PassesKeep("&amp;");
    } else {
      ReplaceAllSingle(ch, '<', "&lt;");
      if ch == '<' {
        PassesKeep("&lt;");
      } else {
        LastPassesOnChar(ch);
      }
    }
  }

  /**
   Once the `<` pass has produced an entity, the `>`, `"` and `'` passes
   leave it alone.
   */
  lemma PassesKeep(e: string)
    requires e == "&amp;" || e == "&lt;"
    ensures ReplaceAll(ReplaceAll(ReplaceAll(e, '>', "&gt;"), '"', "&quot;"), '\'', "&#039;") == e
  {
    EntityFacts();
    assert ReplaceAll(e, '>', "&gt;") == e;
    assert ReplaceAll(e, '"', "&quot;") == e;
  }

  /** The `>`, `"` and `'` passes on a character the first two passes left alone. */
  lemma LastPassesOnChar(ch: char)
    requires ch != '&' && ch != '<'
    ensures EscapeHtml([ch]) == EscapeChar(ch)
  {
    ReplaceAllSingle(ch, '&', "&amp;");
    ReplaceAllSingle(ch, '<', "&lt;");
    ReplaceAllSingle(ch, '>', "&gt;");
    ReplaceAllSingle(ch, '"', "&quot;");
    ReplaceAllSingle(ch, '\'', "&#039;");
    var c := ReplaceAll([ch], '>', "&gt;");
    assert EscapeHtml([ch]) == ReplaceAll(ReplaceAll(c, '"', "&quot;"), '\'', "&#039;");
    if ch == '>' {
      EntityFacts();
      assert ReplaceAll("&gt;", '"', "&quot;") == "&gt;";
    } else if ch == '"' {
      EntityFacts();
    }
  }

  /**
   Because `&` is replaced first, the chained replacements equal the
   per-character escaping: no entity is escaped twice.
   */
  lemma {:induction false} EscapeHtmlIsPerCharMap(s: string)
    ensures EscapeHtml(s) == Escape(s)
  {
    if |s| > 0 {
      assert s == [s[0]] + s[1..];
      EscapeHtmlConcat([s[0]], s[1..]);
      EscapeHtmlChar(s[0]);
      EscapeHtmlIsPerCharMap(s[1..]);
    }
  }

  /** Text with none of the five characters passes through unchanged. */
  lemma PlainTextUnchanged(s: string)
    requires forall i :: 0 <= i < |s| ==> !IsSpecial(s[i])
    ensures EscapeHtml(s) == s
  {
  }

  /** The escaped text is never shorter than the input. */
  lemma EscapeHtmlLength(s: string)
    ensures |EscapeHtml(s)| >= |s|
  {
    EscapeHtmlIsPerCharMap(s);
  }

  /** The escaped text has the input's length exactly when the input has none of the five characters. */
  lemma {:induction false} EscapeSameLength(s: string)
    ensures |Escape(s)| == |s| <==> forall i :: 0 <= i < |s| ==> !IsSpecial(s[i])
  {
    if |s| > 0 {
      EscapeSameLength(s[1..]);
      assert forall i :: 1 <= i < |s| ==> s[i] == s[1..][i - 1];
    }
  }

  lemma EscapeHtmlSameLength(s: string)
    ensures |EscapeHtml(s)| == |s| <==> forall i :: 0 <= i < |s| ==> !IsSpecial(s[i])
  {
    EscapeHtmlIsPerCharMap(s);
    EscapeSameLength(s);
  }

  /** True iff `p` is a prefix of `s`. */
  predicate StartsWith(s: string, p: string)
  {
    |p| <= |s| && s[..|p|] == p
  }

  /**
   The inverse of the five replacements: each of the five entities stands
   for its character, any other character for itself. This is how the
   HTML parser reads those entities; its other rewriting of text is not
   part of this function.
   */
  function Unescape(s: string): string
    decreases |s|
  {
    if |s| == 0 then []
    else if s[0] != '&' then [s[0]] + Unescape(s[1..])
    else if StartsWith(s, "&amp;") then ['&'] + Unescape(s[5..])
    else if StartsWith(s, "&lt;") then ['<'] + Unescape(s[4..])
    else if StartsWith(s, "&gt;") then ['>'] + Unescape(s[4..])
    else if StartsWith(s, "&quot;") then ['"'] + Unescape(s[6..])
    else if StartsWith(s, "&#039;") then ['\''] + Unescape(s[6..])
    else ['&'] + Unescape(s[1..])
  }

  /** Reading back one escaped character gives the character, followed by whatever follows. */
  lemma UnescapeChar(ch: char, rest: string)
    ensures Unescape(EscapeChar(ch) + rest) == [ch] + Unescape(rest)
  {
    var e := EscapeChar(ch);
    var s := e + rest;
    assert s[..|e|] == e;
    assert s[|e|..] == rest;
    if ch == '&' {
      assert StartsWith(s, "&amp;");
    } else if ch == '<' {
      assert s[1] == 'l';
      assert StartsWith(s, "&lt;");
    } else if ch == '>' {
      assert s[1] == 'g';
      assert StartsWith(s, "&gt;");
    } else if ch == '"' {
      assert s[1] == 'q';
      assert StartsWith(s, "&quot;");
    } else if ch == '\'' {
      assert s[1] == '#';
      assert StartsWith(s, "&#039;");
    } else {
      assert s[0] == ch && s[1..] == rest;
    }
  }

  /** Escaping loses nothing: undoing the five replacements gives back exactly the input. */
  lemma {:induction false} UnescapeEscape(s: string)
    ensures Unescape(EscapeHtml(s)) == s
  {
    EscapeHtmlIsPerCharMap(s);
    UnescapeEscapeRef(s);
  }

  lemma {:induction false} UnescapeEscapeRef(s: string)
    ensures Unescape(Escape(s)) == s
  {
    if |s| > 0 {
      UnescapeChar(s[0], Escape(s[1..]));
      UnescapeEscapeRef(s[1..]);
      assert s == [s[0]] + s[1..];
    }
  }

  // ---------------------------------------------------- the submit guard

  /**
   What JavaScript's `String.prototype.trim` strips: the white-space
   characters (tab, vertical tab, form feed, space, no-break space, the byte
   order mark and the other space separators) and the line terminators.
   None of them is a character `escapeHtml` rewrites, and the only printable
   ASCII one is the space.
   */
  predicate IsJsWhitespace(c: char): (r: bool)
    ensures r ==> c != '&' && c != '<' && c != '>' && c != '"' && c != '\''
    ensures r && ' ' <= c <= '~' ==> c == ' '
  {
    || c == '\t' || c == '\n' || c == '\U{0B}' || c == '\U{0C}' || c == '\r' || c == ' '
    || c == '\U{A0}' || c == '\U{FEFF}' || c == '\U{1680}'
    || ('\U{2000}' <= c <= '\U{200A}')
    || c == '\U{2028}' || c == '\U{2029}' || c == '\U{202F}' || c == '\U{205F}' || c == '\U{3000}'
  }

  /** How many leading characters are white space. */
  function LeadingSpace(s: string): (n: nat)
    ensures n <= |s|
    ensures forall i :: 0 <= i < n ==> IsJsWhitespace(s[i])
    ensures n < |s| ==> !IsJsWhitespace(s[n])
  {
    if |s| == 0 || !IsJsWhitespace(s[0]) then 0 else 1 + LeadingSpace(s[1..])
  }

  /** How many trailing characters are white space. */
  function TrailingSpace(s: string): (n: nat)
    ensures n <= |s|
    ensures forall i :: |s| - n <= i < |s| ==> IsJsWhitespace(s[i])
    ensures n < |s| ==> !IsJsWhitespace(s[|s| - n - 1])
  {
    if |s| == 0 || !IsJsWhitespace(s[|s| - 1]) then 0 else 1 + TrailingSpace(s[..|s| - 1])
  }

  /** Cutting `s` to `s[i..j]` removes only white space. */
  predicate CutsOnlySpace(s: string, i: int, j: int)
  {
    && 0 <= i <= j <= |s|
    && (forall k :: 0 <= k < i ==> IsJsWhitespace(s[k]))
    && (forall k :: j <= k < |s| ==> IsJsWhitespace(s[k]))
  }

  /** Where `trim` cuts at the end: before the trailing white space of what follows the leading white space. */
  function TrimEnd(s: string): nat
  {
    var i := LeadingSpace(s);
    i + (|s[i..]| - TrailingSpace(s[i..]))
  }

  /** The cut removes only white space and keeps a slice that neither starts nor ends with it. */
  lemma TrimCut(s: string)
    ensures CutsOnlySpace(s, LeadingSpace(s), TrimEnd(s))
    ensures LeadingSpace(s) < TrimEnd(s) ==>
              !IsJsWhitespace(s[LeadingSpace(s)]) && !IsJsWhitespace(s[TrimEnd(s) - 1])
  {
    var i := LeadingSpace(s);
    var rest := s[i..];
    var j := TrimEnd(s);
    forall k | j <= k < |s|
      ensures IsJsWhitespace(s[k])
    {
      assert s[k] == rest[k - i];
    }
    if i < j {
      assert s[j - 1] == rest[j - 1 - i];
    }
  }

  /**
   `value.trim()`: the input without its leading and trailing white space.
   The result is a slice of the input that neither starts nor ends with
   white space, and everything cut off is white space.
   */
  function Trim(s: string): (r: string)
    ensures exists i, j :: CutsOnlySpace(s, i, j) && r == s[i..j]
    ensures |r| > 0 ==> !IsJsWhitespace(r[0]) && !IsJsWhitespace(r[|r| - 1])
  {
    TrimCut(s);
    s[LeadingSpace(s)..TrimEnd(s)]
  }

  /** A string that neither starts nor ends with white space is its own trim. */
  lemma TrimNoop(r: string)
    requires |r| > 0 ==> !IsJsWhitespace(r[0]) && !IsJsWhitespace(r[|r| - 1])
    ensures Trim(r) == r
  {
    if |r| > 0 {
      assert LeadingSpace(r) == 0;
      assert r[0..] == r;
      assert TrailingSpace(r) == 0;
      assert TrimEnd(r) == |r|;
      assert r[0..|r|] == r;
    }
  }

  /** Trimming twice equals trimming once. */
  lemma TrimIdempotent(s: string)
    ensures Trim(Trim(s)) == Trim(s)
  {
    TrimNoop(Trim(s));
  }

  /** Trimming leaves nothing exactly when the input is all white space. */
  lemma TrimEmpty(s: string)
    ensures Trim(s) == [] <==> forall k :: 0 <= k < |s| ==> IsJsWhitespace(s[k])
  {
    TrimCut(s);
    var i := LeadingSpace(s);
    if i < |s| {
      var rest := s[i..];
      assert !IsJsWhitespace(rest[0]);
      assert TrailingSpace(rest) < |rest|;
      assert LeadingSpace(s) < TrimEnd(s);
    }
  }

  /**
   `handleSubmit`'s guard: the title sent to the server is the trimmed
   input, and nothing is sent when that is empty.
   */
  function SubmitTitle(input: string): (r: Option<string>)
    ensures r.None? <==> forall k :: 0 <= k < |input| ==> IsJsWhitespace(input[k])
    ensures r.Some? ==> r.value == Trim(input) && |r.value| > 0
    ensures r.Some? ==> !IsJsWhitespace(r.value[0]) && !IsJsWhitespace(r.value[|r.value| - 1])
  {
    TrimEmpty(input);
    var title := Trim(input);
    if |title| == 0 then None else Some(title)
  }
}
