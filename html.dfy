/** Python's `html.escape` (with `quote=True`), its inverse, and the
    character-class deletion `re.sub(r'[...]', '', s)`. */
module Html {

  /** The five characters `html.escape` rewrites. */
  predicate IsSpecial(c: char) {
    c == '&' || c == '<' || c == '>' || c == '"' || c == '\''
  }

  function EscapeChar(c: char): (r: string)
    ensures |r| >= 1
  {
    if c == '&' then "&amp;"
    else if c == '<' then "&lt;"
    else if c == '>' then "&gt;"
    else if c == '"' then "&quot;"
    else if c == '\'' then "&#x27;"
    else [c]
  }

  /** `html.escape(s)`: every special character becomes its entity, so
      the text never gets shorter (`UnescapeEscape` gives it back). */
  function Escape(s: string): (r: string)
    ensures |r| >= |s|
  {
    if s == [] then [] else EscapeChar(s[0]) + Escape(s[1..])
  }

  /** The inverse of `Escape`: decodes the five entities `Escape` produces and
      keeps every other character. */
  function Unescape(s: string): string {
    if s == [] then []
    else if |s| >= 5 && s[..5] == "&amp;" then "&" + Unescape(s[5..])
    else if |s| >= 4 && s[..4] == "&lt;" then "<" + Unescape(s[4..])
    else if |s| >= 4 && s[..4] == "&gt;" then ">" + Unescape(s[4..])
    else if |s| >= 6 && s[..6] == "&quot;" then "\"" + Unescape(s[6..])
    else if |s| >= 6 && s[..6] == "&#x27;" then "'" + Unescape(s[6..])
    else [s[0]] + Unescape(s[1..])
  }

  /** `re.sub('[' + chars + ']', '', s)`: delete every character of `chars`. */
  function RemoveAny(s: string, chars: set<char>): (r: string)
    ensures |r| <= |s|
    ensures forall i :: 0 <= i < |r| ==> r[i] !in chars
  {
    if s == [] then []
    else if s[0] in chars then RemoveAny(s[1..], chars)
    else [s[0]] + RemoveAny(s[1..], chars)
  }

  lemma {:induction false} EscapeAppend(a: string, b: string)
    ensures Escape(a + b) == Escape(a) + Escape(b)
  {
    if a == [] {
      assert a + b == b;
    } else {
      assert (a + b)[0] == a[0];
      assert (a + b)[1..] == a[1..] + b;
      EscapeAppend(a[1..], b);
    }
  }

  lemma UnescapeEscapeChar(c: char, rest: string)
    ensures Unescape(EscapeChar(c) + rest) == [c] + Unescape(rest)
  {
    if c == '&' { UnescapeEntity("&amp;", '&', rest); }
    else if c == '<' { UnescapeEntity("&lt;", '<', rest); }
    else if c == '>' { UnescapeEntity("&gt;", '>', rest); }
    else if c == '"' { UnescapeEntity("&quot;", '"', rest); }
    else if c == '\'' { UnescapeEntity("&#x27;", '\'', rest); }
    else {
      var e := [c] + rest;
      assert e[0] == c && e[1..] == rest;
      UnescapePlain(e);
    }
  }

  /** Text that does not start with '&' keeps its first character. */
  lemma UnescapePlain(s: string)
    requires s != [] && s[0] != '&'
    ensures Unescape(s) == [s[0]] + Unescape(s[1..])
  {
    if |s| >= 4 { assert s[..4][0] == s[0]; }
    if |s| >= 5 { assert s[..5][0] == s[0]; }
    if |s| >= 6 { assert s[..6][0] == s[0]; }
  }

  lemma UnescapeEntity(entity: string, c: char, rest: string)
    requires (entity, c) in {("&amp;", '&'), ("&lt;", '<'), ("&gt;", '>'), ("&quot;", '"'), ("&#x27;", '\'')}
    ensures Unescape(entity + rest) == [c] + Unescape(rest)
  {
    var e := entity + rest;
    assert e[..|entity|] == entity && e[|entity|..] == rest;
    assert e[1] == entity[1];
  }

  /** Escaping loses nothing: `Unescape` recovers the original text. */
  lemma {:induction false} UnescapeEscape(s: string)
    ensures Unescape(Escape(s)) == s
  {
    if s != [] {
      UnescapeEscapeChar(s[0], Escape(s[1..]));
      UnescapeEscape(s[1..]);
    }
  }

  /** Escaped text contains none of `<`, `>`, `"` and `'`, and contains a
      brace exactly where the original did. */
  lemma {:induction false} EscapeCharacters(s: string)
    ensures forall i :: 0 <= i < |Escape(s)| ==> Escape(s)[i] !in {'<', '>', '"', '\''}
    ensures forall i :: 0 <= i < |Escape(s)| && Escape(s)[i] in {'{', '}'} ==> Escape(s)[i] in s
  {
    if s != [] {
      EscapeCharacters(s[1..]);
      var e := Escape(s);
      assert e == EscapeChar(s[0]) + Escape(s[1..]);
      forall i | 0 <= i < |e| ensures e[i] !in {'<', '>', '"', '\''} && (e[i] in {'{', '}'} ==> e[i] in s) {
        if i >= |EscapeChar(s[0])| {
          assert e[i] == Escape(s[1..])[i - |EscapeChar(s[0])|];
        }
      }
    }
  }

  /** Deleting braces before or after escaping gives the same text, since
      escaping neither creates nor removes braces. */
  lemma {:induction false} RemoveBracesEscape(s: string)
    ensures RemoveAny(Escape(s), {'<', '>', '{', '}'}) == Escape(RemoveAny(s, {'{', '}'}))
  {
    if s != [] {
      var cs := {'<', '>', '{', '}'};
      var bs := {'{', '}'};
      RemoveBracesEscape(s[1..]);
      RemoveAnyAppend(EscapeChar(s[0]), Escape(s[1..]), cs);
      RemoveBracesEscapeChar(s[0]);
      if s[0] in bs {
        assert RemoveAny(s, bs) == RemoveAny(s[1..], bs);
      } else {
        assert RemoveAny(s, bs) == [s[0]] + RemoveAny(s[1..], bs);
        EscapeAppend([s[0]], RemoveAny(s[1..], bs));
        assert Escape([s[0]]) == EscapeChar(s[0]) + Escape([]);
      }
    }
  }

  lemma RemoveBracesEscapeChar(c: char)
    ensures RemoveAny(EscapeChar(c), {'<', '>', '{', '}'}) == if c in {'{', '}'} then [] else EscapeChar(c)
  {
    var cs := {'<', '>', '{', '}'};
    var e := EscapeChar(c);
    if c !in {'{', '}'} {
      assert forall i :: 0 <= i < |e| ==> e[i] !in cs;
      RemoveAnyKeeps(e, cs);
    } else {
      assert e == [c];
      assert RemoveAny(e, cs) == RemoveAny(e[1..], cs);
    }
  }

  lemma {:induction false} RemoveAnyAppend(a: string, b: string, chars: set<char>)
    ensures RemoveAny(a + b, chars) == RemoveAny(a, chars) + RemoveAny(b, chars)
  {
    if a == [] {
      assert a + b == b;
    } else {
      assert (a + b)[0] == a[0];
      assert (a + b)[1..] == a[1..] + b;
      RemoveAnyAppend(a[1..], b, chars);
    }
  }

  /** Deleting characters a string does not contain changes nothing. */
  lemma {:induction false} RemoveAnyKeeps(s: string, chars: set<char>)
    requires forall i :: 0 <= i < |s| ==> s[i] !in chars
    ensures RemoveAny(s, chars) == s
  {
    if s != [] {
      RemoveAnyKeeps(s[1..], chars);
    }
  }

  /** Text without special characters is its own escape. */
  lemma {:induction false} EscapePlain(s: string)
    requires forall i :: 0 <= i < |s| ==> !IsSpecial(s[i])
    ensures Escape(s) == s
  {
    if s != [] {
      EscapePlain(s[1..]);
    }
  }

  /** `&` is escaped again on every pass, so escaping is not idempotent. */
  lemma EscapeNotIdempotent()
    ensures Escape("&") == "&amp;"
    ensures Escape(Escape("&")) == "&amp;amp;"
  {
    assert Escape("&") == EscapeChar('&') + Escape("");
    EscapeAppend("&", "amp;");
    EscapePlain("amp;");
    assert Escape("&amp;") == Escape("&") + Escape("amp;");
  }
}
