/** The client-side sanitiser and validators (src/lib/security.ts). Regular
    expressions are character-class predicates; `/g` replacement is a single
    left-to-right pass that resumes after each removed match. */
module ClientSecurity {
  import opened Wrappers
  import opened Text
  import opened Html
  import opened Patterns

  /** A JavaScript value handed to `sanitizeText`: a string, or anything else. */
  datatype JsValue = JsString(s: string) | JsOther

  const DefaultMaxLength := 500

  /** `s.replace(/pat/gi, '')` for a lower-case literal pattern: delete every
      case-insensitive occurrence, scanning left to right. */
  function RemoveAllIgnoreCase(s: string, pat: string): (r: string)
    requires |pat| > 0
    ensures |r| <= |s|
  {
    if |s| < |pat| then s
    else if StartsWithIgnoreCase(s, pat) then RemoveAllIgnoreCase(s[|pat|..], pat)
    else [s[0]] + RemoveAllIgnoreCase(s[1..], pat)
  }

  /** The removal only deletes characters. */
  lemma {:induction false} RemoveAllIgnoreCaseDeletes(s: string, pat: string)
    requires |pat| > 0
    ensures multiset(RemoveAllIgnoreCase(s, pat)) <= multiset(s)
  {
    if |s| < |pat| {
    } else if StartsWithIgnoreCase(s, pat) {
      RemoveAllIgnoreCaseDeletes(s[|pat|..], pat);
      assert s == s[..|pat|] + s[|pat|..];
    } else {
      RemoveAllIgnoreCaseDeletes(s[1..], pat);
      assert s == [s[0]] + s[1..];
    }
  }

  /** `s` starts with `pat` when compared in lower case. */
  predicate StartsWithIgnoreCase(s: string, pat: string) {
    |pat| <= |s| && forall i :: 0 <= i < |pat| ==> LowerChar(s[i]) == pat[i]
  }

  /** `\w`: ASCII letters, digits and '_'. */
  predicate IsWordChar(c: char) { IsAlnum(c) || c == '_' }

  /** The length of the longest prefix of `s` whose characters satisfy `p`. */
  function Run(s: string, p: char -> bool): (n: nat)
    ensures n <= |s|
    ensures forall i :: 0 <= i < n ==> p(s[i])
    ensures n == |s| || !p(s[n])
  {
    if s != [] && p(s[0]) then 1 + Run(s[1..], p) else 0
  }

  /** The length of the match of `/on\w+\s*=/i` at the start of `s`, or 0.
      Greedy `\w+` never needs to back off, since the character after a
      shorter run is a word character, which neither `\s` nor '=' matches. */
  function HandlerMatch(s: string): (k: nat)
    ensures k <= |s|
    ensures k > 0 ==> k >= 4 && LowerChar(s[0]) == 'o' && LowerChar(s[1]) == 'n' && s[k - 1] == '='
  {
    if |s| >= 2 && LowerChar(s[0]) == 'o' && LowerChar(s[1]) == 'n' then
      var w := Run(s[2..], IsWordChar);
      if w == 0 then 0
      else
        var sp := Run(s[2 + w..], IsJsSpace);
        if 2 + w + sp < |s| && s[2 + w + sp] == '=' then 3 + w + sp else 0
    else 0
  }

  /** `s.replace(/on\w+\s*=/gi, '')`. */
  function RemoveHandlers(s: string): (r: string)
    ensures |r| <= |s|
  {
    if s == [] then []
    else
      var k := HandlerMatch(s);
      if k > 0 then RemoveHandlers(s[k..]) else [s[0]] + RemoveHandlers(s[1..])
  }

  /** The removal only deletes characters. */
  lemma {:induction false} RemoveHandlersDeletes(s: string)
    ensures multiset(RemoveHandlers(s)) <= multiset(s)
  {
    if s != [] {
      var k := HandlerMatch(s);
      if k > 0 {
        RemoveHandlersDeletes(s[k..]);
        SuffixSubMultiset(s, k);
      } else {
        RemoveHandlersDeletes(s[1..]);
        assert s == [s[0]] + s[1..];
      }
    }
  }

  /** A suffix holds no character more often than the whole. */
  lemma SuffixSubMultiset(s: string, k: nat)
    requires k <= |s|
    ensures multiset(s[k..]) <= multiset(s)
  {
    assert s == s[..k] + s[k..];
  }

  /** `sanitizeText(text, maxLength)`: '' for an empty or non-string input;
      otherwise trim, cut to `maxLength`, delete `< > { }`, then delete
      `javascript:` and `on<word>=` case-insensitively. Every step after the
      cut only deletes characters. */
  function SanitizeText(text: JsValue, maxLength: int): (r: string)
    ensures text.JsOther? || text == JsString("") ==> r == ""
    ensures text.JsString? ==> multiset(r) <= multiset(JsTake(Trim(text.s), maxLength))
    ensures |r| <= if maxLength < 0 then 0 else maxLength
    ensures forall i :: 0 <= i < |r| ==> r[i] !in {'<', '>', '{', '}'}
  {
    if text.JsOther? || text.s == "" then ""
    else
      var cut := JsTake(Trim(text.s), maxLength);
      var noBraces := RemoveAny(cut, {'<', '>', '{', '}'});
      var noScheme := RemoveAllIgnoreCase(noBraces, "javascript:");
      var r := RemoveHandlers(noScheme);
      RemoveAnySubMultiset(cut, {'<', '>', '{', '}'});
      RemoveAllIgnoreCaseDeletes(noBraces, "javascript:");
      RemoveHandlersDeletes(noScheme);
      forall i | 0 <= i < |r| ensures r[i] !in {'<', '>', '{', '}'} {
        assert r[i] in multiset(r);
        assert r[i] in multiset(noBraces);
      }
      r
  }

  lemma {:induction false} RemoveAnySubMultiset(s: string, chars: set<char>)
    ensures multiset(RemoveAny(s, chars)) <= multiset(s)
  {
    if s != [] {
      RemoveAnySubMultiset(s[1..], chars);
      assert s == [s[0]] + s[1..];
    }
  }

  /** Each removal is a single pass, so a removal can expose a new
      occurrence: sanitising twice removes more than sanitising once. */
  lemma SanitizeTextNotIdempotent()
    ensures SanitizeText(JsString("java" + "javascript:" + "script:"), DefaultMaxLength) == "javascript:"
    ensures SanitizeText(JsString("javascript:"), DefaultMaxLength) == ""
  {
    SanitizeExposed("java" + "javascript:" + "script:");
    SanitizeScheme("javascript:");
  }

  lemma SanitizeExposed(s: string)
    requires s == "java" + "javascript:" + "script:"
    ensures SanitizeText(JsString(s), DefaultMaxLength) == "javascript:"
  {
    PlainSample(s);
    SanitizePlainText(s);
    RemoveScriptExposes();
  }

  lemma SanitizeScheme(s: string)
    requires s == "javascript:"
    ensures SanitizeText(JsString(s), DefaultMaxLength) == ""
  {
    PlainSample(s);
    SanitizePlainText(s);
    RemoveScriptPrefix("");
    assert s + "" == s;
  }

  /** The sample strings contain no whitespace, brace, angle bracket or 'o'. */
  lemma PlainSample(s: string)
    requires s == "java" + "javascript:" + "script:" || s == "javascript:"
    ensures s != [] && |s| <= DefaultMaxLength && !IsJsSpace(s[0]) && !IsJsSpace(s[|s| - 1])
    ensures forall i :: 0 <= i < |s| ==> s[i] !in {'<', '>', '{', '}'} && LowerChar(s[i]) != 'o'
  {
    assert forall i :: 0 <= i < |s| ==> s[i] in "javscript:";
  }

  /** On trimmed, short text without braces, angle brackets or "on",
      sanitising only deletes `javascript:`. */
  lemma {:induction false} SanitizePlainText(s: string)
    requires s != [] && |s| <= DefaultMaxLength && !IsJsSpace(s[0]) && !IsJsSpace(s[|s| - 1])
    requires forall i :: 0 <= i < |s| ==> s[i] !in {'<', '>', '{', '}'}
    requires forall i :: 0 <= i < |s| ==> LowerChar(s[i]) != 'o'
    ensures SanitizeText(JsString(s), DefaultMaxLength) == RemoveAllIgnoreCase(s, "javascript:")
  {
    assert Trim(s) == s;
    assert JsTake(s, DefaultMaxLength) == s;
    RemoveAnyKeeps(s, {'<', '>', '{', '}'});
    RemoveAllIgnoreCaseDeletes(s, "javascript:");
    NoHandlerAfterRemoval(s, RemoveAllIgnoreCase(s, "javascript:"));
  }

  lemma {:induction false} NoHandlerAfterRemoval(s: string, t: string)
    requires forall i :: 0 <= i < |s| ==> LowerChar(s[i]) != 'o'
    requires multiset(t) <= multiset(s)
    ensures RemoveHandlers(t) == t
  {
    forall i | 0 <= i < |t| ensures LowerChar(t[i]) != 'o' {
      assert t[i] in multiset(t);
      assert t[i] in multiset(s);
    }
    NoHandler(t);
  }

  lemma RemoveScriptExposes()
    ensures RemoveAllIgnoreCase("java" + "javascript:" + "script:", "javascript:") == "javascript:"
  {
    SchemeIsLower("javascript:");
    forall k | 0 <= k < 4 ensures !StartsWithIgnoreCase("java"[k..] + "javascript:" + "script:", "javascript:") {
      NoSchemeInJava("java", "javascript:" + "script:", "javascript:", k);
    }
    ExposedMatch("java", "script:", "javascript:");
  }

  /** Deleting `p` from `a + p + b`, where `p == a + b` and no occurrence
      starts inside `a`, leaves exactly `p`. */
  lemma {:induction false} ExposedMatch(a: string, b: string, p: string)
    requires p == a + b && |b| < |p|
    requires forall i :: 0 <= i < |p| ==> LowerChar(p[i]) == p[i]
    requires forall k :: 0 <= k < |a| ==> !StartsWithIgnoreCase(a[k..] + p + b, p)
    ensures RemoveAllIgnoreCase(a + p + b, p) == p
  {
    assert a + p + b == a + (p + b);
    forall k | 0 <= k < |a| ensures !StartsWithIgnoreCase(a[k..] + (p + b), p) {
      assert a[k..] + (p + b) == a[k..] + p + b;
    }
    KeepPrefix(a, p + b, p);
    RemoveLeading(p, b);
  }

  lemma NoSchemeInJava(a: string, t: string, p: string, k: nat)
    requires a == "java" && p == "javascript:" && t == p + "script:" && k < 4
    ensures !StartsWithIgnoreCase(a[k..] + t, p)
  {
    var x := a[k..] + t;
    if k == 0 {
      assert x[4] == 'j';
      assert LowerChar(x[4]) != p[4];
    } else {
      assert x[0] == a[k];
      assert LowerChar(x[0]) != p[0];
    }
  }

  /** Characters at which the pattern does not start are kept. */
  lemma {:induction false} KeepPrefix(a: string, t: string, pat: string)
    requires |pat| > 0
    requires forall k :: 0 <= k < |a| ==> !StartsWithIgnoreCase(a[k..] + t, pat)
    ensures RemoveAllIgnoreCase(a + t, pat) == a + RemoveAllIgnoreCase(t, pat)
  {
    if a == [] {
      assert a + t == t;
    } else {
      assert a[0..] + t == a + t;
      assert (a + t)[1..] == a[1..] + t;
      forall k | 0 <= k < |a[1..]| ensures !StartsWithIgnoreCase(a[1..][k..] + t, pat) {
        assert a[1..][k..] == a[k + 1..];
      }
      KeepPrefix(a[1..], t, pat);
      assert a == [a[0]] + a[1..];
    }
  }

  /** A leading occurrence is deleted; the short rest has no room for another. */
  lemma RemoveScriptPrefix(rest: string)
    requires |rest| < 11
    ensures RemoveAllIgnoreCase("javascript:" + rest, "javascript:") == rest
  {
    SchemeIsLower("javascript:");
    RemoveLeading("javascript:", rest);
  }

  lemma SchemeIsLower(p: string)
    requires p == "javascript:"
    ensures forall i :: 0 <= i < |p| ==> LowerChar(p[i]) == p[i]
  {
  }

  lemma {:induction false} RemoveLeading(pat: string, rest: string)
    requires 0 < |pat| && |rest| < |pat|
    requires forall i :: 0 <= i < |pat| ==> LowerChar(pat[i]) == pat[i]
    ensures RemoveAllIgnoreCase(pat + rest, pat) == rest
  {
    var t := pat + rest;
    assert StartsWithIgnoreCase(t, pat) by {
      forall i | 0 <= i < |pat| ensures LowerChar(t[i]) == pat[i] { assert t[i] == pat[i]; }
    }
    assert t[|pat|..] == rest;
  }

  /** A string with no "on" (in any case) holds no event-handler match. */
  lemma {:induction false} NoHandler(s: string)
    requires forall i :: 0 <= i < |s| - 1 ==> !(LowerChar(s[i]) == 'o' && LowerChar(s[i + 1]) == 'n')
    ensures RemoveHandlers(s) == s
  {
    if s != [] {
      assert HandlerMatch(s) == 0;
      NoHandler(s[1..]);
    }
  }

  /** `validateEmail(email)`: the JavaScript test of the email pattern, where
      `$` matches only at the very end. */
  function ValidateEmail(email: string): (r: bool)
    ensures r <==> MatchesEmail(email)
    ensures r ==> Count(email, '@') == 1
    ensures r ==> exists k :: 0 <= k && k + 3 <= |email| && email[k] == '.' && AllLetters(email[k + 1..])
  {
    if MatchesEmail(email) then
      EmailHasOneAt(email);
      EmailEndsInTld(email);
      true
    else false
  }

  /** `validateUserId(userId)`: non-empty, ASCII letters and digits only. */
  function ValidateUserId(userId: string): (r: bool)
    ensures r <==> |userId| > 0 && forall i :: 0 <= i < |userId| ==> IsAlnum(userId[i])
  {
    MatchesAlnum(userId)
  }

  /** Unlike Python's `$`, the client's `$` rejects a trailing newline. */
  lemma ValidateUserIdRejectsNewline()
    ensures !ValidateUserId("aaaaaaaaaaaaaaaaaaa\n")
  {
    var s := "aaaaaaaaaaaaaaaaaaa\n";
    assert !IsAlnum(s[19]);
  }

  /** `safeJSONParse(json, fallback)`: `parse` stands for `JSON.parse`, `None`
      for the exception it throws. */
  function SafeJsonParse<T>(json: string, parse: string -> Option<T>, fallback: T): (r: T)
    ensures parse(json).None? ==> r == fallback
    ensures parse(json).Some? ==> r == parse(json).value
  {
    match parse(json)
    case Some(v) => v
    case None => fallback
  }
}
