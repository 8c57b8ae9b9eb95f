/** The two regular expressions the sanitisers and validators test, written as
    character-class predicates:
      email:   ^[a-zA-Z0-9._%+-]+@[a-zA-Z0-9.-]+\.[a-zA-Z]{2,}$
      user id: ^[a-zA-Z0-9]+$
    Both engines (Python `re`, JavaScript `RegExp`) match these anchored
    patterns the same way, except for the Python `$` quirk, which is modelled
    where it is used. */
module Patterns {
  import opened Text

  /** `[a-zA-Z0-9._%+-]` */
  predicate IsLocalChar(c: char) {
    IsAlnum(c) || c == '.' || c == '_' || c == '%' || c == '+' || c == '-'
  }

  /** `[a-zA-Z0-9.-]` */
  predicate IsDomainChar(c: char) {
    IsAlnum(c) || c == '.' || c == '-'
  }

  predicate AllLocal(s: string) { forall i :: 0 <= i < |s| ==> IsLocalChar(s[i]) }
  predicate AllDomain(s: string) { forall i :: 0 <= i < |s| ==> IsDomainChar(s[i]) }
  predicate AllLetters(s: string) { forall i :: 0 <= i < |s| ==> IsLetter(s[i]) }

  /** `[a-zA-Z0-9.-]+\.[a-zA-Z]{2,}` matches all of `r`: some '.' splits it
      into a non-empty domain and a top-level label of two or more letters. */
  predicate MatchesDomain(r: string) {
    exists j :: 1 <= j && j + 3 <= |r| && r[j] == '.' && AllDomain(r[..j]) && AllLetters(r[j + 1..])
  }

  /** The whole of `s` matches the email pattern. */
  predicate MatchesEmail(s: string) {
    exists i :: 1 <= i < |s| && s[i] == '@' && AllLocal(s[..i]) && MatchesDomain(s[i + 1..])
  }

  /** The whole of `s` matches `[a-zA-Z0-9]+`. */
  predicate MatchesAlnum(s: string) {
    |s| > 0 && forall i :: 0 <= i < |s| ==> IsAlnum(s[i])
  }

  lemma DomainHasNoAt(r: string)
    requires MatchesDomain(r)
    ensures forall k :: 0 <= k < |r| ==> r[k] != '@'
  {
    var j :| 1 <= j && j + 3 <= |r| && r[j] == '.' && AllDomain(r[..j]) && AllLetters(r[j + 1..]);
    forall k | 0 <= k < |r| ensures r[k] != '@' {
      if k < j { assert r[..j][k] == r[k]; }
      else if k > j { assert r[j + 1..][k - j - 1] == r[k]; }
    }
  }

  /** An address the pattern accepts contains exactly one '@'. */
  lemma EmailHasOneAt(s: string)
    requires MatchesEmail(s)
    ensures Count(s, '@') == 1
  {
    var i :| 1 <= i < |s| && s[i] == '@' && AllLocal(s[..i]) && MatchesDomain(s[i + 1..]);
    var l, r := s[..i], s[i + 1..];
    DomainHasNoAt(r);
    assert forall k :: 0 <= k < |l| ==> l[k] != '@' by {
      forall k | 0 <= k < |l| ensures l[k] != '@' { assert IsLocalChar(l[k]); }
    }
    CountAbsent(l, '@');
    CountAbsent(r, '@');
    CountAround(s, i, '@');
  }

  /** An accepted address ends in '.' followed by at least two letters. */
  lemma EmailEndsInTld(s: string)
    requires MatchesEmail(s)
    ensures exists k :: 0 <= k && k + 3 <= |s| && s[k] == '.' && AllLetters(s[k + 1..])
  {
    var i :| 1 <= i < |s| && s[i] == '@' && AllLocal(s[..i]) && MatchesDomain(s[i + 1..]);
    var r := s[i + 1..];
    var j :| 1 <= j && j + 3 <= |r| && r[j] == '.' && AllDomain(r[..j]) && AllLetters(r[j + 1..]);
    assert s[i + 1 + j] == '.';
    assert s[i + 1 + j + 1..] == r[j + 1..];
  }

  /** Every character of an accepted address is a letter, a digit, or one of
      `. _ % + - @`; none needs HTML escaping and none is a brace. */
  lemma EmailCharacters(s: string)
    requires MatchesEmail(s)
    ensures forall k :: 0 <= k < |s| ==> IsLocalChar(s[k]) || s[k] == '@'
  {
    var i :| 1 <= i < |s| && s[i] == '@' && AllLocal(s[..i]) && MatchesDomain(s[i + 1..]);
    var r := s[i + 1..];
    var j :| 1 <= j && j + 3 <= |r| && r[j] == '.' && AllDomain(r[..j]) && AllLetters(r[j + 1..]);
    forall k | 0 <= k < |s| ensures IsLocalChar(s[k]) || s[k] == '@' {
      if k < i {
        assert s[..i][k] == s[k];
      } else if i < k < i + 1 + j {
        assert r[..j][k - i - 1] == s[k];
      } else if k > i + 1 + j {
        assert r[j + 1..][k - i - 2 - j] == s[k];
      }
    }
  }
}
