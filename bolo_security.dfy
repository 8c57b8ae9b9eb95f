/** The string sanitiser of the BOLO back end (backend/bolo/security.py), a
    separate copy of the one in backend/users-manage/security.py. */
module BoloSecurity {
  import opened Text
  import opened Html
  import UsersSecurity

  const DefaultMaxLength := 500

  /** `sanitize_string(value, max_length=500)`: '' for a non-string; else
      strip, cut to `max_length`, escape HTML, delete `<`, `>`, `{`, `}`. */
  function SanitizeString(value: UsersSecurity.Value, maxLength: int): (r: string)
    ensures value.NotStr? ==> r == ""
    ensures forall i :: 0 <= i < |r| ==> r[i] !in {'<', '>', '{', '}'}
    ensures value.Str? ==> r == Escape(RemoveAny(PyTake(Strip(value.s), maxLength), {'{', '}'}))
    ensures value.Str? ==> Unescape(r) == RemoveAny(PyTake(Strip(value.s), maxLength), {'{', '}'})
    ensures value.Str? && maxLength >= 0 ==> |Unescape(r)| <= maxLength
  {
    if value.NotStr? then ""
    else
      var cut := PyTake(Strip(value.s), maxLength);
      RemoveBracesEscape(cut);
      UnescapeEscape(RemoveAny(cut, {'{', '}'}));
      RemoveAny(Escape(cut), {'<', '>', '{', '}'})
  }

  /** The two copies compute the same function. */
  lemma SameAsUsersManage(value: UsersSecurity.Value, maxLength: int)
    ensures SanitizeString(value, maxLength) == UsersSecurity.SanitizeString(value, maxLength)
  {
  }
}
