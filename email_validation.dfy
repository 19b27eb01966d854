/** ValidationUser.validateUser, the e-mail check shared by the user services. */
module EmailValidation {
  import opened Base
  import opened Domain

  /** Character.isWhitespace: the Unicode space, line and paragraph
      separators other than the non-breaking ones, and the ASCII controls
      tab, line feed, vertical tab, form feed, carriage return and the four
      information separators. */
  predicate IsWhitespace(c: char)
  {
    c == ' ' || ('\t' <= c <= '\r') || ('\U{1C}' <= c <= '\U{1F}')
    || c == '\U{1680}' || ('\U{2000}' <= c <= '\U{2006}') || ('\U{2008}' <= c <= '\U{200A}')
    || c == '\U{2028}' || c == '\U{2029}' || c == '\U{205F}' || c == '\U{3000}'
  }

  /** String.isBlank: empty or whitespace only. */
  predicate IsBlank(s: string)
  {
    forall i :: 0 <= i < |s| ==> IsWhitespace(s[i])
  }

  /** validateUser: the e-mail must be present, not blank and contain '@';
      otherwise BAD_REQUEST. The blank test never decides anything, since a
      string holding '@' is not blank. */
  function ValidateUser(u: User): (o: Outcome)
    ensures o == Pass <==> u.email.Some? && '@' in u.email.value
    ensures o.Fail? ==> o.error == InvalidEmail && StatusOf(o.error) == HttpBadRequest
  {
    if u.email.None? || IsBlank(u.email.value) || '@' !in u.email.value then
      Fail(InvalidEmail)
    else
      AtSignIsNotBlank(u.email.value);
      Pass
  }

  /** A string holding '@' is not blank. */
  lemma AtSignIsNotBlank(s: string)
    requires '@' in s
    ensures !IsBlank(s)
  {
    var i :| 0 <= i < |s| && s[i] == '@';
    assert !IsWhitespace(s[i]);
  }
}
