/** The client-side part of the login form (app/login/page.tsx): the email
    and password checks of `handleLogin`, and the form state it updates. The
    server's reply to the login request is an input; storing the token in
    the browser and navigating away are not modelled. */
module LoginPage {
  import opened Base

  /** What `/^\S+@\S+\.\S+$/` accepts: no white space anywhere, an '@' after
      at least one character, then at least one character, a '.', and at
      least one character after it. */
  predicate EmailPattern(s: string) {
    (forall k :: 0 <= k < |s| ==> !IsJsWhitespace(s[k])) &&
    exists i, j :: 1 <= i && i + 2 <= j < |s| - 1 && s[i] == '@' && s[j] == '.'
  }

  /** The first index from `from` on that holds `c`. */
  function IndexOf(s: string, c: char, from: nat): (r: Option<nat>)
    ensures r.Some? ==>
      from <= r.value < |s| && s[r.value] == c &&
      forall k :: from <= k < r.value ==> s[k] != c
    ensures r.None? ==> forall k :: from <= k < |s| ==> s[k] != c
    decreases |s| - from
  {
    if from >= |s| then None
    else if s[from] == c then Some(from)
    else IndexOf(s, c, from + 1)
  }

  /** Whether no character of `s` is white space. */
  function NoWhitespace(s: string): (b: bool)
    ensures b <==> forall k :: 0 <= k < |s| ==> !IsJsWhitespace(s[k])
  {
    if s == [] then true
    else !IsJsWhitespace(s[0]) && NoWhitespace(s[1..])
  }

  /** The regular expression test, decided by one scan for the first '@'
      after the first character and one for a '.' that has a character
      before it (after the '@') and one after it. */
  function MatchesEmail(s: string): (b: bool)
    ensures b <==> EmailPattern(s)
  {
    if !NoWhitespace(s) then false
    else
      match IndexOf(s, '@', 1)
      case None => false
      case Some(i) =>
        var dot := IndexOf(s, '.', i + 2);
        assert dot.Some? && dot.value < |s| - 1 ==> EmailPattern(s);
        assert EmailPattern(s) ==> dot.Some? && dot.value < |s| - 1 by {
          if EmailPattern(s) {
            var i', j' :| 1 <= i' && i' + 2 <= j' < |s| - 1 && s[i'] == '@' && s[j'] == '.';
            assert i <= i';
          }
        }
        dot.Some? && dot.value < |s| - 1
  }

  datatype LoginErrors = LoginErrors(email: Option<string>, password: Option<string>) {
    predicate Any() {
      email.Some? || password.Some?
    }
  }

  const EmailError: string := "Enter a valid email"
  const PasswordError: string := "Password is required"

  /** Both checks of `handleLogin`; each one that fails leaves its message. */
  function Validate(email: string, password: string): (errors: LoginErrors)
    ensures errors.email.Some? <==> !EmailPattern(email)
    ensures errors.email.Some? ==> errors.email.value == EmailError
    ensures errors.password.Some? <==> password == ""
    ensures errors.password.Some? ==> errors.password.value == PasswordError
  {
    LoginErrors(
      if email == "" || !MatchesEmail(email) then Some(EmailError) else None,
      if password == "" then Some(PasswordError) else None)
  }

  /** An empty email is always refused, and so is an empty password; the
      two messages can appear together. */
  lemma EmptyFieldsBothReported()
    ensures Validate("", "") == LoginErrors(Some(EmailError), Some(PasswordError))
  {
  }

  /** The messages under the two inputs. */
  datatype FieldErrors = FieldErrors(email: string, password: string)

  /** The reply to the login request: accepted with a token, refused with a
      message, or no reply at all (the request failed). */
  datatype LoginReply = Accepted(token: string) | Refused(message: string) | NoReply

  class LoginForm {
    var email: string
    var password: string
    var message: string
    var loading: bool
    var fieldErrors: FieldErrors

    constructor ()
      ensures email == "" && password == "" && message == "" && !loading
      ensures fieldErrors == FieldErrors("", "")
    {
      email, password, message, loading := "", "", "", false;
      fieldErrors := FieldErrors("", "");
    }

    /** `handleLogin`. Returns whether the request is sent; `reply` is what
        the server answers when it is. */
    method HandleLogin(reply: LoginReply) returns (sent: bool)
      modifies this
      ensures email == old(email) && password == old(password)
      ensures sent <==> !Validate(email, password).Any()
      ensures !sent ==>
        message == "" && loading == old(loading) &&
        fieldErrors == FieldErrors(Validate(email, password).email.GetOr(""),
                                   Validate(email, password).password.GetOr(""))
      ensures sent ==>
        fieldErrors == FieldErrors("", "") && !loading &&
        message == match reply
                   case Accepted(_) => ""
                   case Refused(text) => text
                   case NoReply => "Something went wrong"
    {
      message := "";
      fieldErrors := FieldErrors("", "");
      var errors := Validate(email, password);
      if errors.Any() {
        fieldErrors := FieldErrors(errors.email.GetOr(fieldErrors.email),
                                   errors.password.GetOr(fieldErrors.password));
        return false;
      }
      loading := true;
      match reply {
        case Accepted(_) =>
        case Refused(text) => message := text;
        case NoReply => message := "Something went wrong";
      }
      loading := false;
      sent := true;
    }
  }
}
