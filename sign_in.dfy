/** The sign-in form (src/pages/SignIn.tsx): the order of its checks, the arguments of the sign-in
    call, and the notice, navigation and loading flag that follow. The call `authService.signIn` is
    outside the model: its outcome is a parameter. */
module SignIn {
  import opened Common
  import opened Text
  import opened Helpers

  /** A toast notice. */
  datatype Toast = Toast(title: string, description: string)

  /** How `signIn` ended: it succeeded, or it threw an error with the given `message` (`None` when
      the error has none). */
  datatype SignInOutcome = SignedIn | Failed(message: Option<string>)

  const MissingFields: Toast := Toast("Missing fields", "Please fill in all fields.")
  const InvalidEmail: Toast := Toast("Invalid email", "Please enter a valid email address.")
  const WelcomeBack: Toast := Toast("Welcome back!", "You've successfully signed in.")

  /** The notice of a failed sign-in: `error.message || "Invalid email or password."`. */
  function FailedToast(message: Option<string>): (t: Toast)
    ensures t.title == "Sign in failed"
    ensures message.Some? && message.value != "" ==> t.description == message.value
    ensures message.None? || message.value == "" ==> t.description == "Invalid email or password."
  {
    Toast("Sign in failed", if message.Some? && message.value != "" then message.value else "Invalid email or password.")
  }

  /** The early exits of `handleSignIn` (lines 22-38), in order: a blank field, then an address the
      e-mail check refuses; `None` when the form goes on to sign in. */
  function Precheck(email: string, password: string): (r: Option<Toast>)
    ensures AllWhitespace(email) || AllWhitespace(password) ==> r == Some(MissingFields)
    ensures !(AllWhitespace(email) || AllWhitespace(password)) ==>
              (r.None? <==> MatchesEmailPattern(email)) && (r.Some? ==> r == Some(InvalidEmail))
  {
    ValidateEmailMatchesPattern(email);
    if Trim(email) == "" || Trim(password) == "" then Some(MissingFields)
    else if !ValidateEmail(email) then Some(InvalidEmail)
    else None
  }

  /** The address is checked as typed, not trimmed: an address with a space around it passes the
      blank check but is refused as invalid. */
  lemma SurroundingSpaceIsInvalid(address: string, password: string)
    requires MatchesEmailPattern(address) && !AllWhitespace(password)
    ensures Precheck(" " + address, password) == Some(InvalidEmail)
    ensures Precheck(address + " ", password) == Some(InvalidEmail)
    ensures Precheck(address, password).None?
  {
    var a, b := " " + address, address + " ";
    assert IsWhitespace(a[0]) && IsWhitespace(b[|b| - 1]);
    assert !AllWhitespace(a) && !AllWhitespace(b) by {
      var i, j :| 0 < i < j < |address| && address[i] == '@' && address[j] == '.' &&
                  PlainRun(address[..i]) && PlainRun(address[i + 1..j]) && PlainRun(address[j + 1..]);
      assert address[..i][0] == address[0];
      assert a[1] == address[0] && b[0] == address[0];
    }
    assert !MatchesEmailPattern(a) by {
      ValidateEmailMatchesPattern(a);
    }
    assert !MatchesEmailPattern(b) by {
      ValidateEmailMatchesPattern(b);
    }
  }

  class SignInForm {
    var email: string
    var password: string
    var loading: bool

    constructor ()
      ensures email == "" && password == "" && !loading
    {
      email, password, loading := "", "", false;
    }

    /** `handleSignIn` (lines 19-59), with `outcome` how `signIn` ends when it is called. Returns the
        arguments of the call, the notice shown and the route navigated to. */
    method HandleSignIn(outcome: SignInOutcome) returns (call: Option<(string, string)>, toast: Toast, route: Option<string>)
      modifies this`loading
      ensures Precheck(email, password).Some? ==>
                call.None? && toast == Precheck(email, password).value && route.None? && loading == old(loading)
      ensures Precheck(email, password).None? ==> call == Some((Trim(email), password)) && !loading
      ensures Precheck(email, password).None? && outcome.SignedIn? ==> toast == WelcomeBack && route == Some("/home")
      ensures Precheck(email, password).None? && outcome.Failed? ==> toast == FailedToast(outcome.message) && route.None?
    {
      var typedEmail, typedPassword := email, password;
      var early := Precheck(typedEmail, typedPassword);
      if early.Some? {
        return None, early.value, None;
      }
      call := Some((Trim(typedEmail), typedPassword));
      loading := true;
      if outcome.SignedIn? {
        toast, route := WelcomeBack, Some("/home");
      } else {
        toast, route := FailedToast(outcome.message), None;
      }
      loading := false;
    }
  }
}
