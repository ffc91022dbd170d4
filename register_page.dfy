/**
 The sign-up page: the e-mail sign-up checks the two passwords, then calls the
 auth backend and turns its answer into an error or a success message; the
 GitHub sign-up reports a failure of the OAuth call. The backend calls are
 outside the model: each is a request step followed by an outcome step whose
 answer is a parameter.
 */
module RegisterPage {
  import opened Strings

  const MinPasswordLength := 6
  const PasswordMismatch := "Passwords do not match"
  const PasswordTooShort := "Password must be at least 6 characters long"
  const AlreadyRegisteredFragment := "already registered"
  const AlreadyRegistered := "This email is already registered. Please sign in instead."
  const AccountCreated := "Account created successfully! You can now sign in with your credentials."
  const UnexpectedError := "An unexpected error occurred"
  const GithubFailed := "Failed to sign up with GitHub"

  /** The checks made before any backend call, in order: the confirmation must
      equal the password, then the password must be at least 6 characters. */
  function ValidatePasswords(password: string, confirmPassword: string): (r: Option<string>)
    ensures r.None? <==> password == confirmPassword && |password| >= MinPasswordLength
    ensures password != confirmPassword ==> r == Some(PasswordMismatch)
    ensures password == confirmPassword && |password| < MinPasswordLength ==>
      r == Some(PasswordTooShort)
  {
    if password != confirmPassword then Some(PasswordMismatch)
    else if |password| < MinPasswordLength then Some(PasswordTooShort)
    else None
  }

  /** What `signUpWithEmail` came back with: no error, an error object with
      its message, or an exception. */
  datatype SignUpOutcome = SignedUp | Rejected(message: string) | Threw

  /** What `signInWithGithub` did. */
  datatype GithubOutcome = Redirected | GithubThrew

  /** The messages set by the outcome of an e-mail sign-up; an empty string is
      a message left unset. */
  datatype Messages = Messages(error: string, success: string)

  /** The error shown for a backend rejection: the fixed sign-in hint when the
      message says the address is already registered, the message otherwise. */
  function RejectionError(message: string): (r: string)
    ensures Contains(message, AlreadyRegisteredFragment) ==> r == AlreadyRegistered
    ensures !Contains(message, AlreadyRegisteredFragment) ==> r == message
    ensures r == "" <==> message == ""
  {
    if Contains(message, AlreadyRegisteredFragment) then AlreadyRegistered else message
  }

  /** Only a sign-up without error sets the success message; a rejection sets
      the error to `RejectionError`, an exception to the generic error. */
  function OutcomeMessages(outcome: SignUpOutcome): (m: Messages)
    ensures m.success != "" <==> outcome.SignedUp?
    ensures m.error == "" || m.success == ""
    ensures outcome.SignedUp? ==> m == Messages("", AccountCreated)
    ensures outcome.Rejected? ==> m == Messages(RejectionError(outcome.message), "")
    ensures outcome.Threw? ==> m == Messages(UnexpectedError, "")
  {
    match outcome
    case SignedUp => Messages("", AccountCreated)
    case Rejected(message) => Messages(RejectionError(message), "")
    case Threw => Messages(UnexpectedError, "")
  }

  /** The arguments of a `signUpWithEmail` call. */
  datatype SignUpRequest = SignUpRequest(email: string, password: string, fullName: string)

  /** The state of the sign-up page. */
  class RegisterForm {
    var email: string
    var password: string
    var confirmPassword: string
    var fullName: string
    var error: string
    var success: string
    var loading: bool
    /** The `signUpWithEmail` calls made so far, in order. */
    ghost var requests: seq<SignUpRequest>

    /** A call is outstanding only after one was made, and nothing has
        succeeded while it is. */
    ghost predicate Valid()
      reads this
    {
      loading ==> requests != [] && success == ""
    }

    constructor ()
      ensures Valid()
      ensures email == "" && password == "" && confirmPassword == "" && fullName == ""
      ensures error == "" && success == "" && !loading && requests == []
    {
      email, password, confirmPassword, fullName := "", "", "", "";
      error, success, loading := "", "", false;
      requests := [];
    }

    /** Submitting the e-mail form, up to the backend call: both messages are
        cleared; a failed check sets its error and returns with `loading`
        still false and no call made; otherwise `loading` is set and the call
        is made. The submit button is disabled while `loading`, hence
        `!loading`. */
    method BeginEmailSignup() returns (called: bool)
      requires Valid() && !loading
      modifies this`error, this`success, this`loading, this`requests
      ensures Valid()
      ensures success == ""
      ensures called <==> ValidatePasswords(password, confirmPassword).None?
      ensures !called ==>
        && error == ValidatePasswords(password, confirmPassword).value
        && !loading && requests == old(requests)
      ensures called ==>
        && error == "" && loading
        && requests == old(requests) + [SignUpRequest(email, password, fullName)]
    {
      error := "";
      success := "";
      var invalid := ValidatePasswords(password, confirmPassword);
      if invalid.Some? {
        error := invalid.value;
        return false;
      }
      loading := true;
      requests := requests + [SignUpRequest(email, password, fullName)];
      called := true;
    }

    /** The answer to the outstanding call: a rejection or an exception sets
        the error, a sign-up without error sets the success message, and
        `loading` is reset in every case. Each outcome writes only the message
        it sets. */
    method FinishEmailSignup(outcome: SignUpOutcome)
      requires Valid() && loading
      modifies this`error, this`success, this`loading
      ensures Valid() && !loading
      ensures outcome.SignedUp? ==> success == AccountCreated && error == old(error)
      ensures !outcome.SignedUp? ==>
        error == OutcomeMessages(outcome).error && success == old(success)
    {
      match outcome {
        case SignedUp => success := AccountCreated;
        case Rejected(message) => error := RejectionError(message);
        case Threw => error := UnexpectedError;
      }
      loading := false;
    }

    /** The GitHub button: the error is cleared, and set only if the call throws. */
    method GithubSignup(outcome: GithubOutcome)
      modifies this`error
      ensures error == (if outcome.GithubThrew? then GithubFailed else "")
    {
      error := "";
      if outcome.GithubThrew? {
        error := GithubFailed;
      }
    }

  }

  /** A whole e-mail submission with nothing in between its two steps: a failed
      check makes no call, and after a call the messages are exactly those of
      its outcome, so at most one of them is set. */
  method EmailSignup(form: RegisterForm, outcome: SignUpOutcome) returns (called: bool)
    requires form.Valid() && !form.loading
    modifies form`error, form`success, form`loading, form`requests
    ensures form.Valid() && !form.loading
    ensures form.requests ==
      old(form.requests) + (if called then [SignUpRequest(form.email, form.password, form.fullName)] else [])
    ensures called <==> ValidatePasswords(form.password, form.confirmPassword).None?
    ensures !called ==>
      Messages(form.error, form.success) ==
        Messages(ValidatePasswords(form.password, form.confirmPassword).value, "")
    ensures called ==> Messages(form.error, form.success) == OutcomeMessages(outcome)
    ensures form.error == "" || form.success == ""
  {
    called := form.BeginEmailSignup();
    if called {
      form.FinishEmailSignup(outcome);
    }
  }

  /** The GitHub button beside an e-mail sign-up. `GithubSignup` writes only
      the error, so a GitHub failure leaves a success message standing,
      whether it comes while the e-mail call is outstanding or after it has
      succeeded: both messages end up set. */
  method BothMessagesScenarios()
  {
    // A GitHub failure while the e-mail call is outstanding.
    var form := new RegisterForm();
    form.password, form.confirmPassword := "abcdef", "abcdef";
    var called := form.BeginEmailSignup();
    assert called && form.loading;
    form.GithubSignup(GithubThrew);
    form.FinishEmailSignup(SignedUp);
    assert form.error == GithubFailed && form.success == AccountCreated;

    // A GitHub failure after the e-mail sign-up has succeeded.
    var later := new RegisterForm();
    later.password, later.confirmPassword := "abcdef", "abcdef";
    called := EmailSignup(later, SignedUp);
    assert called && later.success == AccountCreated;
    later.GithubSignup(GithubThrew);
    assert later.error == GithubFailed && later.success == AccountCreated;
  }
}
