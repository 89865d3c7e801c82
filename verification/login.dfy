/**
 The login page: the form, and the submit that shows a spinner, waits, and
 then either succeeds or reports missing credentials. The wait itself is
 not modelled: a submission is the state before the wait (`BeginSubmit`) and
 the state after it (`FinishSubmit`).
 */
module Login {

  datatype LoginForm = LoginForm(email: string, password: string, rememberMe: bool)

  datatype LoginPage = LoginPage(form: LoginForm, isLoading: bool, loginSuccess: bool, loginError: string)

  const InitialPage: LoginPage := LoginPage(LoginForm("", "", false), false, false, "")

  const MissingCredentials := "Please enter both email and password."

  datatype TextInput = EmailInput | PasswordInput

  /** An input event: a text input with its new value, or the remember-me checkbox with its state. */
  datatype Change = Typed(input: TextInput, value: string) | Ticked(checked: bool)

  /** `handleChange`: the named field takes the new value; nothing else changes. */
  function HandleChange(p: LoginPage, c: Change): (r: LoginPage)
    ensures r.isLoading == p.isLoading && r.loginSuccess == p.loginSuccess && r.loginError == p.loginError
    ensures r.form.email == (if c.Typed? && c.input == EmailInput then c.value else p.form.email)
    ensures r.form.password == (if c.Typed? && c.input == PasswordInput then c.value else p.form.password)
    ensures r.form.rememberMe == (if c.Ticked? then c.checked else p.form.rememberMe)
  {
    var form :=
      match c
      case Typed(EmailInput, v) => p.form.(email := v)
      case Typed(PasswordInput, v) => p.form.(password := v)
      case Ticked(b) => p.form.(rememberMe := b);
    p.(form := form)
  }

  /** The first half of `handleSubmit`: clear the error, show the spinner. */
  function BeginSubmit(p: LoginPage): (r: LoginPage)
    ensures r.isLoading && r.loginError == ""
    ensures r.form == p.form && r.loginSuccess == p.loginSuccess
  {
    p.(loginError := "", isLoading := true)
  }

  /** Both credentials were filled in. */
  predicate Filled(f: LoginForm) {
    f.email != "" && f.password != ""
  }

  /**
   The timeout callback. It reads `submitted`, the form as it was when the
   button was pressed, not the form as it is when the callback runs.
   */
  function FinishSubmit(p: LoginPage, submitted: LoginForm): (r: LoginPage)
    ensures !r.isLoading
    ensures r.form == p.form
    ensures Filled(submitted) ==> r.loginSuccess && r.loginError == p.loginError
    ensures !Filled(submitted) ==> r.loginSuccess == p.loginSuccess && r.loginError == MissingCredentials
  {
    var p' := p.(isLoading := false);
    if submitted.email != "" && submitted.password != "" then p'.(loginSuccess := true)
    else p'.(loginError := MissingCredentials)
  }

  /** A whole submission with no edits during the wait. */
  lemma SubmitOutcome(p: LoginPage)
    ensures var r := FinishSubmit(BeginSubmit(p), p.form);
      && !r.isLoading
      && r.form == p.form
      && (r.loginSuccess <==> p.loginSuccess || Filled(p.form))
      && (r.loginError == "" <==> Filled(p.form))
  {
  }

  /** While the spinner shows no error shows, and no error shows next to a success. */
  predicate Coherent(p: LoginPage) {
    (p.isLoading ==> p.loginError == "") && !(p.loginSuccess && p.loginError != "")
  }

  /** From any coherent page still showing the form, edits and a submission keep the page coherent. */
  lemma SubmitKeepsCoherent(p: LoginPage, edits: seq<Change>)
    requires Coherent(p) && !p.loginSuccess
    ensures Coherent(BeginSubmit(p))
    ensures Coherent(ApplyAll(BeginSubmit(p), edits))
    ensures Coherent(FinishSubmit(ApplyAll(BeginSubmit(p), edits), p.form))
  {
  }

  /**
   The page starts coherent and showing the form, so every session from it
   stays coherent; submitting it untouched reports the missing credentials.
   */
  lemma InitialPageCoherent(edits: seq<Change>)
    ensures Coherent(InitialPage) && !InitialPage.loginSuccess
    ensures Coherent(FinishSubmit(ApplyAll(BeginSubmit(InitialPage), edits), InitialPage.form))
    ensures FinishSubmit(BeginSubmit(InitialPage), InitialPage.form).loginError == MissingCredentials
  {
    SubmitKeepsCoherent(InitialPage, edits);
  }

  /** Edits made during the wait, in order. */
  function ApplyAll(p: LoginPage, edits: seq<Change>): (r: LoginPage)
    ensures r.isLoading == p.isLoading && r.loginSuccess == p.loginSuccess && r.loginError == p.loginError
    decreases |edits|
  {
    if edits == [] then p else ApplyAll(HandleChange(p, edits[0]), edits[1..])
  }
}
