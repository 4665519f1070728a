/** The password rule shared by the sign-up and reset forms
    (`Signup.tsx`, `ResetPassword.tsx`): at least eight characters, with an
    upper-case letter, a lower-case letter and a digit. */
module PasswordRule {
  import opened Strings

  /** The two messages both forms show before calling the service. */
  const RulesNotMetMessage := "\U{15E}ifre gereksinimleri kar\U{15F}\U{131}lanm\U{131}yor!"
  const MismatchMessage := "\U{15E}ifreler e\U{15F}le\U{15F}miyor!"

  /** Some character of `s` satisfies `p` (a one-class regular-expression test). */
  function Any(s: string, p: char -> bool): (b: bool)
    ensures b <==> exists i :: 0 <= i < |s| && p(s[i])
  {
    if s == [] then false
    else if p(s[0]) then true
    else
      assert forall i :: 1 <= i < |s| ==> s[i] == s[1..][i - 1];
      Any(s[1..], p)
  }

  /** The four checks the forms list, in order. */
  datatype Checks = Checks(minLength: bool, hasUpperCase: bool, hasLowerCase: bool, hasNumber: bool)

  function ChecksOf(password: string): (c: Checks)
    ensures c.minLength <==> |password| >= 8
    ensures c.hasUpperCase <==> exists i :: 0 <= i < |password| && IsUpper(password[i])
    ensures c.hasLowerCase <==> exists i :: 0 <= i < |password| && IsLower(password[i])
    ensures c.hasNumber <==> exists i :: 0 <= i < |password| && IsDigit(password[i])
  {
    Checks(|password| >= 8, Any(password, IsUpper), Any(password, IsLower), Any(password, IsDigit))
  }

  /** `Object.values(passwordValidation).every(Boolean)`. */
  predicate AllPass(c: Checks) {
    c.minLength && c.hasUpperCase && c.hasLowerCase && c.hasNumber
  }

  /** The rule: at least eight characters, with an upper-case letter, a
      lower-case letter and a digit somewhere. */
  predicate IsPasswordValid(password: string): (valid: bool)
    ensures valid <==>
      && |password| >= 8
      && (exists i :: 0 <= i < |password| && IsUpper(password[i]))
      && (exists i :: 0 <= i < |password| && IsLower(password[i]))
      && (exists i :: 0 <= i < |password| && IsDigit(password[i]))
  {
    AllPass(ChecksOf(password))
  }

  /** A valid password needs all four: eight characters of one class never
      pass, and eight characters with one of each class do. */
  lemma ValidityShape(password: string)
    ensures IsPasswordValid(password) ==> |password| >= 8
    ensures (forall i :: 0 <= i < |password| ==> IsLower(password[i])) ==> !IsPasswordValid(password)
    ensures |password| >= 8 && IsUpper(password[0]) && IsLower(password[1]) && IsDigit(password[2]) ==>
      IsPasswordValid(password)
  {
    if forall i :: 0 <= i < |password| ==> IsLower(password[i]) {
      assert !ChecksOf(password).hasUpperCase;
    }
  }
}

/** The sign-up form (`src/pages/auth/Signup.tsx`). */
module Signup {
  import opened Wrappers
  import opened PasswordRule

  const TermsMessage := "Kullan\U{131}m \U{15F}artlar\U{131}n\U{131} kabul etmelisiniz!"
  const SignupFailedMessage := "Kay\U{131}t ba\U{15F}ar\U{131}s\U{131}z!"

  datatype SignupForm = SignupForm(
    name: string,
    businessName: string,
    email: string,
    password: string,
    confirmPassword: string,
    agreeToTerms: bool,
    loading: bool)

  /** The arguments of `signUpWithEmail`. */
  datatype SignupRequest = SignupRequest(name: string, email: string, password: string, businessName: string)

  /** What a submit does: the call made (if any), the error shown (`""` for
      none) and whether the e-mail verification screen follows. */
  datatype SubmitEffect = SubmitEffect(call: Option<SignupRequest>, error: string, verification: bool)

  /** `handleSubmit`: the password rule, then the confirmation, then the
      terms, each with its own message; the service is called only when all
      three pass. A failure with an empty message shows the default. */
  function Submit(f: SignupForm, signUp: SignupRequest -> Result<()>): (r: SubmitEffect)
    ensures r.call.Some? <==> IsPasswordValid(f.password) && f.password == f.confirmPassword && f.agreeToTerms
    ensures !IsPasswordValid(f.password) ==> r.error == RulesNotMetMessage
    ensures IsPasswordValid(f.password) && f.password != f.confirmPassword ==> r.error == MismatchMessage
    ensures IsPasswordValid(f.password) && f.password == f.confirmPassword && !f.agreeToTerms ==>
      r.error == TermsMessage
    ensures r.call.Some? ==>
      r.call.value == SignupRequest(f.name, f.email, f.password, f.businessName)
      && (r.verification <==> signUp(r.call.value).Success?)
      && (signUp(r.call.value).Failure? ==> r.error == OrElse(Some(signUp(r.call.value).error), SignupFailedMessage))
    ensures r.verification ==> r.call.Some? && r.error == ""
  {
    if !IsPasswordValid(f.password) then SubmitEffect(None, RulesNotMetMessage, false)
    else if f.password != f.confirmPassword then SubmitEffect(None, MismatchMessage, false)
    else if !f.agreeToTerms then SubmitEffect(None, TermsMessage, false)
    else
      var req := SignupRequest(f.name, f.email, f.password, f.businessName);
      match signUp(req)
      case Success(_) => SubmitEffect(Some(req), "", true)
      case Failure(e) => SubmitEffect(Some(req), OrElse(Some(e), SignupFailedMessage), false)
  }

  /** The browser's own checks before `handleSubmit` runs: the form has no
      `noValidate`, every text field and the terms box are `required`, and
      the e-mail field has `type="email"`. The e-mail syntax test is the
      browser's, given as `validEmail`. */
  predicate Submittable(f: SignupForm, validEmail: string -> bool) {
    && f.name != "" && f.businessName != "" && f.email != "" && validEmail(f.email)
    && f.password != "" && f.confirmPassword != "" && f.agreeToTerms
  }

  /** A press of the submit button as the page sees it: a form that fails the
      browser's checks is not submitted, and otherwise `handleSubmit` runs.
      The terms refusal is therefore never shown, and every request sent
      carries a name, a business name and a well-formed e-mail. */
  function Press(f: SignupForm, validEmail: string -> bool, signUp: SignupRequest -> Result<()>): (r: Option<SubmitEffect>)
    ensures r.Some? <==> Submittable(f, validEmail)
    ensures r.Some? ==> !(r.value.call.None? && r.value.error == TermsMessage)
    ensures r.Some? ==> (r.value.call.Some? <==> IsPasswordValid(f.password) && f.password == f.confirmPassword)
    ensures r.Some? && r.value.call.Some? ==>
      var req := r.value.call.value;
      req.name != "" && req.businessName != "" && req.email != "" && validEmail(req.email)
  {
    if Submittable(f, validEmail) then
      assert TermsMessage[0] != MismatchMessage[0] && TermsMessage[0] != RulesNotMetMessage[0];
      Some(Submit(f, signUp))
    else None
  }

  /** The submit button is disabled while loading or while the rule fails;
      a press of the enabled button signs up exactly when the confirmation
      matches and the terms are accepted. */
  predicate SubmitDisabled(f: SignupForm): (disabled: bool)
    ensures !disabled ==> !f.loading && |f.password| >= 8
    ensures !disabled ==> forall signUp: SignupRequest -> Result<()> {:trigger Submit(f, signUp)} ::
      Submit(f, signUp).call.Some? <==> f.password == f.confirmPassword && f.agreeToTerms
    ensures !disabled ==> forall validEmail: string -> bool, signUp: SignupRequest -> Result<()>
      {:trigger Press(f, validEmail, signUp)} :: Press(f, validEmail, signUp).Some? ==>
        (Press(f, validEmail, signUp).value.call.Some? <==> f.password == f.confirmPassword)
  {
    f.loading || !IsPasswordValid(f.password)
  }

  /** The inline mismatch hint; while it shows, a press of the enabled
      button is refused with the mismatch message and calls nothing. */
  predicate ShowMismatchHint(f: SignupForm): (shown: bool)
    ensures shown && !SubmitDisabled(f) ==> forall signUp: SignupRequest -> Result<()> {:trigger Submit(f, signUp)} ::
      Submit(f, signUp).call.None? && Submit(f, signUp).error == MismatchMessage
  {
    f.confirmPassword != "" && f.confirmPassword != f.password
  }

  /** Whenever the button can be pressed and a confirmation is typed, the
      submit stops on a mismatch exactly when the inline hint shows. */
  lemma EnabledSubmitStopsOnHint(f: SignupForm, signUp: SignupRequest -> Result<()>)
    requires !SubmitDisabled(f) && f.confirmPassword != ""
    ensures (Submit(f, signUp).call.None? && Submit(f, signUp).error == MismatchMessage) <==> ShowMismatchHint(f)
  {
    assert TermsMessage[0] != MismatchMessage[0];
  }
}

/** The reset-password form (`src/pages/auth/ResetPassword.tsx`). */
module ResetPassword {
  import opened Wrappers
  import opened PasswordRule
  import Signup

  const InvalidLinkMessage := "Ge\U{E7}ersiz veya s\U{FC}resi dolmu\U{15F} link!"
  const UpdateFailedMessage := "\U{15E}ifre g\U{FC}ncellenemedi!"

  /** The effect on the URL's `error` and `error_description` parameters: an
      error parameter sets the message, from the description when there is
      one; otherwise nothing changes. */
  function LinkError(error: Option<string>, description: Option<string>): (r: Option<string>)
    ensures r.Some? <==> Truthy(error)
    ensures r.Some? && Truthy(description) ==> r.value == description.value
    ensures r.Some? && !Truthy(description) ==> r.value == InvalidLinkMessage
  {
    if Truthy(error) then Some(OrElse(description, InvalidLinkMessage)) else None
  }

  datatype ResetEffect = ResetEffect(call: Option<string>, error: string, success: bool)

  /** `handleSubmit`: the rule, then the confirmation; `updatePassword` is
      called only when both pass. */
  function Submit(password: string, confirmPassword: string, update: string -> Result<()>): (r: ResetEffect)
    ensures r.call.Some? <==> IsPasswordValid(password) && password == confirmPassword
    ensures !IsPasswordValid(password) ==> r.error == RulesNotMetMessage
    ensures IsPasswordValid(password) && password != confirmPassword ==> r.error == MismatchMessage
    ensures r.call.Some? ==> r.call.value == password && (r.success <==> update(password).Success?)
    ensures r.call.Some? && update(password).Failure? ==>
      r.error == OrElse(Some(update(password).error), UpdateFailedMessage)
  {
    if !IsPasswordValid(password) then ResetEffect(None, RulesNotMetMessage, false)
    else if password != confirmPassword then ResetEffect(None, MismatchMessage, false)
    else
      match update(password)
      case Success(_) => ResetEffect(Some(password), "", true)
      case Failure(e) => ResetEffect(Some(password), OrElse(Some(e), UpdateFailedMessage), false)
  }

  /** A press of the submit button as the page sees it: both password fields
      are `required`, so the browser submits only when both are filled, and
      then `handleSubmit` runs. An empty confirmation is never answered with
      the mismatch message. */
  function Press(password: string, confirmPassword: string, update: string -> Result<()>): (r: Option<ResetEffect>)
    ensures r.Some? <==> password != "" && confirmPassword != ""
    ensures r.Some? ==> (r.value.call.Some? <==> IsPasswordValid(password) && password == confirmPassword)
    ensures r.Some? && IsPasswordValid(password) && password != confirmPassword ==> r.value.error == MismatchMessage
    ensures confirmPassword == "" ==> r.None?
  {
    if password != "" && confirmPassword != "" then Some(Submit(password, confirmPassword, update))
    else None
  }

  /** The submit button is disabled while loading or while the rule fails;
      a press of the enabled button sends the password exactly when the
      confirmation matches it. */
  predicate SubmitDisabled(loading: bool, password: string): (disabled: bool)
    ensures !disabled ==> !loading && |password| >= 8
    ensures !disabled ==> forall confirm: string, update: string -> Result<()> {:trigger Submit(password, confirm, update)} ::
      Submit(password, confirm, update).call.Some? <==> password == confirm
  {
    loading || !IsPasswordValid(password)
  }

  /** The reset form and the sign-up form apply the same rule and the same
      order of the first two checks: for the same password and confirmation
      each refuses with the rule's message, or with the mismatch message,
      exactly when the other does. */
  lemma SameRuleAsSignup(password: string, confirm: string, update: string -> Result<()>,
                         f: Signup.SignupForm, signUp: Signup.SignupRequest -> Result<()>)
    requires f.password == password && f.confirmPassword == confirm
    ensures (Submit(password, confirm, update).call.None?
             && Submit(password, confirm, update).error == RulesNotMetMessage)
        <==> (Signup.Submit(f, signUp).call.None? && Signup.Submit(f, signUp).error == RulesNotMetMessage)
    ensures (Submit(password, confirm, update).call.None?
             && Submit(password, confirm, update).error == MismatchMessage)
        <==> (Signup.Submit(f, signUp).call.None? && Signup.Submit(f, signUp).error == MismatchMessage)
  {
    assert Signup.TermsMessage[0] != MismatchMessage[0];
    assert Signup.TermsMessage[0] != RulesNotMetMessage[0];
  }
}
