/**
 The registration page: the form record, the per-field error map, the
 validation run on submit, the error clearing on edit, and the
 registration-type toggle.

 The email rule is the unanchored regular expression `\S+@\S+\.\S+`; it is
 defined here as the set of strings it matches (`EmailPattern`) and
 recognised in one left-to-right pass by `TestEmailPattern`.
 */
module Register {
  import opened Text

  datatype RegistrationType = Company | Ngo

  /** Every input of the form, named as the page's `name` attributes are; also the keys of the error map. */
  datatype Field =
    | Name | Email | Password | ConfirmPassword | Phone
    | Organization | Website | Industry | ProjectFocus | Country
    | AcceptTerms

  /** The inputs that hold text; `AcceptTerms` is the only checkbox. */
  type TextField = f: Field | f != AcceptTerms witness Name

  datatype RegisterForm = RegisterForm(
    name: string,
    email: string,
    password: string,
    confirmPassword: string,
    phone: string,
    organization: string,
    website: string,
    industry: string,
    projectFocus: string,
    country: string,
    acceptTerms: bool
  )

  const EmptyForm: RegisterForm := RegisterForm("", "", "", "", "", "", "", "", "", "", false)

  /** Field name to message; a field is flagged when it has an entry. */
  type Errors = map<Field, string>

  /** The state the page keeps. */
  datatype Page = Page(registrationType: RegistrationType, form: RegisterForm, errors: Errors)

  const InitialPage: Page := Page(Company, EmptyForm, map[])

  const NameRequired := "Name is required"
  const EmailRequired := "Email is required"
  const EmailInvalid := "Email is invalid"
  const PasswordRequired := "Password is required"
  const PasswordTooShort := "Password must be at least 8 characters"
  const PasswordsDiffer := "Passwords do not match"
  const CompanyNameRequired := "Company name is required"
  const OrganizationNameRequired := "Organization name is required"
  const TermsRequired := "You must accept the terms and conditions"

  const MinPasswordLength := 8

  function TextOf(form: RegisterForm, field: TextField): string {
    match field
    case Name => form.name
    case Email => form.email
    case Password => form.password
    case ConfirmPassword => form.confirmPassword
    case Phone => form.phone
    case Organization => form.organization
    case Website => form.website
    case Industry => form.industry
    case ProjectFocus => form.projectFocus
    case Country => form.country
  }

  function SetText(form: RegisterForm, field: TextField, value: string): (r: RegisterForm)
    ensures TextOf(r, field) == value
    ensures forall g: TextField :: g != field ==> TextOf(r, g) == TextOf(form, g)
    ensures r.acceptTerms == form.acceptTerms
  {
    match field
    case Name => form.(name := value)
    case Email => form.(email := value)
    case Password => form.(password := value)
    case ConfirmPassword => form.(confirmPassword := value)
    case Phone => form.(phone := value)
    case Organization => form.(organization := value)
    case Website => form.(website := value)
    case Industry => form.(industry := value)
    case ProjectFocus => form.(projectFocus := value)
    case Country => form.(country := value)
  }

  // ---------------------------------------------------------------------------
  // The email rule

  /**
   `s[p - 1]`, `@` at `p`, a non-empty whitespace-free block, `.` at `q` and
   `s[q + 1]`: one match of `\S+@\S+\.\S+` around the `@` at `p` and the `.` at `q`.
   A longer `\S+` at either end adds nothing, so these five parts are all a match needs.
   */
  predicate MatchAt(s: string, p: int, q: int) {
    && 1 <= p && p + 2 <= q && q + 1 < |s|
    && !IsWhitespace(s[p - 1])
    && s[p] == '@'
    && NoWhitespace(s[p + 1..q])
    && s[q] == '.'
    && !IsWhitespace(s[q + 1])
  }

  /** Some match has its `.` at `q`. */
  predicate EndsAt(s: string, q: int) {
    exists p | 0 <= p < q :: MatchAt(s, p, q)
  }

  /**
   `/\S+@\S+\.\S+/.test(s)`: the pattern matches somewhere in `s`. A matching
   string has at least five characters, among them an `@` and a `.`.
   */
  predicate EmailPattern(s: string)
    ensures EmailPattern(s) ==> |s| >= 5 && '@' in s && '.' in s
  {
    exists q | 0 <= q < |s| :: EndsAt(s, q)
  }

  /**
   The pattern test in one pass. `runStart` is where the whitespace-free run
   that reaches `i` begins, and `firstAt` the first `@` of that run that has a
   character of the run before it (-1 when there is none).
   */
  method TestEmailPattern(s: string) returns (found: bool)
    ensures found <==> EmailPattern(s)
  {
    found := false;
    var runStart, firstAt := 0, -1;
    var i := 0;
    while i < |s|
      invariant 0 <= runStart <= i <= |s|
      invariant runStart == 0 || IsWhitespace(s[runStart - 1])
      invariant NoWhitespace(s[runStart..i])
      invariant RunFirstAt(s, runStart, i, firstAt)
      invariant found <==> exists q | 0 <= q < i :: EndsAt(s, q)
    {
      if IsWhitespace(s[i]) {
        assert !EndsAt(s, i);
        runStart, firstAt := i + 1, -1;
      } else {
        assert s[runStart..i + 1] == s[runStart..i] + [s[i]];
        if s[i] == '.' {
          EndsAtInRun(s, runStart, firstAt, i);
          if firstAt != -1 && firstAt + 2 <= i && i + 1 < |s| && !IsWhitespace(s[i + 1]) {
            found := true;
          }
        } else {
          assert !EndsAt(s, i);
          if s[i] == '@' && firstAt == -1 && runStart < i {
            firstAt := i;
          }
        }
      }
      i := i + 1;
    }
  }

  /** `firstAt` is the first `@` strictly after `runStart` and before `i`, or -1 if there is none. */
  ghost predicate RunFirstAt(s: string, runStart: int, i: int, firstAt: int)
    requires 0 <= runStart <= i <= |s|
  {
    && (firstAt == -1 ==> forall k :: runStart < k < i ==> s[k] != '@')
    && (firstAt != -1 ==>
          && runStart < firstAt < i && s[firstAt] == '@'
          && forall k :: runStart < k < firstAt ==> s[k] != '@')
  }

  /** Inside a whitespace-free run, a match ends at the `.` at `i` exactly when the run's first `@` is early enough. */
  lemma EndsAtInRun(s: string, runStart: int, firstAt: int, i: int)
    requires 0 <= runStart <= i < |s|
    requires runStart == 0 || IsWhitespace(s[runStart - 1])
    requires NoWhitespace(s[runStart..i + 1])
    requires RunFirstAt(s, runStart, i, firstAt)
    requires s[i] == '.'
    ensures EndsAt(s, i) <==> firstAt != -1 && firstAt + 2 <= i && i + 1 < |s| && !IsWhitespace(s[i + 1])
  {
    forall k | runStart <= k <= i
      ensures !IsWhitespace(s[k])
    {
      assert s[k] == s[runStart..i + 1][k - runStart];
    }
    if firstAt != -1 && firstAt + 2 <= i && i + 1 < |s| && !IsWhitespace(s[i + 1]) {
      assert MatchAt(s, firstAt, i);
    }
    if EndsAt(s, i) {
      var p :| 0 <= p < i && MatchAt(s, p, i);
      forall k | p - 1 <= k <= i
        ensures !IsWhitespace(s[k])
      {
        if p < k < i {
          assert s[k] == s[p + 1..i][k - (p + 1)];
        }
      }
      assert runStart < p;
    }
  }

  // ---------------------------------------------------------------------------
  // Validation on submit

  /** The organisation message names the kind of organisation being registered. */
  function OrganizationRequired(t: RegistrationType): string {
    match t
    case Company => CompanyNameRequired
    case Ngo => OrganizationNameRequired
  }

  /** The fields validation can flag. */
  const ValidatedFields: set<Field> := {Name, Email, Password, ConfirmPassword, Organization, AcceptTerms}

  datatype Option<T> = None | Some(value: T)

  // One function per rule of `handleSubmit`; each yields the message it stores, if any.

  function NameRule(form: RegisterForm): Option<string> {
    if Blank(form.name) then Some(NameRequired) else None
  }

  function EmailRule(form: RegisterForm): Option<string> {
    if Blank(form.email) then Some(EmailRequired)
    else if !EmailPattern(form.email) then Some(EmailInvalid)
    else None
  }

  /** The length test counts UTF-16 code units, as JavaScript's `length` does. */
  function PasswordRule(form: RegisterForm): Option<string> {
    if form.password == "" then Some(PasswordRequired)
    else if Utf16Length(form.password) < MinPasswordLength then Some(PasswordTooShort)
    else None
  }

  function ConfirmPasswordRule(form: RegisterForm): Option<string> {
    if form.password != form.confirmPassword then Some(PasswordsDiffer) else None
  }

  /** The two organisation checks of the page, one per registration type. */
  function OrganizationRule(t: RegistrationType, form: RegisterForm): Option<string> {
    if t == Company && form.organization == "" then Some(CompanyNameRequired)
    else if t == Ngo && form.organization == "" then Some(OrganizationNameRequired)
    else None
  }

  function TermsRule(form: RegisterForm): Option<string> {
    if !form.acceptTerms then Some(TermsRequired) else None
  }

  /** The message the rules store under `field`, if any. */
  function RuleMessage(t: RegistrationType, form: RegisterForm, field: Field): Option<string> {
    match field
    case Name => NameRule(form)
    case Email => EmailRule(form)
    case Password => PasswordRule(form)
    case ConfirmPassword => ConfirmPasswordRule(form)
    case Organization => OrganizationRule(t, form)
    case AcceptTerms => TermsRule(form)
    case _ => None
  }

  /**
   The error map `handleSubmit` computes: each rule adds at most its own entry,
   and no rule looks at another rule's outcome.
   */
  function Validate(t: RegistrationType, form: RegisterForm): (e: Errors)
    ensures e.Keys <= ValidatedFields
    ensures forall g :: g in e ==> e[g] != ""
    ensures Name in e <==> AllWhitespace(form.name)
    ensures Name in e ==> e[Name] == NameRequired
    ensures Email in e <==> AllWhitespace(form.email) || !EmailPattern(form.email)
    ensures Email in e ==> e[Email] == if AllWhitespace(form.email) then EmailRequired else EmailInvalid
    ensures Password in e <==> Utf16Length(form.password) < MinPasswordLength
    ensures Password in e ==> e[Password] == if form.password == "" then PasswordRequired else PasswordTooShort
    ensures ConfirmPassword in e <==> form.password != form.confirmPassword
    ensures ConfirmPassword in e ==> e[ConfirmPassword] == PasswordsDiffer
    ensures Organization in e <==> form.organization == ""
    ensures Organization in e ==> e[Organization] == OrganizationRequired(t)
    ensures AcceptTerms in e <==> !form.acceptTerms
    ensures AcceptTerms in e ==> e[AcceptTerms] == TermsRequired
  {
    map g | g in ValidatedFields && RuleMessage(t, form, g).Some? :: RuleMessage(t, form, g).value
  }

  /** The registration type only changes which organisation message is used. */
  lemma ValidateTypeOnlyRenames(form: RegisterForm)
    ensures Validate(Company, form).Keys == Validate(Ngo, form).Keys
    ensures forall g :: g in Validate(Company, form) && g != Organization ==>
              Validate(Company, form)[g] == Validate(Ngo, form)[g]
  {
    forall g: Field
      ensures RuleMessage(Company, form, g).Some? <==> RuleMessage(Ngo, form, g).Some?
    {
    }
    forall g: Field | g != Organization
      ensures RuleMessage(Company, form, g) == RuleMessage(Ngo, form, g)
    {
    }
  }

  /**
   Four characters from above U+FFFF are eight code units, so such a password
   is long enough although it holds only four characters.
   */
  lemma AstralPasswordLongEnough(t: RegistrationType, form: RegisterForm)
    requires form.password == "\U{1F600}\U{1F600}\U{1F600}\U{1F600}"
    ensures |form.password| == 4 && Utf16Length(form.password) == 8
    ensures Password !in Validate(t, form)
  {
    var pw := form.password;
    assert CodeUnits('\U{1F600}') == 2;
    assert Utf16Length(pw[1..][1..][1..]) == 2;
    assert Utf16Length(pw[1..][1..]) == 4;
    assert Utf16Length(pw[1..]) == 6;
  }

  /** A form that passes every rule. */
  predicate Acceptable(form: RegisterForm) {
    && !AllWhitespace(form.name)
    && !AllWhitespace(form.email) && EmailPattern(form.email)
    && Utf16Length(form.password) >= MinPasswordLength
    && form.password == form.confirmPassword
    && form.organization != ""
    && form.acceptTerms
  }

  /**
   Submitting the page as it first shows flags every rule except the
   confirmation, since the two empty passwords agree.
   */
  lemma EmptyFormFlags(t: RegistrationType)
    ensures Validate(t, InitialPage.form).Keys == {Name, Email, Password, Organization, AcceptTerms}
    ensures Validate(t, InitialPage.form)[Password] == PasswordRequired
  {
    var e := Validate(t, EmptyForm);
    assert Name in e && Email in e && Password in e && Organization in e && AcceptTerms in e;
    assert ConfirmPassword !in e;
  }

  /** Validation finds nothing exactly for the acceptable forms. */
  lemma ValidateEmptyIffAcceptable(t: RegistrationType, form: RegisterForm)
    ensures Validate(t, form) == map[] <==> Acceptable(form)
  {
    var e := Validate(t, form);
    if !Acceptable(form) {
      if AllWhitespace(form.name) { assert Name in e; }
      else if AllWhitespace(form.email) || !EmailPattern(form.email) { assert Email in e; }
      else if Utf16Length(form.password) < MinPasswordLength { assert Password in e; }
      else if form.password != form.confirmPassword { assert ConfirmPassword in e; }
      else if form.organization == "" { assert Organization in e; }
      else { assert AcceptTerms in e; }
    } else {
      assert e.Keys == {};
    }
  }

  // ---------------------------------------------------------------------------
  // Editing

  /** An input event: a text input with its new value, or the terms checkbox with its new state. */
  datatype Change = Typed(field: TextField, value: string) | Ticked(checked: bool)

  function ChangedField(c: Change): Field {
    match c
    case Typed(f, _) => f
    case Ticked(_) => AcceptTerms
  }

  /**
   `handleChange`: the changed input takes its new value, and its error entry is
   deleted when it holds a message (an empty message is falsy and stays).
   */
  function HandleChange(p: Page, c: Change): (r: Page)
    ensures r.registrationType == p.registrationType
    ensures c.Typed? ==> TextOf(r.form, c.field) == c.value && r.form.acceptTerms == p.form.acceptTerms
    ensures c.Ticked? ==> r.form.acceptTerms == c.checked
    ensures forall g: TextField :: g != ChangedField(c) ==> TextOf(r.form, g) == TextOf(p.form, g)
    ensures ChangedField(c) in p.errors && p.errors[ChangedField(c)] != "" ==> ChangedField(c) !in r.errors
    ensures forall g :: g in r.errors ==> g in p.errors && r.errors[g] == p.errors[g]
    ensures forall g :: g in p.errors && g != ChangedField(c) ==> g in r.errors
  {
    var form :=
      match c
      case Typed(f, v) => SetText(p.form, f, v)
      case Ticked(b) => p.form.(acceptTerms := b);
    var name := ChangedField(c);
    var errors := if name in p.errors && p.errors[name] != "" then p.errors - {name} else p.errors;
    Page(p.registrationType, form, errors)
  }

  /** Every stored message is non-empty. */
  predicate MessagesNonEmpty(e: Errors) {
    forall g :: g in e ==> e[g] != ""
  }

  /** Once the map only holds real messages, an edit removes exactly the edited field's entry. */
  lemma HandleChangeRemovesOnlyItsError(p: Page, c: Change)
    requires MessagesNonEmpty(p.errors)
    ensures HandleChange(p, c).errors == p.errors - {ChangedField(c)}
    ensures MessagesNonEmpty(HandleChange(p, c).errors)
  {
  }

  /** The company / NGO toggle; neither the form nor the errors change. */
  function SelectType(p: Page, t: RegistrationType): (r: Page)
    ensures r.registrationType == t
    ensures r.form == p.form && r.errors == p.errors
  {
    p.(registrationType := t)
  }

  // ---------------------------------------------------------------------------
  // Submitting

  datatype SubmitOutcome = Rejected | Registered

  /**
   `handleSubmit` as written: with errors, the new map replaces the old one;
   without, the page registers and leaves the old map in place.
   */
  function SubmitAsWritten(p: Page): (r: (Page, SubmitOutcome))
    ensures r.1 == Registered <==> Validate(p.registrationType, p.form) == map[]
    ensures r.1 == Rejected ==> r.0.errors == Validate(p.registrationType, p.form)
    ensures r.1 == Registered ==> r.0.errors == p.errors
    ensures r.0.form == p.form && r.0.registrationType == p.registrationType
  {
    var e := Validate(p.registrationType, p.form);
    if |e| > 0 then (p.(errors := e), Rejected) else (p, Registered)
  }

  /**
   A mismatch is reported, the user fixes it by retyping the password to match
   the confirmation (which clears only the password entry), and the
   registration succeeds with the stale "Passwords do not match" still on
   screen. Any form whose only fault is the mismatch does this, for either
   registration type.
   */
  lemma StaleErrorSurvivesRegistration(t: RegistrationType, form: RegisterForm)
    requires form.password != form.confirmPassword
    requires Acceptable(form.(password := form.confirmPassword))
    ensures var p0 := Page(t, form, map[]);
      var p1 := SubmitAsWritten(p0).0;
      var p2 := HandleChange(p1, Typed(Password, form.confirmPassword));
      && SubmitAsWritten(p0).1 == Rejected
      && SubmitAsWritten(p2).1 == Registered
      && ConfirmPassword in SubmitAsWritten(p2).0.errors
  {
    var p0 := Page(t, form, map[]);
    assert ConfirmPassword in Validate(t, form);
    var p1 := SubmitAsWritten(p0).0;
    assert ConfirmPassword in p1.errors;
    var p2 := HandleChange(p1, Typed(Password, form.confirmPassword));
    assert p2.form == form.(password := form.confirmPassword);
    ValidateEmptyIffAcceptable(t, p2.form);
  }

  /** A form that shows it: every field valid except a confirmation one character off. */
  lemma MismatchOnlyExample(form: RegisterForm)
    requires form == RegisterForm("A", "a@b.c", "12345678", "12345679", "", "Acme", "", "", "", "", true)
    ensures form.password != form.confirmPassword
    ensures Acceptable(form.(password := form.confirmPassword))
  {
    assert form.password[7] != form.confirmPassword[7];
    var fixed := form.(password := form.confirmPassword);
    assert !IsWhitespace(fixed.name[0]);
    assert !IsWhitespace(fixed.email[0]);
    assert MatchAt(fixed.email, 1, 3);
    assert EndsAt(fixed.email, 3);
    assert EmailPattern(fixed.email);
    assert Utf16Length(fixed.password) >= MinPasswordLength;
    assert fixed.organization != "";
  }

  /**
   `handleSubmit` with the stored map always replaced by the one just computed,
   so that a registration never leaves a message on screen.
   */
  function Submit(p: Page): (r: (Page, SubmitOutcome))
    ensures r.1 == Registered <==> Acceptable(p.form)
    ensures r.0.errors == Validate(p.registrationType, p.form)
    ensures r.1 == Registered ==> r.0.errors == map[]
    ensures r.0.form == p.form && r.0.registrationType == p.registrationType
  {
    var e := Validate(p.registrationType, p.form);
    ValidateEmptyIffAcceptable(p.registrationType, p.form);
    (p.(errors := e), if |e| > 0 then Rejected else Registered)
  }

  /**
   The correction changes nothing but the success path: both versions reach the
   same outcome, leave the same page after a rejection, and after a
   registration differ only when stale messages were on screen.
   */
  lemma SubmitDiffersOnlyOnStaleErrors(p: Page)
    ensures Submit(p).1 == SubmitAsWritten(p).1
    ensures Submit(p).1 == Rejected ==> Submit(p).0 == SubmitAsWritten(p).0
    ensures Submit(p).0 == SubmitAsWritten(p).0 <==> Submit(p).1 == Rejected || p.errors == map[]
  {
    ValidateEmptyIffAcceptable(p.registrationType, p.form);
  }
}
