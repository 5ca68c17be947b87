/** frontend/profstars-frontend/src/pages/AdminLogin.jsx: the admin login form, its
    validation and its per-field error messages. The POST it sends and what the page does
    with the answer (stored token, toast, delayed navigation) are outside the model: a
    submit returns the request it would send. */
module AdminLoginPage {
  import opened Common
  import opened Text
  import AuthRoutes

  datatype FormField = EmailField | PasswordField

  const EmailRequired := "Email is required"
  const EmailInvalid := "Please enter a valid email address"
  const PasswordRequired := "Password is required"
  const PasswordTooShort := "Password must be at least 6 characters"
  const MinPasswordLength: nat := 6

  /** A character `[^\s@]` accepts. */
  predicate PlainChar(c: char)
  {
    !IsSpace(c) && c != '@'
  }

  predicate AllPlain(s: string)
  {
    forall k :: 0 <= k < |s| ==> PlainChar(s[k])
  }

  /** The part after the "@": plain characters with a "." neither first nor last. */
  predicate DomainShape(d: string)
  {
    AllPlain(d) && exists k :: 0 < k < |d| - 1 && d[k] == '.'
  }

  /** `/^[^\s@]+@[^\s@]+\.[^\s@]+$/.test(email)`. */
  predicate ValidEmailShape(email: string)
  {
    exists at :: 0 < at < |email| && email[at] == '@' && AllPlain(email[..at]) && DomainShape(email[at + 1..])
  }

  /** A well-shaped email has exactly one "@" and no white space. */
  lemma ValidEmailHasOneAt(email: string)
    requires ValidEmailShape(email)
    ensures forall k :: 0 <= k < |email| ==> !IsSpace(email[k])
    ensures exists at :: (0 < at < |email| && email[at] == '@' &&
      forall k :: 0 <= k < |email| && k != at ==> email[k] != '@')
  {
    var at :| 0 < at < |email| && email[at] == '@' && AllPlain(email[..at]) && DomainShape(email[at + 1..]);
    forall k | 0 <= k < |email| && k != at
      ensures PlainChar(email[k])
    {
      if k < at {
        assert email[..at][k] == email[k];
      } else {
        assert email[at + 1..][k - at - 1] == email[k];
      }
    }
  }

  /** `validateForm`: the errors recorded for the current fields. */
  function ValidateForm(email: string, password: string): (errors: map<FormField, string>)
    ensures EmailField in errors <==> Trim(email) == "" || !ValidEmailShape(email)
    ensures EmailField in errors ==>
      errors[EmailField] == if Trim(email) == "" then EmailRequired else EmailInvalid
    ensures PasswordField in errors <==> |password| < MinPasswordLength
    ensures PasswordField in errors ==>
      errors[PasswordField] == if password == "" then PasswordRequired else PasswordTooShort
  {
    var e: map<FormField, string> :=
      if Trim(email) == "" then map[EmailField := EmailRequired]
      else if !ValidEmailShape(email) then map[EmailField := EmailInvalid]
      else map[];
    if password == "" then e[PasswordField := PasswordRequired]
    else if |password| < MinPasswordLength then e[PasswordField := PasswordTooShort]
    else e
  }

  /** An email split as local part, "@", name, ".", ending passes the shape test. */
  lemma EmailShapeFromParts(local: string, name: string, ending: string)
    requires local != "" && name != "" && ending != ""
    requires AllPlain(local) && AllPlain(name) && AllPlain(ending) && AllPlain(".")
    ensures ValidEmailShape(local + "@" + name + "." + ending)
  {
    var email := local + "@" + name + "." + ending;
    var at := |local|;
    var domain := name + "." + ending;
    assert email[..at] == local;
    assert email[at + 1..] == domain;
    assert domain[|name|] == '.';
    forall k | 0 <= k < |domain|
      ensures PlainChar(domain[k])
    {
      if k < |name| {
        assert domain[k] == name[k];
      } else if k > |name| {
        assert domain[k] == ending[k - |name| - 1];
      }
    }
  }

  /** A trimmed, well-shaped email and a long enough password record no error. */
  lemma NoErrors(email: string, password: string)
    requires email != "" && Trimmed(email) && ValidEmailShape(email) && |password| >= MinPasswordLength
    ensures ValidateForm(email, password) == map[]
  {
  }

  lemma AdminEmailWellShaped()
    ensures ValidEmailShape("admin@profstars.com")
  {
    EmailShapeFromParts("admin", "profstars", "com");
    assert "admin" + "@" + "profstars" + "." + "com" == "admin@profstars.com";
  }

  lemma AdminAccountPasses(c: AuthRoutes.AdminCredential)
    requires c == AuthRoutes.AdminCredentials[0]
    ensures ValidateForm(c.email, c.password) == map[]
  {
    AdminEmailWellShaped();
    NoErrors(c.email, c.password);
  }

  lemma SuperadminEmailWellShaped()
    ensures ValidEmailShape("superadmin@profstars.ca")
  {
    EmailShapeFromParts("superadmin", "profstars", "ca");
    assert "superadmin" + "@" + "profstars" + "." + "ca" == "superadmin@profstars.ca";
  }

  lemma SuperadminAccountPasses(c: AuthRoutes.AdminCredential)
    requires c == AuthRoutes.AdminCredentials[1]
    ensures ValidateForm(c.email, c.password) == map[]
  {
    SuperadminEmailWellShaped();
    NoErrors(c.email, c.password);
  }

  lemma RootEmailWellShaped()
    ensures ValidEmailShape("root@profstars.in")
  {
    EmailShapeFromParts("root", "profstars", "in");
    assert "root" + "@" + "profstars" + "." + "in" == "root@profstars.in";
  }

  lemma RootAccountPasses(c: AuthRoutes.AdminCredential)
    requires c == AuthRoutes.AdminCredentials[2]
    ensures ValidateForm(c.email, c.password) == map[]
  {
    RootEmailWellShaped();
    NoErrors(c.email, c.password);
  }

  /** Every built-in admin account passes the form's validation. */
  lemma AdminCredentialsPassValidation()
    ensures forall c :: c in AuthRoutes.AdminCredentials ==> ValidateForm(c.email, c.password) == map[]
  {
    var cs := AuthRoutes.AdminCredentials;
    forall c | c in cs
      ensures ValidateForm(c.email, c.password) == map[]
    {
      if c == cs[0] {
        AdminAccountPasses(c);
      } else if c == cs[1] {
        SuperadminAccountPasses(c);
      } else {
        assert c == cs[2];
        RootAccountPasses(c);
      }
    }
  }

  /** The request a valid form sends to `/api/auth/admin-login`. */
  datatype LoginRequest = LoginRequest(email: string, password: string)

  /** The state of the form. */
  class AdminLoginForm {
    var email: string
    var password: string
    var errors: map<FormField, string>

    constructor ()
      ensures email == "" && password == "" && errors == map[]
    {
      email := "";
      password := "";
      errors := map[];
    }

    /** `handleChange`: stores the value and blanks that field's error, if it has one. */
    method HandleChange(field: FormField, value: string)
      modifies this
      ensures field == EmailField ==> email == value && password == old(password)
      ensures field == PasswordField ==> password == value && email == old(email)
      ensures field in old(errors) && old(errors)[field] != "" ==> errors == old(errors)[field := ""]
      ensures !(field in old(errors) && old(errors)[field] != "") ==> errors == old(errors)
      ensures forall f :: f != field ==> (f in errors <==> f in old(errors))
      ensures forall f :: f != field && f in errors ==> errors[f] == old(errors)[f]
    {
      if field == EmailField {
        email := value;
      } else {
        password := value;
      }
      if field in errors && errors[field] != "" {
        errors := errors[field := ""];
      }
    }

    /** `handleSubmit`: validates, and sends a request only when no error was recorded. */
    method HandleSubmit() returns (r: Option<LoginRequest>)
      modifies this
      ensures errors == ValidateForm(email, password)
      ensures email == old(email) && password == old(password)
      ensures r.Some? <==> errors == map[]
      ensures r.Some? ==> (r.value == LoginRequest(email, password) && ValidEmailShape(email)
        && |password| >= MinPasswordLength)
    {
      errors := ValidateForm(email, password);
      if |errors| == 0 {
        r := Some(LoginRequest(email, password));
      } else {
        r := None;
      }
    }
  }
}
