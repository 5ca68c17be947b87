/** frontend/profstars-frontend/src/pages/Register.jsx: the registration form's state, the
    "Other (Not Listed)" university entry, and what a submit sends. Fetching is outside the
    model: a fetched university list arrives through `UniversitiesFetched`, and the two
    POSTs a submit makes are returned as a plan rather than sent. */
module Register {
  import opened Common
  import opened Text
  import AuthController

  datatype FormData = FormData(
    name: string,
    email: string,
    password: string,
    role: string,
    country: string,
    university: string,
    department: string,
    academicTitle: string,
    experienceYears: string,
    major: string)

  /** The `name` attribute of the input that changed. */
  datatype Field = Name | Email | Password | RoleField | Country | University
                 | Department | AcademicTitle | ExperienceYears | Major

  const InitialForm := FormData("", "", "", "student", "", "", "", "", "", "")

  /** `{ ...formData, [name]: value }`. */
  function WithField(f: FormData, field: Field, value: string): FormData
  {
    match field
    case Name => f.(name := value)
    case Email => f.(email := value)
    case Password => f.(password := value)
    case RoleField => f.(role := value)
    case Country => f.(country := value)
    case University => f.(university := value)
    case Department => f.(department := value)
    case AcademicTitle => f.(academicTitle := value)
    case ExperienceYears => f.(experienceYears := value)
    case Major => f.(major := value)
  }

  /** The value the form holds for a field. */
  function FieldValue(f: FormData, field: Field): string
  {
    match field
    case Name => f.name
    case Email => f.email
    case Password => f.password
    case RoleField => f.role
    case Country => f.country
    case University => f.university
    case Department => f.department
    case AcademicTitle => f.academicTitle
    case ExperienceYears => f.experienceYears
    case Major => f.major
  }

  /** Setting a field changes that field to the value and leaves every other field alone. */
  lemma WithFieldEffect(f: FormData, field: Field, value: string)
    ensures FieldValue(WithField(f, field, value), field) == value
    ensures forall other :: other != field ==> FieldValue(WithField(f, field, value), other) == FieldValue(f, other)
  {
  }

  const AdminDomainMessage := "Admins must use a @profstars.in/.com/.ca email."

  /** The page's admin-domain test: `endsWith`, so the case of the email matters. */
  predicate FrontendAdminDomain(email: string)
  {
    EndsWith(email, "@profstars.in") || EndsWith(email, "@profstars.com") || EndsWith(email, "@profstars.ca")
  }

  /** An email the page accepts for an admin the server also treats as an admin's. */
  lemma FrontendDomainAcceptedByServer(email: string)
    requires FrontendAdminDomain(email)
    ensures AuthController.AdminDomain(email)
  {
    if EndsWith(email, "@profstars.in") {
      LowerKeepsLowerSuffix(email, "@profstars.in");
    } else if EndsWith(email, "@profstars.com") {
      LowerKeepsLowerSuffix(email, "@profstars.com");
    } else {
      LowerKeepsLowerSuffix(email, "@profstars.ca");
    }
  }

  /** The converse fails: the server accepts an upper-case admin domain the page refuses. */
  lemma UpperCaseDomainOnlyServerSide()
    ensures AuthController.AdminDomain("a@PROFSTARS.CA")
    ensures !FrontendAdminDomain("a@PROFSTARS.CA")
  {
    UpperCaseEmailServerSide();
    UpperCaseEmailPageSide();
  }

  lemma UpperCaseEmailLowered()
    ensures Lower("a@PROFSTARS.CA") == "a@profstars.ca"
  {
    LowerConcat("a@", "PROFSTARS.CA");
    assert "a@PROFSTARS.CA" == "a@" + "PROFSTARS.CA";
    assert Lower("a@") == "a@";
  }

  lemma UpperCaseEmailServerSide()
    ensures AuthController.AdminDomain("a@PROFSTARS.CA")
  {
    UpperCaseEmailLowered();
    var e := "a@profstars.ca";
    assert e[|e| - 13..] == "@profstars.ca";
  }

  lemma UpperCaseEmailPageSide()
    ensures !FrontendAdminDomain("a@PROFSTARS.CA")
  {
    var e := "a@PROFSTARS.CA";
    assert e[|e| - 1] == 'A';
  }

  /** A university the page adds before registering. */
  datatype UniversityPost = UniversityPost(name: string, country: string)

  /** What a submit does: refuse an admin email outside the domains, or send the optional
      university POST followed by the registration POST of the whole form. */
  datatype SubmitPlan = DomainRefused(message: string)
                      | Send(newUniversity: Option<UniversityPost>, form: FormData)

  /** `handleSubmit`. */
  function Submit(f: FormData, showCustom: bool, custom: string): (r: SubmitPlan)
    ensures r.DomainRefused? <==> f.role == "admin" && !FrontendAdminDomain(f.email)
    ensures r.DomainRefused? ==> r.message == AdminDomainMessage
    ensures r.Send? ==> r.form == f
    ensures r.Send? ==> (r.newUniversity.Some? <==> showCustom && Trim(custom) != "")
    ensures r.Send? && r.newUniversity.Some? ==>
      r.newUniversity.value == UniversityPost(Trim(custom), f.country)
  {
    if f.role == "admin" && !FrontendAdminDomain(f.email) then DomainRefused(AdminDomainMessage)
    else
      var post := if showCustom && Trim(custom) != "" then Some(UniversityPost(Trim(custom), f.country)) else None;
      Send(post, f)
  }

  /** An admin registration the page lets through is stored by the server with role admin. */
  lemma SentAdminIsServerAdmin(f: FormData, showCustom: bool, custom: string)
    requires f.role == "admin" && Submit(f, showCustom, custom).Send?
    ensures AuthController.RequestedRole(f.role, f.email) == "admin"
    ensures AuthController.AdminDomain(f.email)
  {
    FrontendDomainAcceptedByServer(f.email);
  }

  /** The state of the form. */
  class RegisterForm {
    var form: FormData
    var showCustomUniversity: bool
    var customUniversity: string
    var universities: seq<string>

    constructor ()
      ensures form == InitialForm && !showCustomUniversity && customUniversity == "" && universities == []
    {
      form := InitialForm;
      showCustomUniversity := false;
      customUniversity := "";
      universities := [];
    }

    /** The effect that runs when the country or the role changes: the university list and
        the custom entry are cleared, and for a chosen country and a non-admin role the
        university too (a fetch for the country then starts). */
    method CountryOrRoleChanged()
      modifies this
      ensures universities == [] && !showCustomUniversity && customUniversity == ""
      ensures form == if old(form.country) != "" && old(form.role) != "admin"
                      then old(form).(university := "") else old(form)
    {
      universities := [];
      showCustomUniversity := false;
      customUniversity := "";
      if form.country != "" && form.role != "admin" {
        form := form.(university := "");
      }
    }

    /** `handleChange`, followed by the effect when the country or the role changed. */
    method HandleChange(field: Field, value: string)
      modifies this
      ensures field == University && value == "other" ==>
        && showCustomUniversity && form == old(form).(university := "")
        && customUniversity == old(customUniversity) && universities == old(universities)
      ensures field == University && value != "other" ==>
        && !showCustomUniversity && customUniversity == "" && form == old(form).(university := value)
        && universities == old(universities)
      ensures field != University && (field == Country || field == RoleField) && value != FieldValue(old(form), field) ==>
        var f := WithField(old(form), field, value);
        && universities == [] && !showCustomUniversity && customUniversity == ""
        && form == if f.country != "" && f.role != "admin" then f.(university := "") else f
      ensures field != University && !((field == Country || field == RoleField) && value != FieldValue(old(form), field)) ==>
        && form == WithField(old(form), field, value)
        && showCustomUniversity == old(showCustomUniversity) && customUniversity == old(customUniversity)
        && universities == old(universities)
    {
      if field == University && value == "other" {
        showCustomUniversity := true;
        form := form.(university := "");
      } else if field == University {
        showCustomUniversity := false;
        customUniversity := "";
        form := form.(university := value);
      } else {
        var changed := (field == Country || field == RoleField) && value != FieldValue(form, field);
        form := WithField(form, field, value);
        if changed {
          CountryOrRoleChanged();
        }
      }
    }

    /** Typing in the custom university box: the university becomes exactly the text. */
    method HandleCustomUniversityChange(value: string)
      modifies this
      ensures customUniversity == value && form == old(form).(university := value)
      ensures showCustomUniversity == old(showCustomUniversity) && universities == old(universities)
    {
      customUniversity := value;
      form := form.(university := value);
    }

    /** The university fetch for the chosen country: a non-empty answer, or nothing. */
    method UniversitiesFetched(answer: Option<seq<string>>)
      modifies this
      ensures universities == if answer.Some? && |answer.value| > 0 then answer.value else []
      ensures form == old(form) && showCustomUniversity == old(showCustomUniversity)
      ensures customUniversity == old(customUniversity)
    {
      universities := if answer.Some? && |answer.value| > 0 then answer.value else [];
    }

    /** The submit of the current form; the form itself is left as it is. */
    method HandleSubmit() returns (r: SubmitPlan)
      ensures r == Submit(form, showCustomUniversity, customUniversity)
      ensures r.DomainRefused? <==> form.role == "admin" && !FrontendAdminDomain(form.email)
    {
      r := Submit(form, showCustomUniversity, customUniversity);
    }
  }
}
