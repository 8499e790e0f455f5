/** The login / sign-up form: the per-field validator, what the submit handler sends,
    how it settles, and the mode toggle. */
module LoginForm {
  import opened Wrappers
  import opened Strings
  import opened Records
  import opened Remote
  import Skills

  /** The age input: the raw text of the field and its JavaScript numeric conversion
      (`None` for `NaN`; an infinite value is also `None`, since it fails the same range
      check). */
  datatype AgeInput = AgeInput(text: string, number: Option<real>)

  datatype Form = Form(
    firstName: string,
    lastName: string,
    email: string,
    password: string,
    age: AgeInput,
    gender: string,
    skills: seq<string>)

  datatype Field = FirstName | LastName | Age | Gender | Email | Password

  const AllFields: set<Field> := {FirstName, LastName, Age, Gender, Email, Password}

  const FirstNameRequired := "First name is required"
  const LastNameRequired := "Last name is required"
  const AgeRequired := "Age is required"
  const AgeOutOfRange := "Age must be between 13 and 120"
  const GenderRequired := "Gender is required"
  const EmailRequired := "Email is required"
  const EmailInvalid := "Email is invalid"
  const PasswordRequired := "Password is required"
  const PasswordTooShort := "Password must be at least 8 characters"

  const MinPasswordLength := 8
  const MinAge: real := 13.0
  const MaxAge: real := 120.0

  /** The regular expression `^\S+@\S+\.\S+$`: no white space anywhere, and an `@` with
      at least one character before it, then at least one character, a `.`, and at least
      one character after it. `\S` matches `@` and `.` too, so any such pair of positions
      is a match. */
  predicate IsEmail(s: string)
    ensures IsEmail(s) ==> 5 <= |s| && '@' in s[1..|s| - 3] && '.' in s[3..|s| - 1]
  {
    && NoSpace(s)
    && exists at, dot | 1 <= at < |s| && at + 2 <= dot < |s| - 1 :: s[at] == '@' && s[dot] == '.'
  }

  /** Three non-empty white-space-free parts around `@` and `.` always make an email. */
  lemma EmailFromParts(user: string, host: string, tld: string)
    requires user != [] && host != [] && tld != []
    requires NoSpace(user) && NoSpace(host) && NoSpace(tld)
    ensures IsEmail(user + "@" + host + "." + tld)
  {
    var s := user + "@" + host + "." + tld;
    var at, dot := |user|, |user| + 1 + |host|;
    assert s[at] == '@' && s[dot] == '.';
    forall i | 0 <= i < |s| ensures !IsSpace(s[i]) {
      if i < at { assert s[i] == user[i]; }
      else if at < i < dot { assert s[i] == host[i - at - 1]; }
      else if dot < i { assert s[i] == tld[i - dot - 1]; }
    }
  }

  /** A single left-to-right scan deciding the email pattern: it finds the first `@` at
      a position of at least 1 and the last `.` at a position of at most `|s| - 2`, and
      checks that at least one character lies between them. */
  method MatchEmail(s: string) returns (ok: bool)
    ensures ok <==> IsEmail(s)
  {
    var noSpace := true;
    var firstAt := -1;
    var lastDot := -1;
    var i := 0;
    while i < |s|
      invariant 0 <= i <= |s|
      invariant noSpace <==> forall j | 0 <= j < i :: !IsSpace(s[j])
      invariant firstAt == -1 || (1 <= firstAt < i && s[firstAt] == '@')
      invariant firstAt == -1 ==> forall j | 1 <= j < i :: s[j] != '@'
      invariant firstAt != -1 ==> forall j | 1 <= j < firstAt :: s[j] != '@'
      invariant lastDot == -1 || (0 <= lastDot < i && lastDot < |s| - 1 && s[lastDot] == '.')
      invariant forall j | lastDot < j < i && j < |s| - 1 :: s[j] != '.'
    {
      if IsSpace(s[i]) {
        noSpace := false;
      }
      if s[i] == '@' && i >= 1 && firstAt == -1 {
        firstAt := i;
      }
      if s[i] == '.' && i < |s| - 1 {
        lastDot := i;
      }
      i := i + 1;
    }
    ok := noSpace && firstAt != -1 && lastDot != -1 && firstAt + 2 <= lastDot;
    if ok {
      assert s[firstAt] == '@' && s[lastDot] == '.';
    }
  }

  /** The one rule a field is checked against, in the given mode (`None`: no error). */
  function FieldRule(f: Form, isLogin: bool, field: Field): (r: Option<string>)
    ensures isLogin && field in {FirstName, LastName, Age, Gender} ==> r.None?
    ensures !isLogin && field == FirstName ==> (r.None? <==> f.firstName != [])
    ensures !isLogin && field == LastName ==> (r.None? <==> f.lastName != [])
    ensures !isLogin && field == Gender ==> (r.None? <==> f.gender != [])
    ensures !isLogin && field == Age ==> (r.None? <==> AgeAcceptable(f.age))
    ensures field == Email ==> (r.None? <==> IsEmail(f.email))
    ensures field == Password ==> (r.None? <==> |f.password| >= MinPasswordLength)
  {
    match field
    case FirstName => if !isLogin && f.firstName == [] then Some(FirstNameRequired) else None
    case LastName => if !isLogin && f.lastName == [] then Some(LastNameRequired) else None
    case Age =>
      if isLogin then None
      else if f.age.text == [] then Some(AgeRequired)
      else if f.age.number.None? || f.age.number.value < MinAge || f.age.number.value > MaxAge
      then Some(AgeOutOfRange)
      else None
    case Gender => if !isLogin && f.gender == [] then Some(GenderRequired) else None
    case Email =>
      if f.email == [] then Some(EmailRequired)
      else if !IsEmail(f.email) then Some(EmailInvalid)
      else None
    case Password =>
      if f.password == [] then Some(PasswordRequired)
      else if |f.password| < MinPasswordLength then Some(PasswordTooShort)
      else None
  }

  /** `validateForm`: the per-field error map (at most one message per field). In login
      mode only the email and the password are checked. */
  function Validate(f: Form, isLogin: bool): (errors: map<Field, string>)
    ensures isLogin ==> errors.Keys <= {Email, Password}
    ensures Email in errors <==> !IsEmail(f.email)
    ensures Password in errors <==> |f.password| < MinPasswordLength
  {
    map field | field in AllFields && FieldRule(f, isLogin, field).Some? :: FieldRule(f, isLogin, field).value
  }

  /** The sign-up age is acceptable: a number within [13, 120]. */
  predicate AgeAcceptable(a: AgeInput) {
    a.text != [] && a.number.Some? && MinAge <= a.number.value <= MaxAge
  }

  /** A form the mode accepts, stated field by field without the error map. */
  predicate Acceptable(f: Form, isLogin: bool) {
    && (!isLogin ==> f.firstName != [] && f.lastName != [] && AgeAcceptable(f.age) && f.gender != [])
    && IsEmail(f.email)
    && |f.password| >= MinPasswordLength
  }

  /** `validateForm()` returns true exactly when the form is acceptable. */
  lemma ValidIffAcceptable(f: Form, isLogin: bool)
    ensures Validate(f, isLogin) == map[] <==> Acceptable(f, isLogin)
  {
    var errors := Validate(f, isLogin);
    if errors == map[] {
      forall field | field in AllFields ensures FieldRule(f, isLogin, field).None? {
        assert field !in errors;
      }
      assert FieldRule(f, isLogin, Age).None?;
    } else {
      var field :| field in errors;
    }
  }

  /** In login mode the sign-up fields never yield an error: the result depends on the
      email and the password alone. */
  lemma LoginIgnoresSignupFields(f: Form, g: Form)
    requires f.email == g.email && f.password == g.password
    ensures Validate(f, true) == Validate(g, true)
  {
    forall field | field in AllFields ensures FieldRule(f, true, field) == FieldRule(g, true, field) { }
  }

  /** The email messages: required when empty, invalid when non-empty and not matching,
      none when matching. */
  lemma EmailMessages(f: Form, isLogin: bool)
    ensures f.email == [] ==> Validate(f, isLogin)[Email] == EmailRequired
    ensures f.email != [] && !IsEmail(f.email) ==> Validate(f, isLogin)[Email] == EmailInvalid
    ensures IsEmail(f.email) ==> Email !in Validate(f, isLogin)
  {
    assert FieldRule(f, isLogin, Email).Some? ==> Email in Validate(f, isLogin);
  }

  /** The password messages: required when empty, too short below 8 characters; exactly
      8 characters passes. */
  lemma PasswordMessages(f: Form, isLogin: bool)
    ensures f.password == [] ==> Validate(f, isLogin)[Password] == PasswordRequired
    ensures 0 < |f.password| < 8 ==> Validate(f, isLogin)[Password] == PasswordTooShort
    ensures |f.password| == 8 ==> Password !in Validate(f, isLogin)
  {
    assert FieldRule(f, isLogin, Password).Some? ==> Password in Validate(f, isLogin);
  }

  /** The sign-up age messages: required when the field is empty, out of range when it is
      not a number or lies outside [13, 120]; both bounds are accepted. */
  lemma AgeMessages(f: Form)
    ensures f.age.text == [] ==> Validate(f, false)[Age] == AgeRequired
    ensures f.age.text != [] && !AgeAcceptable(f.age) ==> Validate(f, false)[Age] == AgeOutOfRange
    ensures Age !in Validate(f, false) <==> AgeAcceptable(f.age)
    ensures f.age.text != [] && f.age.number in {Some(13.0), Some(120.0)} ==> Age !in Validate(f, false)
  {
    assert FieldRule(f, false, Age).Some? ==> Age in Validate(f, false);
  }

  /** The sign-up required-field messages: first name, last name and gender each carry
      their "required" message exactly when empty, and never in login mode. */
  lemma SignupRequiredMessages(f: Form)
    ensures FirstName in Validate(f, false) <==> f.firstName == []
    ensures f.firstName == [] ==> Validate(f, false)[FirstName] == FirstNameRequired
    ensures LastName in Validate(f, false) <==> f.lastName == []
    ensures f.lastName == [] ==> Validate(f, false)[LastName] == LastNameRequired
    ensures Gender in Validate(f, false) <==> f.gender == []
    ensures f.gender == [] ==> Validate(f, false)[Gender] == GenderRequired
    ensures forall field | field in {FirstName, LastName, Gender} :: field !in Validate(f, true)
  {
    var errors := Validate(f, false);
    assert FieldRule(f, false, FirstName).Some? ==> FirstName in errors;
    assert FieldRule(f, false, LastName).Some? ==> LastName in errors;
    assert FieldRule(f, false, Gender).Some? ==> Gender in errors;
  }

  /** The sign-up form's skills handler: the form keeps the split-and-trimmed pieces. */
  function OnSkillsInput(f: Form, value: string): (g: Form)
    ensures |g.skills| == Count(value, ',') + 1
    ensures g == f.(skills := g.skills)
    ensures value == [] ==> g.skills == [[]]
    ensures g.skills == Skills.SplitTrim(value)
  {
    f.(skills := Skills.SplitTrim(value))
  }

  datatype Payload = Credentials(email: string, password: string) | SignupForm(form: Form)
  datatype Post = Post(endpoint: string, payload: Payload)

  datatype State = State(form: Form, isLogin: bool, errors: map<Field, string>, apiError: string)

  /** The submit handler's effect: the new state, the request sent (if any) and, on a
      successful sign-in, the user record handed to the store (after which it navigates
      home). */
  datatype SubmitResult = SubmitResult(state: State, sent: Option<Post>, signedIn: Option<Option<Person>>)

  /** The request `handleSubmit` sends once validation passed. */
  function RequestFor(f: Form, isLogin: bool): (p: Post)
    ensures p.endpoint == "/login" <==> isLogin
    ensures p.endpoint == "/signup" <==> !isLogin
    ensures p.payload.Credentials? <==> isLogin
    ensures p.payload.Credentials? ==> p.payload.email == f.email && p.payload.password == f.password
    ensures p.payload.SignupForm? ==> p.payload.form == f
  {
    if isLogin then Post("/login", Credentials(f.email, f.password))
    else Post("/signup", SignupForm(f))
  }

  /** The API error shown: the server's message, else the generic one. */
  function ApiErrorMessage(e: HttpError): (m: string)
    ensures Truthy(e.serverMessage) ==> m == e.serverMessage.value
    ensures !Truthy(e.serverMessage) ==> m == "Something went wrong"
  {
    FirstTruthy([e.serverMessage], "Something went wrong")
  }

  /** `handleSubmit`: clear the API error, validate, and send only a valid form; a
      success stores `res.data.data` as the user, a failure shows the API error. */
  function Submit(st: State, o: Outcome<Option<Person>>): (r: SubmitResult)
    ensures r.sent.None? <==> !Acceptable(st.form, st.isLogin)
    ensures r.sent.Some? ==> r.sent.value == RequestFor(st.form, st.isLogin)
    ensures r.signedIn.Some? <==> r.sent.Some? && o.Success?
    ensures r.state.apiError != [] <==> r.sent.Some? && o.Failure?
    ensures r.state.form == st.form && r.state.isLogin == st.isLogin
    ensures r.state.errors == Validate(st.form, st.isLogin)
    ensures r.signedIn.Some? ==> o.Success? && r.signedIn.value == o.body
    ensures r.sent.Some? && o.Failure? ==> r.state.apiError == ApiErrorMessage(o.error)
  {
    ValidIffAcceptable(st.form, st.isLogin);
    var errors := Validate(st.form, st.isLogin);
    var checked := st.(errors := errors, apiError := []);
    if errors != map[] then SubmitResult(checked, None, None)
    else
      match o
      case Success(user) => SubmitResult(checked, Some(RequestFor(st.form, st.isLogin)), Some(user))
      case Failure(e) =>
        SubmitResult(checked.(apiError := ApiErrorMessage(e)), Some(RequestFor(st.form, st.isLogin)), None)
  }

  /** An invalid form sends nothing, so the call's outcome cannot matter. */
  lemma InvalidFormIgnoresOutcome(st: State, o1: Outcome<Option<Person>>, o2: Outcome<Option<Person>>)
    requires !Acceptable(st.form, st.isLogin)
    ensures Submit(st, o1) == Submit(st, o2)
    ensures Submit(st, o1).state.errors != map[]
  {
    ValidIffAcceptable(st.form, st.isLogin);
  }

  /** Login posts the credentials only: forms that agree on them send the same request. */
  lemma LoginSendsOnlyCredentials(st: State, other: Form, o: Outcome<Option<Person>>)
    requires st.isLogin
    requires other.email == st.form.email && other.password == st.form.password
    ensures Submit(st, o).sent == Submit(st.(form := other), o).sent
  {
  }

  /** The mode toggle: flips the mode and clears the field errors and the API error,
      keeping what was typed. */
  function ToggleMode(st: State): (r: State)
    ensures r.isLogin == !st.isLogin
    ensures r.errors == map[] && r.apiError == []
    ensures r.form == st.form
  {
    State(st.form, !st.isLogin, map[], [])
  }

  /** Toggling twice returns to the same mode with the messages cleared. */
  lemma ToggleTwice(st: State)
    ensures ToggleMode(ToggleMode(st)) == st.(errors := map[], apiError := [])
  {
  }
}
