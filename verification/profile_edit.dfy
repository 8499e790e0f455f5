/** The profile editor: six editable fields seeded from the stored user, the
    edit / cancel / update transitions, and the PATCH payload with normalised skills. */
module ProfileEdit {
  import opened Wrappers
  import opened Strings
  import opened Records
  import opened Remote
  import opened Skills

  /** The age field holds the number copied from the store, or the text of the input
      once typed into (or `""` when the store has no truthy age). */
  datatype AgeField = AgeNumber(n: int) | AgeText(text: string)

  datatype Fields = Fields(
    firstName: string,
    lastName: string,
    age: AgeField,
    gender: string,
    skills: SkillsField,
    about: string)

  /** `user?.field || ""` for a text field. */
  function TextOf(user: Option<Person>, field: Person -> Option<string>): (s: string)
    ensures user.Some? && field(user.value).Some? ==> s == field(user.value).value
    ensures user.None? || field(user.value).None? ==> s == []
  {
    match user
    case None => []
    case Some(u) => OrEmpty(field(u))
  }

  /** `user?.age || ""`: an absent age and the falsy age 0 both give `""`. */
  function AgeOf(user: Option<Person>): (a: AgeField)
    ensures a.AgeNumber? <==> user.Some? && user.value.age.Some? && user.value.age.value != 0
    ensures a.AgeNumber? ==> a.n == user.value.age.value
    ensures a.AgeText? ==> a.text == []
  {
    if user.Some? && user.value.age.Some? && user.value.age.value != 0
    then AgeNumber(user.value.age.value)
    else AgeText([])
  }

  /** The five non-skill fields show the stored user's values, `""` where a value is
      absent (and, for the age, where it is 0), and all of them are `""` without a user. */
  predicate SeededFrom(f: Fields, user: Option<Person>) {
    match user
    case None =>
      f.firstName == [] && f.lastName == [] && f.age == AgeText([]) && f.gender == [] && f.about == []
    case Some(u) =>
      && f.firstName == OrEmpty(u.firstName) && f.lastName == OrEmpty(u.lastName)
      && f.gender == OrEmpty(u.gender) && f.about == OrEmpty(u.about)
      && (if u.age.Some? && u.age.value != 0 then f.age == AgeNumber(u.age.value) else f.age == AgeText([]))
  }

  /** The `useState` initialisers: the skills field starts as `skills.join(", ")`. */
  function InitialFields(user: Option<Person>): (f: Fields)
    ensures SeededFrom(f, user)
    ensures f.skills.SkillsText?
    ensures user.None? || user.value.skills.None? ==> f.skills.text == []
    ensures user.Some? && user.value.skills.Some? ==> f.skills.text == Join(user.value.skills.value, ", ")
  {
    var skills := if user.Some? && user.value.skills.Some? then Join(user.value.skills.value, ", ") else [];
    Fields(TextOf(user, (p: Person) => p.firstName), TextOf(user, (p: Person) => p.lastName), AgeOf(user),
           TextOf(user, (p: Person) => p.gender), SkillsText(skills), TextOf(user, (p: Person) => p.about))
  }

  /** The fields re-derived from the stored user, as both the effect on `user` and the
      cancel handler do: here the skills field becomes the stored list itself
      (`user?.skills || ""`), kept as a list until typed into. */
  function StoredFields(user: Option<Person>): (f: Fields)
    ensures SeededFrom(f, user)
    ensures user.None? || user.value.skills.None? ==> f.skills == SkillsText([])
    ensures user.Some? && user.value.skills.Some? ==> f.skills == SkillsList(user.value.skills.value)
  {
    var skills := if user.Some? && user.value.skills.Some? then SkillsList(user.value.skills.value) else SkillsText([]);
    Fields(TextOf(user, (p: Person) => p.firstName), TextOf(user, (p: Person) => p.lastName), AgeOf(user),
           TextOf(user, (p: Person) => p.gender), skills, TextOf(user, (p: Person) => p.about))
  }

  /** The two seedings agree on every field but skills. */
  lemma InitialAndStoredAgree(user: Option<Person>)
    ensures InitialFields(user).(skills := SkillsText([])) == StoredFields(user).(skills := SkillsText([]))
  {
  }

  datatype State = State(user: Option<Person>, editing: bool, fields: Fields, loading: bool, error: Option<string>)

  /** The state on first render. */
  function Mount(user: Option<Person>): (st: State)
    ensures st.user == user && !st.editing && !st.loading && st.error.None?
    ensures st.fields == InitialFields(user)
  {
    State(user, false, InitialFields(user), false, None)
  }

  /** The effect on `user`: re-seeds the fields from the stored user. React runs it once
      right after the first render and again whenever the stored user changes, so every
      state a click can reach has passed through it (see `MountedFields`). */
  function SyncFromStore(st: State): (r: State)
    ensures r.fields == StoredFields(st.user)
    ensures r.user == st.user && r.editing == st.editing && r.loading == st.loading && r.error == st.error
  {
    st.(fields := StoredFields(st.user))
  }

  /** The page as first seen: mounted, then synced by the effect. Its fields are the
      stored ones, so the skills field holds the stored list itself, not its joined text. */
  lemma MountedFields(user: Option<Person>)
    ensures SyncFromStore(Mount(user)).fields == StoredFields(user)
    ensures user.Some? && user.value.skills.Some? ==>
      SyncFromStore(Mount(user)).fields.skills == SkillsList(user.value.skills.value)
    ensures SyncFromStore(Mount(user)).fields.(skills := SkillsText([])) == Mount(user).fields.(skills := SkillsText([]))
  {
    InitialAndStoredAgree(user);
  }

  /** `handleEdit`: editing on, error cleared. */
  function StartEdit(st: State): (r: State)
    ensures r.editing && r.error.None?
    ensures r.user == st.user && r.fields == st.fields && r.loading == st.loading
  {
    st.(editing := true, error := None)
  }

  /** `handleCancelEdit`: editing off and all six fields restored from the stored user,
      whatever had been typed. */
  function CancelEdit(st: State): (r: State)
    ensures !r.editing
    ensures r.fields == StoredFields(st.user)
    ensures r.user == st.user && r.loading == st.loading && r.error == st.error
  {
    st.(editing := false, fields := StoredFields(st.user))
  }

  /** Cancelling discards the edits: two states with the same stored user cancel to the
      same fields, and these are the values the store holds (or `""`). */
  lemma CancelDiscardsEdits(st1: State, st2: State)
    requires st1.user == st2.user
    ensures CancelEdit(st1).fields == CancelEdit(st2).fields
    ensures st1.user.Some? && st1.user.value.firstName.Some? ==>
      CancelEdit(st1).fields.firstName == st1.user.value.firstName.value
    ensures st1.user.None? ==> CancelEdit(st1).fields.firstName == [] && CancelEdit(st1).fields.about == []
  {
  }

  /** The PATCH body: the five text fields verbatim and the normalised skills. */
  datatype Payload = Payload(
    firstName: string,
    lastName: string,
    age: AgeField,
    gender: string,
    skills: seq<string>,
    about: string)

  function PayloadOf(f: Fields): (p: Payload)
    ensures p.firstName == f.firstName && p.lastName == f.lastName && p.age == f.age
    ensures p.gender == f.gender && p.about == f.about
    ensures f.skills.SkillsList? ==> p.skills == f.skills.items
    ensures f.skills.SkillsText? ==> forall i | 0 <= i < |p.skills| :: IsCleanSkill(p.skills[i])
    ensures p.skills == Normalize(f.skills)
  {
    Payload(f.firstName, f.lastName, f.age, f.gender, Normalize(f.skills), f.about)
  }

  /** Saving without edits after the store sync sends back the stored skills list (or
      none), whatever its elements look like. */
  lemma UneditedSaveKeepsSkills(user: Person)
    ensures PayloadOf(StoredFields(Some(user))).skills == OrEmptyList(user.skills)
  {
  }

  /** The joined skills string of the first render, were it saved, would send back the
      stored skills when they are clean: both seedings yield the same payload, so the
      effect that replaces the one by the other never changes what a save sends. */
  lemma InitialSaveKeepsCleanSkills(user: Person)
    requires user.skills.Some?
    requires forall i | 0 <= i < |user.skills.value| :: IsCleanSkill(user.skills.value[i])
    ensures PayloadOf(InitialFields(Some(user))).skills == user.skills.value
    ensures PayloadOf(InitialFields(Some(user))) == PayloadOf(StoredFields(Some(user)))
  {
    NormalizeJoinRoundTrip(user.skills.value);
  }

  /** The message shown when the update fails. */
  function UpdateErrorMessage(e: HttpError): (m: string)
    ensures Truthy(e.serverMessage) ==> m == e.serverMessage.value
    ensures !Truthy(e.serverMessage) && Truthy(e.message) ==> m == e.message.value
    ensures !Truthy(e.serverMessage) && !Truthy(e.message) ==> m == "An error occurred while updating profile."
  {
    var candidates := [e.serverMessage, e.message];
    assert !Truthy(e.serverMessage) ==> NoneTruthyBefore(candidates, 1);
    FirstTruthy(candidates, "An error occurred while updating profile.")
  }

  /** The start of `handleUpdate`: loading on, error cleared, and the body to PATCH to
      `/profile/edit`. */
  function BeginUpdate(st: State): (r: (State, Payload))
    ensures r.0.loading && r.0.error.None?
    ensures r.0.user == st.user && r.0.editing == st.editing && r.0.fields == st.fields
    ensures r.1 == PayloadOf(st.fields)
  {
    (st.(loading := true, error := None), PayloadOf(st.fields))
  }

  /** The end of `handleUpdate`: a success replaces the stored user with the response
      body and leaves editing mode; a failure keeps both and shows the message; loading
      ends false either way. */
  function FinishUpdate(st: State, o: Outcome<Person>): (r: State)
    ensures !r.loading
    ensures o.Success? ==> r.user == Some(o.body) && !r.editing && r.error == st.error
    ensures o.Failure? ==> r.user == st.user && r.editing == st.editing
    ensures o.Failure? ==> r.error == Some(UpdateErrorMessage(o.error))
    ensures r.fields == st.fields
  {
    match o
    case Success(body) => st.(user := Some(body), editing := false, loading := false)
    case Failure(e) => st.(error := Some(UpdateErrorMessage(e)), loading := false)
  }

  /** One whole update: no error is shown after a success, a non-empty one after a
      failure, and once the store sync has run the fields show the saved user. */
  lemma UpdateOutcome(st: State, o: Outcome<Person>)
    ensures var r := FinishUpdate(BeginUpdate(st).0, o);
      && !r.loading
      && (o.Success? ==> r.error.None? && SyncFromStore(r).fields == StoredFields(Some(o.body)))
      && (o.Failure? ==> Truthy(r.error) && r.user == st.user)
  {
  }
}
