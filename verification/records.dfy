/** The records the components receive from the backend. Every field a component reads
    with optional chaining or a default is `Option`al here. */
module Records {
  import opened Wrappers

  /** A user profile (`_id`, name parts, age, gender, about, photo and skills). */
  datatype Person = Person(
    id: string,
    firstName: Option<string>,
    lastName: Option<string>,
    age: Option<int>,
    gender: Option<string>,
    about: Option<string>,
    photoUrl: Option<string>,
    skills: Option<seq<string>>)

  /** A pending connection request: its `_id`, the sender's embedded profile
      (`fromUserId`) and its status. */
  datatype ConnectionRequest = ConnectionRequest(id: string, from: Person, status: string)

  /** JavaScript's `s || ""` for a possibly absent string. */
  function OrEmpty(s: Option<string>): string {
    s.GetOr([])
  }
}
