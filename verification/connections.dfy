/** The connections page: the same tri-state loader over accepted connections, with its
    own failure message and views. */
module Connections {
  import opened Wrappers
  import opened Records
  import opened Remote
  import opened Loader
  import ConnectionCard

  /** `err.message || "Failed to fetch connections"`: the server's message is not read. */
  function FetchErrorMessage(e: HttpError): (m: string)
    ensures Truthy(e.message) ==> m == e.message.value
    ensures !Truthy(e.message) ==> m == "Failed to fetch connections"
  {
    FirstTruthy([e.message], "Failed to fetch connections")
  }

  /** Two errors that differ only in the server's message read the same. */
  lemma ServerMessageIgnored(e: HttpError, server: Option<string>)
    ensures FetchErrorMessage(e.(serverMessage := server)) == FetchErrorMessage(e)
  {
  }

  /** `getConnections` on mount. */
  function Fetch(st: State<Person>, o: Outcome<Option<seq<Person>>>): (r: State<Person>)
    ensures !r.loading
    ensures o.Success? ==> r.items == OrEmptyList(o.body) && r.error == st.error
    ensures o.Failure? ==> r.items == st.items && Truthy(r.error)
    ensures o.Failure? ==> r.error.value == FetchErrorMessage(o.error)
  {
    Settle(st, o, FetchErrorMessage)
  }

  datatype Screen = Notice(text: string) | Cards(keys: seq<string>, people: seq<Person>)

  /** "Loading connections...", then "Error: <message>", then "No connections found",
      else one card per connection keyed by its id. */
  function Render(st: State<Person>): (s: Screen)
    ensures st.loading ==> s == Notice("Loading connections...")
    ensures !st.loading && Truthy(st.error) ==> s == Notice("Error: " + st.error.value)
    ensures !st.loading && !Truthy(st.error) && st.items == [] ==> s == Notice("No connections found")
    ensures s.Cards? <==> !st.loading && !Truthy(st.error) && st.items != []
    ensures s.Cards? ==> s.people == st.items && |s.keys| == |st.items|
    ensures s.Cards? ==> forall i | 0 <= i < |st.items| :: s.keys[i] == st.items[i].id
  {
    PhasePrecedence(st);
    match PhaseOf(st)
    case Loading => Notice("Loading connections...")
    case Failed(m) => Notice("Error: " + m)
    case Empty => Notice("No connections found")
    case Listing(items) => Cards(seq(|items|, i requires 0 <= i < |items| => items[i].id), items)
  }

  /** A response with `data: null` shows the empty notice rather than failing, and no
      card is evaluated, so nothing can throw. */
  lemma NullDataShowsNoConnections()
    ensures Render(Fetch(Initial(), Success(None))) == Notice("No connections found")
    ensures PageRenders(Fetch(Initial(), Success(None)))
  {
  }

  /** The page renders without throwing only when every card can. */
  predicate PageRenders(st: State<Person>) {
    Render(st).Cards? ==> forall i | 0 <= i < |st.items| :: ConnectionCard.Renders(st.items[i])
  }
}
