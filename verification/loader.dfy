/** The tri-state list loader shared by the received-requests and connections pages:
    a list, a `loading` flag and an optional error, filled by one GET whose outcome
    settles the state, and rendered by a fixed precedence of views. */
module Loader {
  import opened Wrappers
  import opened Remote

  datatype State<T> = State(items: seq<T>, loading: bool, error: Option<string>)

  /** `useState([])`, `useState(true)`, `useState(null)`. */
  function Initial<T>(): (st: State<T>)
    ensures st.items == [] && st.loading && st.error.None?
  {
    State([], true, None)
  }

  /** The `try`/`catch`/`finally` of a fetch: a success stores `data || []`, a failure
      stores the message `messageOf` derives from the error, and `loading` ends false
      either way. Neither branch touches the other branch's field. */
  function Settle<T>(st: State<T>, o: Outcome<Option<seq<T>>>, messageOf: HttpError -> string): (r: State<T>)
    ensures !r.loading
    ensures o.Success? ==> r.items == OrEmptyList(o.body) && r.error == st.error
    ensures o.Failure? ==> r.items == st.items && r.error == Some(messageOf(o.error))
  {
    match o
    case Success(data) => st.(items := OrEmptyList(data), loading := false)
    case Failure(e) => st.(error := Some(messageOf(e)), loading := false)
  }

  /** Which of the four views the page shows. */
  datatype Phase<T> = Loading | Failed(message: string) | Empty | Listing(items: seq<T>)

  /** `if (loading) ...; if (error) ...; if (list.length === 0) ...; list.map(...)`. */
  function PhaseOf<T>(st: State<T>): (p: Phase<T>)
    ensures p.Failed? ==> p.message != []
    ensures p.Listing? ==> p.items != [] && p.items == st.items
  {
    if st.loading then Loading
    else if Truthy(st.error) then Failed(st.error.value)
    else if |st.items| == 0 then Empty
    else Listing(st.items)
  }

  /** The view precedence: loading wins over everything, an error over the list, and
      only an error-free, settled state shows its items, all of them, in order. */
  lemma PhasePrecedence<T>(st: State<T>)
    ensures PhaseOf(st).Loading? <==> st.loading
    ensures PhaseOf(st).Failed? <==> !st.loading && Truthy(st.error)
    ensures PhaseOf(st).Failed? ==> PhaseOf(st).message == st.error.value
    ensures PhaseOf(st).Empty? <==> !st.loading && !Truthy(st.error) && st.items == []
    ensures PhaseOf(st).Listing? <==> !st.loading && !Truthy(st.error) && st.items != []
    ensures PhaseOf(st).Listing? ==> PhaseOf(st).items == st.items
  {
  }

  /** A successful settle does not depend on what the list held before. */
  lemma SuccessReplacesList<T>(st1: State<T>, st2: State<T>, data: Option<seq<T>>, messageOf: HttpError -> string)
    ensures Settle(st1, Success(data), messageOf).items == Settle(st2, Success(data), messageOf).items
  {
  }

  /** Settling with the same outcome twice is settling once. */
  lemma SettleIdempotent<T>(st: State<T>, o: Outcome<Option<seq<T>>>, messageOf: HttpError -> string)
    ensures Settle(Settle(st, o, messageOf), o, messageOf) == Settle(st, o, messageOf)
  {
  }

  /** Once an error is shown it stays shown: no settle clears it, provided the failure
      messages are never empty. */
  lemma ErrorIsSticky<T>(st: State<T>, o: Outcome<Option<seq<T>>>, messageOf: HttpError -> string)
    requires Truthy(st.error)
    requires forall e :: messageOf(e) != []
    ensures PhaseOf(Settle(st, o, messageOf)).Failed?
  {
  }
}
