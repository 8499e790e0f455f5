/** The feed page: the shared feed store is filled by one GET and only its head is
    shown. The store's own reducer is not part of this model; `addFeed` is taken to
    replace the stored list wholesale. */
module Feed {
  import opened Wrappers
  import opened Records
  import opened Remote

  /** The feed slice of the store; `None` is a not-yet-filled (falsy) feed. */
  type Store = Option<seq<Person>>

  /** `getFeed`: a success dispatches `addFeed(data || [])`, a failure dispatches
      nothing. */
  function Fetch(store: Store, o: Outcome<Option<seq<Person>>>): (r: Store)
    ensures o.Success? ==> r == Some(OrEmptyList(o.body))
    ensures o.Failure? ==> r == store
  {
    match o
    case Success(data) => Some(OrEmptyList(data))
    case Failure(_) => store
  }

  /** After a successful fetch the feed is a list, never absent; an absent payload and
      an empty one store the same empty list. */
  lemma FetchedFeedIsList(store: Store, data: Option<seq<Person>>)
    ensures Fetch(store, Success(data)).Some?
    ensures Fetch(store, Success(None)) == Fetch(store, Success(Some([]))) == Some([])
  {
  }

  datatype Screen = NoUsersFound | Card(key: string, user: Person)

  /** "No Users Found..." for an absent or empty feed, else exactly one card: the head,
      keyed by its id. */
  function Render(store: Store): (s: Screen)
    ensures s.NoUsersFound? <==> store.None? || store.value == []
    ensures s.Card? ==> s.user == store.value[0] && s.key == store.value[0].id
  {
    if store.None? || store.value == [] then NoUsersFound
    else Card(store.value[0].id, store.value[0])
  }

  /** A failed fetch leaves what is shown as it was. */
  lemma FailureKeepsScreen(store: Store, e: HttpError)
    ensures Render(Fetch(store, Failure(e))) == Render(store)
  {
  }

  /** Only the head matters: feeds with the same first element show the same card. */
  lemma OnlyHeadShown(a: seq<Person>, b: seq<Person>)
    requires a != [] && b != [] && a[0] == b[0]
    ensures Render(Some(a)) == Render(Some(b))
  {
  }
}
