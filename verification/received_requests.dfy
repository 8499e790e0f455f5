/** The received-requests page: a tri-state loader over the pending requests, the
    id-keyed removal each card's successful decision triggers, and the view chosen. */
module ReceivedRequests {
  import opened Wrappers
  import opened Records
  import opened Remote
  import opened Loader
  import RequestCard

  /** `handleRequestUpdate(id)`: `prev.filter((request) => request._id !== id)`. */
  function RemoveById(reqs: seq<ConnectionRequest>, id: string): (r: seq<ConnectionRequest>)
    ensures |r| <= |reqs|
  {
    if reqs == [] then []
    else (if reqs[0].id == id then [] else [reqs[0]]) + RemoveById(reqs[1..], id)
  }

  /** Removal keeps exactly the requests whose id differs. */
  lemma {:induction false} RemoveMembers(reqs: seq<ConnectionRequest>, id: string)
    ensures forall x | x in RemoveById(reqs, id) :: x in reqs && x.id != id
    ensures forall x | x in reqs && x.id != id :: x in RemoveById(reqs, id)
  {
    if reqs != [] {
      RemoveMembers(reqs[1..], id);
      assert forall x | x in reqs :: x == reqs[0] || x in reqs[1..];
    }
  }

  /** `a` is `b` with some elements left out, the rest in their original order. */
  ghost predicate IsSubsequence<T>(a: seq<T>, b: seq<T>)
    decreases |b|
  {
    a == [] || (b != [] && ((a[0] == b[0] && IsSubsequence(a[1..], b[1..])) || IsSubsequence(a, b[1..])))
  }

  /** Removal keeps the relative order of the requests it keeps. */
  lemma {:induction false} RemoveKeepsOrder(reqs: seq<ConnectionRequest>, id: string)
    ensures IsSubsequence(RemoveById(reqs, id), reqs)
  {
    if reqs != [] {
      RemoveKeepsOrder(reqs[1..], id);
      var r := RemoveById(reqs, id);
      if reqs[0].id != id {
        assert r[0] == reqs[0] && r[1..] == RemoveById(reqs[1..], id);
      } else {
        assert r == RemoveById(reqs[1..], id);
      }
    }
  }

  /** Removal distributes over concatenation. */
  lemma {:induction false} RemoveConcat(a: seq<ConnectionRequest>, b: seq<ConnectionRequest>, id: string)
    ensures RemoveById(a + b, id) == RemoveById(a, id) + RemoveById(b, id)
  {
    if a == [] {
      assert a + b == b;
    } else {
      assert (a + b)[1..] == a[1..] + b;
      assert (a + b)[0] == a[0];
      RemoveConcat(a[1..], b, id);
    }
  }

  /** Removing an id that no request carries leaves the list unchanged. */
  lemma {:induction false} RemoveAbsent(reqs: seq<ConnectionRequest>, id: string)
    requires forall i | 0 <= i < |reqs| :: reqs[i].id != id
    ensures RemoveById(reqs, id) == reqs
  {
    if reqs != [] {
      RemoveAbsent(reqs[1..], id);
    }
  }

  /** Removing twice is removing once. */
  lemma RemoveIdempotent(reqs: seq<ConnectionRequest>, id: string)
    ensures RemoveById(RemoveById(reqs, id), id) == RemoveById(reqs, id)
  {
    var r := RemoveById(reqs, id);
    RemoveMembers(reqs, id);
    assert forall i | 0 <= i < |r| :: r[i] in r;
    RemoveAbsent(r, id);
  }

  /** Removals of two ids commute. */
  lemma {:induction false} RemoveCommutes(reqs: seq<ConnectionRequest>, a: string, b: string)
    ensures RemoveById(RemoveById(reqs, a), b) == RemoveById(RemoveById(reqs, b), a)
  {
    if reqs != [] {
      var head, tail := reqs[..1], reqs[1..];
      assert reqs == head + tail;
      RemoveConcat(head, tail, a);
      RemoveConcat(head, tail, b);
      RemoveConcat(RemoveById(head, a), RemoveById(tail, a), b);
      RemoveConcat(RemoveById(head, b), RemoveById(tail, b), a);
      RemoveCommutes(tail, a, b);
      assert RemoveById(RemoveById(head, a), b) == RemoveById(RemoveById(head, b), a);
    }
  }

  /** Removing the id of the one request between two id-free runs keeps both runs. */
  lemma RemoveBetween(pre: seq<ConnectionRequest>, x: ConnectionRequest, post: seq<ConnectionRequest>)
    requires forall i | 0 <= i < |pre| :: pre[i].id != x.id
    requires forall i | 0 <= i < |post| :: post[i].id != x.id
    ensures RemoveById(pre + [x] + post, x.id) == pre + post
  {
    var id := x.id;
    var left := RemoveById(pre + [x], id);
    RemoveConcat(pre + [x], post, id);
    RemoveConcat(pre, [x], id);
    RemoveAbsent(pre, id);
    RemoveAbsent(post, id);
    assert RemoveById([x], id) == [] by {
      assert [x][1..] == [];
    }
    assert left == pre;
  }

  /** A request whose id occurs once is removed alone, the rest staying in order. */
  lemma RemoveUnique(reqs: seq<ConnectionRequest>, k: nat)
    requires k < |reqs|
    requires forall i | 0 <= i < |reqs| && i != k :: reqs[i].id != reqs[k].id
    ensures RemoveById(reqs, reqs[k].id) == reqs[..k] + reqs[k + 1..]
  {
    var pre, x, post := reqs[..k], reqs[k], reqs[k + 1..];
    Around(reqs, k);
    SlicesAvoid(reqs, k, pre, post);
    RemoveBetween(pre, x, post);
  }

  lemma Around(reqs: seq<ConnectionRequest>, k: nat)
    requires k < |reqs|
    ensures reqs == reqs[..k] + [reqs[k]] + reqs[k + 1..]
  {
  }

  /** The runs before and after a request with a unique id avoid that id. */
  lemma SlicesAvoid(reqs: seq<ConnectionRequest>, k: nat, pre: seq<ConnectionRequest>, post: seq<ConnectionRequest>)
    requires k < |reqs| && pre == reqs[..k] && post == reqs[k + 1..]
    requires forall i | 0 <= i < |reqs| && i != k :: reqs[i].id != reqs[k].id
    ensures forall i | 0 <= i < |pre| :: pre[i].id != reqs[k].id
    ensures forall i | 0 <= i < |post| :: post[i].id != reqs[k].id
  {
    forall i | 0 <= i < |post| ensures post[i].id != reqs[k].id {
      assert post[i] == reqs[k + 1 + i];
    }
  }

  /** The page's error message: the server's, else the fixed one. */
  function FetchErrorMessage(e: HttpError): (m: string)
    ensures Truthy(e.serverMessage) ==> m == e.serverMessage.value
    ensures !Truthy(e.serverMessage) ==> m == "Failed to fetch connection requests"
  {
    FirstTruthy([e.serverMessage], "Failed to fetch connection requests")
  }

  /** `fetchRequests` on mount: `data || []` on success, the message on failure, and
      `loading` false after both. The error is never cleared. */
  function Fetch(st: State<ConnectionRequest>, o: Outcome<Option<seq<ConnectionRequest>>>): (r: State<ConnectionRequest>)
    ensures !r.loading
    ensures o.Success? ==> r.items == OrEmptyList(o.body) && r.error == st.error
    ensures o.Failure? ==> r.items == st.items && Truthy(r.error)
    ensures o.Failure? ==> r.error.value == FetchErrorMessage(o.error)
  {
    Settle(st, o, FetchErrorMessage)
  }

  datatype Screen =
    | Skeleton(tiles: nat)
    | ErrorWithRetry(message: string)
    | NoRequests
    | Cards(keys: seq<string>, cards: seq<RequestCard.CardView>)

  /** The page: three placeholder tiles while loading, then the error with a Retry
      button, then the empty notice, else one card per request keyed by its id. */
  function Render(st: State<ConnectionRequest>): (s: Screen)
    ensures s.Skeleton? <==> st.loading
    ensures s.Skeleton? ==> s.tiles == 3
    ensures s.ErrorWithRetry? <==> !st.loading && Truthy(st.error)
    ensures s.ErrorWithRetry? ==> s.message == st.error.value
    ensures s.NoRequests? <==> !st.loading && !Truthy(st.error) && st.items == []
    ensures s.Cards? ==> |s.keys| == |s.cards| == |st.items|
    ensures s.Cards? ==> forall i | 0 <= i < |st.items| ::
      s.keys[i] == st.items[i].id && s.cards[i] == RequestCard.View(st.items[i])
  {
    PhasePrecedence(st);
    match PhaseOf(st)
    case Loading => Skeleton(3)
    case Failed(m) => ErrorWithRetry(m)
    case Empty => NoRequests
    case Listing(items) =>
      Cards(seq(|items|, i requires 0 <= i < |items| => items[i].id),
            seq(|items|, i requires 0 <= i < |items| => RequestCard.View(items[i])))
  }

  /** A fetch returning no `data` renders the empty notice, never a failure. */
  lemma AbsentDataShowsNoRequests()
    ensures Render(Fetch(Initial(), Success(None))) == NoRequests
  {
  }

  /** The Retry button as written: it calls `fetchRequests` again, which neither sets
      `loading` nor clears `error`, so the page can never leave the error view, however
      the retried fetch settles. */
  function RetryAsWritten(st: State<ConnectionRequest>, o: Outcome<Option<seq<ConnectionRequest>>>): (r: State<ConnectionRequest>)
    ensures !r.loading
    ensures o.Success? ==> r.items == OrEmptyList(o.body) && r.error == st.error
    ensures o.Failure? ==> r.items == st.items && r.error == Some(FetchErrorMessage(o.error))
  {
    Fetch(st, o)
  }

  lemma RetryAsWrittenIsStuck(st: State<ConnectionRequest>, o: Outcome<Option<seq<ConnectionRequest>>>)
    requires Render(st).ErrorWithRetry?
    ensures Render(RetryAsWritten(st, o)).ErrorWithRetry?
  {
  }

  /** The concrete run: the first fetch fails without a server message, the retry
      succeeds with one request, and the page still shows the error. */
  lemma RetryAsWrittenCounterexample(r: ConnectionRequest)
    ensures var failed := Fetch(Initial(), Failure(HttpError(None, None)));
      && Render(failed) == ErrorWithRetry("Failed to fetch connection requests")
      && Render(RetryAsWritten(failed, Success(Some([r])))) == ErrorWithRetry("Failed to fetch connection requests")
  {
  }

  /** The Retry button as evidently intended: back to loading with the error cleared,
      then the same fetch. */
  function Retry(st: State<ConnectionRequest>, o: Outcome<Option<seq<ConnectionRequest>>>): (r: State<ConnectionRequest>)
    ensures !r.loading
    ensures o.Success? ==> r.error.None? && r.items == OrEmptyList(o.body)
    ensures o.Failure? ==> r.items == st.items && r.error == Some(FetchErrorMessage(o.error))
  {
    Fetch(st.(loading := true, error := None), o)
  }

  /** A successful retry leaves the error view for the fetched requests. */
  lemma RetryRecovers(st: State<ConnectionRequest>, data: Option<seq<ConnectionRequest>>)
    ensures !Render(Retry(st, Success(data))).ErrorWithRetry?
    ensures OrEmptyList(data) == [] ==> Render(Retry(st, Success(data))) == NoRequests
    ensures OrEmptyList(data) != [] ==> Render(Retry(st, Success(data))).Cards?
  {
  }

  /** Applies the `onUpdate` calls a card made, in order. */
  function ApplyUpdates(reqs: seq<ConnectionRequest>, ids: seq<string>): (r: seq<ConnectionRequest>)
    ensures ids == [] ==> r == reqs
    decreases |ids|
  {
    if ids == [] then reqs else ApplyUpdates(RemoveById(reqs, ids[0]), ids[1..])
  }

  /** A card's decision reconciled into the page: the card's result and the new list. */
  function Decide(st: State<ConnectionRequest>, req: ConnectionRequest, d: RequestCard.Decision, o: Outcome<()>)
    : (r: (State<ConnectionRequest>, RequestCard.ActionResult))
    ensures r.1 == RequestCard.Act(None, req.id, d, o)
    ensures o.Failure? ==> r.0 == st
    ensures o.Success? ==> r.0 == st.(items := RemoveById(st.items, req.id))
    ensures o.Success? ==> forall x | x in r.0.items :: x.id != req.id
  {
    var result := RequestCard.Act(None, req.id, d, o);
    RemoveMembers(st.items, req.id);
    assert result.updates == [req.id] ==> ApplyUpdates(st.items, result.updates) == RemoveById(st.items, req.id);
    (st.(items := ApplyUpdates(st.items, result.updates)), result)
  }

  /** Two successful decisions on two requests may complete in either order: the list
      ends the same, without both. */
  lemma CompletionOrderIrrelevant(st: State<ConnectionRequest>, a: ConnectionRequest, da: RequestCard.Decision,
                                  b: ConnectionRequest, db: RequestCard.Decision)
    ensures Decide(Decide(st, a, da, Success(())).0, b, db, Success(())).0
         == Decide(Decide(st, b, db, Success(())).0, a, da, Success(())).0
    ensures forall x | x in Decide(Decide(st, a, da, Success(())).0, b, db, Success(())).0.items ::
      x.id != a.id && x.id != b.id
  {
    RemoveCommutes(st.items, a.id, b.id);
    RemoveMembers(st.items, a.id);
    RemoveMembers(RemoveById(st.items, a.id), b.id);
  }

  /** A rejected request that was the only one leaves the empty notice. */
  lemma LastRequestDeclined(r: ConnectionRequest)
    ensures var st := Fetch(Initial(), Success(Some([r])));
      Render(Decide(st, r, RequestCard.Decline, Success(())).0) == NoRequests
  {
  }
}
