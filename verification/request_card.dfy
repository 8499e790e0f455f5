/** One received connection request as a card: the sender's avatar (photo or initials),
    name, status, gender label, about text and skill chips, and the accept / decline
    actions that PATCH the decision and report success to the owning list. */
module RequestCard {
  import opened Wrappers
  import opened Strings
  import opened Records
  import opened Remote

  /** `s?.[0] || ""`: the first character, or `""` for an absent or empty string. */
  function FirstLetter(s: Option<string>): (r: string)
    ensures |r| <= 1
    ensures r == [] <==> !Truthy(s)
    ensures r != [] ==> r[0] == s.value[0]
  {
    if Truthy(s) then [s.value[0]] else []
  }

  /** The avatar fallback: the upper-cased first letters of the first and last name,
      each dropped when that name is absent or empty; never fails. */
  function Initials(first: Option<string>, last: Option<string>): (r: string)
    ensures |r| <= 2
    ensures r == [] <==> !Truthy(first) && !Truthy(last)
    ensures Truthy(first) && Truthy(last) ==> r == [UpperChar(first.value[0]), UpperChar(last.value[0])]
    ensures Truthy(first) && !Truthy(last) ==> r == [UpperChar(first.value[0])]
    ensures !Truthy(first) && Truthy(last) ==> r == [UpperChar(last.value[0])]
    ensures forall i | 0 <= i < |r| :: !('a' <= r[i] <= 'z')
  {
    Upper(FirstLetter(first) + FirstLetter(last))
  }

  /** `gender?.[0]?.toUpperCase() || ""`. */
  function GenderLabel(gender: Option<string>): (r: string)
    ensures |r| <= 1
    ensures r == [] <==> !Truthy(gender)
    ensures r != [] ==> r[0] == UpperChar(gender.value[0])
  {
    Upper(FirstLetter(gender))
  }

  /** The destructuring default `skills = []`. */
  function SkillsOf(p: Person): (r: seq<string>)
    ensures p.skills.None? ==> r == []
    ensures p.skills.Some? ==> r == p.skills.value
  {
    p.skills.GetOr([])
  }

  /** The React key of the skill chip at `index`: `${_id}-skill-${index}`. */
  function ChipKey(id: string, index: nat): (k: string)
    ensures |k| > |id| + 7 && k[..|id| + 7] == id + "-skill-"
    ensures IsDigits(k[|id| + 7..]) && DecimalValue(k[|id| + 7..]) == index
  {
    var k := id + "-skill-" + NatToDecimal(index);
    assert k[|id| + 7..] == NatToDecimal(index);
    DecimalRoundTrip(index);
    k
  }

  /** Chip keys on one card never collide. */
  lemma ChipKeysDistinct(id: string, i: nat, j: nat)
    requires i != j
    ensures ChipKey(id, i) != ChipKey(id, j)
  {
  }

  /** The avatar: the photo when its URL is truthy, with the initials badge hidden;
      otherwise no image and the badge shown. */
  datatype Avatar = Avatar(image: Option<string>, badgeVisible: bool, badgeText: string)

  function AvatarOf(p: Person): (a: Avatar)
    ensures a.image.Some? <==> Truthy(p.photoUrl)
    ensures a.image.Some? ==> a.image.value == p.photoUrl.value
    ensures a.badgeVisible <==> a.image.None?
    ensures a.badgeText == Initials(p.firstName, p.lastName)
  {
    Avatar(if Truthy(p.photoUrl) then p.photoUrl else None, !Truthy(p.photoUrl), Initials(p.firstName, p.lastName))
  }

  /** A skill chip: its key and its text. */
  datatype Chip = Chip(key: string, text: string)

  datatype CardView = CardView(
    avatar: Avatar,
    name: string,
    status: string,
    statusHighlighted: bool,
    genderLabel: string,
    about: Option<string>,
    chips: seq<Chip>)

  /** The card for one request. The chip row is rendered only for a non-empty skills
      list, and the about paragraph only for a truthy about. */
  function View(req: ConnectionRequest): (v: CardView)
    ensures v.avatar == AvatarOf(req.from)
    ensures v.name == OrEmpty(req.from.firstName) + " " + OrEmpty(req.from.lastName)
    ensures v.status == req.status
    ensures v.statusHighlighted <==> req.status == "interested"
    ensures v.genderLabel == GenderLabel(req.from.gender)
    ensures v.about.Some? <==> Truthy(req.from.about)
    ensures v.about.Some? ==> v.about.value == req.from.about.value
    ensures |v.chips| == |SkillsOf(req.from)|
    ensures forall i | 0 <= i < |v.chips| :: v.chips[i] == Chip(ChipKey(req.id, i), SkillsOf(req.from)[i])
  {
    var p := req.from;
    var skills := SkillsOf(p);
    CardView(
      AvatarOf(p),
      OrEmpty(p.firstName) + " " + OrEmpty(p.lastName),
      req.status,
      req.status == "interested",
      GenderLabel(p.gender),
      if Truthy(p.about) then p.about else None,
      seq(|skills|, i requires 0 <= i < |skills| => Chip(ChipKey(req.id, i), skills[i])))
  }

  /** A card with neither names, gender, photo nor skills still renders: empty
      initials shown in the badge, empty label, no chips. */
  lemma BareSenderRenders(req: ConnectionRequest)
    requires req.from.firstName.None? && req.from.lastName.None? && req.from.gender.None?
    requires req.from.photoUrl.None? && req.from.skills.None?
    ensures View(req).avatar == Avatar(None, true, [])
    ensures View(req).genderLabel == [] && View(req).chips == []
  {
  }

  /** The recipient's decision and the tag the card sends for it. */
  datatype Decision = Accept | Decline

  function Tag(d: Decision): string {
    match d
    case Accept => "accepted"
    case Decline => "rejected"
  }

  /** `/requests/${_id}/${action}`. */
  function ActionPath(id: string, d: Decision): (p: string)
    ensures |p| == |id| + 19
    ensures p[..10] == "/requests/" && p[10..10 + |id|] == id
    ensures p[10 + |id|..] == "/" + Tag(d)
  {
    "/requests/" + id + "/" + Tag(d)
  }

  /** Reads a decision path back into the request id and the decision. */
  function ParseActionPath(path: string): Option<(string, Decision)> {
    var parts := Split(path, '/');
    if |parts| == 4 && parts[0] == [] && parts[1] == "requests" then
      if parts[3] == "accepted" then Some((parts[2], Accept))
      else if parts[3] == "rejected" then Some((parts[2], Decline))
      else None
    else None
  }

  /** `/w/id/tag` splits on `/` into its three segments after an empty one. */
  lemma {:induction false} SplitSegments(w: string, id: string, tag: string)
    requires '/' !in w && '/' !in id && '/' !in tag
    ensures Split(['/'] + w + ['/'] + id + ['/'] + tag, '/') == [[], w, id, tag]
  {
    var c := id + ['/'] + tag;
    var b := w + ['/'] + c;
    SplitWithoutSeparator(tag, '/');
    SplitSegment(id, tag, '/');
    assert Split(c, '/') == [id, tag];
    SplitSegment(w, c, '/');
    assert Split(b, '/') == [w, id, tag];
    SplitSegment([], b, '/');
    PathShape(w, id, tag);
  }

  lemma PathShape(w: string, id: string, tag: string)
    ensures [] + ['/'] + (w + ['/'] + (id + ['/'] + tag)) == ['/'] + w + ['/'] + id + ['/'] + tag
  {
  }

  /** The path encodes the pair (id, decision) faithfully when the id has no `/`. */
  lemma ActionPathRoundTrip(id: string, d: Decision)
    requires '/' !in id
    ensures ParseActionPath(ActionPath(id, d)) == Some((id, d))
  {
    var tag := Tag(d);
    assert '/' !in tag;
    SplitSegments("requests", id, tag);
    assert "/requests/" == ['/'] + "requests" + ['/'];
    assert ActionPath(id, d) == ['/'] + "requests" + ['/'] + id + ['/'] + tag;
    var parts := Split(ActionPath(id, d), '/');
    assert parts == [[], "requests", id, tag];
  }

  /** Distinct requests or decisions go to distinct paths. */
  lemma ActionPathInjective(id1: string, d1: Decision, id2: string, d2: Decision)
    requires '/' !in id1 && '/' !in id2
    requires ActionPath(id1, d1) == ActionPath(id2, d2)
    ensures id1 == id2 && d1 == d2
  {
    ActionPathRoundTrip(id1, d1);
    ActionPathRoundTrip(id2, d2);
  }

  /** The message shown when a decision fails. */
  function ActionErrorMessage(e: HttpError): (m: string)
    ensures Truthy(e.serverMessage) ==> m == e.serverMessage.value
    ensures !Truthy(e.serverMessage) && Truthy(e.message) ==> m == e.message.value
    ensures !Truthy(e.serverMessage) && !Truthy(e.message) ==> m == "An error occurred"
  {
    var candidates := [e.serverMessage, e.message];
    assert !Truthy(e.serverMessage) ==> NoneTruthyBefore(candidates, 1);
    FirstTruthy(candidates, "An error occurred")
  }

  /** The effect of one button press: the PATCH sent, the `onUpdate` calls made (in
      order) and the card's error afterwards. */
  datatype ActionResult = ActionResult(patchPath: string, updates: seq<string>, error: Option<string>)

  /** `handleAccept("accepted")` / `handleDecline("rejected")`: `onUpdate(_id)` exactly
      once after a success and never after a failure, which sets the card's error. */
  function Act(error: Option<string>, id: string, d: Decision, o: Outcome<()>): (r: ActionResult)
    ensures r.patchPath == ActionPath(id, d)
    ensures o.Success? ==> r.updates == [id] && r.error == error
    ensures o.Failure? ==> r.updates == [] && r.error == Some(ActionErrorMessage(o.error))
    ensures o.Failure? ==> Truthy(r.error)
  {
    match o
    case Success(_) => ActionResult(ActionPath(id, d), [id], error)
    case Failure(e) => ActionResult(ActionPath(id, d), [], Some(ActionErrorMessage(e)))
  }
}
