/** The card for one accepted connection. Unlike the request card it has no guards:
    `firstName[0]`, `lastName[0]` and `gender[0].toUpperCase()` are evaluated as they
    stand, so the record must carry what they index. */
module ConnectionCard {
  import opened Wrappers
  import opened Strings
  import opened Records
  import RequestCard

  /** What the card needs to render without throwing: both names present (an empty one
      does not throw, it renders as `undefined`) and a non-empty gender. */
  predicate Renders(p: Person)
    ensures p.firstName.Some? && p.lastName.Some? ==>
      (Renders(p) <==> RequestCard.GenderLabel(p.gender) != [])
  {
    p.firstName.Some? && p.lastName.Some? && p.gender.Some? && p.gender.value != []
  }

  /** `${s[0]}` in a template literal: the first character, or the text `undefined` when
      the string is empty. */
  function FirstCharText(s: string): (r: string)
    ensures s != [] ==> r == [s[0]]
    ensures s == [] ==> r == "undefined"
  {
    if s != [] then [s[0]] else "undefined"
  }

  /** `${firstName[0]}${lastName[0]}`: not upper-cased; each empty name contributes the
      text `undefined` in its letter's place. */
  function Initials(first: string, last: string): (r: string)
    ensures |r| == (if first == [] then 9 else 1) + (if last == [] then 9 else 1)
    ensures first != [] ==> r[0] == first[0]
    ensures first == [] ==> r[..9] == "undefined"
    ensures last != [] ==> r[|r| - 1] == last[0]
    ensures last == [] ==> r[|r| - 9..] == "undefined"
  {
    FirstCharText(first) + FirstCharText(last)
  }

  /** Where both names are non-empty, the request card's guarded initials are these,
      upper-cased. */
  lemma GuardedInitialsAgree(first: string, last: string)
    requires first != [] && last != []
    ensures RequestCard.Initials(Some(first), Some(last)) == Upper(Initials(first, last))
  {
  }

  /** Where a name is empty the two cards part ways: the guarded card drops the letter,
      this card renders `undefined` in its place. */
  lemma EmptyNameContrast(last: string)
    requires last != []
    ensures RequestCard.Initials(Some([]), Some(last)) == [UpperChar(last[0])]
    ensures Initials([], last) == "undefined" + [last[0]]
  {
  }

  /** `{gender[0].toUpperCase()}, {age}`: an absent age renders as nothing. */
  function Subtitle(gender: string, age: Option<int>): (r: string)
    requires gender != []
    ensures |r| >= 3 && r[0] == UpperChar(gender[0]) && r[1..3] == ", "
    ensures age.None? ==> |r| == 3
    ensures age.Some? ==> r[3..] == IntToDecimal(age.value)
  {
    [UpperChar(gender[0])] + ", " + (if age.Some? then IntToDecimal(age.value) else [])
  }

  /** `{firstName} {lastName}`: the two names around one space, whatever they contain;
      names without a space split back into the pair. */
  function NameLine(first: string, last: string): (r: string)
    ensures |r| == |first| + 1 + |last|
    ensures r[..|first|] == first && r[|first|] == ' ' && r[|first| + 1..] == last
    ensures ' ' !in first && ' ' !in last ==> Split(r, ' ') == [first, last]
  {
    var r := first + " " + last;
    if ' ' !in first && ' ' !in last then
      SplitJoin([first, last], ' ');
      assert Join([first, last], " ") == r;
      r
    else r
  }

  datatype Avatar = Photo(url: string) | Badge(text: string)

  datatype CardView = CardView(avatar: Avatar, name: string, subtitle: string, about: string)

  /** The card: the photo when its URL is truthy, else the initials badge; the initials
      are computed either way, which is why both names must be present. */
  function View(p: Person): (v: CardView)
    requires Renders(p)
    ensures v.avatar.Photo? <==> p.photoUrl.Some? && p.photoUrl.value != []
    ensures v.avatar.Photo? ==> v.avatar.url == p.photoUrl.value
    ensures v.avatar.Badge? ==> v.avatar.text == Initials(p.firstName.value, p.lastName.value)
    ensures v.subtitle == Subtitle(p.gender.value, p.age)
    ensures v.name == NameLine(p.firstName.value, p.lastName.value)
    ensures v.about == OrEmpty(p.about)
  {
    var initials := Initials(p.firstName.value, p.lastName.value);
    CardView(
      if p.photoUrl.Some? && p.photoUrl.value != [] then Photo(p.photoUrl.value) else Badge(initials),
      NameLine(p.firstName.value, p.lastName.value),
      Subtitle(p.gender.value, p.age),
      OrEmpty(p.about))
  }

  /** The worked case: Ann Lee without a photo shows the badge "AL". */
  lemma AnnLeeBadge(p: Person)
    requires p.firstName == Some("Ann") && p.lastName == Some("Lee")
    requires p.gender == Some("female") && p.photoUrl.None?
    ensures View(p).avatar == Badge("AL")
  {
  }
}
