/** The two ways the app turns a comma-separated skills string into a list: the sign-up
    form's keystroke handler (split and trim, keeping empty pieces) and the profile
    editor's submit handler (split, trim, and drop empty pieces). */
module Skills {
  import opened Strings

  /** `.map((skill) => skill.trim())`. */
  function TrimAll(pieces: seq<string>): (r: seq<string>)
    ensures |r| == |pieces|
    ensures forall i | 0 <= i < |r| :: IsTrimmed(r[i])
  {
    if pieces == [] then [] else [Trim(pieces[0])] + TrimAll(pieces[1..])
  }

  /** Each output is the trimmed input at its position. */
  lemma {:induction false} TrimAllPointwise(pieces: seq<string>)
    ensures forall i | 0 <= i < |pieces| :: TrimAll(pieces)[i] == Trim(pieces[i])
  {
    if pieces != [] {
      var rest := TrimAll(pieces[1..]);
      assert TrimAll(pieces) == [Trim(pieces[0])] + rest;
      TrimAllPointwise(pieces[1..]);
      forall i | 0 <= i < |pieces| ensures TrimAll(pieces)[i] == Trim(pieces[i]) {
        if i > 0 {
          assert TrimAll(pieces)[i] == rest[i - 1];
          assert pieces[1..][i - 1] == pieces[i];
        }
      }
    }
  }

  lemma {:induction false} TrimAllConcat(a: seq<string>, b: seq<string>)
    ensures TrimAll(a + b) == TrimAll(a) + TrimAll(b)
  {
    if a == [] {
      assert a + b == b;
    } else {
      assert (a + b)[1..] == a[1..] + b;
      TrimAllConcat(a[1..], b);
    }
  }

  /** Trimming never introduces a character, in particular not a comma. */
  lemma TrimAllKeepsAbsent(pieces: seq<string>, c: char)
    requires forall i | 0 <= i < |pieces| :: c !in pieces[i]
    ensures forall i | 0 <= i < |TrimAll(pieces)| :: c !in TrimAll(pieces)[i]
  {
    TrimAllPointwise(pieces);
    forall i | 0 <= i < |pieces| ensures c !in TrimAll(pieces)[i] {
      TrimKeepsAbsent(pieces[i], c);
    }
  }

  /** Sign-up form: `value.split(",").map((skill) => skill.trim())`: one piece more than
      there are commas, each trimmed (see `SplitTrimSegments` for which piece is which). */
  function SplitTrim(text: string): (r: seq<string>)
    ensures |r| == Count(text, ',') + 1
    ensures forall i | 0 <= i < |r| :: IsTrimmed(r[i]) && ',' !in r[i]
  {
    TrimAllKeepsAbsent(Split(text, ','), ',');
    TrimAll(Split(text, ','))
  }

  /** Each piece of the sign-up split is the comma-separated segment at its position,
      trimmed. With `TrimIsInfix` and `TrimUnique` this fixes every piece's contents. */
  lemma SplitTrimSegments(text: string)
    ensures forall i | 0 <= i < |SplitTrim(text)| :: SplitTrim(text)[i] == Trim(Split(text, ',')[i])
  {
    TrimAllPointwise(Split(text, ','));
  }

  /** The empty input is one empty skill, not none. */
  lemma SplitTrimEmpty()
    ensures SplitTrim([]) == [[]]
  {
  }

  /** Each comma starts a new piece. */
  lemma SplitTrimConcat(a: string, b: string)
    ensures SplitTrim(a + [','] + b) == SplitTrim(a) + SplitTrim(b)
  {
    SplitConcat(a, b, ',');
    TrimAllConcat(Split(a, ','), Split(b, ','));
  }

  /** White space before the first comma-separated piece is trimmed away. */
  lemma SplitTrimSpacePrefix(s: string)
    ensures SplitTrim([' '] + s) == SplitTrim(s)
  {
    var p := Split(s, ',');
    var q := [[' '] + p[0]] + p[1..];
    SplitCons(' ', s, ',');
    TrimSpacePrefix(' ', p[0]);
    assert q[1..] == p[1..];
    assert TrimAll(q) == [Trim(p[0])] + TrimAll(p[1..]);
    assert TrimAll(p) == [Trim(p[0])] + TrimAll(p[1..]);
  }

  /** A white-space character typed at the end is trimmed away: since the input shows
      the ", "-join of the list, a trailing space typed after a skill disappears from
      the controlled input on the same keystroke. */
  lemma SplitTrimTrailingSpace(s: string, c: char)
    requires IsSpace(c)
    ensures SplitTrim(s + [c]) == SplitTrim(s)
  {
    var p := Split(s, ',');
    var front := p[..|p| - 1];
    var last := p[|p| - 1];
    SplitSnoc(s, c, ',');
    assert Split(s + [c], ',') == front + [last + [c]];
    TrimSpaceSuffix(last, c);
    assert TrimAll([last + [c]]) == TrimAll([last]);
    TrimAllConcat(front, [last + [c]]);
    LastApart(p);
    TrimAllConcat(front, [last]);
  }

  lemma LastApart(xs: seq<string>)
    requires xs != []
    ensures xs == xs[..|xs| - 1] + [xs[|xs| - 1]]
  {
  }

  /** What the sign-up form displays (`skills.join(", ")`) splits back into the same
      list, as long as every skill is trimmed and comma-free (empty ones included). */
  lemma {:induction false} SplitTrimJoinRoundTrip(xs: seq<string>)
    requires |xs| >= 1
    requires forall i | 0 <= i < |xs| :: IsTrimmed(xs[i]) && ',' !in xs[i]
    ensures SplitTrim(Join(xs, ", ")) == xs
  {
    if |xs| == 1 {
      assert Join(xs, ", ") == xs[0];
      SplitTrimSingle(xs[0]);
    } else {
      SplitTrimJoinRoundTrip(xs[1..]);
      RoundTripCons(xs);
    }
  }

  /** One skill in front of the ", "-join of the rest adds that skill in front. */
  lemma RoundTripCons(xs: seq<string>)
    requires |xs| > 1 && IsTrimmed(xs[0]) && ',' !in xs[0]
    requires SplitTrim(Join(xs[1..], ", ")) == xs[1..]
    ensures SplitTrim(Join(xs, ", ")) == xs
  {
    var tail := Join(xs[1..], ", ");
    JoinCommaSpace(xs);
    SplitTrimSingle(xs[0]);
    SplitTrimConcat(xs[0], [' '] + tail);
    SplitTrimSpacePrefix(tail);
    assert [xs[0]] + xs[1..] == xs;
  }

  /** A trimmed, comma-free string is one skill. */
  lemma SplitTrimSingle(x: string)
    requires IsTrimmed(x) && ',' !in x
    ensures SplitTrim(x) == [x]
  {
    SplitWithoutSeparator(x, ',');
  }

  lemma JoinCommaSpace(xs: seq<string>)
    requires |xs| > 1
    ensures Join(xs, ", ") == xs[0] + [','] + ([' '] + Join(xs[1..], ", "))
  {
  }

  /** Re-splitting the displayed join of a split changes nothing: the sign-up form's
      controlled skills input is a fixed point of display-then-split. */
  lemma SplitTrimStable(text: string)
    ensures SplitTrim(Join(SplitTrim(text), ", ")) == SplitTrim(text)
  {
    SplitTrimJoinRoundTrip(SplitTrim(text));
  }

  /** `.filter((skill) => skill)`: keeps the non-empty strings, in order. */
  function RemoveEmpty(xs: seq<string>): (r: seq<string>)
    ensures |r| <= |xs|
    ensures forall x | x in r :: x in xs && x != []
    ensures forall x | x in xs && x != [] :: x in r
  {
    if xs == [] then []
    else (if xs[0] == [] then [] else [xs[0]]) + RemoveEmpty(xs[1..])
  }

  lemma {:induction false} RemoveEmptyConcat(a: seq<string>, b: seq<string>)
    ensures RemoveEmpty(a + b) == RemoveEmpty(a) + RemoveEmpty(b)
  {
    if a == [] {
      assert a + b == b;
    } else {
      assert (a + b)[1..] == a[1..] + b;
      RemoveEmptyConcat(a[1..], b);
      assert (a + b)[0] == a[0];
    }
  }

  /** A list without empty strings is left as it is. */
  lemma {:induction false} RemoveEmptyNoop(xs: seq<string>)
    requires forall i | 0 <= i < |xs| :: xs[i] != []
    ensures RemoveEmpty(xs) == xs
  {
    if xs != [] {
      RemoveEmptyNoop(xs[1..]);
    }
  }

  /** The profile editor's skills state: the text typed into the input, or the list
      copied from the stored user (which the editor keeps as a list until edited). */
  datatype SkillsField = SkillsText(text: string) | SkillsList(items: seq<string>)

  /** A skill as the profile editor sends it after normalising a string. */
  predicate IsCleanSkill(s: string) {
    s != [] && IsTrimmed(s) && ',' !in s
  }

  /** Profile editor: a list is sent unchanged; a string becomes
      `skills ? skills.split(",").map(trim).filter(Boolean) : []`. */
  function Normalize(v: SkillsField): (r: seq<string>)
    ensures v.SkillsList? ==> r == v.items
    ensures v.SkillsText? ==> forall i | 0 <= i < |r| :: IsCleanSkill(r[i])
    ensures v.SkillsText? && v.text == [] ==> r == []
  {
    match v
    case SkillsList(xs) => xs
    case SkillsText(t) =>
      var pieces := SplitTrim(t);
      RemoveEmptyClean(pieces);
      if t == [] then [] else RemoveEmpty(pieces)
  }

  /** Dropping the empty pieces of trimmed, comma-free pieces leaves clean skills. */
  lemma {:induction false} RemoveEmptyClean(pieces: seq<string>)
    requires forall i | 0 <= i < |pieces| :: IsTrimmed(pieces[i]) && ',' !in pieces[i]
    ensures forall i | 0 <= i < |RemoveEmpty(pieces)| :: IsCleanSkill(RemoveEmpty(pieces)[i])
  {
    if pieces != [] {
      RemoveEmptyClean(pieces[1..]);
      assert forall i | 0 <= i < |pieces[1..]| :: pieces[1..][i] == pieces[i + 1];
    }
  }

  /** The profile editor's string normalisation is the sign-up form's split with the
      empty pieces removed, the `skills ? ... : []` guard included. */
  lemma NormalizeIsSplitTrimWithoutEmpties(text: string)
    ensures Normalize(SkillsText(text)) == RemoveEmpty(SplitTrim(text))
  {
  }

  /** The skills a non-empty string normalises to are exactly the non-empty trimmed
      comma-separated segments. */
  lemma NormalizeMembers(text: string)
    requires text != []
    ensures forall x :: x in Normalize(SkillsText(text)) <==> x != [] && x in SplitTrim(text)
  {
    NormalizeIsSplitTrimWithoutEmpties(text);
  }

  /** A string made only of commas and white space normalises to no skills. */
  lemma {:induction false} NormalizeBlank(text: string)
    requires forall i | 0 <= i < |text| :: text[i] == ',' || IsSpace(text[i])
    ensures Normalize(SkillsText(text)) == []
  {
    BlankPieces(text);
    TrimBlankPieces(Split(text, ','));
    NoSkillsLeft(SplitTrim(text));
  }

  /** A string of commas and white space splits into all-white-space pieces. */
  lemma {:induction false} BlankPieces(text: string)
    requires forall i | 0 <= i < |text| :: text[i] == ',' || IsSpace(text[i])
    ensures forall i | 0 <= i < |Split(text, ',')| :: IsBlank(Split(text, ',')[i])
  {
    if text != [] {
      var rest := Split(text[1..], ',');
      assert forall i | 0 <= i < |text[1..]| :: text[1..][i] == text[i + 1];
      BlankPieces(text[1..]);
      if text[0] != ',' {
        var first := [text[0]] + rest[0];
        assert forall i | 1 <= i < |first| :: first[i] == rest[0][i - 1];
      }
    }
  }

  lemma {:induction false} TrimBlankPieces(pieces: seq<string>)
    requires forall i | 0 <= i < |pieces| :: IsBlank(pieces[i])
    ensures forall i | 0 <= i < |TrimAll(pieces)| :: TrimAll(pieces)[i] == []
  {
    if pieces != [] {
      TrimBlankPieces(pieces[1..]);
      assert forall i | 1 <= i < |pieces| :: pieces[1..][i - 1] == pieces[i];
    }
  }

  lemma {:induction false} NoSkillsLeft(pieces: seq<string>)
    requires forall i | 0 <= i < |pieces| :: pieces[i] == []
    ensures RemoveEmpty(pieces) == []
  {
    if pieces != [] {
      NoSkillsLeft(pieces[1..]);
    }
  }

  /** Joining clean skills with ", " and normalising gives the same skills back. */
  lemma NormalizeJoinRoundTrip(xs: seq<string>)
    requires forall i | 0 <= i < |xs| :: IsCleanSkill(xs[i])
    ensures Normalize(SkillsText(Join(xs, ", "))) == xs
  {
    if xs != [] {
      assert Join(xs, ", ") != [] by {
        if |xs| > 1 {
          assert |Join(xs, ", ")| >= |xs[0]|;
        }
      }
      SplitTrimJoinRoundTrip(xs);
      RemoveEmptyNoop(xs);
    }
  }

  /** Normalisation is stable: normalising the ", "-join of a normalised list returns
      that list. */
  lemma NormalizeStable(text: string)
    ensures Normalize(SkillsText(Join(Normalize(SkillsText(text)), ", ")))
         == Normalize(SkillsText(text))
  {
    NormalizeJoinRoundTrip(Normalize(SkillsText(text)));
  }
}
