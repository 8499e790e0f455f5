/** The JavaScript string primitives the components rely on, over `seq<char>`:
    `trim`, `split` on one character, `join`, ASCII `toUpperCase`, and the decimal
    rendering of an integer. */
module Strings {

  /** ECMAScript white space and line terminators: exactly the characters that
      `String.prototype.trim` removes and that the regular-expression class `\s` matches. */
  predicate IsSpace(c: char) {
    || c == '\t' || c == '\n' || c == '\U{000B}' || c == '\U{000C}' || c == '\r' || c == ' '
    || c == '\U{00A0}' || c == '\U{1680}' || ('\U{2000}' <= c <= '\U{200A}')
    || c == '\U{2028}' || c == '\U{2029}' || c == '\U{202F}' || c == '\U{205F}'
    || c == '\U{3000}' || c == '\U{FEFF}'
  }

  /** Every character of `s` matches the regular-expression class `\S`. */
  predicate NoSpace(s: string) {
    forall i | 0 <= i < |s| :: !IsSpace(s[i])
  }

  /** `s` is made only of white space (the empty string qualifies): what `trim` empties. */
  predicate IsBlank(s: string) {
    forall i | 0 <= i < |s| :: IsSpace(s[i])
  }

  /** `s` neither starts nor ends with white space (the empty string qualifies). */
  predicate IsTrimmed(s: string) {
    s == [] || (!IsSpace(s[0]) && !IsSpace(s[|s| - 1]))
  }

  /** `String.prototype.trimStart`: drops the longest all-white-space prefix. */
  function TrimStart(s: string): (r: string)
    ensures |r| <= |s| && r == s[|s| - |r|..]
    ensures r == [] || !IsSpace(r[0])
    ensures forall i | 0 <= i < |s| - |r| :: IsSpace(s[i])
  {
    if |s| > 0 && IsSpace(s[0]) then TrimStart(s[1..]) else s
  }

  /** `String.prototype.trimEnd`: drops the longest all-white-space suffix. */
  function TrimEnd(s: string): (r: string)
    ensures |r| <= |s| && r == s[..|r|]
    ensures r == [] || !IsSpace(r[|r| - 1])
    ensures forall i | |r| <= i < |s| :: IsSpace(s[i])
  {
    if |s| > 0 && IsSpace(s[|s| - 1]) then TrimEnd(s[..|s| - 1]) else s
  }

  /** What `trimStart` drops is white space. */
  lemma LeadingBlanks(s: string)
    ensures IsBlank(s[..|s| - |TrimStart(s)|])
  {
    var head := s[..|s| - |TrimStart(s)|];
    forall i | 0 <= i < |head| ensures IsSpace(head[i]) {
      assert head[i] == s[i];
    }
  }

  /** What `trimEnd` drops is white space. */
  lemma TrailingBlanks(t: string)
    ensures IsBlank(t[|TrimEnd(t)|..])
  {
    var tail := t[|TrimEnd(t)|..];
    forall i | 0 <= i < |tail| ensures IsSpace(tail[i]) {
      assert tail[i] == t[|TrimEnd(t)| + i];
    }
  }

  /** `r` is an infix of `s` with only white space before and after it. */
  predicate IsInfixBetweenBlanks(r: string, s: string) {
    exists k | 0 <= k && k + |r| <= |s| :: r == s[k..k + |r|] && IsBlank(s[..k]) && IsBlank(s[k + |r|..])
  }

  /** `String.prototype.trim`. */
  function Trim(s: string): (r: string)
    ensures IsTrimmed(r)
    ensures r == [] <==> IsBlank(s)
    ensures IsTrimmed(s) ==> r == s
  {
    var t := TrimStart(s);
    var r := TrimEnd(t);
    EmptyTrimIsBlank(s);
    assert r == [] || r[0] == t[0];
    r
  }

  /** Trimming both ends leaves nothing exactly when the string is all white space. */
  lemma EmptyTrimIsBlank(s: string)
    ensures TrimEnd(TrimStart(s)) == [] <==> IsBlank(s)
  {
    var t := TrimStart(s);
    var k := |s| - |t|;
    assert t == s[k..];
    if TrimEnd(t) == [] {
      forall i | 0 <= i < |s| ensures IsSpace(s[i]) {
        if i >= k {
          assert s[i] == t[i - k];
        }
      }
    }
    if t != [] {
      assert s[k] == t[0];
    }
  }

  /** What `trim` keeps: the infix of `s` left after removing the white space at both
      ends. With `IsTrimmed` this determines the result (see `TrimUnique`). */
  lemma TrimIsInfix(s: string)
    ensures IsInfixBetweenBlanks(Trim(s), s)
  {
    TrimAt(s);
    var k := |s| - |TrimStart(s)|;
    assert BetweenBlanksAt(Trim(s), s, k);
  }

  /** `r` sits at offset `k` of `s` with only white space before and after it. */
  predicate BetweenBlanksAt(r: string, s: string, k: nat) {
    k + |r| <= |s| && r == s[k..k + |r|] && IsBlank(s[..k]) && IsBlank(s[k + |r|..])
  }

  /** `trim` keeps the text starting where `trimStart` starts. */
  lemma TrimAt(s: string)
    ensures BetweenBlanksAt(Trim(s), s, |s| - |TrimStart(s)|)
  {
    var t := TrimStart(s);
    var r := TrimEnd(t);
    var k := |s| - |t|;
    assert Trim(s) == r;
    LeadingBlanks(s);
    TrailingBlanks(t);
    assert t == s[k..];
    assert r == t[..|r|];
    var head, tail := s[..k], t[|r|..];
    assert IsBlank(head) && IsBlank(tail);
    assert r == s[k..k + |r|] by {
      assert s[k..][..|r|] == s[k..k + |r|];
    }
    assert tail == s[k + |r|..] by {
      assert s[k..][|r|..] == s[k + |r|..];
    }
    assert BetweenBlanksAt(r, s, k);
  }

  /** `trim` is the only trimmed infix of `s` with nothing but white space around it. */
  lemma TrimUnique(s: string, r: string)
    requires IsTrimmed(r) && IsInfixBetweenBlanks(r, s)
    ensures r == Trim(s)
  {
    var k :| 0 <= k && k + |r| <= |s| && r == s[k..k + |r|] && IsBlank(s[..k]) && IsBlank(s[k + |r|..]);
    TrimUniqueFrom(s, r, k);
  }

  /** `TrimUnique` with the offset of the infix given. */
  lemma TrimUniqueFrom(s: string, r: string, k: nat)
    requires IsTrimmed(r) && BetweenBlanksAt(r, s, k)
    ensures r == Trim(s)
  {
    TrimAt(s);
    TrimUniqueAt(s, r, k, Trim(s), |s| - |TrimStart(s)|);
  }

  lemma TrimUniqueAt(s: string, r: string, k: nat, q: string, j: nat)
    requires IsTrimmed(r) && BetweenBlanksAt(r, s, k)
    requires IsTrimmed(q) && BetweenBlanksAt(q, s, j)
    requires q == [] <==> IsBlank(s)
    ensures r == q
  {
    if r == [] {
      BlankAround(s, k);
    } else {
      assert s[k] == r[0];
      assert q != [];
      assert s[j] == q[0];
      SameStart(s, k, j);
      assert s[k + |r| - 1] == r[|r| - 1] && s[j + |q| - 1] == q[|q| - 1];
      SameEnd(s, k + |r|, j + |q|);
    }
  }

  /** Blank text on both sides of an empty infix makes the whole string blank. */
  lemma BlankAround(s: string, k: nat)
    requires k <= |s| && IsBlank(s[..k]) && IsBlank(s[k..])
    ensures IsBlank(s)
  {
    forall i | 0 <= i < |s| ensures IsSpace(s[i]) {
      if i < k {
        assert s[i] == s[..k][i];
      } else {
        assert s[i] == s[k..][i - k];
      }
    }
  }

  /** Two positions each preceded only by white space and each holding a non-space
      character are the same position. */
  lemma SameStart(s: string, k: nat, j: nat)
    requires k < |s| && j < |s|
    requires IsBlank(s[..k]) && IsBlank(s[..j])
    requires !IsSpace(s[k]) && !IsSpace(s[j])
    ensures k == j
  {
    assert forall i | 0 <= i < k :: s[..k][i] == s[i];
    assert forall i | 0 <= i < j :: s[..j][i] == s[i];
  }

  /** Two end positions each followed only by white space and each just after a
      non-space character are the same position. */
  lemma SameEnd(s: string, e: nat, f: nat)
    requires 0 < e <= |s| && 0 < f <= |s|
    requires IsBlank(s[e..]) && IsBlank(s[f..])
    requires !IsSpace(s[e - 1]) && !IsSpace(s[f - 1])
    ensures e == f
  {
    assert forall i | e <= i < |s| :: s[e..][i - e] == s[i];
    assert forall i | f <= i < |s| :: s[f..][i - f] == s[i];
  }

  /** Trimming keeps only characters of the original. */
  lemma TrimKeepsAbsent(s: string, c: char)
    requires c !in s
    ensures c !in Trim(s)
  {
    var t := TrimStart(s);
    var r := Trim(s);
    forall i | 0 <= i < |r| ensures r[i] != c {
      assert r[i] == t[i] == s[|s| - |t| + i];
    }
  }

  /** A leading white-space character never survives trimming. */
  lemma TrimSpacePrefix(c: char, s: string)
    requires IsSpace(c)
    ensures Trim([c] + s) == Trim(s)
  {
    assert ([c] + s)[1..] == s;
  }

  /** A trailing white-space character never survives trimming. */
  lemma TrimSpaceSuffix(s: string, c: char)
    requires IsSpace(c)
    ensures Trim(s + [c]) == Trim(s)
  {
    TrimAt(s);
    var k := |s| - |TrimStart(s)|;
    BetweenBlanksSnoc(Trim(s), s, k, c);
    TrimUniqueFrom(s + [c], Trim(s), k);
  }

  /** White space appended after the trailing blanks keeps an infix between blanks. */
  lemma BetweenBlanksSnoc(r: string, s: string, k: nat, c: char)
    requires BetweenBlanksAt(r, s, k) && IsSpace(c)
    ensures BetweenBlanksAt(r, s + [c], k)
  {
    var tail := s[k + |r|..];
    assert (s + [c])[k + |r|..] == tail + [c];
    assert (s + [c])[..k] == s[..k];
    assert (s + [c])[k..k + |r|] == s[k..k + |r|];
    assert forall i | 0 <= i < |tail| :: (tail + [c])[i] == tail[i];
  }

  /** Trimming twice is trimming once. */
  lemma TrimIdempotent(s: string)
    ensures Trim(Trim(s)) == Trim(s)
  {
  }

  /** Number of occurrences of `c` in `s`. */
  function Count(s: string, c: char): nat
  {
    if s == [] then 0 else (if s[0] == c then 1 else 0) + Count(s[1..], c)
  }

  /** `s.split(sep)` for a one-character separator: the maximal separator-free pieces,
      in order, including empty ones; the empty string splits into one empty piece. */
  function Split(s: string, sep: char): (parts: seq<string>)
    ensures |parts| == Count(s, sep) + 1
    ensures forall i | 0 <= i < |parts| :: sep !in parts[i]
  {
    if s == [] then [[]]
    else
      var rest := Split(s[1..], sep);
      if s[0] == sep then [[]] + rest
      else [[s[0]] + rest[0]] + rest[1..]
  }

  /** `parts.join(sep)`. */
  function Join(parts: seq<string>, sep: string): string
  {
    if |parts| == 0 then []
    else if |parts| == 1 then parts[0]
    else parts[0] + sep + Join(parts[1..], sep)
  }

  /** A string without the separator is a single piece. */
  lemma {:induction false} SplitWithoutSeparator(s: string, sep: char)
    requires sep !in s
    ensures Split(s, sep) == [s]
  {
    if s != [] {
      assert sep !in s[1..] by {
        forall c | c in s[1..] ensures c in s { }
      }
      SplitWithoutSeparator(s[1..], sep);
      assert [s[0]] + s[1..] == s;
    }
  }

  /** Splitting distributes over a separator occurrence. */
  lemma {:induction false} SplitConcat(a: string, b: string, sep: char)
    ensures Split(a + [sep] + b, sep) == Split(a, sep) + Split(b, sep)
  {
    if a == [] {
      assert a + [sep] + b == [sep] + b;
      assert ([sep] + b)[1..] == b;
    } else {
      assert (a + [sep] + b)[1..] == a[1..] + [sep] + b;
      SplitConcat(a[1..], b, sep);
    }
  }

  /** A separator-free segment followed by the separator is split off as one piece. */
  lemma SplitSegment(w: string, rest: string, sep: char)
    requires sep !in w
    ensures Split(w + [sep] + rest, sep) == [w] + Split(rest, sep)
  {
    SplitWithoutSeparator(w, sep);
    SplitConcat(w, rest, sep);
  }

  /** Splitting a string that starts with a non-separator glues that character to the
      first piece. */
  lemma SplitCons(c: char, s: string, sep: char)
    requires c != sep
    ensures Split([c] + s, sep) == [[c] + Split(s, sep)[0]] + Split(s, sep)[1..]
  {
    assert ([c] + s)[1..] == s;
  }

  /** Appending a character other than the separator extends the last piece. */
  lemma {:induction false} SplitSnoc(s: string, c: char, sep: char)
    requires c != sep
    ensures var p := Split(s, sep);
            Split(s + [c], sep) == p[..|p| - 1] + [p[|p| - 1] + [c]]
  {
    if s == [] {
      assert s + [c] == [c] + [];
      SplitCons(c, [], sep);
    } else {
      assert s + [c] == [s[0]] + (s[1..] + [c]);
      assert s == [s[0]] + s[1..];
      SplitSnoc(s[1..], c, sep);
      if s[0] != sep {
        SplitCons(s[0], s[1..] + [c], sep);
        SplitCons(s[0], s[1..], sep);
        ExtendLast(s[0], Split(s[1..], sep), c);
      }
    }
  }

  /** The bookkeeping step of `SplitSnoc`: extending the last piece commutes with
      prefixing the first one. */
  lemma ExtendLast(x: char, q: seq<string>, c: char)
    requires |q| >= 1
    ensures var q' := q[..|q| - 1] + [q[|q| - 1] + [c]];
            var p := [[x] + q[0]] + q[1..];
            [[x] + q'[0]] + q'[1..] == p[..|p| - 1] + [p[|p| - 1] + [c]]
  {
    var last := q[|q| - 1] + [c];
    if |q| == 1 {
      assert q[..0] + [last] == [last];
      assert [x] + last == ([x] + q[0]) + [c];
    } else {
      var front := q[..|q| - 1];
      assert (front + [last])[1..] == front[1..] + [last];
      assert front[1..] == q[1..|q| - 1];
      var p := [[x] + q[0]] + q[1..];
      assert p[..|p| - 1] == [[x] + q[0]] + front[1..];
    }
  }

  /** Joining the pieces of a split with the separator gives back the string. */
  lemma {:induction false} JoinSplit(s: string, sep: char)
    ensures Join(Split(s, sep), [sep]) == s
  {
    if s != [] {
      JoinSplit(s[1..], sep);
      var rest := Split(s[1..], sep);
      if s[0] == sep {
        assert ([[]] + rest)[1..] == rest;
      } else {
        var parts := [[s[0]] + rest[0]] + rest[1..];
        if |rest| == 1 {
          assert Join(parts, [sep]) == [s[0]] + rest[0];
        } else {
          assert parts[1..] == rest[1..];
          assert Join(rest, [sep]) == rest[0] + [sep] + Join(rest[1..], [sep]);
        }
      }
    }
  }

  /** Splitting a join of separator-free pieces recovers the pieces. */
  lemma {:induction false} SplitJoin(parts: seq<string>, sep: char)
    requires |parts| >= 1
    requires forall i | 0 <= i < |parts| :: sep !in parts[i]
    ensures Split(Join(parts, [sep]), sep) == parts
  {
    if |parts| == 1 {
      SplitWithoutSeparator(parts[0], sep);
    } else {
      SplitJoin(parts[1..], sep);
      SplitWithoutSeparator(parts[0], sep);
      SplitConcat(parts[0], Join(parts[1..], [sep]), sep);
      assert [parts[0]] + parts[1..] == parts;
    }
  }

  /** ASCII-only `toUpperCase` of one character. */
  function UpperChar(c: char): (u: char)
    ensures !('a' <= u <= 'z')
    ensures 'a' <= c <= 'z' ==> 'A' <= u <= 'Z' && u as int + 32 == c as int
    ensures !('a' <= c <= 'z') ==> u == c
  {
    if 'a' <= c <= 'z' then (c as int - 32) as char else c
  }

  /** ASCII-only `toUpperCase`, character by character. */
  function Upper(s: string): (r: string)
    ensures |r| == |s|
    ensures forall i | 0 <= i < |s| :: r[i] == UpperChar(s[i])
  {
    seq(|s|, i requires 0 <= i < |s| => UpperChar(s[i]))
  }

  /** Upper-casing distributes over concatenation. */
  lemma UpperConcat(a: string, b: string)
    ensures Upper(a + b) == Upper(a) + Upper(b)
  {
  }

  predicate IsDigits(s: string) {
    forall i | 0 <= i < |s| :: '0' <= s[i] <= '9'
  }

  function DigitChar(d: nat): (c: char)
    requires d < 10
    ensures '0' <= c <= '9' && c as int - '0' as int == d
  {
    ('0' as int + d) as char
  }

  /** The decimal digits of `n`, without leading zeros (JavaScript's `String(n)`). */
  function NatToDecimal(n: nat): (r: string)
    ensures r != [] && IsDigits(r)
    ensures n > 0 ==> r[0] != '0'
  {
    if n < 10 then [DigitChar(n)] else NatToDecimal(n / 10) + [DigitChar(n % 10)]
  }

  /** The value denoted by a string of decimal digits. */
  function DecimalValue(s: string): nat
    requires IsDigits(s)
  {
    if s == [] then 0 else 10 * DecimalValue(s[..|s| - 1]) + (s[|s| - 1] as int - '0' as int)
  }

  /** Reading back the decimal rendering of `n` yields `n`. */
  lemma {:induction false} DecimalRoundTrip(n: nat)
    ensures DecimalValue(NatToDecimal(n)) == n
  {
    if n >= 10 {
      var p := NatToDecimal(n / 10);
      var r := p + [DigitChar(n % 10)];
      assert r[..|r| - 1] == p;
      DecimalRoundTrip(n / 10);
    }
  }

  /** `String(n)` for an integer `n`. */
  function IntToDecimal(n: int): (r: string)
    ensures r != []
    ensures n >= 0 ==> IsDigits(r) && DecimalValue(r) == n
    ensures n < 0 ==> r[0] == '-' && IsDigits(r[1..]) && DecimalValue(r[1..]) == -n
  {
    DecimalRoundTrip(if n < 0 then -n else n);
    if n < 0 then "-" + NatToDecimal(-n) else NatToDecimal(n)
  }

  /** Distinct integers have distinct renderings. */
  lemma IntToDecimalInjective(m: int, n: int)
    requires IntToDecimal(m) == IntToDecimal(n)
    ensures m == n
  {
  }
}
