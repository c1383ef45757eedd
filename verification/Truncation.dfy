/** Shortening a text in the middle: a marker that prints how much is left out, and whose own length
    depends on that number. Texts are sequences of UTF-16 code units. */
module Truncation {
  import opened Wrappers

  type Unit = u: int | 0 <= u < 0x10000 witness 0

  type Text = seq<Unit>

  datatype Failure = RangeError

  predicate IsHigh(u: Unit) { 0xd800 <= u <= 0xdbff }

  predicate IsLow(u: Unit) { 0xdc00 <= u <= 0xdfff }

  /** Every high surrogate is followed by a low one, and every low one follows a high one. */
  ghost predicate WellFormed(text: Text) {
    forall i :: 0 <= i < |text| ==> PairedAt(text, i)
  }

  predicate PairedAt(text: Text, i: nat)
    requires i < |text|
  {
    (IsHigh(text[i]) ==> i + 1 < |text| && IsLow(text[i + 1])) && (IsLow(text[i]) ==> i > 0 && IsHigh(text[i - 1]))
  }

  // ---------------------------------------------------------------- markers

  function Units(s: string): (text: Text)
    ensures |text| == |s|
  {
    seq(|s|, i requires 0 <= i < |s| => if s[i] as int < 0x80 then s[i] as int else 0x3f)
  }

  const OPENING: Text := [10, 0x2026] + Units("[")
  const CLOSING: Text := Units(" omitted from middle; head and tail preserved]") + [0x2026, 10]
  const FIRST_MARKER: Text := OPENING + Units("content") + CLOSING

  function Decimal(n: nat): (digits: Text)
    ensures |digits| == Digits(n)
    ensures forall i :: 0 <= i < |digits| ==> 48 <= digits[i] <= 57
  {
    if n < 10 then [48 + n] else Decimal(n / 10) + [48 + n % 10]
  }

  function Digits(n: nat): nat { if n < 10 then 1 else 1 + Digits(n / 10) }

  function Marker(omitted: nat): Text { OPENING + Decimal(omitted) + Units(" chars") + CLOSING }

  lemma MarkerLength(omitted: nat)
    ensures |Marker(omitted)| == |FIRST_MARKER| - 1 + Digits(omitted)
  {}

  // ---------------------------------------------------------------- cutting

  function SafePrefix(text: Text, maxChars: int): (prefix: Text)
    ensures |prefix| <= |text| && (maxChars >= 0 ==> |prefix| <= maxChars) && prefix <= text
  {
    var most := if maxChars < 0 then 0 else maxChars;
    var end := if |text| < most then |text| else most;
    if end > 0 && IsHigh(text[end - 1]) then text[..end - 1] else text[..end]
  }

  function SafeSuffix(text: Text, maxChars: int): (suffix: Text)
    ensures |suffix| <= |text| && (maxChars >= 0 ==> |suffix| <= maxChars) && suffix == text[|text| - |suffix|..]
  {
    var most := if maxChars < 0 then 0 else maxChars;
    var start := if |text| < most then 0 else |text| - most;
    if start < |text| && IsLow(text[start]) then text[start + 1..] else text[start..]
  }

  /** Three fifths, rounded up; the doubles the program computes with round to the same whole number. */
  function HeadShare(retained: int): int { -((-3 * retained) / 5) }

  /** The text around the marker for `omitted`, as far as that fits. */
  function Packed(text: Text, maxChars: nat, omitted: nat): Text {
    var marker := Marker(omitted);
    var retained := if maxChars < |marker| then 0 else maxChars - |marker|;
    var packed := SafePrefix(text, HeadShare(retained)) + marker + SafeSuffix(text, retained - HeadShare(retained));
    if |packed| <= maxChars then packed else SafePrefix(packed, maxChars)
  }

  /** The count is exact: what the text loses if head, marker and tail fill the limit. */
  predicate Exact(text: Text, maxChars: nat, omitted: nat) {
    omitted == |text| - maxChars + |Marker(omitted)|
  }

  /** There can be two such counts, 99 and 100 for example; the program finds the smaller one. */
  ghost predicate LeastExact(text: Text, maxChars: nat, omitted: nat) {
    Exact(text, maxChars, omitted) && forall m: nat :: m < omitted ==> !Exact(text, maxChars, m)
  }

  ghost predicate Truncated(text: Text, maxChars: int, out: Result<Text, Failure>) {
    if maxChars < 0 then out == Err(RangeError)
    else if |text| <= maxChars then out == Ok(text)
    else if |FIRST_MARKER| >= maxChars then out == Ok(SafePrefix(text, maxChars))
    else out.Ok? &&
         exists omitted: nat :: LeastExact(text, maxChars, omitted) && out.value == Packed(text, maxChars, omitted)
  }

  // ---------------------------------------------------------------- three passes are enough

  function Pow10(d: nat): nat { if d == 0 then 1 else 10 * Pow10(d - 1) }

  lemma {:induction false} DigitsBound(n: nat)
    requires n > 0
    ensures Pow10(Digits(n) - 1) <= n < Pow10(Digits(n))
  {
    if n >= 10 {
      DigitsBound(n / 10);
    } else {
      assert Pow10(0) == 1 && Pow10(1) == 10;
    }
  }

  lemma {:induction false} Pow10Grows(a: nat, b: nat)
    requires a < b
    ensures 10 * Pow10(a) <= Pow10(b) && Pow10(a) > a
    decreases b
  {
    if a + 1 < b {
      Pow10Grows(a, b - 1);
    } else if a > 0 {
      Pow10Grows(a - 1, a);
    }
  }

  lemma DigitsAre(n: nat, d: nat)
    requires d > 0 && n > 0 && Pow10(d - 1) <= n < Pow10(d)
    ensures Digits(n) == d
  {
    DigitsBound(n);
    if Digits(n) < d {
      if Digits(n) < d - 1 {
        Pow10Grows(Digits(n), d - 1);
      }
    } else if Digits(n) > d {
      if d < Digits(n) - 1 {
        Pow10Grows(d, Digits(n) - 1);
      }
    }
  }

  /** Adding the number of digits again and again settles after the second time. */
  lemma DigitsSettle(n: nat)
    requires n > 0
    ensures var first := Digits(n + 1); var second := Digits(n + first); Digits(n + second) == second
  {
    var d := Digits(n + 1);
    DigitsBound(n + 1);
    Pow10Grows(d, d + 1);
    hide Digits, Pow10;
    if n + d < Pow10(d) {
      DigitsAre(n + d, d);
    } else {
      DigitsAre(n + d, d + 1);
      DigitsAre(n + d + 1, d + 1);
    }
  }

  lemma {:induction false} DigitsGrow(a: nat, b: nat)
    requires a <= b
    ensures Digits(a) <= Digits(b)
    decreases b
  {
    if a >= 10 {
      DigitsGrow(a / 10, b / 10);
    }
  }

  /** What is found by adding the number of digits again and again is the least exact count. */
  lemma SettlesAtLeast(text: Text, maxChars: nat, surplus: nat, omitted: nat)
    requires |text| > maxChars && surplus == |text| - maxChars + |FIRST_MARKER| - 1
    requires omitted == surplus + Digits(surplus + Digits(surplus + 1))
    ensures LeastExact(text, maxChars, omitted)
  {
    MarkerLength(omitted);
    DigitsSettle(surplus);
    hide Marker;
    forall m: nat | m < omitted
      ensures !Exact(text, maxChars, m)
    {
      MarkerLength(m);
      if Exact(text, maxChars, m) {
        DigitsGrow(surplus + 1, m);
        DigitsGrow(surplus + Digits(surplus + 1), m);
      }
    }
  }

  method Truncate(text: Text, maxChars: int) returns (out: Result<Text, Failure>)
    ensures Truncated(text, maxChars, out)
  {
    hide Marker, Digits, SafePrefix, SafeSuffix, HeadShare;
    if maxChars < 0 { return Err(RangeError); }
    MarkerLength(0);
    if maxChars == 0 {
      NothingFits(text);
      return Ok([]);
    }
    if |text| <= maxChars { return Ok(text); }
    var marker := FIRST_MARKER;
    if |marker| >= maxChars { return Ok(SafePrefix(text, maxChars)); }
    ghost var surplus: nat := |text| - maxChars + |FIRST_MARKER| - 1;
    ghost var digits: nat := 1;
    DigitsSettle(surplus);
    var omitted: nat := 0;
    for pass := 0 to 3
      invariant |marker| == |FIRST_MARKER| - 1 + digits
      invariant pass == 0 ==> digits == 1
      invariant pass > 0 ==> marker == Marker(omitted)
      invariant pass == 1 ==> digits == Digits(surplus + 1)
      invariant pass == 2 ==> digits == Digits(surplus + Digits(surplus + 1))
      invariant pass == 3 ==> digits == Digits(surplus + Digits(surplus + 1)) && omitted == surplus + digits
    {
      var retained := maxChars - |marker|;
      var headChars := HeadShare(retained);
      var tailChars := retained - headChars;
      omitted := |text| - headChars - tailChars;
      marker := Marker(omitted);
      MarkerLength(omitted);
      digits := Digits(omitted);
    }
    SettlesAtLeast(text, maxChars, surplus, omitted);
    var retained := if maxChars < |marker| then 0 else maxChars - |marker|;
    var headChars := HeadShare(retained);
    var tailChars := retained - headChars;
    var packed := SafePrefix(text, headChars) + marker + SafeSuffix(text, tailChars);
    out := Ok(if |packed| <= maxChars then packed else SafePrefix(packed, maxChars));
    assert out.value == Packed(text, maxChars, omitted);
  }

  lemma NothingFits(text: Text)
    ensures |FIRST_MARKER| > 0 && SafePrefix(text, 0) == []
  {}

  // ---------------------------------------------------------------- what the result promises

  /** Never longer than asked for. */
  lemma FitsTheLimit(text: Text, maxChars: int, out: Result<Text, Failure>)
    requires Truncated(text, maxChars, out) && maxChars >= 0
    ensures out.Ok? && |out.value| <= maxChars
  {}

  lemma PrefixIsWellFormed(text: Text, maxChars: int)
    requires WellFormed(text)
    ensures WellFormed(SafePrefix(text, maxChars))
  {
    var prefix := SafePrefix(text, maxChars);
    forall i | 0 <= i < |prefix|
      ensures PairedAt(prefix, i)
    {
      assert PairedAt(text, i) && prefix[i] == text[i];
    }
  }

  lemma SuffixIsWellFormed(text: Text, maxChars: int)
    requires WellFormed(text)
    ensures WellFormed(SafeSuffix(text, maxChars))
  {
    var suffix := SafeSuffix(text, maxChars);
    var start := |text| - |suffix|;
    forall i | 0 <= i < |suffix|
      ensures PairedAt(suffix, i)
    {
      assert PairedAt(text, start + i) && suffix[i] == text[start + i];
    }
  }

  lemma ConcatIsWellFormed(a: Text, b: Text)
    requires WellFormed(a) && WellFormed(b)
    ensures WellFormed(a + b)
  {
    forall i | 0 <= i < |a + b|
      ensures PairedAt(a + b, i)
    {
      if i < |a| {
        assert PairedAt(a, i);
      } else {
        assert PairedAt(b, i - |a|);
      }
    }
  }

  lemma MarkerIsWellFormed(omitted: nat)
    ensures WellFormed(Marker(omitted))
  {
    var marker := Marker(omitted);
    forall i | 0 <= i < |marker|
      ensures !IsHigh(marker[i]) && !IsLow(marker[i])
    {
    }
  }

  /** Well-formed text stays well-formed: no surrogate pair is split. */
  lemma StaysWellFormed(text: Text, maxChars: int, out: Result<Text, Failure>)
    requires Truncated(text, maxChars, out) && out.Ok? && WellFormed(text)
    ensures WellFormed(out.value)
  {
    PrefixIsWellFormed(text, maxChars);
    if |text| > maxChars && |FIRST_MARKER| < maxChars {
      var omitted: nat :| Exact(text, maxChars, omitted) && out.value == Packed(text, maxChars, omitted);
      PackedIsWellFormed(text, maxChars, omitted);
    }
  }

  lemma PackedIsWellFormed(text: Text, maxChars: nat, omitted: nat)
    requires WellFormed(text)
    ensures WellFormed(Packed(text, maxChars, omitted))
  {
    hide WellFormed, SafePrefix, SafeSuffix, Marker, HeadShare;
    var marker := Marker(omitted);
    var retained := if maxChars < |marker| then 0 else maxChars - |marker|;
    var head, tail := SafePrefix(text, HeadShare(retained)), SafeSuffix(text, retained - HeadShare(retained));
    PrefixIsWellFormed(text, HeadShare(retained));
    SuffixIsWellFormed(text, retained - HeadShare(retained));
    MarkerIsWellFormed(omitted);
    ConcatIsWellFormed(head, marker);
    ConcatIsWellFormed(head + marker, tail);
    PrefixIsWellFormed(head + marker + tail, maxChars);
  }

  /** What the two cuts are to retain beside the marker. */
  function HeadChars(maxChars: nat, omitted: nat): nat
    requires |Marker(omitted)| <= maxChars
  {
    SharesAreParts(maxChars - |Marker(omitted)|);
    HeadShare(maxChars - |Marker(omitted)|)
  }

  function TailChars(maxChars: nat, omitted: nat): nat
    requires |Marker(omitted)| <= maxChars
  {
    SharesAreParts(maxChars - |Marker(omitted)|);
    maxChars - |Marker(omitted)| - HeadChars(maxChars, omitted)
  }

  /** The guard under which cutting off a prefix, or a suffix, drops one unit more. */
  predicate SplitsHead(text: Text, maxChars: nat) { 0 < maxChars <= |text| && IsHigh(text[maxChars - 1]) }

  predicate SplitsTail(text: Text, maxChars: nat) { 0 < maxChars <= |text| && IsLow(text[|text| - maxChars]) }

  function One(b: bool): nat { if b then 1 else 0 }

  /** When the marker fits, the result is the two cuts around it, and the text loses what the marker says and
      one unit more for each cut that would split a surrogate pair: the number is right iff neither does. */
  lemma CountIsRight(text: Text, maxChars: nat, omitted: nat)
    requires |text| > maxChars && Exact(text, maxChars, omitted) && |Marker(omitted)| <= maxChars
    ensures var h, t := HeadChars(maxChars, omitted), TailChars(maxChars, omitted);
            var head, tail := SafePrefix(text, h), SafeSuffix(text, t);
            Packed(text, maxChars, omitted) == head + Marker(omitted) + tail &&
            |head| + |tail| <= |text| &&
            |text| - |head| - |tail| == omitted + One(SplitsHead(text, h)) + One(SplitsTail(text, t)) &&
            (|text| - |head| - |tail| == omitted <==> !SplitsHead(text, h) && !SplitsTail(text, t))
  {
    var h, t := HeadChars(maxChars, omitted), TailChars(maxChars, omitted);
    assert h + t == maxChars - |Marker(omitted)|;
    hide Marker, HeadShare, SafePrefix, SafeSuffix;
    CutsLose(text, h);
    CutsLose(text, t);
    assert |SafePrefix(text, h) + Marker(omitted) + SafeSuffix(text, t)| <= maxChars;
  }

  /** What the cuts leave, exactly. */
  lemma CutsLose(text: Text, maxChars: nat)
    requires maxChars <= |text|
    ensures SafePrefix(text, maxChars) == text[..maxChars - One(SplitsHead(text, maxChars))]
    ensures SafeSuffix(text, maxChars) == text[|text| - maxChars + One(SplitsTail(text, maxChars))..]
  {}

  /** A letter, 99 surrogate pairs, and a letter. */
  function PairsBetweenLetters(): (text: Text)
    ensures |text| == 200 && WellFormed(text)
  {
    var text := seq(200, i => if i == 0 || i == 199 then 0x41 else if i % 2 == 1 then 0xd83d else 0xde00);
    assert forall i :: 0 <= i < 200 ==> PairedAt(text, i);
    text
  }

  lemma MarkerOf160()
    ensures |Marker(160)| == 60 && |FIRST_MARKER| < 100
    ensures HeadChars(100, 160) == 24 && TailChars(100, 160) == 16
  {
    MarkerLength(160);
    assert |FIRST_MARKER| == 58 && Digits(160) == 3;
  }

  /** In this text the marker prints 160 where 162 units are lost: both cuts fall into a pair. */
  lemma CountCanBeShort()
    ensures var text := PairsBetweenLetters();
            Exact(text, 100, 160) && Truncated(text, 100, Ok(Packed(text, 100, 160))) && |Marker(160)| == 60 &&
            SplitsHead(text, HeadChars(100, 160)) && SplitsTail(text, TailChars(100, 160)) &&
            |text| - |SafePrefix(text, HeadChars(100, 160))| - |SafeSuffix(text, TailChars(100, 160))| == 162
  {
    hide Marker, HeadShare, SafePrefix, SafeSuffix, HeadChars, TailChars, Packed, WellFormed;
    MarkerOf160();
    var text := PairsBetweenLetters();
    assert text[23] == 0xd83d && text[184] == 0xde00;
    MarkerLength(160);
    SettlesAtLeast(text, 100, 157, 160);
    CountIsRight(text, 100, 160);
  }

  lemma SharesAreParts(retained: nat)
    ensures 0 <= HeadShare(retained) <= retained
  {}

  // ---------------------------------------------------------------- what the marker says

  /** The number that decimal digits stand for. */
  function NumberOf(digits: Text): int {
    if digits == [] then 0
    else
      var last: int := digits[|digits| - 1];
      10 * NumberOf(digits[..|digits| - 1]) + (last - 48)
  }

  lemma {:induction false} DecimalSays(n: nat)
    ensures NumberOf(Decimal(n)) == n
    ensures n > 0 ==> Decimal(n)[0] != 48
    decreases n
  {
    if n >= 10 {
      DecimalSays(n / 10);
      assert Decimal(n)[..|Decimal(n)| - 1] == Decimal(n / 10);
    } else {
      assert Decimal(n)[..0] == [];
    }
  }

  /** The number in the marker reads as what is omitted. */
  lemma MarkerSays(omitted: nat)
    ensures Marker(omitted) ==
              [10, 0x2026] + Units("[") + Decimal(omitted) + Units(" chars") +
              Units(" omitted from middle; head and tail preserved]") + [0x2026, 10]
    ensures NumberOf(Decimal(omitted)) == omitted && |Marker(omitted)| == 57 + |Decimal(omitted)|
  {
    DecimalSays(omitted);
    MarkerLength(omitted);
    var end := Units(" omitted from middle; head and tail preserved]");
    assert OPENING + Decimal(omitted) + Units(" chars") + (end + [0x2026, 10]) ==
      OPENING + Decimal(omitted) + Units(" chars") + end + [0x2026, 10];
  }

  /** The head gets three fifths of the room, rounded up, and the tail the rest. */
  lemma SharesAre(maxChars: nat, omitted: nat)
    requires |Marker(omitted)| <= maxChars
    ensures var room, head := maxChars - |Marker(omitted)|, HeadChars(maxChars, omitted);
            3 * room <= 5 * head < 3 * room + 5 && head + TailChars(maxChars, omitted) == room
  {
    hide Marker;
  }

  /** The result is determined by the text and the limit; it is the text itself if that fits, and only a beginning of
      it up to a limit of 58, the length of the first marker. */
  lemma TruncatedIsOne(text: Text, maxChars: int, out: Result<Text, Failure>, other: Result<Text, Failure>)
    requires Truncated(text, maxChars, out) && Truncated(text, maxChars, other)
    ensures out == other && (out.Err? <==> maxChars < 0)
    ensures maxChars >= 0 ==> (|text| <= maxChars <==> out == Ok(text))
    ensures 0 <= maxChars <= 58 && maxChars < |text| ==> out == Ok(SafePrefix(text, maxChars))
  {
    if maxChars >= 0 {
      FitsTheLimit(text, maxChars, out);
    }
    assert |FIRST_MARKER| == 58;
    hide SafePrefix, Packed, Marker;
    if out.Ok? && |text| > maxChars > |FIRST_MARKER| {
      var m: nat :| LeastExact(text, maxChars, m) && out.value == Packed(text, maxChars, m);
      var n: nat :| LeastExact(text, maxChars, n) && other.value == Packed(text, maxChars, n);
      assert m == n;
    }
  }
}
