/**
 UTF-8 validation and source positions. The reference is the encoding of section 3 of RFC 3629: a text
 is well formed when it is the encoding of some code points.
 */
module Utf8 {
  import opened Bytes

  /** A code point that has an encoding: surrogates have none. */
  type Scalar = c: int | 0 <= c <= 0x10FFFF && !(0xD800 <= c <= 0xDFFF)

  const BYTE_ORDER_MARK: Scalar := 0xFEFF

  function Encode(c: Scalar): (bytes: seq<byte>)
    ensures 1 <= |bytes| <= 4
  {
    if c < 0x80 then [c]
    else if c < 0x800 then [0xC0 + c / 64, 0x80 + c % 64]
    else if c < 0x1_0000 then [0xE0 + c / 4096, 0x80 + c / 64 % 64, 0x80 + c % 64]
    else [0xF0 + c / 262144, 0x80 + c / 4096 % 64, 0x80 + c / 64 % 64, 0x80 + c % 64]
  }

  function EncodeAll(cs: seq<Scalar>): seq<byte> {
    if cs == [] then [] else Encode(cs[0]) + EncodeAll(cs[1..])
  }

  ghost predicate WellFormed(text: seq<byte>) {
    exists cs: seq<Scalar> :: EncodeAll(cs) == text
  }

  predicate IsContinuation(b: byte) {
    0x80 <= b <= 0xBF
  }

  predicate SecondOfThree(first: byte, second: byte) {
    if first == 0xE0 then 0xA0 <= second <= 0xBF
    else if first == 0xED then 0x80 <= second <= 0x9F
    else IsContinuation(second)
  }

  predicate SecondOfFour(first: byte, second: byte) {
    if first == 0xF0 then 0x90 <= second <= 0xBF
    else if first == 0xF4 then 0x80 <= second <= 0x8F
    else IsContinuation(second)
  }

  /** The first code point of a text, by the byte ranges of section 4 of RFC 3629. */
  function First(t: seq<byte>): Option<Scalar> {
    if |t| == 0 then None
    else if t[0] <= 0x7F then Some(t[0])
    else if 0xC2 <= t[0] <= 0xDF then
      if |t| < 2 || !IsContinuation(t[1]) then None
      else Some((t[0] as int - 0xC0) * 64 + (t[1] as int - 0x80))
    else if 0xE0 <= t[0] <= 0xEF then
      if |t| < 3 || !SecondOfThree(t[0], t[1]) || !IsContinuation(t[2]) then None
      else Some((t[0] as int - 0xE0) * 4096 + (t[1] as int - 0x80) * 64 + (t[2] as int - 0x80))
    else if 0xF0 <= t[0] <= 0xF4 then
      if |t| < 4 || !SecondOfFour(t[0], t[1]) || !IsContinuation(t[2]) || !IsContinuation(t[3]) then None
      else Some((t[0] as int - 0xF0) * 262144 + (t[1] as int - 0x80) * 4096
                + (t[2] as int - 0x80) * 64 + (t[3] as int - 0x80))
    else None
  }

  lemma ThreeBytes(c: Scalar)
    requires 0x800 <= c < 0x1_0000
    ensures c == c / 4096 * 4096 + c / 64 % 64 * 64 + c % 64
    ensures SecondOfThree(0xE0 + c / 4096, 0x80 + c / 64 % 64)
  {
    HigherDigits(c);
  }

  lemma FourBytes(c: Scalar)
    requires c >= 0x1_0000
    ensures c == c / 262144 * 262144 + c / 4096 % 64 * 4096 + c / 64 % 64 * 64 + c % 64
    ensures c / 262144 <= 4 && SecondOfFour(0xF0 + c / 262144, 0x80 + c / 4096 % 64)
  {
    HigherDigits(c);
  }

  /** Every code point is read back from its encoding, whatever follows. */
  lemma FirstOfEncoding(c: Scalar, rest: seq<byte>)
    ensures First(Encode(c) + rest) == Some(c)
  {
    hide SecondOfThree, SecondOfFour;
    if c >= 0x1_0000 {
      FourBytes(c);
    } else if c >= 0x800 {
      ThreeBytes(c);
    }
  }

  /** Whatever is read is there in its one encoding: no overlong form and no surrogate gets through. */
  lemma EncodingOfFirst(t: seq<byte>)
    requires First(t).Some?
    ensures var bytes := Encode(First(t).value); |bytes| <= |t| && t[..|bytes|] == bytes
  {
    hide First;
    FirstDigits(t);
  }

  lemma LastDigit(c: nat, rest: nat, digit: nat)
    requires c == rest * 64 + digit && digit < 64
    ensures c / 64 == rest && c % 64 == digit
  {
  }

  lemma HigherDigits(c: nat)
    ensures c / 4096 == c / 64 / 64 && c / 262144 == c / 64 / 64 / 64
  {
  }

  ghost predicate DigitsOf(c: Scalar, t: seq<byte>) {
    if c < 0x80 then |t| >= 1 && c == t[0]
    else if c < 0x800 then |t| >= 2 && c / 64 == t[0] as int - 0xC0 && c % 64 == t[1] as int - 0x80
    else if c < 0x1_0000 then
      && |t| >= 3 && c / 4096 == t[0] as int - 0xE0 && c / 64 % 64 == t[1] as int - 0x80
      && c % 64 == t[2] as int - 0x80
    else
      && |t| >= 4 && c / 262144 == t[0] as int - 0xF0 && c / 4096 % 64 == t[1] as int - 0x80
      && c / 64 % 64 == t[2] as int - 0x80 && c % 64 == t[3] as int - 0x80
  }

  /** The bytes of a code point are the digits of its value, with the marker bits of its length. */
  lemma FirstDigits(t: seq<byte>)
    requires First(t).Some?
    ensures DigitsOf(First(t).value, t)
  {
    var c := First(t).value;
    HigherDigits(c);
    if t[0] <= 0x7F {
    } else if t[0] <= 0xDF {
      LastDigit(c, t[0] as int - 0xC0, t[1] as int - 0x80);
    } else if t[0] <= 0xEF {
      var high := (t[0] as int - 0xE0) * 64 + (t[1] as int - 0x80);
      LastDigit(c, high, t[2] as int - 0x80);
      LastDigit(high, t[0] as int - 0xE0, t[1] as int - 0x80);
    } else {
      FirstOfFour(t, c);
    }
  }

  lemma FirstOfFour(t: seq<byte>, c: Scalar)
    requires First(t) == Some(c) && t[0] > 0xEF
    ensures DigitsOf(c, t)
  {
    var top := t[0] as int - 0xF0;
    var high := top * 64 + (t[1] as int - 0x80);
    var middle := high * 64 + (t[2] as int - 0x80);
    HigherDigits(c);
    LastDigit(c, middle, t[3] as int - 0x80);
    LastDigit(middle, high, t[2] as int - 0x80);
    LastDigit(high, top, t[1] as int - 0x80);
  }

  /** How far code points can be read one after the other. */
  function Scan(t: seq<byte>): (n: nat)
    ensures n <= |t|
    decreases |t|
  {
    if First(t).None? then 0
    else
      EncodingOfFirst(t);
      var step := |Encode(First(t).value)|;
      step + Scan(t[step..])
  }

  lemma {:induction false} ScanOfEncoding(cs: seq<Scalar>, rest: seq<byte>)
    ensures Scan(EncodeAll(cs) + rest) == |EncodeAll(cs)| + Scan(rest)
  {
    hide Encode, First;
    if cs != [] {
      var head, tail := Encode(cs[0]), EncodeAll(cs[1..]);
      ScanOfEncoding(cs[1..], rest);
      FirstOfEncoding(cs[0], tail + rest);
      assert EncodeAll(cs) + rest == head + (tail + rest);
      assert (head + (tail + rest))[|head|..] == tail + rest;
    } else {
      assert [] + rest == rest;
    }
  }

  lemma {:induction false} ScannedIsEncoded(t: seq<byte>) returns (cs: seq<Scalar>)
    ensures EncodeAll(cs) == t[..Scan(t)]
    decreases |t|
  {
    hide Encode, First;
    cs := [];
    if First(t).Some? {
      EncodingOfFirst(t);
      var step := |Encode(First(t).value)|;
      var rest := ScannedIsEncoded(t[step..]);
      cs := [First(t).value] + rest;
      assert t[..Scan(t)] == t[..step] + t[step..][..Scan(t[step..])];
    }
  }

  /** The scan ends where the longest well-formed prefix ends. */
  lemma ScanIsLongest(text: seq<byte>)
    ensures WellFormed(text[..Scan(text)])
    ensures forall j | Scan(text) < j <= |text| :: !WellFormed(text[..j])
    ensures WellFormed(text) <==> Scan(text) == |text|
  {
    hide EncodeAll, Scan;
    var cs := ScannedIsEncoded(text);
    forall j | 0 <= j <= |text| && WellFormed(text[..j]) ensures j <= Scan(text) {
      var ds: seq<Scalar> :| EncodeAll(ds) == text[..j];
      ScanOfEncoding(ds, text[j..]);
      Split(text, j);
    }
    assert text[..|text|] == text;
  }

  /** Nothing for a well-formed text, and otherwise the end of its longest well-formed prefix. */
  method InvalidUtf8Offset(text: seq<byte>) returns (offset: Option<nat>)
    ensures offset.None? <==> WellFormed(text)
    ensures offset.Some? ==>
              && offset.value < |text| && WellFormed(text[..offset.value])
              && forall j | offset.value < j <= |text| :: !WellFormed(text[..j])
  {
    hide WellFormed, Encode, Scan;
    ScanIsLongest(text);
    var index := 0;
    var valid := true;
    assert text[0..] == text;
    while valid && index < |text|
      invariant index <= |text|
      invariant Scan(text) == index + Scan(text[index..])
      invariant !valid ==> index < |text| && Scan(text[index..]) == 0
      decreases valid, |text| - index
    {
      var first := text[index];
      ScanStep(text, index);
      if first <= 0x7F {
        index := index + 1;
      } else if 0xC2 <= first <= 0xDF {
        if index + 1 >= |text| || !IsContinuation(text[index + 1]) {
          valid := false;
        } else {
          index := index + 2;
        }
      } else if 0xE0 <= first <= 0xEF {
        if index + 2 >= |text| || !SecondOfThree(first, text[index + 1]) || !IsContinuation(text[index + 2]) {
          valid := false;
        } else {
          index := index + 3;
        }
      } else if 0xF0 <= first <= 0xF4 {
        if || index + 3 >= |text| || !SecondOfFour(first, text[index + 1])
           || !IsContinuation(text[index + 2]) || !IsContinuation(text[index + 3]) {
          valid := false;
        } else {
          index := index + 4;
        }
      } else {
        valid := false;
      }
    }
    offset := if valid then None else Some(index);
  }

  function LengthAfter(first: byte): nat {
    if first <= 0x7F then 1 else if first <= 0xDF then 2 else if first <= 0xEF then 3 else 4
  }

  lemma ScanStep(text: seq<byte>, index: nat)
    requires index < |text|
    ensures var t := text[index..];
            && (First(t).None? ==> Scan(t) == 0)
            && (First(t).Some? ==>
                  var next := index + LengthAfter(text[index]);
                  next <= |text| && Scan(t) == LengthAfter(text[index]) + Scan(text[next..]))
  {
    hide Encode, First, LengthAfter;
    var t := text[index..];
    if First(t).Some? {
      EncodingOfFirst(t);
      var step := |Encode(First(t).value)|;
      EncodedLength(First(t).value);
      assert t[0] == Encode(First(t).value)[0];
      assert t[step..] == text[index + step..];
    }
  }

  lemma EncodedLength(c: Scalar)
    ensures LengthAfter(Encode(c)[0]) == |Encode(c)|
  {
  }

  // ---- Boundaries.

  predicate BoundaryAt(text: seq<byte>, i: nat)
    requires i <= |text|
  {
    i == |text| || !IsContinuation(text[i])
  }

  lemma EncodingShape(c: Scalar)
    ensures !IsContinuation(Encode(c)[0])
    ensures forall i | 1 <= i < |Encode(c)| :: IsContinuation(Encode(c)[i])
  {
  }

  /** What follows a code point is well formed exactly if the whole is. */
  lemma BehindFirst(c: Scalar, rest: seq<byte>)
    ensures WellFormed(Encode(c) + rest) <==> WellFormed(rest)
  {
    hide Encode, First;
    if WellFormed(rest) {
      var cs: seq<Scalar> :| EncodeAll(cs) == rest;
      assert ([c] + cs)[1..] == cs;
      assert EncodeAll([c] + cs) == Encode(c) + rest;
    }
    if WellFormed(Encode(c) + rest) {
      var ds: seq<Scalar> :| EncodeAll(ds) == Encode(c) + rest;
      FirstOfEncoding(c, rest);
      FirstOfEncoding(ds[0], EncodeAll(ds[1..]));
      assert (Encode(c) + rest)[|Encode(c)|..] == rest == EncodeAll(ds[1..]);
    }
  }

  lemma NoPartOfOne(c: Scalar, i: nat)
    requires 0 < i < |Encode(c)|
    ensures !WellFormed(Encode(c)[..i])
  {
    hide Encode, First;
    var part := Encode(c)[..i];
    assert Encode(c) + [] == Encode(c);
    FirstOfEncoding(c, []);
    if WellFormed(part) {
      var ds: seq<Scalar> :| EncodeAll(ds) == part;
      var rest := EncodeAll(ds[1..]) + Encode(c)[i..];
      Split(Encode(c), i);
      Associative(Encode(ds[0]), EncodeAll(ds[1..]), Encode(c)[i..]);
      FirstOfEncoding(ds[0], rest);
    }
  }

  /** In a well-formed text the byte at an offset tells whether the offset lies between code points. */
  lemma {:induction false} Boundaries(cs: seq<Scalar>, i: nat)
    requires i <= |EncodeAll(cs)|
    ensures WellFormed(EncodeAll(cs)[..i]) <==> BoundaryAt(EncodeAll(cs), i)
  {
    hide Encode, WellFormed;
    if cs == [] || i == 0 {
      assert EncodeAll([]) == EncodeAll(cs)[..i];
      EmptyWellFormed();
      if cs != [] {
        EncodingShape(cs[0]);
      }
    } else {
      var c, n := cs[0], |Encode(cs[0])|;
      EncodingShape(c);
      if i < n {
        NoPartOfOne(c, i);
        assert EncodeAll(cs)[..i] == Encode(c)[..i];
      } else {
        Boundaries(cs[1..], i - n);
        BehindFirst(c, EncodeAll(cs[1..])[..i - n]);
        assert EncodeAll(cs)[..i] == Encode(c) + EncodeAll(cs[1..])[..i - n];
      }
    }
  }

  lemma EmptyWellFormed()
    ensures WellFormed([])
  {
    assert EncodeAll([]) == [];
  }

  lemma BoundaryIsByte(text: seq<byte>, i: nat)
    requires WellFormed(text) && i <= |text|
    ensures WellFormed(text[..i]) <==> BoundaryAt(text, i)
  {
    var cs: seq<Scalar> :| EncodeAll(cs) == text;
    Boundaries(cs, i);
  }

  /** After an ASCII byte a well-formed text is between code points. */
  lemma AfterAscii(text: seq<byte>, i: nat)
    requires WellFormed(text) && i < |text| && text[i] < 0x80
    ensures BoundaryAt(text, i + 1)
  {
    hide WellFormed;
    BoundaryIsByte(text, i);
    BoundaryIsByte(text, i + 1);
    AppendAscii(text[..i], text[i]);
    assert text[..i + 1] == text[..i] + [text[i]];
  }

  lemma AppendAscii(before: seq<byte>, b: byte)
    requires WellFormed(before) && b < 0x80
    ensures WellFormed(before + [b])
  {
    var cs: seq<Scalar> :| EncodeAll(cs) == before;
    EncodeAppend(cs, b);
    assert EncodeAll(cs + [b]) == before + [b];
  }

  // ---- Positions.

  datatype Position = Position(line: nat, column: nat)

  const START := Position(1, 1)

  function Step(p: Position, b: byte): Position {
    if b == LINE_FEED then Position(p.line + 1, 1)
    else if !IsContinuation(b) then Position(p.line, p.column + 1)
    else p
  }

  function Advance(p: Position, bytes: seq<byte>): Position {
    if bytes == [] then p else Step(Advance(p, bytes[..|bytes| - 1]), bytes[|bytes| - 1])
  }

  lemma {:induction false} AdvanceConcat(p: Position, a: seq<byte>, b: seq<byte>)
    ensures Advance(p, a + b) == Advance(Advance(p, a), b)
  {
    if b == [] {
      assert a + b == a;
    } else {
      AdvanceConcat(p, a, b[..|b| - 1]);
      assert (a + b)[..|a + b| - 1] == a + b[..|b| - 1];
    }
  }

  function Newlines(cs: seq<Scalar>): nat {
    if cs == [] then 0 else Newlines(cs[..|cs| - 1]) + if cs[|cs| - 1] == LINE_FEED then 1 else 0
  }

  /** Where the line begins that the end of a text lies in. */
  function LineStart(cs: seq<Scalar>): (start: nat)
    ensures start <= |cs|
    ensures forall i | start <= i < |cs| :: cs[i] != LINE_FEED
    ensures start > 0 ==> cs[start - 1] == LINE_FEED
  {
    if cs == [] then 0 else if cs[|cs| - 1] == LINE_FEED then |cs| else LineStart(cs[..|cs| - 1])
  }

  /** One more than the newlines, and one more than the code points since the line began. */
  function PositionAfter(cs: seq<Scalar>): Position {
    Position(1 + Newlines(cs), 1 + |cs| - LineStart(cs))
  }

  /** The code points that count: a byte order mark in front does not. */
  function Visible(cs: seq<Scalar>): seq<Scalar> {
    if cs != [] && cs[0] == BYTE_ORDER_MARK then cs[1..] else cs
  }

  lemma AdvanceOver(p: Position, c: Scalar)
    ensures Advance(p, Encode(c)) == if c == LINE_FEED then Position(p.line + 1, 1) else Position(p.line, p.column + 1)
  {
    var bytes := Encode(c);
    AdvanceConcat(p, bytes[..1], bytes[1..]);
    assert bytes == bytes[..1] + bytes[1..];
    assert Advance(p, bytes[..1]) == Step(p, bytes[0]) by {
      assert bytes[..1][..0] == [];
    }
    AdvanceOverContinuations(Step(p, bytes[0]), bytes[1..]);
  }

  lemma {:induction false} AdvanceOverContinuations(p: Position, bytes: seq<byte>)
    requires forall b <- bytes :: IsContinuation(b)
    ensures Advance(p, bytes) == p
  {
    if bytes != [] {
      assert bytes[|bytes| - 1] in bytes;
      AdvanceOverContinuations(p, bytes[..|bytes| - 1]);
    }
  }

  lemma {:induction false} EncodeAppend(cs: seq<Scalar>, c: Scalar)
    ensures EncodeAll(cs + [c]) == EncodeAll(cs) + Encode(c)
  {
    hide Encode;
    if cs == [] {
      assert [c][1..] == [] && EncodeAll([c]) == Encode(c) + EncodeAll([]);
    } else {
      EncodeAppend(cs[1..], c);
      assert (cs + [c])[1..] == cs[1..] + [c];
    }
  }

  lemma {:induction false} AdvanceCounts(cs: seq<Scalar>)
    ensures Advance(START, EncodeAll(cs)) == PositionAfter(cs)
  {
    hide Encode;
    if cs != [] {
      var butLast, last := cs[..|cs| - 1], cs[|cs| - 1];
      assert cs == butLast + [last];
      AdvanceCounts(butLast);
      EncodeAppend(butLast, last);
      AdvanceConcat(START, EncodeAll(butLast), Encode(last));
      AdvanceOver(Advance(START, EncodeAll(butLast)), last);
    }
  }

  predicate StartsWithMark(text: seq<byte>) {
    |text| >= 3 && text[..3] == [0xEF, 0xBB, 0xBF]
  }

  function Reached(text: seq<byte>, offset: nat): nat {
    if offset < |text| then offset else |text|
  }

  /** At a boundary between code points the position counts code points; elsewhere it counts leading bytes. */
  method MarkAtOffset(text: seq<byte>, offset: nat) returns (mark: Position)
    ensures forall cs: seq<Scalar> | EncodeAll(cs) == text[..Reached(text, offset)] ::
              mark == PositionAfter(Visible(cs))
    ensures var start := if StartsWithMark(text) then 3 else 0;
            mark == if offset < start then START else Advance(START, text[start..Reached(text, offset)])
  {
    hide PositionAfter, Visible, EncodeAll;
    mark := START;
    var start := if StartsWithMark(text) then 3 else 0;
    var index := start;
    assert text[start..start] == [];
    while index < offset && index < |text|
      invariant start <= index <= |text|
      invariant index <= offset || index == start
      invariant mark == Advance(START, text[start..index])
    {
      assert text[start..index + 1][..index - start] == text[start..index];
      if text[index] == LINE_FEED {
        mark := Position(mark.line + 1, 1);
      } else if !IsContinuation(text[index]) {
        mark := Position(mark.line, mark.column + 1);
      }
      index := index + 1;
    }
    forall cs: seq<Scalar> | EncodeAll(cs) == text[..Reached(text, offset)]
      ensures mark == PositionAfter(Visible(cs))
    {
      BoundaryPosition(text, offset, cs);
    }
  }

  lemma BoundaryPosition(text: seq<byte>, offset: nat, cs: seq<Scalar>)
    requires EncodeAll(cs) == text[..Reached(text, offset)]
    ensures var start := if StartsWithMark(text) then 3 else 0;
            PositionAfter(Visible(cs))
            == if offset < start then START else Advance(START, text[start..Reached(text, offset)])
  {
    hide Encode, Advance, First;
    var end := Reached(text, offset);
    if cs == [] {
      assert end == 0;
      AdvanceCounts([]);
    } else {
      MarkIsFirst(text, end, cs);
      AdvanceCounts(Visible(cs));
      if StartsWithMark(text) {
        assert text[3..end] == EncodeAll(cs)[3..] == EncodeAll(cs[1..]);
      } else {
        assert text[0..end] == text[..end];
      }
    }
  }

  lemma MarkIsFirst(text: seq<byte>, end: nat, cs: seq<Scalar>)
    requires end <= |text| && cs != [] && EncodeAll(cs) == text[..end]
    ensures StartsWithMark(text) <==> cs[0] == BYTE_ORDER_MARK
    ensures cs[0] == BYTE_ORDER_MARK ==> Encode(cs[0]) == [0xEF, 0xBB, 0xBF] && end >= 3
  {
    hide First, Encode;
    var rest := EncodeAll(cs[1..]) + text[end..];
    Split(text, end);
    Associative(Encode(cs[0]), EncodeAll(cs[1..]), text[end..]);
    FirstOfEncoding(cs[0], rest);
    EncodedMark();
    if cs[0] == BYTE_ORDER_MARK {
      assert (Encode(cs[0]) + rest)[..3] == Encode(cs[0]);
    }
    if StartsWithMark(text) {
      FirstOfEncoding(BYTE_ORDER_MARK, text[3..]);
      Split(text, 3);
    }
  }

  lemma EncodedMark()
    ensures Encode(BYTE_ORDER_MARK) == [0xEF, 0xBB, 0xBF]
  {
  }
}
