/**
 `escape_cpp_string`, and a reader of the escape sequences of a C++20 string literal ([lex.ccon]):
 simple escapes, and octal ones that take as many as three octal digits and no fewer than are there.
 */
module CppLiteral {
  import opened Bytes

  const QUOTE: byte := 0x22
  const BACKSLASH: byte := 0x5c

  /** The letter of a simple escape for a byte the compiler escapes by name. */
  function SimpleLetter(b: byte): Option<byte> {
    match b
    case 0x22 => Some(0x22)
    case 0x5c => Some(0x5c)
    case 0x07 => Some(0x61)
    case 0x08 => Some(0x62)
    case 0x0c => Some(0x66)
    case 0x0a => Some(0x6e)
    case 0x0d => Some(0x72)
    case 0x09 => Some(0x74)
    case 0x0b => Some(0x76)
    case _ => None
  }

  function EscapeByte(b: byte): seq<byte> {
    match SimpleLetter(b)
    case Some(letter) => [BACKSLASH, letter]
    case None =>
      if 0x20 <= b <= 0x7e then [b] else [BACKSLASH, 0x30 + b / 64 % 8, 0x30 + b / 8 % 8, 0x30 + b % 8]
  }

  function Escaped(value: seq<byte>): seq<byte> {
    if value == [] then [] else EscapeByte(value[0]) + Escaped(value[1..])
  }

  method EscapeCppString(value: seq<byte>) returns (escaped: seq<byte>)
    ensures escaped == Escaped(value)
    ensures Read(escaped) == Some(value)
  {
    escaped := [];
    for i := 0 to |value|
      invariant escaped + Escaped(value[i..]) == Escaped(value)
    {
      escaped := escaped + EscapeByte(value[i]);
    }
    ReadEscaped(value);
  }

  // ---- The reader.

  predicate IsOctal(b: byte) {
    0x30 <= b <= 0x37
  }

  /** The byte a simple escape names; an apostrophe and a question mark have one as well. */
  function SimpleEscape(letter: byte): Option<byte> {
    match letter
    case 0x27 => Some(0x27)
    case 0x22 => Some(0x22)
    case 0x3f => Some(0x3f)
    case 0x5c => Some(0x5c)
    case 0x61 => Some(0x07)
    case 0x62 => Some(0x08)
    case 0x66 => Some(0x0c)
    case 0x6e => Some(0x0a)
    case 0x72 => Some(0x0d)
    case 0x74 => Some(0x09)
    case 0x76 => Some(0x0b)
    case _ => None
  }

  /** How many octal digits an escape takes: all that follow, but no more than three. */
  function OctalLength(text: seq<byte>): (n: nat)
    ensures n <= 3 && n <= |text|
  {
    if |text| == 0 || !IsOctal(text[0]) then 0
    else if |text| == 1 || !IsOctal(text[1]) then 1
    else if |text| == 2 || !IsOctal(text[2]) then 2
    else 3
  }

  function OctalValue(digits: seq<byte>): int {
    if digits == [] then 0 else 8 * OctalValue(digits[..|digits| - 1]) + (digits[|digits| - 1] as int - 0x30)
  }

  /**
   What the text between the quotes denotes; none where the literal would end, and for hexadecimal and
   universal escapes, of which the compiler writes none.
   */
  function Read(text: seq<byte>): Option<seq<byte>>
    decreases |text|
  {
    if text == [] then Some([])
    else if text[0] == QUOTE || text[0] == LINE_FEED then None
    else if text[0] != BACKSLASH then Prepend(text[0], Read(text[1..]))
    else
      var octal := OctalLength(text[1..]);
      if octal > 0 then
        var value := OctalValue(text[1..1 + octal]);
        if 0 <= value < 256 then Prepend(value, Read(text[1 + octal..])) else None
      else if |text| == 1 then None
      else match SimpleEscape(text[1])
        case None => None
        case Some(b) => Prepend(b, Read(text[2..]))
  }

  function Prepend(b: byte, rest: Option<seq<byte>>): Option<seq<byte>> {
    match rest
    case None => None
    case Some(bytes) => Some([b] + bytes)
  }

  /** Whatever follows an escaped byte, the reader takes the escape and no more: three digits are always there. */
  lemma ReadOne(b: byte, rest: seq<byte>)
    ensures Read(EscapeByte(b) + rest) == Prepend(b, Read(rest))
  {
    var text := EscapeByte(b) + rest;
    assert text[|EscapeByte(b)|..] == rest;
    if SimpleLetter(b).None? && !(0x20 <= b <= 0x7e) {
      assert text[1..][..3] == EscapeByte(b)[1..];
      OctalOfDigits(b);
      assert text[1..4] == EscapeByte(b)[1..];
    } else if SimpleLetter(b).Some? {
      assert text[1..][0] == SimpleLetter(b).value;
    }
  }

  lemma OctalOfDigits(b: byte)
    ensures OctalValue([0x30 + b / 64 % 8, 0x30 + b / 8 % 8, 0x30 + b % 8]) == b
  {
    var d := [0x30 + b / 64 % 8, 0x30 + b / 8 % 8, 0x30 + b % 8];
    assert d[..2] == [d[0], d[1]] && d[..2][..1] == [d[0]];
    assert OctalValue([d[0]]) == d[0] - 0x30;
    assert OctalValue([d[0], d[1]]) == 8 * (d[0] - 0x30) + (d[1] - 0x30);
  }

  /** Reading an escaped string gives back the string, for every byte string. */
  lemma {:induction false} ReadEscaped(value: seq<byte>)
    ensures Read(Escaped(value)) == Some(value)
  {
    if value != [] {
      ReadEscaped(value[1..]);
      ReadOne(value[0], Escaped(value[1..]));
      assert value == [value[0]] + value[1..];
    }
  }

  /** An escaped string is printable ASCII: it cannot end the literal or the line it stands in. */
  lemma {:induction false} EscapedIsPrintable(value: seq<byte>)
    ensures forall i | 0 <= i < |Escaped(value)| :: 0x20 <= Escaped(value)[i] <= 0x7e
  {
    if value != [] {
      EscapedIsPrintable(value[1..]);
    }
  }
}
