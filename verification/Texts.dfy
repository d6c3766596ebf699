/** Short texts and byte strings written out in full, as the compiler, its writers and its readers have them. */
module Texts {
  import opened Bytes
  import opened Characters
  import opened SchemaModel
  import opened Json
  import opened CanonicalJson
  import SmallestPair
  import CppLiteral
  import Gzip
  import Utf8

  // ---- Canonical JSON.

  lemma Digits()
    ensures DecimalText(0) == "0" && DecimalText(1) == "1" && DecimalText(2) == "2" && DecimalText(9) == "9"
    ensures DecimalText(10) == "10" && DecimalText(65535) == "65535"
  {
    assert DigitChar(0) == '0' && DigitChar(1) == '1' && DigitChar(2) == '2' && DigitChar(3) == '3';
    assert DigitChar(5) == '5' && DigitChar(6) == '6' && DigitChar(9) == '9';
    assert DecimalText(6) == "6";
    assert DecimalText(65) == DecimalText(6) + "5";
    assert DecimalText(655) == DecimalText(65) + "5";
    assert DecimalText(6553) == DecimalText(655) + "3";
    assert DecimalText(65535) == DecimalText(6553) + "5";
  }

  predicate PlainWord(s: string) {
    forall i | 0 <= i < |s| :: 'a' <= s[i] <= 'z' || '0' <= s[i] <= '9' || s[i] == '_'
  }

  lemma {:induction false} PlainEscape(s: string)
    requires PlainWord(s)
    ensures Escape(s) == s
  {
    if s != "" {
      PlainEscape(s[1..]);
    }
  }

  lemma PlainQuote(s: string)
    requires PlainWord(s)
    ensures Render(Text(s)) == "\"" + s + "\""
  {
    PlainEscape(s);
  }

  /** Every escape: the seven with a letter of their own, and the rest by code; any other character stays. */
  lemma Escapes()
    ensures EscapeChar('"') == ['\\', '"'] && EscapeChar('\\') == ['\\', '\\']
    ensures EscapeChar('\n') == ['\\', 'n'] && EscapeChar('\r') == ['\\', 'r'] && EscapeChar('\t') == ['\\', 't']
    ensures EscapeChar('\U{0008}') == ['\\', 'b'] && EscapeChar('\U{000C}') == ['\\', 'f']
    ensures EscapeChar('\U{0000}') == ['\\', 'u', '0', '0', '0', '0']
    ensures EscapeChar('\U{000B}') == ['\\', 'u', '0', '0', '0', 'b']
    ensures EscapeChar('\U{001F}') == ['\\', 'u', '0', '0', '1', 'f']
    ensures forall c | c >= ' ' && c != '"' && c != '\\' :: EscapeChar(c) == [c]
  {
  }

  lemma Members(m: Member, more: seq<Member>, text: string)
    requires Key(m.key) + Render(m.value) == text
    ensures RenderMoreMembers([m] + more) == "," + text + RenderMoreMembers(more)
    ensures RenderOpen([m] + more) == "{" + text + RenderMoreMembers(more)
  {
    assert ([m] + more)[1..] == more;
    assert "," + Key(m.key) + Render(m.value) == "," + text;
    assert "{" + Key(m.key) + Render(m.value) == "{" + text;
  }

  /** The record of one field. */
  lemma FieldWritten()
    ensures Render(FieldJson(SmallestPair.PRICE))
            == "{" + "\"discriminator\":false" + "," + "\"kind\":\"uint\"" + "," + "\"logical\":\"raw_unsigned\""
               + "," + "\"name\":\"y\"" + "," + "\"offset\":1" + "," + "\"projectable\":true" + ","
               + "\"type\":\"u16\"" + "," + "\"width\":2" + "}"
  {
    hide Render, RenderMoreMembers, RenderOpen, Key;
    FrontWritten();
    BackWritten();
    Scalars();
    var h, g := Member("width", Number(2)), Member("type", Text("u16"));
    var f, e := Member("projectable", Bool(true)), Member("offset", Number(1));
    var d, c := Member("name", Text("y")), Member("logical", Text("raw_unsigned"));
    var b, a := Member("kind", Text("uint")), Member("discriminator", Bool(false));
    var hs, gs, fs, es := [h] + [], [g] + ([h] + []), [f] + ([g] + ([h] + [])), [e] + ([f] + ([g] + ([h] + [])));
    var ds := [d] + es;
    var cs := [c] + ds;
    var bs := [b] + cs;
    Members(h, [], "\"width\":2");
    Members(g, hs, "\"type\":\"u16\"");
    Members(f, gs, "\"projectable\":true");
    Members(e, fs, "\"offset\":1");
    Members(d, es, "\"name\":\"y\"");
    Members(c, ds, "\"logical\":\"raw_unsigned\"");
    Members(b, cs, "\"kind\":\"uint\"");
    Members(a, bs, "\"discriminator\":false");
    PriceJson();
    assert [a] + bs == [a] + [b, c, d, e, f, g, h];
    assert Render(Object([a] + bs)) == RenderOpen([a] + bs) + "}";
    Joining("\"discriminator\":false", "\"kind\":\"uint\"", "\"logical\":\"raw_unsigned\"", "\"name\":\"y\"",
            "\"offset\":1", "\"projectable\":true", "\"type\":\"u16\"", "\"width\":2");
  }

  lemma PriceJson()
    ensures FieldJson(SmallestPair.PRICE)
            == Object([Member("discriminator", Bool(false))]
                      + [Member("kind", Text("uint")), Member("logical", Text("raw_unsigned")),
                         Member("name", Text("y")), Member("offset", Number(1)), Member("projectable", Bool(true)),
                         Member("type", Text("u16")), Member("width", Number(2))])
  {
  }

  lemma Joining(a: string, b: string, c: string, d: string, e: string, f: string, g: string, h: string)
    ensures "{" + a + ("," + b + ("," + c + ("," + d + ("," + e + ("," + f + ("," + g + ("," + h + "")))))))
            == "{" + a + "," + b + "," + c + "," + d + "," + e + "," + f + "," + g + "," + h
  {
  }

  lemma FrontWritten()
    ensures Key("discriminator") + Render(Bool(false)) == "\"discriminator\":false"
    ensures Key("kind") + Render(Text("uint")) == "\"kind\":\"uint\""
    ensures Key("logical") + Render(Text("raw_unsigned")) == "\"logical\":\"raw_unsigned\""
    ensures Key("name") + Render(Text("y")) == "\"name\":\"y\""
  {
    hide Render;
    Scalars();
    PlainQuote("uint");
    LogicalWritten();
    PlainQuote("y");
  }

  lemma LogicalWritten()
    ensures Key("logical") + Render(Text("raw_unsigned")) == "\"logical\":\"raw_unsigned\""
  {
    hide Render;
    RawUnsignedQuoted();
  }

  lemma RawUnsignedQuoted()
    ensures Render(Text("raw_unsigned")) == "\"raw_unsigned\""
  {
    hide Render;
    PlainQuote("raw_unsigned");
  }

  lemma BackWritten()
    ensures Key("offset") + Render(Number(1)) == "\"offset\":1"
    ensures Key("projectable") + Render(Bool(true)) == "\"projectable\":true"
    ensures Key("type") + Render(Text("u16")) == "\"type\":\"u16\""
    ensures Key("width") + Render(Number(2)) == "\"width\":2"
  {
    hide Render;
    Scalars();
    PlainQuote("u16");
  }

  lemma Scalars()
    ensures Render(Number(1)) == "1" && Render(Number(2)) == "2"
    ensures Render(Bool(true)) == "true" && Render(Bool(false)) == "false"
    ensures RenderMoreMembers([]) == ""
    ensures forall members :: Render(Object(members)) == RenderOpen(members) + "}"
  {
    Digits();
  }

  // ---- C++ string literals.

  /** The text of a byte in a C++ literal: itself, a simple escape, or a backslash and three octal digits. */
  lemma CppEscapes()
    ensures CppLiteral.EscapeByte('a' as int) == InAscii("a") && CppLiteral.EscapeByte('~' as int) == InAscii("~")
    ensures CppLiteral.EscapeByte(' ' as int) == InAscii(" ") && CppLiteral.EscapeByte('?' as int) == InAscii("?")
    ensures CppLiteral.EscapeByte('"' as int) == InAscii("\\\"")
    ensures CppLiteral.EscapeByte('\\' as int) == InAscii("\\\\")
    ensures CppLiteral.EscapeByte(7) == InAscii("\\a") && CppLiteral.EscapeByte(8) == InAscii("\\b")
    ensures CppLiteral.EscapeByte(9) == InAscii("\\t") && CppLiteral.EscapeByte(10) == InAscii("\\n")
    ensures CppLiteral.EscapeByte(11) == InAscii("\\v") && CppLiteral.EscapeByte(12) == InAscii("\\f")
    ensures CppLiteral.EscapeByte(13) == InAscii("\\r")
  {
  }

  lemma CppOctal()
    ensures CppLiteral.EscapeByte(0) == InAscii("\\000") && CppLiteral.EscapeByte(0x1F) == InAscii("\\037")
    ensures CppLiteral.EscapeByte(0x7F) == InAscii("\\177") && CppLiteral.EscapeByte(0xE9) == InAscii("\\351")
    ensures CppLiteral.EscapeByte(0xFF) == InAscii("\\377")
  {
  }

  // ---- gzip.

  /** A member of one byte: ten bytes of header, one final stored block, checksum and size. */
  lemma SmallMember(checksum: Gzip.Checksum)
    requires checksum([0x61]) == 0xE8B7BE43
    ensures Gzip.Member(checksum, [0x61])
            == [0x1F, 0x8B, 0x08, 0x00, 0x00, 0x00, 0x00, 0x00, 0x00, 0xFF]
               + [0x01, 0x01, 0x00, 0xFE, 0xFF, 0x61] + [0x43, 0xBE, 0xB7, 0xE8] + [0x01, 0x00, 0x00, 0x00]
  {
    hide Gzip.Little;
    LittleBytes(0x01, 0x00);
    LittleBytes(0xFE, 0xFF);
    LittleWord(0x43, 0xBE, 0xB7, 0xE8);
    LittleWord(0x01, 0x00, 0x00, 0x00);
    assert Gzip.StoredBlocks([0x61]) == [0x01, 0x01, 0x00, 0xFE, 0xFF, 0x61];
  }

  lemma LittleBytes(a: byte, b: byte)
    ensures Gzip.Little((a as nat) + 256 * (b as nat), 2) == [a, b]
  {
    assert Gzip.Little(0, 0) == [];
    assert Gzip.Little(b, 1) == [b];
  }

  lemma LittleWord(a: byte, b: byte, c: byte, d: byte)
    ensures Gzip.Little((a as nat) + 256 * ((b as nat) + 256 * ((c as nat) + 256 * (d as nat))), 4) == [a, b, c, d]
  {
    hide Gzip.Little;
    LittleBytes(c, d);
    LittleMore(b, (c as nat) + 256 * (d as nat), 2);
    LittleMore(a, (b as nat) + 256 * ((c as nat) + 256 * (d as nat)), 3);
  }

  lemma LittleMore(a: byte, n: nat, width: nat)
    ensures Gzip.Little((a as nat) + 256 * n, width + 1) == [a] + Gzip.Little(n, width)
  {
  }

  /** A block holds 65535 bytes and no more. */
  lemma BlockLimit(data: seq<byte>)
    ensures |data| <= 65535 ==> Gzip.Blocks(data) == [data]
    ensures 65535 < |data| <= 131070 ==> Gzip.Blocks(data) == [data[..65535], data[65535..]]
  {
  }

  // ---- UTF-8.

  /** Offsets of the first byte that is part of no encoding: overlong forms, surrogates, and beyond the last plane. */
  lemma MalformedTexts()
    ensures Utf8.First([0x41]) == Some(0x41) && Utf8.First([0xC3, 0xA9]) == Some(0xE9)
    ensures Utf8.First([0xE2, 0x82, 0xAC]) == Some(0x20AC) && Utf8.First([0xF0, 0x9F, 0x98, 0x80]) == Some(0x1F600)
    ensures Utf8.First([0xF4, 0x8F, 0xBF, 0xBF]) == Some(0x10FFFF) && Utf8.First([0xEF, 0xBB, 0xBF]) == Some(0xFEFF)
    ensures Utf8.First([0xC0, 0x80]).None? && Utf8.First([0xC1, 0xBF]).None? && Utf8.First([0xE0, 0x9F, 0xBF]).None?
    ensures Utf8.First([0xED, 0xA0, 0x80]).None? && Utf8.First([0xF0, 0x8F, 0xBF, 0xBF]).None?
    ensures Utf8.First([0xF4, 0x90, 0x80, 0x80]).None? && Utf8.First([0xF5, 0x80, 0x80, 0x80]).None?
    ensures Utf8.First([0x80]).None? && Utf8.First([0xC3]).None? && Utf8.First([0xE2, 0x82]).None?
  {
  }

  /** Line and column behind `a`, a newline and a two-byte character: a byte order mark is not counted. */
  method PositionBehindText() returns (plain: Utf8.Position, marked: Utf8.Position, inside: Utf8.Position)
    ensures plain == Utf8.Position(2, 2) && marked == Utf8.Position(1, 2) && inside == Utf8.Position(2, 2)
  {
    hide Utf8.PositionAfter;
    var text := [0x61, 0x0A, 0xC3, 0xA9, 0x62];
    plain := Utf8.MarkAtOffset(text, 4);
    assert text[0..4] == [0x61, 0x0A, 0xC3, 0xA9];
    Reaches([0x61, 0x0A, 0xC3, 0xA9]);
    inside := Utf8.MarkAtOffset(text, 3);
    assert text[0..3] == [0x61, 0x0A, 0xC3];
    Reaches([0x61, 0x0A, 0xC3]);
    var withMark := [0xEF, 0xBB, 0xBF, 0x61];
    marked := Utf8.MarkAtOffset(withMark, 4);
    assert withMark[3..4] == [0x61];
    Reaches([0x61]);
  }

  lemma Reaches(bytes: seq<byte>)
    ensures bytes == [0x61] ==> Utf8.Advance(Utf8.START, bytes) == Utf8.Position(1, 2)
    ensures bytes == [0x61, 0x0A, 0xC3] || bytes == [0x61, 0x0A, 0xC3, 0xA9] ==>
              Utf8.Advance(Utf8.START, bytes) == Utf8.Position(2, 2)
  {
    if bytes == [0x61] || bytes == [0x61, 0x0A, 0xC3] || bytes == [0x61, 0x0A, 0xC3, 0xA9] {
      assert bytes[..1] == [0x61] && bytes[..1][..0] == [];
      assert Utf8.Advance(Utf8.START, [0x61]) == Utf8.Position(1, 2);
      if |bytes| > 1 {
        assert bytes[..2] == [0x61, 0x0A] && bytes[..2][..1] == [0x61];
        assert Utf8.Advance(Utf8.START, [0x61, 0x0A]) == Utf8.Position(2, 1);
        assert bytes[..3] == [0x61, 0x0A, 0xC3] && bytes[..3][..2] == [0x61, 0x0A];
        assert Utf8.Advance(Utf8.START, [0x61, 0x0A, 0xC3]) == Utf8.Position(2, 2);
        assert |bytes| == 4 ==> bytes[..3] == [0x61, 0x0A, 0xC3];
      }
    }
  }
}
