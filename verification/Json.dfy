/**
 JSON as far as the compiler prints it: a value type, its compact text, and a reader that follows the
 grammar of RFC 8259 (strings as in section 7), with the proof that reading undoes printing.
 */
module Json {
  import opened Bytes

  datatype Json =
    | Number(n: nat)
    | Text(s: string)
    | Bool(b: bool)
    | Array(items: seq<Json>)
    | Object(members: seq<Member>)

  datatype Member = Member(key: string, value: Json)

  // ---- Printing.

  function DigitChar(d: nat): (c: char)
    requires d < 10
    ensures '0' <= c <= '9' && c as int == '0' as int + d
  {
    ('0' as int + d) as char
  }

  function DecimalText(n: nat): (text: string)
    ensures text != [] && forall c <- text :: '0' <= c <= '9'
  {
    if n < 10 then [DigitChar(n)] else DecimalText(n / 10) + [DigitChar(n % 10)]
  }

  function EscapeChar(c: char): string {
    match c
    case '"' => "\\\""
    case '\\' => "\\\\"
    case '\U{0008}' => "\\b"
    case '\U{000C}' => "\\f"
    case '\n' => "\\n"
    case '\r' => "\\r"
    case '\t' => "\\t"
    case _ =>
      if c < ' ' then "\\u00" + [HexDigit(c as int / 16), HexDigit(c as int % 16)] else [c]
  }

  function Escape(s: string): string {
    if s == [] then [] else EscapeChar(s[0]) + Escape(s[1..])
  }

  function Quote(s: string): string {
    "\"" + Escape(s) + "\""
  }

  function Render(j: Json): string
    decreases j, 1
  {
    match j
    case Number(n) => DecimalText(n)
    case Text(s) => Quote(s)
    case Bool(b) => if b then "true" else "false"
    case Array(items) => "[" + RenderItems(items) + "]"
    case Object(members) => RenderOpen(members) + "}"
  }

  function RenderItems(items: seq<Json>): string
    decreases items, 1
  {
    if items == [] then "" else Render(items[0]) + RenderMoreItems(items[1..])
  }

  function RenderMoreItems(items: seq<Json>): string
    decreases items, 0
  {
    if items == [] then "" else "," + Render(items[0]) + RenderMoreItems(items[1..])
  }

  function Key(key: string): string {
    "\"" + key + "\":"
  }

  /** An object up to, but without, its closing brace. */
  function RenderOpen(members: seq<Member>): string
    decreases members, 1
  {
    if members == [] then "{"
    else "{" + Key(members[0].key) + Render(members[0].value) + RenderMoreMembers(members[1..])
  }

  function RenderMoreMembers(members: seq<Member>): string
    decreases members, 0
  {
    if members == [] then ""
    else "," + Key(members[0].key) + Render(members[0].value) + RenderMoreMembers(members[1..])
  }

  // ---- Reading.

  datatype Read<+T> = Fail | Done(value: T, rest: string)

  function DigitValue(c: char): (value: nat)
    requires IsDigit(c)
    ensures value < 10
  {
    c as int - '0' as int
  }

  function HexValue(c: char): (value: Option<nat>)
    ensures value.Some? ==> value.value < 16
  {
    if IsDigit(c) then Some(DigitValue(c))
    else if 'a' <= c <= 'f' then Some(c as int - 'a' as int + 10)
    else if 'A' <= c <= 'F' then Some(c as int - 'A' as int + 10)
    else None
  }

  function ReadDigits(sofar: nat, t: string): (r: (nat, string))
    ensures |r.1| <= |t|
    decreases |t|
  {
    if t != [] && IsDigit(t[0]) then ReadDigits(sofar * 10 + DigitValue(t[0]), t[1..]) else (sofar, t)
  }

  /** One character of a string literal, escaped or not. */
  function ReadChar(t: string): (r: Read<char>)
    ensures r.Done? ==> |r.rest| < |t|
  {
    if t == [] || t[0] < ' ' || t[0] == '"' then Fail
    else if t[0] != '\\' then Done(t[0], t[1..])
    else if |t| < 2 then Fail
    else match t[1]
      case '"' => Done('"', t[2..])
      case '\\' => Done('\\', t[2..])
      case '/' => Done('/', t[2..])
      case 'b' => Done('\U{0008}', t[2..])
      case 'f' => Done('\U{000C}', t[2..])
      case 'n' => Done('\n', t[2..])
      case 'r' => Done('\r', t[2..])
      case 't' => Done('\t', t[2..])
      case 'u' =>
        if |t| < 6 then Fail
        else (match (HexValue(t[2]), HexValue(t[3]), HexValue(t[4]), HexValue(t[5]))
              case (Some(a), Some(b), Some(c), Some(d)) =>
                var code := a * 4096 + b * 256 + c * 16 + d;
                if 0xD800 <= code < 0xE000 then Fail else Done(code as char, t[6..])
              case _ => Fail)
      case _ => Fail
  }

  /** Characters up to the closing quote, which is consumed. */
  function ReadChars(t: string): (r: Read<string>)
    ensures r.Done? ==> |r.rest| < |t|
    decreases |t|
  {
    if t != [] && t[0] == '"' then Done("", t[1..])
    else match ReadChar(t)
      case Fail => Fail
      case Done(c, rest) =>
        match ReadChars(rest)
        case Fail => Fail
        case Done(s, rest') => Done([c] + s, rest')
  }

  function ReadValue(t: string): (r: Read<Json>)
    ensures r.Done? ==> |r.rest| < |t|
    decreases |t|, 1
  {
    if t == [] then Fail
    else if IsDigit(t[0]) then
      var (n, rest) := ReadDigits(DigitValue(t[0]), t[1..]);
      Done(Number(n), rest)
    else if t[0] == '"' then
      match ReadChars(t[1..])
      case Fail => Fail
      case Done(s, rest) => Done(Text(s), rest)
    else if "true" <= t then Done(Bool(true), t[4..])
    else if "false" <= t then Done(Bool(false), t[5..])
    else if "[]" <= t then Done(Array([]), t[2..])
    else if t[0] == '[' then
      match ReadItems(t[1..], [])
      case Fail => Fail
      case Done(items, rest) => Done(Array(items), rest)
    else if "{}" <= t then Done(Object([]), t[2..])
    else if t[0] == '{' then
      match ReadMembers(t[1..], [])
      case Fail => Fail
      case Done(members, rest) => Done(Object(members), rest)
    else Fail
  }

  function ReadItems(t: string, before: seq<Json>): (r: Read<seq<Json>>)
    ensures r.Done? ==> |r.rest| < |t|
    decreases |t|, 2
  {
    match ReadValue(t)
    case Fail => Fail
    case Done(item, rest) =>
      if rest == [] then Fail
      else if rest[0] == ',' then ReadItems(rest[1..], before + [item])
      else if rest[0] == ']' then Done(before + [item], rest[1..])
      else Fail
  }

  function ReadMembers(t: string, before: seq<Member>): (r: Read<seq<Member>>)
    ensures r.Done? ==> |r.rest| < |t|
    decreases |t|, 2
  {
    if t == [] || t[0] != '"' then Fail
    else match ReadChars(t[1..])
      case Fail => Fail
      case Done(key, afterKey) =>
        if afterKey == [] || afterKey[0] != ':' then Fail
        else match ReadValue(afterKey[1..])
          case Fail => Fail
          case Done(value, rest) =>
            if rest == [] then Fail
            else if rest[0] == ',' then ReadMembers(rest[1..], before + [Member(key, value)])
            else if rest[0] == '}' then Done(before + [Member(key, value)], rest[1..])
            else Fail
  }

  // ---- Reading undoes printing.

  predicate PlainChar(c: char) { ' ' <= c && c != '"' && c != '\\' }

  predicate PlainKey(key: string) {
    forall c <- key :: PlainChar(c)
  }

  /** Keys are printed as they are, so they must need no escapes. */
  predicate WellKeyed(j: Json) {
    match j
    case Array(items) => forall item <- items :: WellKeyed(item)
    case Object(members) => forall m <- members :: PlainKey(m.key) && WellKeyed(m.value)
    case _ => true
  }

  /** A number must not run into what follows it. */
  predicate NoDigit(rest: string) {
    rest == [] || !IsDigit(rest[0])
  }

  lemma {:induction false} ReadDecimal(n: nat, rest: string)
    ensures ReadDigits(0, DecimalText(n) + rest) == ReadDigits(n, rest)
  {
    if n < 10 {
      assert (DecimalText(n) + rest)[1..] == rest;
    } else {
      var last := [DigitChar(n % 10)];
      ReadDecimal(n / 10, last + rest);
      Associative(DecimalText(n / 10), last, rest);
      assert (last + rest)[1..] == rest;
    }
  }

  lemma ReadEscapedChar(c: char, rest: string)
    ensures ReadChar(EscapeChar(c) + rest) == Done(c, rest)
    ensures EscapeChar(c) != [] && EscapeChar(c)[0] != '"'
  {
    var t := EscapeChar(c) + rest;
    if |EscapeChar(c)| == 1 {
      assert t[1..] == rest;
    } else if |EscapeChar(c)| == 2 {
      assert t[2..] == rest;
    } else {
      assert t[6..] == rest;
    }
  }

  lemma {:induction false} ReadEscaped(s: string, rest: string)
    ensures ReadChars(Escape(s) + "\"" + rest) == Done(s, rest)
  {
    hide EscapeChar, ReadChar;
    if s == [] {
      assert (Escape(s) + "\"" + rest)[1..] == rest;
    } else {
      var tail := Escape(s[1..]) + "\"" + rest;
      ReadEscaped(s[1..], rest);
      ReadEscapedChar(s[0], tail);
      assert Escape(s) + "\"" + rest == EscapeChar(s[0]) + tail;
      assert [s[0]] + s[1..] == s;
    }
  }

  lemma {:induction false} ReadPlain(s: string, rest: string)
    requires forall c <- s :: PlainChar(c)
    ensures ReadChars(s + "\"" + rest) == Done(s, rest)
  {
    if s == [] {
      assert (s + "\"" + rest)[1..] == rest;
    } else {
      var t := s + "\"" + rest;
      ReadPlain(s[1..], rest);
      assert t[0] == s[0] && PlainChar(s[0]);
      assert t[1..] == s[1..] + "\"" + rest;
      assert [s[0]] + s[1..] == s;
    }
  }

  lemma {:induction false} ReadNumber(n: nat, rest: string)
    requires NoDigit(rest)
    ensures ReadValue(DecimalText(n) + rest) == Done(Number(n), rest)
  {
    var t := DecimalText(n) + rest;
    ReadDecimal(n, rest);
    assert ReadDigits(0, t) == ReadDigits(DigitValue(t[0]), t[1..]);
  }

  lemma ReadText(s: string, rest: string)
    ensures ReadValue(Quote(s) + rest) == Done(Text(s), rest)
  {
    hide Escape, ReadChars;
    ReadEscaped(s, rest);
    assert (Quote(s) + rest)[1..] == Escape(s) + "\"" + rest;
  }

  lemma ReadBool(b: bool, rest: string)
    ensures ReadValue(Render(Bool(b)) + rest) == Done(Bool(b), rest)
  {
    var t := Render(Bool(b)) + rest;
    if b {
      assert t[..4] == "true" && t[4..] == rest;
    } else {
      assert t[..5] == "false" && t[5..] == rest;
    }
  }

  lemma RenderStarts(j: Json)
    ensures Render(j) != [] && Render(j)[0] != ']' && Render(j)[0] != '}'
  {
    if j.Number? {
      assert DecimalText(j.n)[0] in DecimalText(j.n);
    }
  }

  /** Reading what was printed gives back the value and leaves the rest. */
  lemma {:induction false} RoundTrip(j: Json, rest: string)
    requires WellKeyed(j) && NoDigit(rest)
    ensures ReadValue(Render(j) + rest) == Done(j, rest)
    decreases j, 1
  {
    match j
    case Number(n) => ReadNumber(n, rest);
    case Text(s) => ReadText(s, rest);
    case Bool(b) => ReadBool(b, rest);
    case Array(items) =>
      if items == [] {
        assert Render(j) + rest == "[]" + rest && ("[]" + rest)[2..] == rest;
      } else {
        ItemsRoundTrip(items, [], rest);
        assert [] + items == items;
        ReadArray(items, rest);
      }
    case Object(members) =>
      if members == [] {
        assert Render(j) + rest == "{}" + rest && ("{}" + rest)[2..] == rest;
      } else {
        MembersRoundTrip(members, [], rest);
        assert [] + members == members;
        ReadObject(members, rest);
      }
  }

  function ItemsText(items: seq<Json>, rest: string): string
    requires items != []
  {
    Render(items[0]) + (RenderMoreItems(items[1..]) + ("]" + rest))
  }

  lemma ReadArray(items: seq<Json>, rest: string)
    requires items != [] && ReadItems(ItemsText(items, rest), []) == Done(items, rest)
    ensures ReadValue(Render(Array(items)) + rest) == Done(Array(items), rest)
  {
    hide ReadItems, RenderMoreItems, ReadMembers;
    RenderStarts(items[0]);
    var first, others := Render(items[0]), RenderMoreItems(items[1..]);
    assert Render(Array(items)) + rest == "[" + (first + (others + ("]" + rest)));
    var t := "[" + ItemsText(items, rest);
    assert t[1..] == ItemsText(items, rest) && t[1] == first[0];
  }

  lemma {:induction false} ItemsRoundTrip(items: seq<Json>, before: seq<Json>, rest: string)
    requires items != [] && forall item <- items :: WellKeyed(item)
    ensures ReadItems(ItemsText(items, rest), before) == Done(before + items, rest)
    decreases items, 0
  {
    hide Render, ReadValue, WellKeyed;
    var others := items[1..];
    var tail := RenderMoreItems(others) + ("]" + rest);
    RoundTrip(items[0], tail);
    assert items == [items[0]] + others;
    if others == [] {
      assert tail == "]" + rest && tail[1..] == rest;
      assert before + [items[0]] == before + items;
    } else {
      ItemsRoundTrip(others, before + [items[0]], rest);
      assert tail == "," + ItemsText(others, rest);
      assert tail[1..] == ItemsText(others, rest);
      assert before + [items[0]] + others == before + items;
    }
  }

  function MembersText(members: seq<Member>, rest: string): string
    requires members != []
  {
    Key(members[0].key) + (Render(members[0].value) + (RenderMoreMembers(members[1..]) + ("}" + rest)))
  }

  lemma ReadObject(members: seq<Member>, rest: string)
    requires members != [] && ReadMembers(MembersText(members, rest), []) == Done(members, rest)
    ensures ReadValue(Render(Object(members)) + rest) == Done(Object(members), rest)
  {
    hide ReadItems, RenderMoreMembers, ReadMembers;
    var first, others := Key(members[0].key) + Render(members[0].value), RenderMoreMembers(members[1..]);
    assert Render(Object(members)) + rest == "{" + (first + (others + ("}" + rest)));
    Associative(Key(members[0].key), Render(members[0].value), others + ("}" + rest));
    var t := "{" + MembersText(members, rest);
    assert t[1..] == MembersText(members, rest) && t[1] == '"';
  }

  lemma ReadKey(key: string, valueText: string)
    requires PlainKey(key)
    ensures var t := Key(key) + valueText;
            t != [] && t[0] == '"' && ReadChars(t[1..]) == Done(key, ":" + valueText)
    ensures (":" + valueText)[0] == ':' && (":" + valueText)[1..] == valueText
  {
    hide ReadChars, PlainChar;
    ReadPlain(key, ":" + valueText);
    assert (Key(key) + valueText)[1..] == key + "\"" + (":" + valueText);
  }

  lemma ReadOneMember(m: Member, tail: string, before: seq<Member>)
    requires PlainKey(m.key) && tail != []
    requires ReadValue(Render(m.value) + tail) == Done(m.value, tail)
    ensures ReadMembers(Key(m.key) + (Render(m.value) + tail), before)
            == if tail[0] == ',' then ReadMembers(tail[1..], before + [m])
               else if tail[0] == '}' then Done(before + [m], tail[1..])
               else Fail
  {
    hide Render, ReadValue, ReadChars, PlainChar, Key;
    ReadKey(m.key, Render(m.value) + tail);
  }

  lemma {:induction false} MembersRoundTrip(members: seq<Member>, before: seq<Member>, rest: string)
    requires members != []
    requires forall m <- members :: PlainKey(m.key) && WellKeyed(m.value)
    ensures ReadMembers(MembersText(members, rest), before) == Done(before + members, rest)
    decreases members, 0
  {
    hide Render, ReadValue, ReadMembers, WellKeyed, ReadChars, PlainChar, Key;
    var m, others := members[0], members[1..];
    var tail := RenderMoreMembers(others) + ("}" + rest);
    RoundTrip(m.value, tail);
    ReadOneMember(m, tail, before);
    assert members == [m] + others;
    if others == [] {
      assert tail == "}" + rest && tail[1..] == rest;
      assert before + [m] == before + members;
    } else {
      MembersRoundTrip(others, before + [m], rest);
      assert tail == "," + MembersText(others, rest);
      assert tail[1..] == MembersText(others, rest);
      assert before + [m] + others == before + members;
    }
  }

  /** Different values print differently. */
  lemma RenderInjective(a: Json, b: Json)
    requires WellKeyed(a) && WellKeyed(b)
    ensures Render(a) == Render(b) <==> a == b
  {
    hide Render, ReadValue, WellKeyed;
    RoundTrip(a, "");
    RoundTrip(b, "");
  }

  /** A printer that appends member after member builds the object it means to. */
  lemma RenderOpenAppend(members: seq<Member>, m: Member)
    ensures RenderOpen(members + [m])
            == RenderOpen(members) + (if members == [] then "" else ",") + Key(m.key) + Render(m.value)
  {
    hide Render, Key;
    if members == [] {
      assert (members + [m])[1..] == [];
    } else {
      assert (members + [m])[1..] == members[1..] + [m];
      RenderMoreMembersAppend(members[1..], m);
    }
  }

  lemma {:induction false} RenderMoreMembersAppend(members: seq<Member>, m: Member)
    ensures RenderMoreMembers(members + [m]) == RenderMoreMembers(members) + "," + Key(m.key) + Render(m.value)
  {
    hide Render, Key;
    if members == [] {
      assert members + [m] == [m] && [m][1..] == [];
    } else {
      assert (members + [m])[1..] == members[1..] + [m];
      RenderMoreMembersAppend(members[1..], m);
    }
  }

  lemma RenderItemsAppend(items: seq<Json>, item: Json)
    ensures RenderItems(items + [item]) == RenderItems(items) + (if items == [] then "" else ",") + Render(item)
  {
    hide Render;
    if items == [] {
      assert (items + [item])[1..] == [];
    } else {
      assert (items + [item])[1..] == items[1..] + [item];
      RenderMoreItemsAppend(items[1..], item);
    }
  }

  lemma {:induction false} RenderMoreItemsAppend(items: seq<Json>, item: Json)
    ensures RenderMoreItems(items + [item]) == RenderMoreItems(items) + "," + Render(item)
  {
    hide Render;
    if items == [] {
      assert items + [item] == [item] && [item][1..] == [];
    } else {
      assert (items + [item])[1..] == items[1..] + [item];
      RenderMoreItemsAppend(items[1..], item);
    }
  }
}
