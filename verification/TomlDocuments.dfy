/**
 Documents made of pieces, told apart by the characters they are written with, and what becomes of them: which
 are accepted, and behind which a fault is reported and where.
 */
module TomlDocuments {
  import opened Bytes
  import opened Characters
  import opened TomlGrammar
  import opened TomlLexing
  import TomlScanner

  predicate StartsWith(t: seq<byte>, c: char) {
    t != [] && t[0] as char == c
  }

  predicate Without(t: seq<byte>, chars: string) {
    forall i | 0 <= i < |t| :: t[i] as char !in chars
  }

  /** Where a piece stands: the brackets left open in front of it, and whether a line has just begun. */
  datatype Place = Place(open: string, atStart: bool)

  const START := Place("", true)

  function Then(p: Place, l: Lexeme): Place {
    match l
    case NewLine => Place(p.open, true)
    case Remark(_) => p
    case OneLineString(_) => Place(p.open, false)
    case MultiLineString(_) => Place(p.open, false)
    case HeaderLine(_) => Place(p.open, false)
    case OtherByte(b) =>
      var c := b as char;
      if c == '[' || c == '{' then Place(p.open + [c], false)
      else if (c == ']' || c == '}') && p.open != "" then Place(p.open[..|p.open| - 1], false)
      else Place(p.open, p.atStart && c in " \t\r")
  }

  /** A string with its quotes: in double quotes a backslash takes the next character along. */
  predicate Quoted(body: seq<byte>, q: char) {
    if body == [] then true
    else if body[0] as char == '\\' && q == '"' then |body| >= 2 && body[1] as char != '\n' && Quoted(body[2..], q)
    else body[0] as char != q && body[0] as char != '\n' && Quoted(body[1..], q)
  }

  predicate StringPiece(text: seq<byte>, behind: seq<byte>) {
    && |text| >= 2 && text[0] == text[|text| - 1] && text[0] as char in "\"'"
    && Quoted(text[1..|text| - 1], text[0] as char)
    && (|text| == 2 ==> !StartsWith(behind, text[0] as char))
  }

  /** Inside long quotes one or two of them may stand in a row, but not at the end. */
  predicate QuotedLong(body: seq<byte>, q: char) {
    if body == [] then true
    else if body[0] as char == '\\' && q == '"' then |body| >= 2 && QuotedLong(body[2..], q)
    else if body[0] as char != q then QuotedLong(body[1..], q)
    else if |body| >= 2 && body[1] as char != q then QuotedLong(body[1..], q)
    else |body| >= 3 && body[2] as char != q && QuotedLong(body[2..], q)
  }

  /** The last `n` bytes of a text that begins with three quotes are quotes too, and close it. */
  predicate ClosedBy(text: seq<byte>, n: nat) {
    && 3 <= n <= |text| - 3
    && (forall i | |text| - n <= i < |text| :: text[i] == text[0])
    && QuotedLong(text[3..|text| - n], text[0] as char)
  }

  predicate LongStringPiece(text: seq<byte>, behind: seq<byte>) {
    && |text| >= 6 && text[0] as char in "\"'" && text[1] == text[0] && text[2] == text[0]
    && (exists n | 3 <= n < |text| :: ClosedBy(text, n))
    && !StartsWith(behind, text[0] as char)
  }

  predicate LineEnds(behind: seq<byte>) {
    behind == [] || StartsWith(behind, '\n')
  }


  /** The characters a key may begin with. */
  predicate BeginsKey(c: char) {
    c in LETTERS || c in CAPITALS || c in DIGITS || c == '_' || c == '-'
  }

  predicate Blanks(t: seq<byte>, i: nat, end: nat)
    requires end <= |t|
  {
    forall k | i <= k < end :: t[k] as char in " \t"
  }

  /** Where the key of a table `[...` or of an array of tables `[[...` stands. */
  predicate KeyStandsAt(t: seq<byte>, k: nat) {
    && 0 < k < |t| && StartsWith(t, '[') && t[k] as char !in "[ \t"
    && (Blanks(t, 1, k) || (k > 1 && t[1] as char == '[' && Blanks(t, 2, k)))
  }

  predicate SpacedAt(t: seq<byte>, k: nat) {
    1 < k < |t| && StartsWith(t, '[') && Blanks(t, 1, k) && t[k] as char == '['
  }

  /** The line of a table or of an array of tables, or `[ [` with anything behind it. */
  predicate HeaderPieceOf(text: seq<byte>) {
    && StartsWith(text, '[') && Without(text, "\n")
    && exists k | 0 <= k < |text| ::
         SpacedAt(text, k) || (KeyStandsAt(text, k) && BeginsKey(text[k] as char) && Plain(text))
  }

  predicate Plain(text: seq<byte>) {
    forall i | 0 <= i < |text| :: text[i] < 128 && text[i] as char !in "\"'#"
  }

  /** What a piece must be made of where it stands. */
  predicate IsPiece(l: Lexeme, p: Place, behind: seq<byte>) {
    match l
    case NewLine => true
    case Remark(text) => StartsWith(text, '#') && Without(text, "\n") && LineEnds(behind)
    case OneLineString(text) => StringPiece(text, behind)
    case MultiLineString(text) => LongStringPiece(text, behind)
    case HeaderLine(text) => p.atStart && '[' !in p.open && HeaderPieceOf(text) && LineEnds(behind)
    case OtherByte(b) =>
      && b < 128 && b as char !in "\n#\"'"
      && (b as char == '[' ==> !p.atStart || '[' in p.open)
      && (b as char == ']' ==> p.open != "" && p.open[|p.open| - 1] == '[')
      && (b as char == '}' ==> p.open != "" && p.open[|p.open| - 1] == '{')
  }

  predicate InPieces(ls: seq<Lexeme>, p: Place, rest: seq<byte>)
    decreases ls
  {
    ls == [] || (IsPiece(ls[0], p, Text(ls[1..]) + rest) && InPieces(ls[1..], Then(p, ls[0]), rest))
  }

  function Behind(ls: seq<Lexeme>, p: Place): Place
    decreases ls
  {
    if ls == [] then p else Behind(ls[1..], Then(p, ls[0]))
  }

  // ---- Pieces are lexemes.

  predicate Brackets(open: string) {
    forall c <- open :: c == '[' || c == '{'
  }

  function ContextOf(p: Place): Context
    requires Brackets(p.open)
  {
    Context(InAscii(p.open), p.atStart)
  }

  lemma {:induction false} ArraysOpen(open: string)
    requires Brackets(open)
    ensures OpenArrays(InAscii(open)) == 0 <==> '[' !in open
  {
    if open != "" {
      var butLast, last := open[..|open| - 1], open[|open| - 1];
      assert open == butLast + [last] && last in open;
      assert forall c <- butLast :: c in open;
      ArraysOpen(butLast);
      assert InAscii(open)[..|open| - 1] == InAscii(butLast);
    }
  }

  lemma OpensHeaderAt(p: Place, b: byte)
    requires Brackets(p.open)
    ensures OpensHeader(ContextOf(p), b) <==> b as char == '[' && p.atStart && '[' !in p.open
  {
    ArraysOpen(p.open);
  }

  lemma {:induction false} QuotedIsShort(body: seq<byte>, q: byte)
    requires q as char in "\"'"
    ensures Quoted(body, q as char) <==> ShortBody(q, body)
    decreases |body|
  {
    if |body| >= 2 {
      QuotedIsShort(body[2..], q);
    }
    if body != [] {
      QuotedIsShort(body[1..], q);
    }
  }

  lemma {:induction false} QuotedLongIsLong(body: seq<byte>, q: byte)
    requires q as char in "\"'"
    ensures QuotedLong(body, q as char) <==> LongBody(q, body)
    decreases |body|
  {
    if |body| >= 2 {
      QuotedLongIsLong(body[2..], q);
    }
    if body != [] {
      QuotedLongIsLong(body[1..], q);
    }
  }

  lemma LongPieceIsLong(text: seq<byte>, behind: seq<byte>)
    requires LongStringPiece(text, behind)
    ensures LongString(text) && NotFollowedBy(behind, text[0])
  {
    hide LongBody, QuotedLong;
    var n :| 3 <= n < |text| && ClosedBy(text, n);
    var q, body := text[0], text[3..|text| - n];
    QuotedLongIsLong(body, q);
    assert text[..3] == [q, q, q] && text[|text| - n..] == Run(q, n);
    assert text == text[..3] + (body + text[|text| - n..]);
    assert LongParts(text, q, body, n);
  }

  lemma KeyCharacters(b: byte)
    ensures IsBareKeyStart(b) <==> BeginsKey(b as char)
  {
    Consecutive(LETTERS, b as char);
    Consecutive(CAPITALS, b as char);
    Consecutive(DIGITS, b as char);
  }

  lemma KeyCharactersWritten(c: char)
    ensures BeginsKey(c) <==> c in "abcdefghijklmnopqrstuvwxyz" + "ABCDEFGHIJKLMNOPQRSTUVWXYZ" + "0123456789" + "_-"
  {
    InFour(c, LETTERS, CAPITALS, DIGITS, "_-");
  }

  lemma InFour(c: char, a: string, b: string, d: string, e: string)
    ensures c in a + b + d + e <==> c in a || c in b || c in d || c in e
  {
  }

  lemma KeyCharacter(b: byte)
    requires BeginsKey(b as char)
    ensures IsBareKeyStart(b) && !IsBlank(b) && b != OPEN_BRACKET && b != CLOSE_BRACKET && !IsQuote(b)
  {
    KeyCharacters(b);
  }

  /** Each byte of a line without quotes and comments is a piece of its own. */
  lemma {:induction false} PlainIsOutside(text: seq<byte>) returns (pieces: seq<seq<byte>>)
    requires Plain(text) && Without(text, "\n")
    ensures HeaderPieces(pieces) && Joined(pieces) == text
  {
    pieces := [];
    if text != [] {
      var more := PlainIsOutside(text[1..]);
      pieces := [[text[0]]] + more;
      assert text[0] as char !in "\n" && text[0] as char !in "\"'#";
      assert HeaderPiece([text[0]]);
    }
  }

  lemma HeaderPieceIsFine(text: seq<byte>, behind: seq<byte>)
    requires HeaderPieceOf(text)
    ensures HeaderIsFine(text, behind)
  {
    hide IsBareKeyStart, HeaderPieces, BeginsKey, KeyStandsAt, SpacedAt, Spaced, BadKey, Plain, Without;
    var k :| && 0 <= k < |text|
             && (SpacedAt(text, k) || (KeyStandsAt(text, k) && BeginsKey(text[k] as char) && Plain(text)));
    if SpacedAt(text, k) {
      SpacedIsSpaced(text, behind, k);
    } else {
      KeyFound(text, behind, k);
      KeyCharacter(text[k]);
      GoodKey(text + behind, k);
      var pieces := PlainIsOutside(text);
      assert text[..|text|] == text;
      assert CoveredBy(text, |text|, pieces);
      assert OutsideStrings(text, |text|);
    }
  }

  lemma SpacedIsSpaced(text: seq<byte>, behind: seq<byte>, k: nat)
    requires SpacedAt(text, k)
    ensures Spaced(text + behind)
  {
    var t := text + behind;
    BlanksAre(text, 1, k);
    BlanksFrom(t, 1, k);
  }

  lemma KeyFound(text: seq<byte>, behind: seq<byte>, k: nat)
    requires KeyStandsAt(text, k)
    ensures KeyOffset(text + behind) == k && !Spaced(text + behind)
  {
    var t := text + behind;
    assert text[k] as char != '[' && text[k] as char != ' ' && text[k] as char != '\t' by {
      assert '[' in "[ \t" && ' ' in "[ \t" && '\t' in "[ \t";
    }
    if text[1] as char == '[' && k > 1 {
      assert !Blanks(text, 1, k) by {
        assert text[1] as char !in " \t";
      }
      BlanksAre(text, 2, k);
      BlanksFrom(t, 2, k);
      BlanksFrom(t, 1, 1);
    } else {
      BlanksAre(text, 1, k);
      BlanksFrom(t, 1, k);
    }
  }

  lemma BlanksAre(t: seq<byte>, i: nat, end: nat)
    requires end <= |t| && Blanks(t, i, end)
    ensures forall k | i <= k < end :: IsBlank(t[k])
  {
    forall k | i <= k < end ensures IsBlank(t[k]) {
      assert t[k] as char in " \t";
    }
  }

  lemma GoodKey(t: seq<byte>, k: nat)
    requires t != [] && KeyOffset(t) == k < |t| && IsBareKeyStart(t[k])
    ensures !BadKey(t)
  {
  }

  lemma {:induction false} BlanksFrom(t: seq<byte>, i: nat, end: nat)
    requires i <= end < |t| && !IsBlank(t[end]) && forall k | i <= k < end :: IsBlank(t[k])
    ensures BlanksEnd(t, i) == end
    decreases end - i
  {
    if i < end {
      BlanksFrom(t, i + 1, end);
    }
  }

  lemma WithoutNewline(t: seq<byte>)
    ensures Without(t, "\n") <==> NoNewline(t)
  {
    if Without(t, "\n") {
      forall i | 0 <= i < |t| ensures t[i] != LINE_FEED {
        assert t[i] as char !in "\n";
        assert '\n' in "\n";
      }
    }
  }

  /** A piece is a lexeme, and leaves behind the place it leaves. */
  lemma PieceIsLexeme(l: Lexeme, p: Place, behind: seq<byte>)
    requires Brackets(p.open) && IsPiece(l, p, behind)
    ensures Brackets(Then(p, l).open)
    ensures IsLexeme(l, ContextOf(p), behind) && After(ContextOf(p), l) == ContextOf(Then(p, l))
  {
    hide HeaderPieceOf, HeaderIsFine, LongStringPiece, LongString, Quoted, ShortBody, Without, OpensHeader;
    match l
    case NewLine =>
    case Remark(text) => WithoutNewline(text);
    case OneLineString(text) => QuotedIsShort(text[1..|text| - 1], text[0]);
    case MultiLineString(text) => LongPieceIsLong(text, behind);
    case HeaderLine(text) =>
      HeaderFacts(text);
      OpensHeaderAt(p, text[0]);
      HeaderPieceIsFine(text, behind);
    case OtherByte(b) => OtherIsLexeme(b, p, behind);
  }

  lemma HeaderFacts(text: seq<byte>)
    requires HeaderPieceOf(text)
    ensures StartsWith(text, '[') && NoNewline(text)
  {
    WithoutNewline(text);
  }

  lemma OtherIsLexeme(b: byte, p: Place, behind: seq<byte>)
    requires Brackets(p.open) && IsPiece(OtherByte(b), p, behind)
    ensures Brackets(Then(p, OtherByte(b)).open)
    ensures IsLexeme(OtherByte(b), ContextOf(p), behind)
    ensures AfterByte(ContextOf(p), b) == ContextOf(Then(p, OtherByte(b)))
  {
    hide OpensHeader;
    OpensHeaderAt(p, b);
    var c := b as char;
    if p.open != "" {
      var butLast := p.open[..|p.open| - 1];
      assert InAscii(p.open)[..|p.open| - 1] == InAscii(butLast);
      assert p.open[|p.open| - 1] in p.open;
      assert forall x <- butLast :: x in p.open;
    }
    assert InAscii(p.open + [c]) == InAscii(p.open) + [CodeOf(c)];
    assert c in " \t\r" <==> c == ' ' || c == '\t' || c == '\r';
    assert c !in "\n#\"'" && '\n' in "\n#\"'" && '#' in "\n#\"'" && '"' in "\n#\"'" && '\'' in "\n#\"'";
  }

  lemma {:induction false} PiecesAreLexed(ls: seq<Lexeme>, p: Place, rest: seq<byte>)
    requires Brackets(p.open) && InPieces(ls, p, rest)
    ensures Brackets(Behind(ls, p).open)
    ensures Lexed(ls, ContextOf(p), rest) && ContextAfter(ContextOf(p), ls) == ContextOf(Behind(ls, p))
    decreases ls
  {
    hide IsPiece, IsLexeme, After, Then;
    if ls != [] {
      PieceIsLexeme(ls[0], p, Text(ls[1..]) + rest);
      PiecesAreLexed(ls[1..], Then(p, ls[0]), rest);
    }
  }

  // ---- What becomes of a document.

  ghost predicate Refused(t: seq<byte>) {
    exists r :: GrammarRefuses(t, r)
  }

  /**
   Accepted: headers `[a` and `[[a`, comments, strings that close, and brackets that match, in any order and
   with any text inside strings and comments.
   */
  lemma PiecesAreAccepted(ls: seq<Lexeme>)
    requires InPieces(ls, START, [])
    ensures !Refused(Text(ls))
  {
    hide InPieces, RefusedBehind, FirstRefusal;
    PiecesAreLexed(ls, START, []);
    LexedIsAccepted(ls, ContextOf(START));
    forall r ensures !GrammarRefuses(Text(ls), r) {
      RefusedExactly(Text(ls), Context([], true), r);
    }
  }

  /** What the grammar refuses behind pieces is refused in the document, at the same place. */
  lemma RefusedBehindPieces(ls: seq<Lexeme>, t: seq<byte>, r: Refusal)
    requires InPieces(ls, START, t)
    requires Brackets(Behind(ls, START).open) ==> Faulty(ContextOf(Behind(ls, START)), t, r)
    ensures GrammarRefuses(Text(ls) + t, Refusal(|Text(ls)| + r.offset, r.reason))
  {
    hide InPieces, Lexed, Faulty;
    PiecesAreLexed(ls, START, t);
    var all, n := Text(ls) + t, |Text(ls)|;
    assert all[..n] == Text(ls) && all[n..] == t;
    FaultInside(ContextOf(Behind(ls, START)), t, r);
    assert r.offset < |t| by {
      FaultOffset(ContextOf(Behind(ls, START)), t, r);
    }
    assert Refusal(n + r.offset - n, r.reason) == r;
    assert RefusedBehind(ls, Context([], true), all, Refusal(n + r.offset, r.reason));
  }

  lemma FaultOffset(ctx: Context, t: seq<byte>, r: Refusal)
    requires Faulty(ctx, t, r)
    ensures r.offset < |t|
  {
  }

  /** Behind any pieces a byte that is no ASCII is refused where it stands. */
  lemma NonAsciiIsRefused(ls: seq<Lexeme>, t: seq<byte>)
    requires InPieces(ls, START, t) && t != [] && t[0] >= 128
    ensures GrammarRefuses(Text(ls) + t, Refusal(|Text(ls)|, NonAscii))
  {
    hide InPieces;
    PiecesAreLexed(ls, START, t);
    RefusedBehindPieces(ls, t, Refusal(0, NonAscii));
  }

  /** So is a brace that closes an array. */
  lemma ClosingBraceIsRefused(ls: seq<Lexeme>, t: seq<byte>)
    requires InPieces(ls, START, t) && StartsWith(t, '}')
    requires Behind(ls, START).open != "" && Behind(ls, START).open[|Behind(ls, START).open| - 1] == '['
    ensures GrammarRefuses(Text(ls) + t, Refusal(|Text(ls)|, UnmatchedBrace))
  {
    hide InPieces;
    PiecesAreLexed(ls, START, t);
    RefusedBehindPieces(ls, t, Refusal(0, UnmatchedBrace));
  }

  /** And a header whose key begins with anything but a letter, a digit, `_`, `-`, a quote or a bracket. */
  lemma HeaderKeyIsRefused(ls: seq<Lexeme>, t: seq<byte>, k: nat)
    requires InPieces(ls, START, t) && KeyStandsAt(t, k)
    requires Behind(ls, START).atStart && '[' !in Behind(ls, START).open
    requires !BeginsKey(t[k] as char) && t[k] as char !in "]\"'"
    ensures GrammarRefuses(Text(ls) + t, Refusal(|Text(ls)| + k, BadHeaderKey))
  {
    hide InPieces, OpensHeader, IsBareKeyStart, BeginsKey, KeyStandsAt, Spaced, KeyOffset;
    assert StartsWith(t, '[') && k < |t| by {
      HeaderStarts(t, k);
    }
    PiecesAreLexed(ls, START, t);
    OpensHeaderAt(Behind(ls, START), t[0]);
    KeyCharacters(t[k]);
    KeyFound(t, [], k);
    assert t + [] == t;
    assert ']' in "]\"'" && '"' in "]\"'" && '\'' in "]\"'";
    RefusedBehindPieces(ls, t, Refusal(k, BadHeaderKey));
  }

  lemma HeaderStarts(t: seq<byte>, k: nat)
    requires KeyStandsAt(t, k)
    ensures StartsWith(t, '[') && k < |t|
  {
  }

  /** And a byte that is no ASCII in the line of a header, outside its strings and in front of its comment. */
  lemma NonAsciiInHeaderIsRefused(ls: seq<Lexeme>, t: seq<byte>, k: nat, line: nat)
    requires InPieces(ls, START, t) && KeyStandsAt(t, k) && k < line < |t| && BeginsKey(t[k] as char)
    requires Behind(ls, START).atStart && '[' !in Behind(ls, START).open
    requires Plain(t[..line]) && Without(t[..line], "\n") && t[line] >= 128
    ensures GrammarRefuses(Text(ls) + t, Refusal(|Text(ls)| + line, NonAscii))
  {
    hide InPieces, OpensHeader, IsBareKeyStart, BeginsKey, KeyStandsAt, Spaced, BadKey, Plain, Without;
    assert StartsWith(t, '[') by {
      HeaderStarts(t, k);
    }
    PiecesAreLexed(ls, START, t);
    OpensHeaderAt(Behind(ls, START), t[0]);
    KeyCharacter(t[k]);
    KeyFound(t, [], k);
    assert t + [] == t;
    GoodKey(t, k);
    var pieces := PlainIsOutside(t[..line]);
    assert CoveredBy(t, line, pieces);
    RefusedBehindPieces(ls, t, Refusal(line, NonAscii));
  }

  /** A document `[b]` is refused if and only if `b` cannot begin a key, for every `b` that stands for itself. */
  lemma HeaderKeyExactly(b: byte)
    requires b < 128 && b as char !in "\n\t []\"'#"
    ensures Refused(InAscii("[") + [b] + InAscii("]"))
            <==> b as char !in
                 "abcdefghijklmnopqrstuvwxyz" + "ABCDEFGHIJKLMNOPQRSTUVWXYZ" + "0123456789" + "_-"
  {
    hide GrammarRefuses, BeginsKey, KeyStandsAt;
    var t := [OPEN_BRACKET, b, CLOSE_BRACKET];
    assert t == InAscii("[") + [b] + InAscii("]");
    KeyCharactersWritten(b as char);
    OneByteKey(b);
    if BeginsKey(b as char) {
      OneHeaderAccepted(b);
    } else {
      assert Text([]) + t == t;
      HeaderKeyIsRefused([], t, 1);
    }
  }

  lemma OneByteKey(b: byte)
    requires b as char !in "\n\t []\"'#"
    ensures KeyStandsAt([OPEN_BRACKET, b, CLOSE_BRACKET], 1) && b as char !in "]\"'" && !IsQuote(b)
  {
    var others := "\n\t []\"'#";
    assert others[1] == '\t' && others[2] == ' ' && others[3] == '[' && others[4] == ']';
    assert others[5] == '"' && others[6] == '\'';
  }

  lemma OneHeaderAccepted(b: byte)
    requires BeginsKey(b as char) && KeyStandsAt([OPEN_BRACKET, b, CLOSE_BRACKET], 1)
    ensures !Refused([OPEN_BRACKET, b, CLOSE_BRACKET])
  {
    hide GrammarRefuses, BeginsKey, KeyStandsAt;
    var t := [OPEN_BRACKET, b, CLOSE_BRACKET];
    var ls := [HeaderLine(t)];
    KeyIsNoQuote(b);
    forall i | 0 <= i < 3 ensures t[i] < 128 && t[i] as char !in "\"'#" && t[i] as char !in "\n" {
      assert t[i] == OPEN_BRACKET || t[i] == b || t[i] == CLOSE_BRACKET;
      assert OPEN_BRACKET as char == '[' && CLOSE_BRACKET as char == ']';
    }
    assert KeyStandsAt(t, 1) && BeginsKey(t[1] as char);
    assert HeaderPieceOf(t);
    assert ls[1..] == [];
    assert Text(ls) == t;
    PiecesAreAccepted(ls);
  }

  lemma KeyIsNoQuote(b: byte)
    requires BeginsKey(b as char)
    ensures b < 128 && b as char !in "\"'#" && b as char !in "\n"
  {
    KeyCharacters(b);
  }

  /** A byte order mark in front counts for offsets and for nothing else. */
  lemma MarkIsSkipped(t: seq<byte>, r: Refusal)
    ensures TomlScanner.IsRefusal([0xEF, 0xBB, 0xBF] + t, Refusal(3 + r.offset, r.reason)) <==> GrammarRefuses(t, r)
    ensures |t| < 3 || t[..3] != [0xEF, 0xBB, 0xBF] ==> (TomlScanner.IsRefusal(t, r) <==> GrammarRefuses(t, r))
  {
    hide GrammarRefuses;
    var marked := [0xEF, 0xBB, 0xBF] + t;
    assert marked[3..] == t && marked[..3] == [0xEF, 0xBB, 0xBF] && t[0..] == t;
    assert Refusal(3 + r.offset - 3, r.reason) == r && Refusal(r.offset - 0, r.reason) == r;
  }

  /** A string left open at the end of its line ends the search: the parser is left to report it. */
  lemma OpenStringIsAccepted(ls: seq<Lexeme>, t: seq<byte>, line: nat)
    requires InPieces(ls, START, t) && 0 < line <= |t| && t[0] as char in "\"'"
    requires Without(t[1..line], [t[0] as char, '\\', '\n']) && LineEnds(t[line..])
    ensures !Refused(Text(ls) + t)
  {
    hide InPieces, RefusedBehind, Without, Lexed;
    PiecesAreLexed(ls, START, t);
    LexemesSkipped(ls, ContextOf(START), t);
    assert t[1..][..line - 1] == t[1..line] && t[1..][line - 1..] == t[line..];
    NeverCloses(t[0], t[1..], line - 1);
    OpenIsUnfinished(t, ContextOf(Behind(ls, START)));
    var all := Text(ls) + t;
    forall r ensures !GrammarRefuses(all, r) {
      RefusedExactly(all, Context([], true), r);
    }
  }

  lemma WithoutRest(t: seq<byte>, chars: string)
    requires Without(t, chars) && t != []
    ensures Without(t[1..], chars)
  {
  }

  lemma {:induction false} NeverCloses(q: byte, t: seq<byte>, line: nat)
    requires q != LINE_FEED && line <= |t|
    requires Without(t[..line], [q as char, '\\', '\n']) && LineEnds(t[line..])
    ensures ShortEnd(q, t).None?
    ensures |t| < 2 || t[0] != q || t[1] != q
  {
    if line > 0 {
      var others := [q as char, '\\', '\n'];
      assert t[..line][0] as char !in others && others[0] == q as char && others[1] == '\\' && others[2] == '\n';
      assert t[1..][..line - 1] == t[..line][1..];
      assert Without(t[1..][..line - 1], others) by {
        WithoutRest(t[..line], others);
      }
      NeverCloses(q, t[1..], line - 1);
    }
  }

  lemma OpenIsUnfinished(t: seq<byte>, ctx: Context)
    requires t != [] && t[0] as char in "\"'" && ShortEnd(t[0], t[1..]).None?
    requires |t| < 3 || t[1] != t[0] || t[2] != t[0]
    ensures FirstRefusal(t, ctx) == None
  {
    hide ShortEnd;
    assert '"' in "\"'" && '\'' in "\"'" && t[0] as char in ['"', '\''];
  }

  // ---- A document with tables.

  lemma InFront(l: Lexeme, ls: seq<Lexeme>, p: Place, rest: seq<byte>)
    requires IsPiece(l, p, Text(ls) + rest) && InPieces(ls, Then(p, l), rest)
    ensures InPieces([l] + ls, p, rest) && Text([l] + ls) == Raw(l) + Text(ls)
  {
    hide IsPiece, Then, Raw;
    assert ([l] + ls)[1..] == ls;
  }

  /** Text on a line outside strings and brackets, byte by byte. */
  predicate Words(t: seq<byte>) {
    t != [] && forall i | 0 <= i < |t| :: t[i] < 128 && t[i] as char !in "\n#\"'[]{}"
  }

  lemma WordIsPiece(b: byte, p: Place, behind: seq<byte>)
    requires b < 128 && b as char !in "\n#\"'[]{}" && (p.atStart ==> b as char !in " \t\r")
    ensures IsPiece(OtherByte(b), p, behind) && Then(p, OtherByte(b)) == Place(p.open, false)
  {
    var special := "\n#\"'[]{}";
    assert special[0] == '\n' && special[1] == '#' && special[2] == '"' && special[3] == '\'';
    assert special[4] == '[' && special[5] == ']' && special[6] == '{' && special[7] == '}';
    assert "\n#\"'" == special[..4];
  }

  lemma {:induction false} WordsInFront(t: seq<byte>, ls: seq<Lexeme>, p: Place) returns (all: seq<Lexeme>)
    requires Words(t) && (p.atStart ==> t[0] as char !in " \t\r") && InPieces(ls, Place(p.open, false), [])
    ensures InPieces(all, p, []) && Text(all) == t + Text(ls)
  {
    hide InPieces, Then, IsPiece;
    var l := OtherByte(t[0]);
    if |t| == 1 {
      all := ls;
    } else {
      all := WordsInFront(t[1..], ls, Place(p.open, false));
    }
    WordIsPiece(t[0], p, Text(all) + []);
    InFront(l, all, p, []);
    all := [l] + all;
  }

  lemma LineInFront(l: Lexeme, more: seq<Lexeme>, p: Place) returns (all: seq<Lexeme>)
    requires InPieces(more, START, []) && Then(p, l).open == ""
    requires IsPiece(l, p, [LINE_FEED] + Text(more))
    ensures InPieces(all, p, []) && Text(all) == Raw(l) + ([LINE_FEED] + Text(more))
  {
    hide InPieces, IsPiece;
    assert Text(more) + [] == Text(more);
    assert IsPiece(NewLine, Then(p, l), Text(more)) by {
      NewLineIsPiece(Then(p, l), Text(more));
    }
    assert Then(Then(p, l), NewLine) == START;
    InFront(NewLine, more, Then(p, l), []);
    all := [NewLine] + more;
    assert Text(all) + [] == [LINE_FEED] + Text(more);
    InFront(l, all, p, []);
    all := [l] + all;
  }

  lemma NewLineIsPiece(p: Place, behind: seq<byte>)
    ensures IsPiece(NewLine, p, behind)
  {
  }

  /** A table, or an array of tables, on a line of its own. */
  lemma HeaderInFront(text: string, more: seq<Lexeme>) returns (all: seq<Lexeme>)
    requires InPieces(more, START, []) && HeaderPieceOf(InAscii(text))
    ensures InPieces(all, START, []) && Text(all) == InAscii(text) + ([LINE_FEED] + Text(more))
  {
    hide InPieces, HeaderPieceOf;
    all := LineInFront(HeaderLine(InAscii(text)), more, START);
  }

  /** A key and a string. */
  lemma StringInLine(words: string, text: string, more: seq<Lexeme>) returns (all: seq<Lexeme>)
    requires InPieces(more, START, []) && Words(InAscii(words)) && words[0] !in " \t\r" && words[0] < '\U{0080}'
    requires StringPiece(InAscii(text), [LINE_FEED] + Text(more))
    ensures InPieces(all, START, [])
    ensures Text(all) == InAscii(words) + (InAscii(text) + ([LINE_FEED] + Text(more)))
  {
    hide InPieces, StringPiece;
    all := LineInFront(OneLineString(InAscii(text)), more, Place("", false));
    assert Words(InAscii(words)) && InAscii(words)[0] as char == words[0];
    all := WordsInFront(InAscii(words), all, START);
  }

  lemma TwoTables()
    ensures HeaderPieceOf(InAscii("[[types]]")) && HeaderPieceOf(InAscii("[emit]"))
  {
    hide KeyStandsAt, BeginsKey, Plain;
    var a, b := InAscii("[[types]]"), InAscii("[emit]");
    TwoKeys();
    assert Plain(a) && Without(a, "\n") by {
      PlainText("[[types]]");
    }
    assert Plain(b) && Without(b, "\n") by {
      PlainText("[emit]");
    }
    assert KeyStandsAt(a, 2) && BeginsKey(a[2] as char);
    assert KeyStandsAt(b, 1) && BeginsKey(b[1] as char);
  }

  lemma TwoKeys()
    ensures KeyStandsAt(InAscii("[[types]]"), 2) && InAscii("[[types]]")[2] as char == 't' && BeginsKey('t')
    ensures KeyStandsAt(InAscii("[emit]"), 1) && InAscii("[emit]")[1] as char == 'e' && BeginsKey('e')
  {
    Consecutive(LETTERS, 't');
    Consecutive(LETTERS, 'e');
  }

  lemma PlainText(text: string)
    requires forall i | 0 <= i < |text| :: text[i] < '\U{0080}' && text[i] !in "\"'#\n"
    ensures Plain(InAscii(text)) && Without(InAscii(text), "\n")
  {
    var t, four := InAscii(text), "\"'#\n";
    assert four[0] == '"' && four[1] == '\'' && four[2] == '#' && four[3] == '\n';
    forall i | 0 <= i < |t| ensures t[i] < 128 && t[i] as char !in "\"'#" && t[i] as char !in "\n" {
      assert t[i] == CodeOf(text[i]) && t[i] as char == text[i];
      assert "\"'#" == four[..3] && text[i] !in four;
    }
  }

  /** A key and an array of one string. */
  lemma ArrayInLine(words: string, text: string, more: seq<Lexeme>) returns (all: seq<Lexeme>)
    requires InPieces(more, START, []) && Words(InAscii(words)) && words[0] !in " \t\r" && words[0] < '\U{0080}'
    requires StringPiece(InAscii(text), [CLOSE_BRACKET] + ([LINE_FEED] + Text(more)))
    ensures InPieces(all, START, [])
    ensures Text(all)
            == InAscii(words)
               + ([OPEN_BRACKET] + (InAscii(text) + ([CLOSE_BRACKET] + ([LINE_FEED] + Text(more)))))
  {
    hide InPieces, StringPiece;
    var inside := Place("[", false);
    all := LineInFront(OtherByte(CLOSE_BRACKET), more, inside);
    assert Text(all) + [] == Text(all);
    InFront(OneLineString(InAscii(text)), all, inside, []);
    all := [OneLineString(InAscii(text))] + all;
    assert Then(Place("", false), OtherByte(OPEN_BRACKET)) == inside;
    InFront(OtherByte(OPEN_BRACKET), all, Place("", false), []);
    all := [OtherByte(OPEN_BRACKET)] + all;
    assert Words(InAscii(words)) && InAscii(words)[0] as char == words[0];
    all := WordsInFront(InAscii(words), all, START);
  }

  lemma ThreeStrings(behind: seq<byte>)
    ensures StringPiece(InAscii("\"price\""), [LINE_FEED] + behind)
    ensures StringPiece(InAscii("\"[]}#\""), [LINE_FEED] + behind)
    ensures StringPiece(InAscii("\"*\""), [CLOSE_BRACKET] + ([LINE_FEED] + behind))
  {
    QuotedPlain(InAscii("\"price\"")[1..6]);
    QuotedPlain(InAscii("\"[]}#\"")[1..5]);
    QuotedPlain(InAscii("\"*\"")[1..2]);
  }

  lemma {:induction false} QuotedPlain(body: seq<byte>)
    requires forall i | 0 <= i < |body| :: body[i] as char != '"' && body[i] as char != '\\' && body[i] as char != '\n'
    ensures Quoted(body, '"')
  {
    if body != [] {
      QuotedPlain(body[1..]);
    }
  }

  lemma WordsOfKeys()
    ensures Words(InAscii("name = ")) && Words(InAscii("fields = "))
    ensures "name = "[0] == 'n' && 'n' !in " \t\r" && "fields = "[0] == 'f' && 'f' !in " \t\r"
  {
    AreWords("name = ");
    AreWords("fields = ");
  }

  lemma AreWords(text: string)
    requires text != "" && forall i | 0 <= i < |text| :: 'a' <= text[i] <= 'z' || text[i] == ' ' || text[i] == '='
    ensures Words(InAscii(text))
  {
    var t := InAscii(text);
    forall i | 0 <= i < |t| ensures t[i] < 128 && t[i] as char !in "\n#\"'[]{}" {
      assert t[i] == CodeOf(text[i]);
    }
  }

  /** Arrays of tables, tables, strings with brackets in them and arrays pass. */
  lemma DocumentWithTablesAccepted()
    ensures !Refused(InAscii("[[types]]\n") + InAscii("name = \"price\"\n") + InAscii("\n")
                     + InAscii("[emit]\n") + InAscii("name = \"[]}#\"\n") + InAscii("fields = [\"*\"]\n"))
  {
    hide InPieces, StringPiece, HeaderPieceOf, Refused, IsPiece, Words;
    WordsOfKeys();
    TwoTables();
    ThreeStrings([]);
    assert InPieces([], START, []) by {
      NoPieces();
    }
    var last := ArrayInLine("fields = ", "\"*\"", []);
    ThreeStrings(Text(last));
    var fifth := StringInLine("name = ", "\"[]}#\"", last);
    var fourth := HeaderInFront("[emit]", fifth);
    assert IsPiece(NewLine, START, Text(fourth) + []) by {
      NewLineIsPiece(START, Text(fourth) + []);
    }
    InFront(NewLine, fourth, START, []);
    var third := [NewLine] + fourth;
    ThreeStrings(Text(third));
    var second := StringInLine("name = ", "\"price\"", third);
    var first := HeaderInFront("[[types]]", second);
    PiecesAreAccepted(first);
    LinesWritten();
    Together(InAscii("[[types]]"), InAscii("name = "), InAscii("\"price\""), InAscii("[emit]"), InAscii("\"[]}#\""),
             InAscii("fields = "), InAscii("\"*\""));
  }

  lemma Together(a: seq<byte>, b: seq<byte>, c: seq<byte>, d: seq<byte>, e: seq<byte>, f: seq<byte>, g: seq<byte>)
    ensures var n := [LINE_FEED];
            a + (n + (b + (c + (n + (n + (d + (n + (b + (e + (n + (f + ([OPEN_BRACKET] + (g + ([CLOSE_BRACKET]
              + (n + [])))))))))))))))
            == (a + n) + (b + (c + n)) + n + (d + n) + (b + (e + n))
               + (f + ([OPEN_BRACKET] + (g + ([CLOSE_BRACKET] + n))))
  {
  }

  lemma NoPieces()
    ensures InPieces([], START, [])
  {
  }

  lemma LinesWritten()
    ensures InAscii("[[types]]\n") == InAscii("[[types]]") + [LINE_FEED]
    ensures InAscii("name = \"price\"\n") == InAscii("name = ") + (InAscii("\"price\"") + [LINE_FEED])
    ensures InAscii("\n") == [LINE_FEED]
    ensures InAscii("[emit]\n") == InAscii("[emit]") + [LINE_FEED]
    ensures InAscii("name = \"[]}#\"\n") == InAscii("name = ") + (InAscii("\"[]}#\"") + [LINE_FEED])
    ensures InAscii("fields = [\"*\"]\n")
            == InAscii("fields = ") + ([OPEN_BRACKET] + (InAscii("\"*\"") + ([CLOSE_BRACKET] + [LINE_FEED])))
  {
    assert "name = \"price\"\n" == "name = " + ("\"price\"" + "\n");
    assert "name = \"[]}#\"\n" == "name = " + ("\"[]}#\"" + "\n");
    assert "fields = [\"*\"]\n" == "fields = " + ("[" + ("\"*\"" + ("]" + "\n")));
  }
}
