/**
 The lexemes of a document as far as the compiler looks at them before parsing: newlines, comments, four
 kinds of string, table headers and single bytes. A document is refused exactly where a run of lexemes is
 followed by a byte that can be none of them.
 */
module TomlGrammar {
  import opened Bytes

  const TAB: byte := 0x09
  const CARRIAGE_RETURN: byte := 0x0D
  const SPACE: byte := 0x20
  const QUOTE: byte := 0x22
  const HASH: byte := 0x23
  const APOSTROPHE: byte := 0x27
  const OPEN_BRACKET: byte := 0x5B
  const BACKSLASH: byte := 0x5C
  const CLOSE_BRACKET: byte := 0x5D
  const OPEN_BRACE: byte := 0x7B
  const CLOSE_BRACE: byte := 0x7D

  predicate IsBareKeyStart(b: byte) {
    0x61 <= b <= 0x7A || 0x41 <= b <= 0x5A || 0x30 <= b <= 0x39 || b == 0x5F || b == 0x2D
  }

  predicate IsBlank(b: byte) {
    b == SPACE || b == TAB
  }

  predicate IsQuote(b: byte) {
    b == QUOTE || b == APOSTROPHE
  }

  predicate NoNewline(t: seq<byte>) {
    forall i | 0 <= i < |t| :: t[i] != LINE_FEED
  }

  predicate AtLineEnd(rest: seq<byte>) {
    rest == [] || rest[0] == LINE_FEED
  }

  predicate NotFollowedBy(rest: seq<byte>, b: byte) {
    rest == [] || rest[0] != b
  }

  // ---- The grammar.

  /** Inside a string on one line: a backslash in a basic string takes the next byte along. */
  predicate ShortBody(q: byte, body: seq<byte>) {
    if body == [] then true
    else if body[0] == LINE_FEED || body[0] == q then false
    else if q == QUOTE && body[0] == BACKSLASH then |body| >= 2 && body[1] != LINE_FEED && ShortBody(q, body[2..])
    else ShortBody(q, body[1..])
  }

  predicate ShortString(raw: seq<byte>) {
    |raw| >= 2 && IsQuote(raw[0]) && raw[|raw| - 1] == raw[0] && ShortBody(raw[0], raw[1..|raw| - 1])
  }

  /** Inside a multi-line string: one or two quotes in a row, but no more and not at the end. */
  predicate LongBody(q: byte, body: seq<byte>) {
    if body == [] then true
    else if q == QUOTE && body[0] == BACKSLASH then |body| >= 2 && LongBody(q, body[2..])
    else if body[0] != q then LongBody(q, body[1..])
    else if |body| >= 2 && body[1] != q then LongBody(q, body[1..])
    else |body| >= 3 && body[2] != q && LongBody(q, body[2..])
  }

  function Run(q: byte, n: nat): (run: seq<byte>)
    ensures |run| == n && forall i | 0 <= i < n :: run[i] == q
  {
    seq(n, _ => q)
  }

  predicate LongParts(raw: seq<byte>, q: byte, body: seq<byte>, n: nat) {
    IsQuote(q) && n >= 3 && LongBody(q, body) && raw == [q, q, q] + (body + Run(q, n))
  }

  /** Three quotes open a multi-line string, and three or more in a row close it. */
  ghost predicate LongString(raw: seq<byte>) {
    exists q, body, n: nat :: LongParts(raw, q, body, n)
  }

  /** What a table header line is made of in front of its comment. */
  predicate HeaderPiece(p: seq<byte>) {
    || ShortString(p)
    || (|p| == 1 && p[0] < 0x80 && p[0] != LINE_FEED && p[0] != HASH && !IsQuote(p[0]))
  }

  predicate HeaderPieces(pieces: seq<seq<byte>>) {
    forall p <- pieces :: HeaderPiece(p)
  }

  predicate CoveredBy(t: seq<byte>, k: nat, pieces: seq<seq<byte>>) {
    k <= |t| && HeaderPieces(pieces) && t[..k] == Joined(pieces)
  }

  /** Offset `k` of a header line lies outside its strings, and no comment and no other byte comes before it. */
  ghost predicate OutsideStrings(t: seq<byte>, k: nat) {
    exists pieces :: CoveredBy(t, k, pieces)
  }

  /** Every string of the line is closed on it. */
  ghost predicate StringsClose(line: seq<byte>) {
    exists k: nat :: k <= |line| && OutsideStrings(line, k) && (k == |line| || line[k] == HASH)
  }

  /** The first offset from `i` on that holds no blank. */
  function BlanksEnd(t: seq<byte>, i: nat): (end: nat)
    requires i <= |t|
    ensures i <= end <= |t|
    ensures forall k | i <= k < end :: IsBlank(t[k])
    ensures end < |t| ==> !IsBlank(t[end])
    decreases |t| - i
  {
    if i < |t| && IsBlank(t[i]) then BlanksEnd(t, i + 1) else i
  }

  /** `[ [`, which is left alone. */
  predicate Spaced(t: seq<byte>)
    requires t != []
  {
    var second := BlanksEnd(t, 1);
    second != 1 && second < |t| && t[second] == OPEN_BRACKET
  }

  /** Where the key of a header begins, behind one bracket or two. */
  function KeyOffset(t: seq<byte>): nat
    requires t != []
  {
    if |t| > 1 && t[1] == OPEN_BRACKET then BlanksEnd(t, 2) else BlanksEnd(t, 1)
  }

  predicate BadKey(t: seq<byte>)
    requires t != []
  {
    var k := KeyOffset(t);
    k < |t| && t[k] != CLOSE_BRACKET && !IsQuote(t[k]) && !IsBareKeyStart(t[k])
  }

  /** What the lexemes so far leave behind: the brackets still open, and whether a line has just begun. */
  datatype Context = Context(containers: seq<byte>, atLineStart: bool)

  function OpenArrays(containers: seq<byte>): nat {
    if containers == [] then 0
    else OpenArrays(containers[..|containers| - 1]) + if containers[|containers| - 1] == OPEN_BRACKET then 1 else 0
  }

  function Innermost(containers: seq<byte>): Option<byte> {
    if containers == [] then None else Some(containers[|containers| - 1])
  }

  predicate OpensHeader(ctx: Context, b: byte) {
    b == OPEN_BRACKET && ctx.atLineStart && OpenArrays(ctx.containers) == 0
  }

  datatype Lexeme =
    | NewLine
    | Remark(text: seq<byte>)
    | OneLineString(text: seq<byte>)
    | MultiLineString(text: seq<byte>)
    | HeaderLine(text: seq<byte>)
    | OtherByte(b: byte)

  function Raw(l: Lexeme): seq<byte> {
    match l
    case NewLine => [LINE_FEED]
    case OtherByte(b) => [b]
    case _ => l.text
  }

  ghost predicate HeaderIsFine(line: seq<byte>, rest: seq<byte>)
    requires line != []
  {
    Spaced(line + rest) || (!BadKey(line + rest) && StringsClose(line))
  }

  /** A lexeme in its context and in front of the rest of the document. */
  ghost predicate IsLexeme(l: Lexeme, ctx: Context, rest: seq<byte>) {
    match l
    case NewLine => true
    case Remark(text) => text != [] && text[0] == HASH && NoNewline(text) && AtLineEnd(rest)
    case OneLineString(text) => ShortString(text) && (|text| == 2 ==> NotFollowedBy(rest, text[0]))
    case MultiLineString(text) => LongString(text) && NotFollowedBy(rest, text[0])
    case HeaderLine(text) =>
      text != [] && OpensHeader(ctx, text[0]) && NoNewline(text) && AtLineEnd(rest) && HeaderIsFine(text, rest)
    case OtherByte(b) =>
      && b < 0x80 && b != LINE_FEED && b != HASH && !IsQuote(b) && !OpensHeader(ctx, b)
      && !(b == CLOSE_BRACE && Innermost(ctx.containers) == Some(OPEN_BRACKET))
  }

  /** Brackets open and close; any other byte but a blank, and every string and header, ends the start of a line. */
  function After(ctx: Context, l: Lexeme): Context {
    match l
    case NewLine => ctx.(atLineStart := true)
    case Remark(_) => ctx
    case OtherByte(b) => AfterByte(ctx, b)
    case _ => ctx.(atLineStart := false)
  }

  function AfterByte(ctx: Context, b: byte): Context {
    var open, innermost := ctx.containers, Innermost(ctx.containers);
    if ctx.atLineStart && (IsBlank(b) || b == CARRIAGE_RETURN) then ctx
    else if b == OPEN_BRACKET || b == OPEN_BRACE then Context(open + [b], false)
    else if b == CLOSE_BRACKET && innermost == Some(OPEN_BRACKET) then Context(open[..|open| - 1], false)
    else if b == CLOSE_BRACE && innermost == Some(OPEN_BRACE) then Context(open[..|open| - 1], false)
    else ctx.(atLineStart := false)
  }

  function Text(ls: seq<Lexeme>): seq<byte> {
    if ls == [] then [] else Raw(ls[0]) + Text(ls[1..])
  }

  ghost predicate Lexed(ls: seq<Lexeme>, ctx: Context, rest: seq<byte>)
    decreases ls
  {
    ls == [] || (IsLexeme(ls[0], ctx, Text(ls[1..]) + rest) && Lexed(ls[1..], After(ctx, ls[0]), rest))
  }

  function ContextAfter(ctx: Context, ls: seq<Lexeme>): Context
    decreases ls
  {
    if ls == [] then ctx else ContextAfter(After(ctx, ls[0]), ls[1..])
  }

  datatype Reason = NonAscii | BadHeaderKey | UnmatchedBrace

  datatype Refusal = Refusal(offset: nat, reason: Reason)

  /** What stands in the way of a next lexeme: nothing else is refused. */
  ghost predicate Faulty(ctx: Context, t: seq<byte>, r: Refusal) {
    && r.offset < |t|
    && match r.reason
       case NonAscii =>
         && t[r.offset] >= 0x80
         && (r.offset == 0 || (OpensHeader(ctx, t[0]) && !Spaced(t) && !BadKey(t) && OutsideStrings(t, r.offset)))
       case BadHeaderKey => OpensHeader(ctx, t[0]) && !Spaced(t) && BadKey(t) && r.offset == KeyOffset(t)
       case UnmatchedBrace =>
         r.offset == 0 && t[0] == CLOSE_BRACE && Innermost(ctx.containers) == Some(OPEN_BRACKET)
  }

  /** A run of lexemes in front of the fault. */
  ghost predicate RefusedBehind(ls: seq<Lexeme>, ctx: Context, t: seq<byte>, r: Refusal) {
    var n := |Text(ls)|;
    && n <= r.offset && n <= |t| && t[..n] == Text(ls) && Lexed(ls, ctx, t[n..])
    && Faulty(ContextAfter(ctx, ls), t[n..], Refusal(r.offset - n, r.reason))
  }

  /** The grammar has a place where the document must be refused. */
  ghost predicate GrammarRefuses(t: seq<byte>, r: Refusal) {
    exists ls :: RefusedBehind(ls, Context([], true), t, r)
  }
}
