/**
 The search for lexemes, and the proof that it finds exactly those of the grammar: a document is refused by
 the search if and only if the grammar says so, at the same offset and for the same reason.
 */
module TomlLexing {
  import opened Bytes
  import opened TomlGrammar

  // ---- Looking for the next lexeme.

  function Add(n: nat, end: Option<nat>): Option<nat> {
    match end
    case None => None
    case Some(m) => Some(n + m)
  }

  function LineLength(t: seq<byte>): (n: nat)
    ensures n <= |t| && NoNewline(t[..n]) && AtLineEnd(t[n..])
  {
    if AtLineEnd(t) then 0
    else
      var n := LineLength(t[1..]);
      assert t[..1 + n] == [t[0]] + t[1..][..n];
      1 + n
  }

  /** Behind an opening quote: how far the string reaches, its closing quote included. */
  function ShortEnd(q: byte, t: seq<byte>): Option<nat> {
    if t == [] || t[0] == LINE_FEED then None
    else if q == QUOTE && t[0] == BACKSLASH && |t| >= 2 then
      if t[1] == LINE_FEED then None else Add(2, ShortEnd(q, t[2..]))
    else if t[0] == q then Some(1)
    else Add(1, ShortEnd(q, t[1..]))
  }

  function RunLength(q: byte, t: seq<byte>): (n: nat)
    ensures n <= |t| && t[..n] == Run(q, n) && NotFollowedBy(t[n..], q)
    ensures t != [] && t[0] == q ==> n > 0
  {
    if t == [] || t[0] != q then 0
    else
      var n := RunLength(q, t[1..]);
      assert t[..1 + n] == [q] + t[1..][..n];
      1 + n
  }

  /** How many bytes of a multi-line string belong together: an escape, a run of quotes, or one. */
  function ItemLength(q: byte, t: seq<byte>): (n: nat)
    requires t != []
    ensures 0 < n <= |t|
  {
    if q == QUOTE && t[0] == BACKSLASH && |t| >= 2 then 2 else if t[0] == q then RunLength(q, t) else 1
  }

  /** Behind three opening quotes: how far the string reaches, its closing quotes included. */
  function LongEnd(q: byte, t: seq<byte>): Option<nat> {
    if t == [] then None
    else
      var n := ItemLength(q, t);
      if t[0] == q && n >= 3 then Some(n) else Add(n, LongEnd(q, t[n..]))
  }

  datatype HeaderCheck = HeaderClosed | HeaderOpen | HeaderNonAscii(offset: nat)

  function Later(n: nat, check: HeaderCheck): HeaderCheck {
    match check
    case HeaderNonAscii(offset) => HeaderNonAscii(n + offset)
    case _ => check
  }

  function CheckHeader(t: seq<byte>): HeaderCheck {
    if AtLineEnd(t) || t[0] == HASH then HeaderClosed
    else if IsQuote(t[0]) then
      match ShortEnd(t[0], t[1..])
      case None => HeaderOpen
      case Some(n) => if 1 + n <= |t| then Later(1 + n, CheckHeader(t[1 + n..])) else HeaderOpen
    else if t[0] >= 0x80 then HeaderNonAscii(0)
    else Later(1, CheckHeader(t[1..]))
  }

  /** A next lexeme, a string that never closes, or a fault. */
  datatype Seen = Token(l: Lexeme) | Unfinished | Fault(r: Refusal)

  function LookAtHeader(t: seq<byte>): Seen
    requires t != []
  {
    var line := Token(HeaderLine(t[..LineLength(t)]));
    if Spaced(t) then line
    else if BadKey(t) then Fault(Refusal(KeyOffset(t), BadHeaderKey))
    else match CheckHeader(t)
      case HeaderNonAscii(offset) => Fault(Refusal(offset, NonAscii))
      case HeaderOpen => Unfinished
      case HeaderClosed => line
  }

  function LookAtString(t: seq<byte>): Seen
    requires t != [] && IsQuote(t[0])
  {
    if |t| >= 3 && t[1] == t[0] && t[2] == t[0] then
      match LongEnd(t[0], t[3..])
      case None => Unfinished
      case Some(n) => if 3 + n <= |t| then Token(MultiLineString(t[..3 + n])) else Unfinished
    else
      match ShortEnd(t[0], t[1..])
      case None => Unfinished
      case Some(n) => if 1 + n <= |t| then Token(OneLineString(t[..1 + n])) else Unfinished
  }

  function Look(t: seq<byte>, ctx: Context): Seen
    requires t != []
  {
    var b := t[0];
    if b == LINE_FEED then Token(NewLine)
    else if b == HASH then Token(Remark(t[..LineLength(t)]))
    else if IsQuote(b) then LookAtString(t)
    else if b >= 0x80 then Fault(Refusal(0, NonAscii))
    else if OpensHeader(ctx, b) then LookAtHeader(t)
    else if b == CLOSE_BRACE && Innermost(ctx.containers) == Some(OPEN_BRACKET) then Fault(Refusal(0, UnmatchedBrace))
    else Token(OtherByte(b))
  }

  function Shift(n: nat, r: Option<Refusal>): Option<Refusal> {
    match r
    case None => None
    case Some(r) => Some(Refusal(n + r.offset, r.reason))
  }

  /** The refusal of a document, lexeme by lexeme. */
  function FirstRefusal(t: seq<byte>, ctx: Context): Option<Refusal>
    decreases |t|
  {
    if t == [] then None
    else match Look(t, ctx)
      case Token(l) =>
        if 0 < |Raw(l)| <= |t| then Shift(|Raw(l)|, FirstRefusal(t[|Raw(l)|..], After(ctx, l))) else None
      case Unfinished => None
      case Fault(r) => Some(r)
  }

  // ---- Strings: the search finds the end of exactly what the grammar calls a string.

  lemma {:induction false} ShortEndFound(q: byte, body: seq<byte>, rest: seq<byte>)
    requires IsQuote(q) && ShortBody(q, body)
    ensures ShortEnd(q, body + ([q] + rest)) == Some(|body| + 1)
  {
    var t := body + ([q] + rest);
    if body == [] {
    } else if q == QUOTE && body[0] == BACKSLASH {
      ShortEndFound(q, body[2..], rest);
      assert t[2..] == body[2..] + ([q] + rest);
    } else {
      ShortEndFound(q, body[1..], rest);
      assert t[1..] == body[1..] + ([q] + rest);
    }
  }

  lemma {:induction false} ShortEndIsString(q: byte, t: seq<byte>)
    requires IsQuote(q) && ShortEnd(q, t).Some?
    ensures var n := ShortEnd(q, t).value; 1 <= n <= |t| && t[n - 1] == q && ShortBody(q, t[..n - 1])
  {
    var n := ShortEnd(q, t).value;
    if q == QUOTE && t[0] == BACKSLASH && |t| >= 2 {
      ShortEndIsString(q, t[2..]);
      assert t[..n - 1][2..] == t[2..][..n - 3];
    } else if t[0] != q {
      ShortEndIsString(q, t[1..]);
      assert t[..n - 1][1..] == t[1..][..n - 2];
    }
  }

  predicate ClosesAt(q: byte, t: seq<byte>, n: nat) {
    n < |t| && t[n] == q && ShortBody(q, t[..n])
  }

  /** A string whose opening quote lies in front of `t` is closed on its line. */
  ghost predicate Closes(q: byte, t: seq<byte>) {
    exists n: nat :: ClosesAt(q, t, n)
  }

  lemma ShortEndExactly(q: byte, t: seq<byte>)
    requires IsQuote(q)
    ensures ShortEnd(q, t).Some? <==> Closes(q, t)
  {
    hide ShortBody, ShortEnd;
    if ShortEnd(q, t).Some? {
      ShortEndIsString(q, t);
      assert ClosesAt(q, t, ShortEnd(q, t).value - 1);
    }
    if Closes(q, t) {
      var n: nat :| ClosesAt(q, t, n);
      ShortEndFound(q, t[..n], t[n + 1..]);
      assert t == t[..n] + ([q] + t[n + 1..]);
    }
  }

  lemma {:induction false} RunLengthIs(q: byte, n: nat, rest: seq<byte>)
    requires NotFollowedBy(rest, q)
    ensures RunLength(q, Run(q, n) + rest) == n
  {
    var t := Run(q, n) + rest;
    if n == 0 {
      assert t == rest;
    } else {
      RunLengthIs(q, n - 1, rest);
      assert t[1..] == Run(q, n - 1) + rest;
    }
  }

  lemma QuotesOfBody(q: byte, body: seq<byte>) returns (k: nat)
    requires IsQuote(q) && LongBody(q, body) && body != [] && body[0] == q
    ensures 1 <= k <= 2 && k < |body| && body[..k] == Run(q, k) && body[k] != q && LongBody(q, body[k..])
  {
    k := if body[1] != q then 1 else 2;
  }

  /** What the grammar takes for an item of a string, the search takes for one, whatever follows the body. */
  lemma ItemInside(q: byte, body: seq<byte>, tail: seq<byte>)
    requires IsQuote(q) && LongBody(q, body) && body != []
    ensures var k := ItemLength(q, body + tail);
            && k <= |body| && LongBody(q, body[k..]) && (body[0] == q ==> k < 3)
  {
    hide RunLength, Run;
    if body[0] == q {
      var k := QuotesOfBody(q, body);
      Split(body, k);
      Associative(Run(q, k), body[k..], tail);
      RunLengthIs(q, k, body[k..] + tail);
    }
  }

  lemma {:induction false} LongEndFound(q: byte, body: seq<byte>, n: nat, rest: seq<byte>)
    requires IsQuote(q) && LongBody(q, body) && n >= 3 && NotFollowedBy(rest, q)
    ensures LongEnd(q, body + (Run(q, n) + rest)) == Some(|body| + n)
    decreases |body|
  {
    hide RunLength, Run, LongBody;
    var tail := Run(q, n) + rest;
    var t := body + tail;
    if body == [] {
      assert t == tail && t[0] == q;
      RunLengthIs(q, n, rest);
    } else {
      var k := ItemLength(q, t);
      ItemInside(q, body, tail);
      LongEndFound(q, body[k..], n, rest);
      assert t[k..] == body[k..] + tail;
    }
  }

  lemma {:induction false} LongEndIsString(q: byte, t: seq<byte>) returns (body: seq<byte>, n: nat)
    requires IsQuote(q) && LongEnd(q, t).Some?
    ensures LongEnd(q, t).value == |body| + n <= |t|
    ensures n >= 3 && LongBody(q, body) && t[..|body| + n] == body + Run(q, n)
    ensures NotFollowedBy(t[|body| + n..], q)
  {
    hide RunLength, Run, LongBody;
    var k := ItemLength(q, t);
    if t[0] == q && k >= 3 {
      body, n := [], k;
      EmptyBody(q);
    } else {
      body, n := LongEndIsString(q, t[k..]);
      LongTail(t, k, body, n, q);
      ItemInFront(t, k, body, n, q);
      body := t[..k] + body;
    }
  }

  lemma EmptyBody(q: byte)
    ensures LongBody(q, [])
  {
  }

  lemma ItemInFront(t: seq<byte>, k: nat, body: seq<byte>, n: nat, q: byte)
    requires IsQuote(q) && t != [] && k == ItemLength(q, t) && (t[0] == q ==> k < 3)
    requires |body| + n <= |t| - k && n >= 3 && t[k..][..|body| + n] == body + Run(q, n)
    requires LongBody(q, body)
    ensures LongBody(q, t[..k] + body)
  {
    hide RunLength;
    var all := t[..k] + body;
    assert all[k..] == body;
    if t[0] == q {
      QuotesInside(t, k, body, n, q);
    }
  }

  lemma LongTail(t: seq<byte>, k: nat, body: seq<byte>, n: nat, q: byte)
    requires k <= |t| && |body| + n <= |t| - k && t[k..][..|body| + n] == body + Run(q, n)
    ensures t[..k + |body| + n] == t[..k] + body + Run(q, n)
    ensures (t[..k] + body)[k..] == body
    ensures t[k..][|body| + n..] == t[k + |body| + n..]
  {
  }

  /** One or two quotes inside a string are followed by something that is no quote, and that is inside as well. */
  lemma QuotesInside(t: seq<byte>, k: nat, body: seq<byte>, n: nat, q: byte)
    requires IsQuote(q) && 1 <= k <= 2 && k <= |t| && t[..k] == Run(q, k) && NotFollowedBy(t[k..], q)
    requires |body| + n <= |t| - k && n >= 3 && t[k..][..|body| + n] == body + Run(q, n)
    requires LongBody(q, body)
    ensures LongBody(q, t[..k] + body)
  {
    var head := t[k..][..|body| + n];
    assert head[0] == t[k..][0] != q;
    assert body != [] && body[0] == head[0];
    var all := t[..k] + body;
    assert all[k..] == body;
  }

  // ---- Headers.

  lemma PieceChecked(p: seq<byte>, rest: seq<byte>)
    requires HeaderPiece(p)
    ensures CheckHeader(p + rest) == Later(|p|, CheckHeader(rest))
  {
    var t := p + rest;
    assert t[|p|..] == rest;
    if ShortString(p) {
      ShortEndFound(p[0], p[1..|p| - 1], rest);
      assert t[1..] == p[1..|p| - 1] + ([p[0]] + rest);
    }
  }

  lemma {:induction false} PiecesChecked(pieces: seq<seq<byte>>, rest: seq<byte>)
    requires HeaderPieces(pieces)
    ensures CheckHeader(Joined(pieces) + rest) == Later(|Joined(pieces)|, CheckHeader(rest))
  {
    hide HeaderPiece, CheckHeader;
    if pieces == [] {
      assert Joined(pieces) + rest == rest;
    } else {
      PiecesChecked(pieces[1..], rest);
      PieceChecked(pieces[0], Joined(pieces[1..]) + rest);
      Associative(pieces[0], Joined(pieces[1..]), rest);
    }
  }

  lemma OutsideChecked(t: seq<byte>, k: nat)
    requires k <= |t| && OutsideStrings(t, k)
    ensures CheckHeader(t) == Later(k, CheckHeader(t[k..]))
  {
    hide CheckHeader, HeaderPieces;
    var pieces :| CoveredBy(t, k, pieces);
    PiecesChecked(pieces, t[k..]);
    Split(t, k);
  }

  /** What is found in a header line, said by the grammar. */
  ghost predicate HeaderSays(t: seq<byte>, check: HeaderCheck) {
    match check
    case HeaderClosed => StringsClose(t[..LineLength(t)])
    case HeaderNonAscii(offset) => offset < |t| && OutsideStrings(t, offset) && t[offset] >= 0x80
    case HeaderOpen =>
      exists k: nat :: k < |t| && OutsideStrings(t, k) && IsQuote(t[k]) && !Closes(t[k], t[k + 1..])
  }

  lemma PieceInFront(t: seq<byte>, n: nat, k: nat)
    requires n <= |t| && HeaderPiece(t[..n]) && k <= |t| - n && OutsideStrings(t[n..], k)
    ensures OutsideStrings(t, n + k)
  {
    hide HeaderPiece;
    var pieces :| CoveredBy(t[n..], k, pieces);
    var all := [t[..n]] + pieces;
    assert all[1..] == pieces;
    assert t[..n + k] == t[..n] + t[n..][..k];
    assert CoveredBy(t, n + k, all);
  }

  lemma NothingInFront(t: seq<byte>)
    ensures OutsideStrings(t, 0)
  {
    assert CoveredBy(t, 0, []);
  }

  lemma StringInFront(t: seq<byte>)
    requires t != [] && IsQuote(t[0]) && ShortEnd(t[0], t[1..]).Some?
    ensures var n := 1 + ShortEnd(t[0], t[1..]).value; n <= |t| && ShortString(t[..n]) && HeaderPiece(t[..n])
  {
    hide ShortEnd, ShortBody;
    ShortEndIsString(t[0], t[1..]);
    var n := 1 + ShortEnd(t[0], t[1..]).value;
    assert t[..n][1..n - 1] == t[1..][..n - 2];
  }

  lemma ByteInFront(t: seq<byte>)
    requires t != [] && t[0] < 0x80 && t[0] != LINE_FEED && t[0] != HASH && !IsQuote(t[0])
    ensures HeaderPiece(t[..1])
  {
  }

  /** Where the check of a header line stops. */
  lemma {:induction false} HeaderStops(t: seq<byte>) returns (k: nat)
    ensures k <= |t| && OutsideStrings(t, k)
    ensures match CheckHeader(t)
            case HeaderClosed => AtLineEnd(t[k..]) || t[k] == HASH
            case HeaderNonAscii(offset) => offset == k < |t| && t[k] >= 0x80
            case HeaderOpen => k < |t| && IsQuote(t[k]) && ShortEnd(t[k], t[k + 1..]).None?
    decreases |t|
  {
    hide OutsideStrings, ShortEnd, HeaderPiece;
    k := 0;
    NothingInFront(t);
    if AtLineEnd(t) || t[0] == HASH {
    } else if IsQuote(t[0]) {
      if ShortEnd(t[0], t[1..]).Some? {
        var n := 1 + ShortEnd(t[0], t[1..]).value;
        StringInFront(t);
        k := HeaderStops(t[n..]);
        PieceInFront(t, n, k);
        StopsLater(t, n, k);
        k := n + k;
      }
    } else if t[0] < 0x80 {
      k := HeaderStops(t[1..]);
      ByteInFront(t);
      PieceInFront(t, 1, k);
      StopsLater(t, 1, k);
      k := 1 + k;
    }
  }

  lemma StopsLater(t: seq<byte>, n: nat, k: nat)
    requires n <= |t| && k <= |t| - n
    ensures t[n..][k..] == t[n + k..]
    ensures k < |t| - n ==> t[n..][k + 1..] == t[n + k + 1..] && t[n..][k] == t[n + k]
  {
  }

  lemma {:induction false} PiecesHaveNoNewline(pieces: seq<seq<byte>>)
    requires HeaderPieces(pieces)
    ensures NoNewline(Joined(pieces))
    ensures pieces != [] ==> Joined(pieces) != [] && Joined(pieces)[|Joined(pieces)| - 1] < 0x80
  {
    hide HeaderPiece;
    if pieces != [] {
      assert pieces[0] in pieces;
      PieceHasNoNewline(pieces[0]);
      PiecesHaveNoNewline(pieces[1..]);
    }
  }

  lemma PieceHasNoNewline(p: seq<byte>)
    requires HeaderPiece(p)
    ensures p != [] && NoNewline(p) && p[|p| - 1] < 0x80
  {
    if ShortString(p) {
      ShortBodyHasNoNewline(p[0], p[1..|p| - 1]);
      forall i | 0 <= i < |p| ensures p[i] != LINE_FEED {
        assert 0 < i < |p| - 1 ==> p[i] == p[1..|p| - 1][i - 1];
      }
    }
  }

  lemma {:induction false} ShortBodyHasNoNewline(q: byte, body: seq<byte>)
    requires ShortBody(q, body)
    ensures NoNewline(body)
  {
    if body == [] {
    } else if q == QUOTE && body[0] == BACKSLASH {
      ShortBodyHasNoNewline(q, body[2..]);
      assert body == body[..2] + body[2..];
    } else {
      ShortBodyHasNoNewline(q, body[1..]);
      assert body == body[..1] + body[1..];
    }
  }

  lemma OutsideHasNoNewline(t: seq<byte>, k: nat)
    requires OutsideStrings(t, k)
    ensures k <= |t| && NoNewline(t[..k]) && k <= LineLength(t)
    ensures k > 0 ==> t[k - 1] < 0x80
  {
    hide HeaderPieces, LineLength;
    var pieces :| CoveredBy(t, k, pieces);
    PiecesHaveNoNewline(pieces);
    LineIsLonger(t, k);
    assert k > 0 ==> t[..k][k - 1] == t[k - 1] && pieces != [];
  }

  lemma {:induction false} LineIsLonger(t: seq<byte>, k: nat)
    requires k <= |t| && NoNewline(t[..k])
    ensures k <= LineLength(t)
  {
    if k > 0 {
      assert t[0] == t[..k][0];
      assert t[1..][..k - 1] == t[..k][1..];
      LineIsLonger(t[1..], k - 1);
    }
  }

  lemma {:induction false} LineLengthIs(line: seq<byte>, rest: seq<byte>)
    requires NoNewline(line) && AtLineEnd(rest)
    ensures LineLength(line + rest) == |line|
  {
    var t := line + rest;
    if line == [] {
      assert t == rest;
    } else {
      LineLengthIs(line[1..], rest);
      assert t[1..] == line[1..] + rest;
    }
  }

  lemma OutsideOfPrefix(t: seq<byte>, n: nat, k: nat)
    requires k <= n <= |t|
    ensures OutsideStrings(t[..n], k) <==> OutsideStrings(t, k)
  {
    hide HeaderPieces;
    assert t[..n][..k] == t[..k];
    if OutsideStrings(t, k) {
      var pieces :| CoveredBy(t, k, pieces);
      assert CoveredBy(t[..n], k, pieces);
    }
    if OutsideStrings(t[..n], k) {
      var pieces :| CoveredBy(t[..n], k, pieces);
      assert CoveredBy(t, k, pieces);
    }
  }

  /** The check of a header line finds exactly what the grammar says is there. */
  lemma CheckHeaderExactly(t: seq<byte>, check: HeaderCheck)
    ensures CheckHeader(t) == check <==> HeaderSays(t, check)
  {
    hide OutsideStrings, LineLength, ShortEnd, Closes;
    if CheckHeader(t) == check {
      var k := HeaderStops(t);
      if check == HeaderClosed {
        OutsideHasNoNewline(t, k);
        OutsideOfPrefix(t, LineLength(t), k);
      } else if check == HeaderOpen {
        ShortEndExactly(t[k], t[k + 1..]);
      }
    }
    if HeaderSays(t, check) {
      match check
      case HeaderClosed =>
        var n := LineLength(t);
        var k: nat :| k <= n && OutsideStrings(t[..n], k) && (k == n || t[..n][k] == HASH);
        OutsideHasNoNewline(t[..n], k);
        OutsideOfPrefix(t, n, k);
        OutsideChecked(t, k);
      case HeaderNonAscii(offset) =>
        OutsideChecked(t, offset);
      case HeaderOpen =>
        var k: nat :| k < |t| && OutsideStrings(t, k) && IsQuote(t[k]) && !Closes(t[k], t[k + 1..]);
        ShortEndExactly(t[k], t[k + 1..]);
        OutsideChecked(t, k);
        assert t[k..][1..] == t[k + 1..];
    }
  }

  // ---- The next lexeme, and the document: the search finds exactly what the grammar says.

  lemma StringSeen(text: seq<byte>, rest: seq<byte>)
    requires ShortString(text) && (|text| == 2 ==> NotFollowedBy(rest, text[0]))
    ensures LookAtString(text + rest) == Token(OneLineString(text))
  {
    hide ShortEnd;
    var t, body := text + rest, text[1..|text| - 1];
    ShortEndFound(text[0], body, rest);
    assert t[1..] == body + ([text[0]] + rest);
    assert t[..|text|] == text;
    if |text| > 2 {
      assert t[1] == body[0] != text[0] by {
        FirstOfBody(text[0], body);
      }
    }
  }

  lemma FirstOfBody(q: byte, body: seq<byte>)
    requires ShortBody(q, body) && body != []
    ensures body[0] != q
  {
  }

  lemma LongStringSeen(text: seq<byte>, rest: seq<byte>)
    requires LongString(text) && NotFollowedBy(rest, text[0])
    ensures LookAtString(text + rest) == Token(MultiLineString(text))
  {
    hide LongEnd, ShortEnd, LongBody, Run;
    var q, body, n: nat :| LongParts(text, q, body, n);
    var t := text + rest;
    LongEndFound(q, body, n, rest);
    assert t[3..] == body + (Run(q, n) + rest);
    assert t[..|text|] == text;
  }

  lemma StringToken(t: seq<byte>)
    requires t != [] && IsQuote(t[0]) && LookAtString(t).Token?
    ensures var l := LookAtString(t).l; IsString(l, t)
  {
    hide LongEnd, ShortEnd, LongBody, ShortBody, Run;
    if |t| >= 3 && t[1] == t[0] && t[2] == t[0] {
      var body, n := LongEndIsString(t[0], t[3..]);
      var k := 3 + |body| + n;
      assert t[..k] == [t[0], t[0], t[0]] + t[3..][..|body| + n];
      assert LongParts(t[..k], t[0], body, n);
      assert t[k..] == t[3..][|body| + n..];
    } else {
      StringInFront(t);
    }
  }

  /** A string lexeme in front of a text. */
  ghost predicate IsString(l: Lexeme, t: seq<byte>) {
    && (l.OneLineString? || l.MultiLineString?)
    && 0 < |Raw(l)| <= |t| && t[..|Raw(l)|] == Raw(l) && IsQuote(Raw(l)[0]) && IsQuote(Raw(l)[|Raw(l)| - 1])
    && if l.OneLineString? then ShortString(l.text) && (|l.text| == 2 ==> NotFollowedBy(t[|l.text|..], l.text[0]))
       else LongString(l.text) && NotFollowedBy(t[|l.text|..], l.text[0])
  }

  lemma HeaderSeen(line: seq<byte>, rest: seq<byte>)
    requires line != [] && NoNewline(line) && AtLineEnd(rest) && HeaderIsFine(line, rest)
    ensures LookAtHeader(line + rest) == Token(HeaderLine(line))
  {
    hide CheckHeader, LineLength, Spaced, BadKey, StringsClose;
    var t := line + rest;
    LineLengthIs(line, rest);
    assert t[..|line|] == line;
    if !Spaced(t) {
      CheckHeaderExactly(t, HeaderClosed);
    }
  }

  lemma HeaderToken(t: seq<byte>)
    requires t != [] && t[0] != LINE_FEED && LookAtHeader(t).Token?
    ensures var n := LineLength(t);
            n > 0 && LookAtHeader(t) == Token(HeaderLine(t[..n])) && HeaderIsFine(t[..n], t[n..])
  {
    hide CheckHeader, Spaced, BadKey, StringsClose;
    Split(t, LineLength(t));
    if !Spaced(t) {
      CheckHeaderExactly(t, HeaderClosed);
    }
  }

  /** The next lexeme is found for what it is ... */
  lemma LexemeSeen(l: Lexeme, ctx: Context, rest: seq<byte>)
    requires IsLexeme(l, ctx, rest)
    ensures Raw(l) != [] && Look(Raw(l) + rest, ctx) == Token(l)
  {
    hide ShortString, LongString, LookAtString, LookAtHeader, HeaderIsFine, LineLength;
    match l
    case NewLine =>
    case Remark(text) =>
      LineLengthIs(text, rest);
      assert (text + rest)[..|text|] == text;
    case OneLineString(text) =>
      StringSeen(text, rest);
      ShortStringQuotes(text);
    case MultiLineString(text) =>
      LongStringSeen(text, rest);
      LongStringQuotes(text);
    case HeaderLine(text) => HeaderSeen(text, rest);
    case OtherByte(b) =>
  }

  lemma ShortStringQuotes(text: seq<byte>)
    requires ShortString(text)
    ensures text != [] && IsQuote(text[0])
  {
  }

  lemma LongStringQuotes(text: seq<byte>)
    requires LongString(text)
    ensures text != [] && IsQuote(text[0])
  {
  }

  /** ... and whatever is found is the next lexeme. */
  lemma TokenIsLexeme(t: seq<byte>, ctx: Context)
    requires t != [] && Look(t, ctx).Token?
    ensures var l := Look(t, ctx).l;
            0 < |Raw(l)| <= |t| && t == Raw(l) + t[|Raw(l)|..] && IsLexeme(l, ctx, t[|Raw(l)|..])
  {
    hide ShortString, LongString, LookAtString, LookAtHeader, HeaderIsFine;
    if IsQuote(t[0]) {
      StringToken(t);
    } else if t[0] < 0x80 && OpensHeader(ctx, t[0]) {
      HeaderToken(t);
    }
  }

  /** A fault is seen for what it is, and whatever fault is seen is one. */
  lemma FaultSeenExactly(t: seq<byte>, ctx: Context, r: Refusal)
    requires t != []
    ensures Look(t, ctx) == Fault(r) <==> Faulty(ctx, t, r)
  {
    hide LookAtString, LineLength, CheckHeader, Spaced, BadKey, KeyOffset, OutsideStrings;
    NoFaultInString(t);
    if OpensHeader(ctx, t[0]) {
      hide OpensHeader, Innermost;
      FaultInHeader(t, r);
    }
  }

  lemma NoFaultInString(t: seq<byte>)
    ensures t != [] && IsQuote(t[0]) ==> !LookAtString(t).Fault?
  {
  }

  lemma FaultInHeader(t: seq<byte>, r: Refusal)
    requires t != [] && t[0] == OPEN_BRACKET
    ensures LookAtHeader(t) == Fault(r)
            <==> && r.offset < |t| && !Spaced(t) && r.offset > 0
                 && match r.reason
                    case NonAscii => t[r.offset] >= 0x80 && !BadKey(t) && OutsideStrings(t, r.offset)
                    case BadHeaderKey => BadKey(t) && r.offset == KeyOffset(t)
                    case UnmatchedBrace => false
  {
    hide LineLength, CheckHeader, OutsideStrings;
    CheckHeaderExactly(t, HeaderNonAscii(r.offset));
    if LookAtHeader(t).Fault? && LookAtHeader(t).r.reason == NonAscii {
      CheckHeaderExactly(t, CheckHeader(t));
    }
  }

  lemma ShiftTwice(a: nat, b: nat, r: Option<Refusal>)
    ensures Shift(a, Shift(b, r)) == Shift(a + b, r)
  {
  }

  /** Lexemes are skipped, and the refusal of a document is that of the rest of it. */
  lemma {:induction false} LexemesSkipped(ls: seq<Lexeme>, ctx: Context, rest: seq<byte>)
    requires Lexed(ls, ctx, rest)
    ensures FirstRefusal(Text(ls) + rest, ctx) == Shift(|Text(ls)|, FirstRefusal(rest, ContextAfter(ctx, ls)))
    decreases ls
  {
    hide Look, IsLexeme, After, Raw;
    if ls == [] {
      assert Text(ls) + rest == rest;
    } else {
      var l, behind := ls[0], Text(ls[1..]) + rest;
      LexemeSeen(l, ctx, behind);
      LexemesSkipped(ls[1..], After(ctx, l), rest);
      Associative(Raw(l), Text(ls[1..]), rest);
      assert (Raw(l) + behind)[|Raw(l)|..] == behind;
      ShiftTwice(|Raw(l)|, |Text(ls[1..])|, FirstRefusal(rest, ContextAfter(After(ctx, l), ls[1..])));
    }
  }

  /** A document that is lexemes to its end is not refused: its brackets are paired and its headers are fine. */
  lemma LexedIsAccepted(ls: seq<Lexeme>, ctx: Context)
    requires Lexed(ls, ctx, [])
    ensures FirstRefusal(Text(ls), ctx) == None
  {
    LexemesSkipped(ls, ctx, []);
    assert Text(ls) + [] == Text(ls);
  }

  lemma RefusedIsScanned(ls: seq<Lexeme>, ctx: Context, t: seq<byte>, r: Refusal)
    requires RefusedBehind(ls, ctx, t, r)
    ensures FirstRefusal(t, ctx) == Some(r)
  {
    hide Look, Lexed, Faulty;
    var n := |Text(ls)|;
    var there := Refusal(r.offset - n, r.reason);
    LexemesSkipped(ls, ctx, t[n..]);
    Split(t, n);
    FaultInside(ContextAfter(ctx, ls), t[n..], there);
    FaultSeenExactly(t[n..], ContextAfter(ctx, ls), there);
  }

  lemma FaultInside(ctx: Context, t: seq<byte>, r: Refusal)
    requires Faulty(ctx, t, r)
    ensures t != []
  {
  }

  lemma {:induction false} ScannedIsRefused(t: seq<byte>, ctx: Context) returns (ls: seq<Lexeme>)
    requires FirstRefusal(t, ctx).Some?
    ensures RefusedBehind(ls, ctx, t, FirstRefusal(t, ctx).value)
    decreases |t|
  {
    hide Look, IsLexeme, Faulty, After, Raw;
    var r := FirstRefusal(t, ctx).value;
    if Look(t, ctx).Fault? {
      FaultSeenExactly(t, ctx, r);
      ls := [];
      assert t[0..] == t;
    } else {
      var l := Look(t, ctx).l;
      var n := |Raw(l)|;
      TokenIsLexeme(t, ctx);
      var more := ScannedIsRefused(t[n..], After(ctx, l));
      ls := LexemeInFront(l, more, ctx, t, FirstRefusal(t[n..], After(ctx, l)).value);
    }
  }

  lemma LexemeInFront(l: Lexeme, more: seq<Lexeme>, ctx: Context, t: seq<byte>, r: Refusal) returns (ls: seq<Lexeme>)
    requires |Raw(l)| <= |t| && t == Raw(l) + t[|Raw(l)|..] && IsLexeme(l, ctx, t[|Raw(l)|..])
    requires RefusedBehind(more, After(ctx, l), t[|Raw(l)|..], r)
    ensures RefusedBehind(ls, ctx, t, Refusal(|Raw(l)| + r.offset, r.reason))
  {
    hide IsLexeme, Faulty, After, Raw;
    ls := [l] + more;
    var n, m := |Raw(l)|, |Text(more)|;
    assert ls[1..] == more;
    assert t[..n + m] == Raw(l) + t[n..][..m];
    assert t[n..][m..] == t[n + m..];
    assert t[n..] == Text(more) + t[n + m..];
  }

  /**
   Refused exactly: a document is refused at an offset and for a reason if and only if lexemes fill it up
   to where the grammar has none for what follows, at that offset and for that reason.
   */
  lemma RefusedExactly(t: seq<byte>, ctx: Context, r: Refusal)
    ensures FirstRefusal(t, ctx) == Some(r) <==> exists ls :: RefusedBehind(ls, ctx, t, r)
  {
    hide FirstRefusal, RefusedBehind;
    if FirstRefusal(t, ctx) == Some(r) {
      var ls := ScannedIsRefused(t, ctx);
    }
    if exists ls :: RefusedBehind(ls, ctx, t, r) {
      var ls :| RefusedBehind(ls, ctx, t, r);
      RefusedIsScanned(ls, ctx, t, r);
    }
  }

  /** An ASCII document without an opening bracket is never refused. */
  lemma {:induction false} AsciiWithoutBracketsAccepted(t: seq<byte>, ctx: Context)
    requires forall i | 0 <= i < |t| :: t[i] < 0x80 && t[i] != OPEN_BRACKET
    requires Innermost(ctx.containers) != Some(OPEN_BRACKET)
    requires forall i | 0 <= i < |ctx.containers| :: ctx.containers[i] != OPEN_BRACKET
    ensures FirstRefusal(t, ctx) == None
    decreases |t|
  {
    hide LookAtString, LookAtHeader, LineLength, OpenArrays;
    if t != [] {
      NoFaultInString(t);
      if Look(t, ctx).Token? {
        TokenIsLexeme(t, ctx);
        var l := Look(t, ctx).l;
        AsciiWithoutBracketsAccepted(t[|Raw(l)|..], After(ctx, l));
      }
    }
  }

  /** A closing brace inside an array: `x=[}` is refused at its last byte. */
  lemma BraceInArrayRefused()
    ensures GrammarRefuses([0x78, 0x3D, OPEN_BRACKET, CLOSE_BRACE], Refusal(3, UnmatchedBrace))
  {
    hide FirstRefusal, RefusedBehind;
    var start := Context([], true);
    var t := [0x78, 0x3D, OPEN_BRACKET, CLOSE_BRACE];
    var inside := AfterByte(AfterByte(AfterByte(start, 0x78), 0x3D), OPEN_BRACKET);
    assert inside == Context([OPEN_BRACKET], false);
    ByteScanned(t, start);
    ByteScanned(t[1..], AfterByte(start, 0x78));
    ByteScanned(t[2..], AfterByte(AfterByte(start, 0x78), 0x3D));
    BraceScanned(t[3..], inside);
    assert t[1..][1..] == t[2..] && t[2..][1..] == t[3..];
    RefusedExactly(t, start, Refusal(3, UnmatchedBrace));
  }

  lemma ByteScanned(t: seq<byte>, ctx: Context)
    requires t != [] && Look(t, ctx) == Token(OtherByte(t[0]))
    ensures FirstRefusal(t, ctx) == Shift(1, FirstRefusal(t[1..], AfterByte(ctx, t[0])))
  {
    hide Look, AfterByte;
  }

  lemma BraceScanned(t: seq<byte>, ctx: Context)
    requires t == [CLOSE_BRACE] && ctx.containers == [OPEN_BRACKET]
    ensures FirstRefusal(t, ctx) == Some(Refusal(0, UnmatchedBrace))
  {
  }
}
