/**
 The scan of a document before it is parsed: byte by byte, with a lexical state and a stack of open brackets.
 It refuses what the grammar of lexemes refuses. It points between two code points, so the line and the
 column it reports count code points.
 */
module TomlScanner {
  import opened Bytes
  import opened Utf8
  import opened TomlGrammar
  import opened TomlLexing

  datatype LexicalState =
    | Normal
    | Comment
    | BasicString
    | LiteralString
    | MultilineBasicString
    | MultilineLiteralString

  datatype Scanner = Scanner(
    index: nat, state: LexicalState, containers: seq<byte>, arrayDepth: nat, atLineStart: bool)
  {
    function Where(): Context { Context(containers, atLineStart) }

    /** The depth that is counted is the number of open arrays on the stack, so it never wraps below zero. */
    predicate Counts() { arrayDepth == OpenArrays(containers) }
  }

  datatype Next = Go(scanner: Scanner) | LeaveToParser | Refuse(refusal: Refusal)

  /** What is still to come of a document of which a string has been read up to `t`. */
  function BehindString(end: Option<nat>, t: seq<byte>, ctx: Context): Option<Refusal> {
    match end
    case None => None
    case Some(n) => if n <= |t| then Shift(n, FirstRefusal(t[n..], ctx.(atLineStart := false))) else None
  }

  /** What is still to come in each lexical state. */
  function Resume(state: LexicalState, t: seq<byte>, ctx: Context): Option<Refusal> {
    match state
    case Normal => FirstRefusal(t, ctx)
    case Comment => Shift(LineLength(t), FirstRefusal(t[LineLength(t)..], ctx))
    case BasicString => BehindString(ShortEnd(QUOTE, t), t, ctx)
    case LiteralString => BehindString(ShortEnd(APOSTROPHE, t), t, ctx)
    case MultilineBasicString => BehindString(LongEnd(QUOTE, t), t, ctx)
    case MultilineLiteralString => BehindString(LongEnd(APOSTROPHE, t), t, ctx)
  }

  function Answer(text: seq<byte>, s: Scanner): Option<Refusal>
    requires s.index <= |text|
  {
    Shift(s.index, Resume(s.state, text[s.index..], s.Where()))
  }

  /** A step moves on without changing the answer, or gives it. */
  ghost predicate Steps(text: seq<byte>, s: Scanner, next: Next)
    requires s.index <= |text|
  {
    match next
    case Go(after) => s.index < after.index <= |text| && after.Counts() && Answer(text, after) == Answer(text, s)
    case LeaveToParser => Answer(text, s) == None
    case Refuse(refusal) => Answer(text, s) == Some(refusal)
  }

  /** Moving on by `n` bytes is right if what is to come is what was to come `n` bytes earlier. */
  lemma MovesOn(text: seq<byte>, s: Scanner, n: nat, after: Scanner)
    requires s.index + n <= |text| && 0 < n && after.index == s.index + n && after.Counts()
    requires Resume(s.state, text[s.index..], s.Where())
             == Shift(n, Resume(after.state, text[s.index..][n..], after.Where()))
    ensures Steps(text, s, Go(after))
  {
    hide Resume, OpenArrays;
    assert text[s.index..][n..] == text[s.index + n..];
    ShiftTwice(s.index, n, Resume(after.state, text[s.index..][n..], after.Where()));
  }

  // ---- Inside comments and strings.

  method InComment(text: seq<byte>, s: Scanner) returns (next: Next)
    requires s.index < |text| && s.state == Comment && s.Counts()
    ensures Steps(text, s, next)
  {
    hide OpenArrays, Steps;
    var moved := s.(index := s.index + 1);
    if text[s.index] == LINE_FEED {
      moved := moved.(state := Normal, atLineStart := true);
    }
    CommentStep(text[s.index..], s.Where());
    MovesOn(text, s, 1, moved);
    next := Go(moved);
  }

  lemma CommentStep(t: seq<byte>, ctx: Context)
    requires t != []
    ensures Resume(Comment, t, ctx)
            == if t[0] == LINE_FEED then Shift(1, FirstRefusal(t[1..], ctx.(atLineStart := true)))
               else Shift(1, Resume(Comment, t[1..], ctx))
  {
    if t[0] != LINE_FEED {
      var n := LineLength(t[1..]);
      assert t[1 + n..] == t[1..][n..];
      ShiftTwice(1, n, FirstRefusal(t[1 + n..], ctx));
    }
  }

  /** Passing over `n` bytes of a string. */
  lemma StringStep(t: seq<byte>, ctx: Context, lineStart: bool, n: nat, end: Option<nat>)
    requires n <= |t|
    ensures BehindString(Add(n, end), t, ctx) == Shift(n, BehindString(end, t[n..], ctx.(atLineStart := lineStart)))
  {
    if end.Some? && n + end.value <= |t| {
      assert t[n + end.value..] == t[n..][end.value..];
      ShiftTwice(n, end.value, FirstRefusal(t[n + end.value..], ctx.(atLineStart := false)));
    }
  }

  method InShortString(text: seq<byte>, s: Scanner) returns (next: Next)
    requires s.index < |text| && s.Counts() && (s.state == BasicString || s.state == LiteralString)
    ensures Steps(text, s, next)
  {
    hide OpenArrays, FirstRefusal;
    var quote := if s.state == BasicString then QUOTE else APOSTROPHE;
    var current := text[s.index];
    var escape := s.state == BasicString && current == BACKSLASH && s.index + 1 < |text|;
    ghost var t := text[s.index..];
    if current == LINE_FEED || (escape && text[s.index + 1] == LINE_FEED) {
      next := LeaveToParser;
    } else {
      var n := if escape then 2 else 1;
      var closes := current == quote && !escape;
      var moved := s.(index := s.index + n, state := if closes then Normal else s.state,
                      atLineStart := if closes then false else s.atLineStart);
      if !closes {
        StringStep(t, s.Where(), s.atLineStart, n, ShortEnd(quote, t[n..]));
      }
      MovesOn(text, s, n, moved);
      next := Go(moved);
    }
  }

  method RepeatedCharacterCount(text: seq<byte>, offset: nat, b: byte) returns (count: nat)
    requires offset <= |text|
    ensures count == RunLength(b, text[offset..])
  {
    count := 0;
    while offset + count < |text| && text[offset + count] == b
      invariant offset + count <= |text|
      invariant RunLength(b, text[offset..]) == count + RunLength(b, text[offset + count..])
    {
      assert text[offset + count..][1..] == text[offset + count + 1..];
      count := count + 1;
    }
  }

  /** A run of quotes inside a multi-line string ends it if there are three or more. */
  method InLongString(text: seq<byte>, s: Scanner) returns (next: Next)
    requires s.index < |text| && s.Counts() && (s.state == MultilineBasicString || s.state == MultilineLiteralString)
    ensures Steps(text, s, next)
  {
    hide OpenArrays, FirstRefusal, RunLength;
    var quote := if s.state == MultilineBasicString then QUOTE else APOSTROPHE;
    var current := text[s.index];
    ghost var t := text[s.index..];
    var n, closes, newline := 1, false, current == LINE_FEED;
    if s.state == MultilineBasicString && current == BACKSLASH && s.index + 1 < |text| {
      n, newline := 2, text[s.index + 1] == LINE_FEED;
    } else if current == quote {
      n := RepeatedCharacterCount(text, s.index, current);
      closes := n >= 3;
    }
    var lineStart := !closes && (s.atLineStart || newline);
    var moved := s.(index := s.index + n, state := if closes then Normal else s.state, atLineStart := lineStart);
    if !closes {
      StringStep(t, s.Where(), lineStart, n, LongEnd(quote, t[n..]));
    }
    MovesOn(text, s, n, moved);
    next := Go(moved);
  }

  // ---- Outside.

  method OpenString(text: seq<byte>, s: Scanner, short: LexicalState, long: LexicalState) returns (next: Next)
    requires s.index < |text| && s.Counts() && s.state == Normal
    requires text[s.index] == QUOTE ==> short == BasicString && long == MultilineBasicString
    requires text[s.index] == APOSTROPHE ==> short == LiteralString && long == MultilineLiteralString
    requires IsQuote(text[s.index])
    ensures Steps(text, s, next)
  {
    hide OpenArrays, ShortEnd, LongEnd;
    var quote := text[s.index];
    ghost var t := text[s.index..];
    var three := s.index + 2 < |text| && text[s.index + 1] == quote && text[s.index + 2] == quote;
    var n := if three then 3 else 1;
    var moved := s.(index := s.index + n, state := if three then long else short, atLineStart := false);
    StringOpened(t, s.Where());
    MovesOn(text, s, n, moved);
    next := Go(moved);
  }

  /** How many quotes open the string in front of a text. */
  function Quotes(t: seq<byte>): (n: nat)
    requires t != []
    ensures 0 < n <= |t|
  {
    if |t| >= 3 && t[1] == t[0] && t[2] == t[0] then 3 else 1
  }

  /** Where that string ends, counted from behind its opening quotes. */
  function StringEnd(t: seq<byte>): Option<nat>
    requires t != []
  {
    if Quotes(t) == 3 then LongEnd(t[0], t[3..]) else ShortEnd(t[0], t[1..])
  }

  lemma StringIsSeen(t: seq<byte>)
    requires t != [] && IsQuote(t[0])
    ensures var end := Add(Quotes(t), StringEnd(t));
            if end.None? || end.value > |t| then LookAtString(t) == Unfinished
            else
              && LookAtString(t).Token? && (LookAtString(t).l.OneLineString? || LookAtString(t).l.MultiLineString?)
              && Raw(LookAtString(t).l) == t[..end.value]
  {
    hide LongEnd, ShortEnd;
  }

  lemma FirstIs(t: seq<byte>, ctx: Context)
    requires t != []
    ensures Look(t, ctx).Unfinished? ==> FirstRefusal(t, ctx) == None
    ensures Look(t, ctx).Fault? ==> FirstRefusal(t, ctx) == Some(Look(t, ctx).r)
    ensures Look(t, ctx).Token? && 0 < |Raw(Look(t, ctx).l)| <= |t| ==>
              FirstRefusal(t, ctx)
              == Shift(|Raw(Look(t, ctx).l)|, FirstRefusal(t[|Raw(Look(t, ctx).l)|..], After(ctx, Look(t, ctx).l)))
  {
    hide Look;
  }

  lemma StringFirst(t: seq<byte>, ctx: Context)
    requires t != [] && IsQuote(t[0])
    ensures FirstRefusal(t, ctx) == BehindString(Add(Quotes(t), StringEnd(t)), t, ctx)
  {
    hide Look, Quotes, StringEnd, LookAtString, FirstRefusal, Add, Shift, Raw, After, IsQuote;
    StringIsSeen(t);
    FirstIs(t, ctx);
    LookedUp(t, ctx);
    var end := Add(Quotes(t), StringEnd(t));
    if end.Some? && end.value <= |t| {
      var l := LookAtString(t).l;
      EndIsPositive(Quotes(t), StringEnd(t));
      AfterString(ctx, l);
      assert |Raw(l)| == end.value;
    }
  }

  lemma EndIsPositive(n: nat, end: Option<nat>)
    ensures n > 0 && Add(n, end).Some? ==> Add(n, end).value > 0
  {
  }

  lemma AfterString(ctx: Context, l: Lexeme)
    requires l.OneLineString? || l.MultiLineString?
    ensures After(ctx, l) == ctx.(atLineStart := false)
  {
  }

  lemma LookedUp(t: seq<byte>, ctx: Context)
    requires t != [] && IsQuote(t[0])
    ensures Look(t, ctx) == LookAtString(t)
  {
    hide LookAtString, LookAtHeader, LineLength, OpensHeader, Innermost;
  }

  lemma StringOpened(t: seq<byte>, ctx: Context)
    requires t != [] && IsQuote(t[0])
    ensures FirstRefusal(t, ctx)
            == Shift(Quotes(t), BehindString(StringEnd(t), t[Quotes(t)..], ctx.(atLineStart := false)))
  {
    hide Quotes, StringEnd, FirstRefusal, BehindString;
    StringFirst(t, ctx);
    StringStep(t, ctx, false, Quotes(t), StringEnd(t));
  }

  lemma OneMore(t: seq<byte>)
    requires !AtLineEnd(t)
    ensures LineLength(t) == 1 + LineLength(t[1..])
  {
  }

  method SkipToNewline(text: seq<byte>, from: nat) returns (index: nat)
    requires from <= |text|
    ensures index == from + LineLength(text[from..])
  {
    hide LineLength;
    index := from;
    while index < |text| && text[index] != LINE_FEED
      invariant from <= index <= |text|
      invariant LineLength(text[from..]) == index - from + LineLength(text[index..])
    {
      OneMore(text[index..]);
      assert text[index..][1..] == text[index + 1..];
      index := index + 1;
    }
    AtLineEndIsZero(text[index..]);
  }

  lemma AtLineEndIsZero(t: seq<byte>)
    requires AtLineEnd(t)
    ensures LineLength(t) == 0
  {
  }

  /** Skips blanks; both offsets count from the beginning of the text `t` that `from` lies in. */
  method SkipBlanks(t: seq<byte>, from: nat) returns (index: nat)
    requires from <= |t|
    ensures index == BlanksEnd(t, from)
  {
    index := from;
    while index < |t| && IsBlank(t[index])
      invariant from <= index <= |t| && BlanksEnd(t, index) == BlanksEnd(t, from)
    {
      index := index + 1;
    }
  }

  function HeaderBehind(end: Option<nat>, t: seq<byte>): HeaderCheck {
    match end
    case None => HeaderOpen
    case Some(n) => if n <= |t| then Later(n, CheckHeader(t[n..])) else HeaderOpen
  }

  function HeaderResume(state: LexicalState, t: seq<byte>): HeaderCheck {
    if state == BasicString then HeaderBehind(ShortEnd(QUOTE, t), t)
    else if state == LiteralString then HeaderBehind(ShortEnd(APOSTROPHE, t), t)
    else CheckHeader(t)
  }

  lemma HeaderStringStep(t: seq<byte>, n: nat, end: Option<nat>)
    requires n <= |t|
    ensures HeaderBehind(Add(n, end), t) == Later(n, HeaderBehind(end, t[n..]))
  {
    hide CheckHeader;
    if end.Some? && n + end.value <= |t| {
      assert t[n + end.value..] == t[n..][end.value..];
    }
  }

  /** One turn of the loop over a header line: how far it moves, and the state it moves to. */
  lemma HeaderStep(t: seq<byte>, state: LexicalState, n: nat, after: LexicalState)
    requires t != [] && t[0] != LINE_FEED
    requires state == Normal || state == BasicString || state == LiteralString
    requires var escape := state == BasicString && t[0] == BACKSLASH && |t| >= 2;
             && n == (if escape then 2 else 1) && (escape ==> t[1] != LINE_FEED)
             && after == (if escape then state
                          else if state == BasicString then if t[0] == QUOTE then Normal else state
                          else if state == LiteralString then if t[0] == APOSTROPHE then Normal else state
                          else if t[0] == QUOTE then BasicString
                          else if t[0] == APOSTROPHE then LiteralString else Normal)
    requires state == Normal ==> t[0] != HASH && t[0] < 0x80
    ensures n <= |t| && HeaderResume(state, t) == Later(n, HeaderResume(after, t[n..]))
  {
    if state == Normal {
      if IsQuote(t[0]) {
        HeaderStringStep(t, 1, ShortEnd(t[0], t[1..]));
      }
    } else {
      var quote := if state == BasicString then QUOTE else APOSTROPHE;
      HeaderStringStep(t, n, ShortEnd(quote, t[n..]));
    }
  }

  /**
   The characters of a table header line: the first byte beyond ASCII outside its strings and its comment,
   or whether every string is closed on the line.
   */
  method ValidateTableHeaderCharacters(t: seq<byte>) returns (check: HeaderCheck)
    ensures HeaderSays(t, check)
    ensures forall other :: HeaderSays(t, other) ==> other == check
  {
    hide CheckHeader, HeaderSays, HeaderResume;
    var state := Normal;
    var index := 0;
    var more := true;
    assert t[0..] == t;
    HeaderStart(t);
    check := HeaderOpen;
    while more && index < |t| && t[index] != LINE_FEED
      invariant index <= |t|
      invariant state == Normal || state == BasicString || state == LiteralString
      invariant more ==> CheckHeader(t) == Later(index, HeaderResume(state, t[index..])) && check == HeaderOpen
      invariant !more ==> CheckHeader(t) == check
      decreases more, |t| - index
    {
      var current := t[index];
      var escape := state == BasicString && current == BACKSLASH && index + 1 < |t|;
      ghost var here := t[index..];
      if state == Normal && (current == HASH || current >= 0x80) {
        check, more := if current == HASH then HeaderClosed else HeaderNonAscii(index), false;
        HeaderEnds(here, state);
      } else if escape && t[index + 1] == LINE_FEED {
        more := false;
        HeaderEnds(here, state);
      } else {
        var n := if escape then 2 else 1;
        var after := state;
        if state == Normal {
          after := if current == QUOTE then BasicString
                   else if current == APOSTROPHE then LiteralString else Normal;
        } else if !escape && current == (if state == BasicString then QUOTE else APOSTROPHE) {
          after := Normal;
        }
        HeaderStep(here, state, n, after);
        LaterTwice(index, n, HeaderResume(after, here[n..]));
        assert t[index + n..] == here[n..];
        state, index := after, index + n;
      }
    }
    if more {
      HeaderEnds(t[index..], state);
      check := if state == Normal then HeaderClosed else HeaderOpen;
    }
    forall other ensures HeaderSays(t, other) <==> other == CheckHeader(t) {
      CheckHeaderExactly(t, other);
    }
  }

  lemma LaterTwice(a: nat, b: nat, check: HeaderCheck)
    ensures Later(a, Later(b, check)) == Later(a + b, check)
  {
  }

  lemma HeaderStart(t: seq<byte>)
    ensures CheckHeader(t) == Later(0, HeaderResume(Normal, t))
  {
    hide CheckHeader;
  }

  /** Where the loop stops, it knows. */
  lemma HeaderEnds(t: seq<byte>, state: LexicalState)
    ensures state != BasicString && state != LiteralString && (AtLineEnd(t) || t[0] == HASH) ==>
              HeaderResume(state, t) == HeaderClosed
    ensures state != BasicString && state != LiteralString && t != [] && t[0] >= 0x80 ==>
              HeaderResume(state, t) == HeaderNonAscii(0)
    ensures (state == BasicString || state == LiteralString) && AtLineEnd(t) ==> HeaderResume(state, t) == HeaderOpen
    ensures state == BasicString && |t| >= 2 && t[0] == BACKSLASH && t[1] == LINE_FEED ==>
              HeaderResume(state, t) == HeaderOpen
  {
  }

  /** A line that begins with a bracket outside any array. */
  method InHeader(text: seq<byte>, s: Scanner) returns (next: Next)
    requires s.index < |text| && s.state == Normal && s.Counts() && OpensHeader(s.Where(), text[s.index])
    ensures Steps(text, s, next)
  {
    hide OpenArrays, FirstRefusal, LineLength, BlanksEnd, IsBareKeyStart, HeaderSays, OpensHeader, CheckHeader;
    var t := text[s.index..];
    HeaderOpened(t, s.Where());
    var keyStart := SkipBlanks(t, 1);
    var second := keyStart < |t| && t[keyStart] == OPEN_BRACKET;
    var spaced := second && keyStart != 1;
    var outcome := HeaderClosed;
    var badKey := false;
    if !spaced {
      if second {
        keyStart := SkipBlanks(t, keyStart + 1);
      }
      badKey := && keyStart < |t| && t[keyStart] != CLOSE_BRACKET && !IsQuote(t[keyStart])
                && !IsBareKeyStart(t[keyStart]);
      if !badKey {
        outcome := ValidateTableHeaderCharacters(t);
        CheckHeaderExactly(t, outcome);
      }
    }
    assert spaced == Spaced(t) && (!spaced ==> keyStart == KeyOffset(t) && badKey == BadKey(t)) by {
      KeyFound(t);
    }
    if badKey {
      next := Refuse(Refusal(s.index + keyStart, BadHeaderKey));
    } else if outcome.HeaderNonAscii? {
      next := Refuse(Refusal(s.index + outcome.offset, NonAscii));
    } else if outcome.HeaderOpen? {
      next := LeaveToParser;
    } else {
      var index := SkipToNewline(text, s.index);
      var moved := s.(index := index, atLineStart := false);
      MovesOn(text, s, index - s.index, moved);
      next := Go(moved);
    }
  }

  lemma KeyFound(t: seq<byte>)
    requires t != [] && t[0] == OPEN_BRACKET
    ensures var first := BlanksEnd(t, 1);
            var second := first < |t| && t[first] == OPEN_BRACKET;
            && Spaced(t) == (second && first != 1)
            && (!Spaced(t) ==> KeyOffset(t) == if second then BlanksEnd(t, first + 1) else first)
  {
    if |t| > 1 && t[1] == OPEN_BRACKET {
      assert BlanksEnd(t, 1) == 1;
    }
  }

  /** What is to come at a header line. */
  lemma HeaderOpened(t: seq<byte>, ctx: Context)
    requires t != [] && OpensHeader(ctx, t[0])
    ensures LineLength(t) > 0 && t[0] == OPEN_BRACKET
    ensures var behind := Shift(LineLength(t), FirstRefusal(t[LineLength(t)..], ctx.(atLineStart := false)));
            FirstRefusal(t, ctx)
            == if Spaced(t) then behind
               else if BadKey(t) then Some(Refusal(KeyOffset(t), BadHeaderKey))
               else if CheckHeader(t).HeaderNonAscii? then Some(Refusal(CheckHeader(t).offset, NonAscii))
               else if CheckHeader(t).HeaderOpen? then None else behind
  {
    hide FirstRefusal, CheckHeader, Spaced, BadKey, KeyOffset, OpenArrays;
    FirstIs(t, ctx);
  }

  /** Any other ASCII byte outside strings and comments: brackets open and close what is on the stack. */
  method AtBracket(text: seq<byte>, s: Scanner) returns (next: Next)
    requires s.index < |text| && s.state == Normal && s.Counts() && IsOther(text[s.index])
    requires !OpensHeader(s.Where(), text[s.index])
    requires !(s.atLineStart && (IsBlank(text[s.index]) || text[s.index] == CARRIAGE_RETURN))
    ensures Steps(text, s, next)
  {
    hide FirstRefusal, OpensHeader;
    var current := text[s.index];
    var depth := |s.containers|;
    var innermost := Innermost(s.containers);
    OtherByteStep(text[s.index..], s.Where());
    if current == CLOSE_BRACE && innermost == Some(OPEN_BRACKET) {
      next := Refuse(Refusal(s.index, UnmatchedBrace));
    } else {
      var moved := s.(index := s.index + 1, atLineStart := false);
      assert (s.containers + [current])[..depth] == s.containers;
      if current == OPEN_BRACKET {
        moved := moved.(containers := s.containers + [current], arrayDepth := s.arrayDepth + 1);
      } else if current == OPEN_BRACE {
        moved := moved.(containers := s.containers + [current]);
      } else if current == CLOSE_BRACKET && innermost == Some(OPEN_BRACKET) {
        moved := moved.(containers := s.containers[..depth - 1], arrayDepth := s.arrayDepth - 1);
      } else if current == CLOSE_BRACE && innermost == Some(OPEN_BRACE) {
        moved := moved.(containers := s.containers[..depth - 1]);
      }
      MovesOn(text, s, 1, moved);
      next := Go(moved);
    }
  }

  predicate IsOther(b: byte) {
    b < 0x80 && b != LINE_FEED && b != HASH && !IsQuote(b)
  }

  lemma OtherByteStep(t: seq<byte>, ctx: Context)
    requires t != [] && IsOther(t[0]) && !OpensHeader(ctx, t[0])
    ensures FirstRefusal(t, ctx)
            == if t[0] == CLOSE_BRACE && Innermost(ctx.containers) == Some(OPEN_BRACKET)
               then Some(Refusal(0, UnmatchedBrace))
               else Shift(1, FirstRefusal(t[1..], AfterByte(ctx, t[0])))
  {
    hide FirstRefusal, OpensHeader, AfterByte;
    FirstIs(t, ctx);
  }

  lemma LineStep(t: seq<byte>, ctx: Context)
    requires t != []
    ensures t[0] == LINE_FEED ==> FirstRefusal(t, ctx) == Shift(1, FirstRefusal(t[1..], ctx.(atLineStart := true)))
    ensures t[0] == HASH ==> FirstRefusal(t, ctx) == Shift(1, Resume(Comment, t[1..], ctx))
    ensures t[0] >= 0x80 ==> FirstRefusal(t, ctx) == Some(Refusal(0, NonAscii))
  {
    hide FirstRefusal;
    FirstIs(t, ctx);
    if t[0] == HASH {
      var n := LineLength(t[1..]);
      assert t[1 + n..] == t[1..][n..];
      ShiftTwice(1, n, FirstRefusal(t[1 + n..], ctx));
    }
  }

  method InNormal(text: seq<byte>, s: Scanner) returns (next: Next)
    requires s.index < |text| && s.state == Normal && s.Counts()
    ensures Steps(text, s, next)
  {
    hide OpenArrays, FirstRefusal, LineLength, AfterByte, ShortEnd, LongEnd;
    var current := text[s.index];
    LineStep(text[s.index..], s.Where());
    if current == LINE_FEED || current == HASH {
      var moved := s.(index := s.index + 1, state := if current == HASH then Comment else Normal,
                      atLineStart := current == LINE_FEED || s.atLineStart);
      MovesOn(text, s, 1, moved);
      next := Go(moved);
    } else if current == QUOTE {
      next := OpenString(text, s, BasicString, MultilineBasicString);
    } else if current == APOSTROPHE {
      next := OpenString(text, s, LiteralString, MultilineLiteralString);
    } else if current >= 0x80 {
      next := Refuse(Refusal(s.index, NonAscii));
    } else if s.atLineStart && (IsBlank(current) || current == CARRIAGE_RETURN) {
      next := OverBlank(text, s);
    } else if s.atLineStart && current == OPEN_BRACKET && s.arrayDepth == 0 {
      next := InHeader(text, s);
    } else {
      next := AtBracket(text, s);
    }
  }

  method OverBlank(text: seq<byte>, s: Scanner) returns (next: Next)
    requires s.index < |text| && s.state == Normal && s.Counts() && s.atLineStart
    requires IsBlank(text[s.index]) || text[s.index] == CARRIAGE_RETURN
    ensures Steps(text, s, next)
  {
    hide OpenArrays, FirstRefusal;
    OtherByteStep(text[s.index..], s.Where());
    MovesOn(text, s, 1, s.(index := s.index + 1));
    next := Go(s.(index := s.index + 1));
  }

  /** One turn of the scan's loop. */
  method ScanOnce(text: seq<byte>, s: Scanner) returns (next: Next)
    requires s.index < |text| && s.Counts()
    ensures Steps(text, s, next)
  {
    hide Steps, OpenArrays;
    if s.state == Comment {
      next := InComment(text, s);
    } else if s.state == BasicString || s.state == LiteralString {
      next := InShortString(text, s);
    } else if s.state == Normal {
      next := InNormal(text, s);
    } else {
      next := InLongString(text, s);
    }
  }

  // ---- Positions.

  /** What well-formedness gives the scan: behind an ASCII byte a code point begins. */
  ghost predicate AsciiAligned(t: seq<byte>) {
    forall i | 0 <= i < |t| && t[i] < 0x80 :: BoundaryAt(t, i + 1)
  }

  lemma TokenEndsAligned(t: seq<byte>, ctx: Context)
    requires AsciiAligned(t) && t != [] && Look(t, ctx).Token?
    ensures var n := |Raw(Look(t, ctx).l)|; 0 < n <= |t| && BoundaryAt(t, n)
  {
    hide LookAtString, LookAtHeader, HeaderIsFine, ShortString, LongString, LineLength, OpensHeader;
    TokenIsLexeme(t, ctx);
    var l := Look(t, ctx).l;
    if l.OneLineString? || l.MultiLineString? {
      LookedAtString(t, ctx);
      StringToken(t);
      assert t[..|Raw(l)|][|Raw(l)| - 1] == t[|Raw(l)| - 1];
    } else if l.Remark? || l.HeaderLine? {
      assert AtLineEnd(t[|Raw(l)|..]);
    }
  }

  lemma LookedAtString(t: seq<byte>, ctx: Context)
    requires t != [] && Look(t, ctx).Token? && (Look(t, ctx).l.OneLineString? || Look(t, ctx).l.MultiLineString?)
    ensures IsQuote(t[0]) && Look(t, ctx) == LookAtString(t)
  {
    hide LookAtString, LineLength, OpensHeader;
  }

  lemma KeyBehindAscii(t: seq<byte>)
    requires t != [] && t[0] == OPEN_BRACKET && BadKey(t)
    ensures 0 < KeyOffset(t) < |t| && t[KeyOffset(t) - 1] < 0x80
  {
    var k := KeyOffset(t);
    assert k > 1 ==> t[k - 1] == OPEN_BRACKET || IsBlank(t[k - 1]);
  }

  lemma FaultAligned(t: seq<byte>, ctx: Context, r: Refusal)
    requires AsciiAligned(t) && t != [] && BoundaryAt(t, 0) && Faulty(ctx, t, r)
    ensures r.offset < |t| && BoundaryAt(t, r.offset)
  {
    hide Spaced, BadKey, KeyOffset, OutsideStrings, BoundaryAt;
    if r.reason == BadHeaderKey {
      KeyBehindAscii(t);
    } else if r.offset > 0 {
      OutsideHasNoNewline(t, r.offset);
    }
    assert r.offset > 0 ==> t[r.offset - 1] < 0x80;
  }

  /** Whatever is refused is at the beginning of a code point. */
  lemma {:induction false} RefusedBetweenCodePoints(t: seq<byte>, ctx: Context)
    requires AsciiAligned(t) && BoundaryAt(t, 0) && FirstRefusal(t, ctx).Some?
    ensures var o := FirstRefusal(t, ctx).value.offset; o < |t| && BoundaryAt(t, o)
    decreases |t|
  {
    hide Look, Raw, After, Faulty, IsLexeme, IsContinuation;
    if Look(t, ctx).Fault? {
      FaultSeenExactly(t, ctx, Look(t, ctx).r);
      FaultAligned(t, ctx, Look(t, ctx).r);
    } else {
      var n := |Raw(Look(t, ctx).l)|;
      TokenEndsAligned(t, ctx);
      AlignedTail(t, n);
      RefusedBetweenCodePoints(t[n..], After(ctx, Look(t, ctx).l));
    }
  }

  lemma AlignedTail(t: seq<byte>, n: nat)
    requires AsciiAligned(t) && n <= |t| && BoundaryAt(t, n)
    ensures AsciiAligned(t[n..]) && BoundaryAt(t[n..], 0)
  {
    hide IsContinuation;
    forall i | 0 <= i < |t| - n && t[n..][i] < 0x80 ensures BoundaryAt(t[n..], i + 1) {
      assert BoundaryAt(t, n + i + 1);
    }
  }

  lemma WellFormedIsAligned(text: seq<byte>)
    requires WellFormed(text)
    ensures AsciiAligned(text)
    ensures StartsWithMark(text) ==> BoundaryAt(text, 3)
    ensures BoundaryAt(text, 0)
  {
    hide WellFormed, IsContinuation, BoundaryAt;
    forall i | 0 <= i < |text| && text[i] < 0x80 ensures BoundaryAt(text, i + 1) {
      AfterAscii(text, i);
    }
    EmptyWellFormed();
    assert text[..0] == [];
    BoundaryIsByte(text, 0);
    if StartsWithMark(text) {
      EncodedMark();
      assert EncodeAll([BYTE_ORDER_MARK]) == text[..3] by {
        EncodeAppend([], BYTE_ORDER_MARK);
        assert [] + [BYTE_ORDER_MARK] == [BYTE_ORDER_MARK];
      }
      MarkWellFormed(text);
      BoundaryIsByte(text, 3);
    }
  }

  lemma MarkWellFormed(text: seq<byte>)
    requires |text| >= 3 && EncodeAll([BYTE_ORDER_MARK]) == text[..3]
    ensures WellFormed(text[..3])
  {
  }

  // ---- The whole scan.

  function DocumentStart(text: seq<byte>): (start: nat)
    ensures start <= |text|
  {
    if StartsWithMark(text) then 3 else 0
  }

  /** The refusal of a document, with offsets that count from the beginning of its text. */
  ghost predicate IsRefusal(text: seq<byte>, r: Refusal) {
    var start := DocumentStart(text);
    start <= r.offset && GrammarRefuses(text[start..], Refusal(r.offset - start, r.reason))
  }

  lemma ScanIsRefusal(text: seq<byte>, r: Refusal)
    ensures IsRefusal(text, r)
            <==> Shift(DocumentStart(text), FirstRefusal(text[DocumentStart(text)..], Context([], true))) == Some(r)
  {
    hide FirstRefusal, RefusedBehind;
    var start := DocumentStart(text);
    if start <= r.offset {
      RefusedExactly(text[start..], Context([], true), Refusal(r.offset - start, r.reason));
    }
  }

  /**
   Terminates on every text and refuses exactly what the grammar refuses, always at the beginning of a code
   point and behind a byte order mark.
   */
  method ValidateParserPreconditions(text: seq<byte>) returns (refused: Option<Refusal>)
    requires WellFormed(text)
    ensures forall r :: refused == Some(r) <==> IsRefusal(text, r)
    ensures refused.Some? ==> refused.value.offset < |text| && WellFormed(text[..refused.value.offset])
  {
    hide WellFormed, Resume, IsRefusal, FirstRefusal, StartsWithMark, BoundaryAt;
    var start := DocumentStart(text);
    var s := Scanner(start, Normal, [], 0, true);
    refused := None;
    ghost var answer := Answer(text, s);
    var more := true;
    while more && s.index < |text|
      invariant s.index <= |text| && s.Counts()
      invariant answer == if more then Answer(text, s) else refused
      invariant more ==> refused.None?
      decreases more, |text| - s.index
    {
      var next := ScanOnce(text, s);
      match next {
        case Go(after) => s := after;
        case LeaveToParser => more := false;
        case Refuse(refusal) => refused, more := Some(refusal), false;
      }
    }
    if more {
      NothingToCome(text, s);
    }
    AnswerIsScan(text);
    forall r ensures refused == Some(r) <==> IsRefusal(text, r) {
      ScanIsRefusal(text, r);
    }
    if refused.Some? {
      RefusedInside(text);
    }
  }

  lemma NothingToCome(text: seq<byte>, s: Scanner)
    requires s.index == |text|
    ensures Answer(text, s) == None
  {
    assert text[s.index..] == [];
  }

  lemma AnswerIsScan(text: seq<byte>)
    ensures Answer(text, Scanner(DocumentStart(text), Normal, [], 0, true))
            == Shift(DocumentStart(text), FirstRefusal(text[DocumentStart(text)..], Context([], true)))
  {
    hide FirstRefusal;
  }

  lemma RefusedInside(text: seq<byte>)
    requires WellFormed(text)
    ensures var r := Shift(DocumentStart(text), FirstRefusal(text[DocumentStart(text)..], Context([], true)));
            r.Some? ==> r.value.offset < |text| && WellFormed(text[..r.value.offset])
  {
    hide WellFormed, FirstRefusal, IsContinuation, AsciiAligned, StartsWithMark;
    var start := DocumentStart(text);
    var t := text[start..];
    WellFormedIsAligned(text);
    AlignedTail(text, start);
    if FirstRefusal(t, Context([], true)).Some? {
      RefusedBetweenCodePoints(t, Context([], true));
      BoundaryIsByte(text, start + FirstRefusal(t, Context([], true)).value.offset);
    }
  }

  /**
   A mark counts the code points in front of the fault: of the longest well-formed prefix, or if the text is
   well formed, of what lies before the place where the grammar refuses it.
   */
  ghost predicate MarksBoundary(text: seq<byte>, mark: Position, offset: nat, cs: seq<Scalar>) {
    && offset < |text| && EncodeAll(cs) == text[..offset]
    && mark == PositionAfter(Visible(cs))
    && if WellFormed(text) then exists r :: IsRefusal(text, r) && r.offset == offset
       else forall j | offset < j <= |text| :: !WellFormed(text[..j])
  }

  /**
   The checks before parsing: a document goes to the parser exactly if it is well formed and the grammar
   does not refuse it, and otherwise the position counts the lines and code points in front of the fault.
   */
  method CheckSource(text: seq<byte>) returns (mark: Option<Position>)
    ensures mark.None? <==> WellFormed(text) && forall r :: !IsRefusal(text, r)
    ensures mark.Some? ==> exists offset, cs :: MarksBoundary(text, mark.value, offset, cs)
  {
    hide EncodeAll, PositionAfter, Visible, BoundaryAt, Advance, IsRefusal;
    mark := None;
    var offset := InvalidUtf8Offset(text);
    if offset.None? {
      var refused := ValidateParserPreconditions(text);
      if refused.Some? {
        offset := Some(refused.value.offset);
        assert IsRefusal(text, refused.value);
      }
    }
    if offset.Some? {
      var at := MarkAtOffset(text, offset.value);
      ghost var cs: seq<Scalar> :| EncodeAll(cs) == text[..offset.value];
      assert MarksBoundary(text, at, offset.value, cs);
      mark := Some(at);
    }
  }
}
