/** Secret keys as texts: the three expressions of `secretKeyToFieldPath` (`pkg/resource/sensitive.go`) as scans from
    left to right, and the parser of field paths that reads what they leave. */
module SecretKeyText {
  import opened Wrappers

  datatype Segment = Field(name: string) | Index(index: nat)

  predicate IsDigit(c: char) {
    '0' <= c <= '9'
  }

  predicate Numeric(s: string) {
    s != "" && forall i | 0 <= i < |s| :: IsDigit(s[i])
  }

  function ParseDecimal(s: string): nat
    requires Numeric(s)
  {
    var d := s[|s| - 1] as int - '0' as int;
    if |s| == 1 then d else 10 * ParseDecimal(s[..|s| - 1]) + d
  }

  function TrimPrefix(s: string, prefix: char): string {
    if s != "" && s[0] == prefix then s[1..] else s
  }

  // ------------------------------------------------------------- the expressions

  predicate ThreeDots(s: string) {
    |s| >= 3 && s[0] == s[1] == s[2] == '.'
  }

  /** The first place of three dots on the line. */
  function FindDots(s: string): (r: Option<nat>)
    ensures r.Some? ==> r.value + 3 <= |s|
  {
    if |s| < 3 then None
    else if ThreeDots(s) then Some(0)
    else if s[0] == '\n' then None
    else
      match FindDots(s[1..])
      case None => None
      case Some(i) => Some(i + 1)
  }

  /** What is between three dots and the next three dots goes into brackets. */
  function ReplaceBlocks(s: string): string
    decreases |s|
  {
    if s == "" then ""
    else if ThreeDots(s) && FindDots(s[3..]).Some? then
      var i := FindDots(s[3..]).value;
      "[" + s[3..3 + i] + "]" + ReplaceBlocks(s[i + 6..])
    else [s[0]] + ReplaceBlocks(s[1..])
  }

  /** A number behind a dot at the end goes into brackets. */
  function ReplaceEnd(s: string): string {
    if s == "" then ""
    else if s[0] == '.' && Numeric(s[1..]) then "[" + s[1..] + "]"
    else [s[0]] + ReplaceEnd(s[1..])
  }

  /** How many digits a text starts with. */
  function Digits(s: string): (n: nat)
    ensures n <= |s| && (forall i | 0 <= i < n :: IsDigit(s[i])) && (n < |s| ==> !IsDigit(s[n]))
  {
    if s == "" || !IsDigit(s[0]) then 0 else 1 + Digits(s[1..])
  }

  predicate NumberBetweenDots(s: string) {
    s != "" && s[0] == '.' && var n := Digits(s[1..]); n > 0 && n + 1 < |s| && s[n + 1] == '.'
  }

  /** A number between two dots goes into brackets; the dot behind it is used up by the match. */
  function ReplaceMiddle(s: string): string
    decreases |s|
  {
    if s == "" then ""
    else if NumberBetweenDots(s) then
      var n := Digits(s[1..]);
      "[" + s[1..n + 1] + "]." + ReplaceMiddle(s[n + 2..])
    else [s[0]] + ReplaceMiddle(s[1..])
  }

  // ------------------------------------------------------------------- the parser

  predicate Special(c: char) {
    c == '.' || c == '[' || c == ']'
  }

  /** The first place of a character that ends a field name. */
  function FieldEnd(s: string): (i: nat)
    ensures i <= |s| && (forall k | 0 <= k < i :: !Special(s[k])) && (i < |s| ==> Special(s[i]))
  {
    if s == "" || Special(s[0]) then 0 else 1 + FieldEnd(s[1..])
  }

  /** The first closing bracket. */
  function Closing(s: string): (r: Option<nat>)
    ensures r.Some? ==> r.value < |s| && s[r.value] == ']' && forall k | 0 <= k < r.value :: s[k] != ']'
    ensures r.None? ==> forall k | 0 <= k < |s| :: s[k] != ']'
  {
    if s == "" then None
    else if s[0] == ']' then Some(0)
    else
      match Closing(s[1..])
      case None => None
      case Some(i) => Some(i + 1)
  }

  /** What is in brackets is an index if it is a number of at most 32 bits. */
  function FieldOrIndex(s: string): Segment {
    if Numeric(s) && ParseDecimal(s) < 0x1_0000_0000 then Index(ParseDecimal(s)) else Field(s)
  }

  function Prepend(segments: seq<Segment>, rest: Option<seq<Segment>>): Option<seq<Segment>> {
    if rest.Some? then Some(segments + rest.value) else None
  }

  function NameBefore(s: string): seq<Segment> {
    if s == "" then [] else [Field(s)]
  }

  datatype Lexed = Malformed | Last(segments: seq<Segment>) | More(segments: seq<Segment>, rest: string)

  function LexBrackets(field: seq<Segment>, s: string): (r: Lexed)
    ensures r.More? ==> |r.rest| < |s|
  {
    match Closing(s)
    case None => Malformed
    case Some(j) =>
      if j == 0 || '[' in s[..j] then Malformed else More(field + [FieldOrIndex(s[..j])], s[j + 1..])
  }

  /** A name and what ends it: the end, a dot, or brackets. No dot may be first, last, or before another dot or a
      bracket, and no bracket within brackets. */
  function Lex(s: string, start: bool): (r: Lexed)
    ensures r.More? ==> |r.rest| < |s|
  {
    var i := FieldEnd(s);
    var field := NameBefore(s[..i]);
    if i == |s| then Last(field)
    else if s[i] == ']' then Malformed
    else if s[i] == '.' then
      if (start && i == 0) || i == |s| - 1 || s[i + 1] == '.' || s[i + 1] == '[' then Malformed
      else More(field, s[i + 1..])
    else LexBrackets(field, s[i + 1..])
  }

  /** The library's parser. */
  function ParsePath(s: string, start: bool): Option<seq<Segment>>
    decreases |s|
  {
    match Lex(s, start)
    case Malformed => None
    case Last(segments) => Some(segments)
    case More(segments, rest) => Prepend(segments, ParsePath(rest, false))
  }

  /** secretKeyToFieldPath; `None` is its error. */
  function SecretKeyToFieldPath(s: string): Option<seq<Segment>> {
    ParsePath(ReplaceMiddle(ReplaceEnd(ReplaceBlocks(s))), true)
  }

  // ------------------------------------------------------------------- their pieces

  /** A part of a text: behind a dot, or in brackets. */
  datatype Piece = Dot(text: string) | Bracket(text: string)

  function Rendered(pieces: seq<Piece>): string {
    if pieces == [] then ""
    else (if pieces[0].Dot? then "." + pieces[0].text else "[" + pieces[0].text + "]") + Rendered(pieces[1..])
  }

  /** Without the dot of the first piece. */
  function Tail(pieces: seq<Piece>): string
    requires pieces != []
  {
    pieces[0].text + Rendered(pieces[1..])
  }

  predicate PlainText(s: string) {
    s != "" && forall i | 0 <= i < |s| :: !Special(s[i])
  }

  predicate NoBrackets(s: string) {
    s != "" && forall i | 0 <= i < |s| :: s[i] != '[' && s[i] != ']'
  }

  predicate WellFormed(p: Piece) {
    match p
    case Dot(text) => PlainText(text)
    case Bracket(text) => NoBrackets(text)
  }

  ghost predicate AllWellFormed(pieces: seq<Piece>) {
    forall p <- pieces :: WellFormed(p)
  }

  lemma StartsSpecial(pieces: seq<Piece>)
    requires pieces != []
    ensures Rendered(pieces) != "" && Special(Rendered(pieces)[0])
    ensures Rendered(pieces)[0] == if pieces[0].Dot? then '.' else '['
  {}

  lemma Join(a: string, b: string, c: string)
    ensures a + b + c == a + (b + c)
  {}

  lemma RenderedStep(pieces: seq<Piece>)
    requires pieces != []
    ensures var u, rest := pieces[0].text, Rendered(pieces[1..]);
      Rendered(pieces) == if pieces[0].Dot? then "." + (u + rest) else "[" + (u + ("]" + rest))
  {
    var u, rest := pieces[0].text, Rendered(pieces[1..]);
    Join(".", u, rest);
    assert "[" + u + "]" + rest == "[" + (u + ("]" + rest));
  }

  // ------------------------------------------------------- a number at the end

  function EndPieces(pieces: seq<Piece>): seq<Piece> {
    if pieces == [] then []
    else if |pieces| == 1 && pieces[0].Dot? && Numeric(pieces[0].text) then [Bracket(pieces[0].text)]
    else [pieces[0]] + EndPieces(pieces[1..])
  }

  lemma Behead(x: string, rest: string)
    requires x != ""
    ensures x + rest != "" && (x + rest)[0] == x[0] && (x + rest)[1..] == x[1..] + rest
  {}

  lemma Uncons(x: string, rest: string)
    requires x != ""
    ensures [x[0]] + (x[1..] + rest) == x + rest
  {}

  ghost predicate HasOther(s: string) {
    exists i :: 0 <= i < |s| && !IsDigit(s[i])
  }

  lemma NotNumeric(x: string, rest: string)
    requires HasOther(rest)
    ensures !Numeric(x + rest)
  {
    var i :| 0 <= i < |rest| && !IsDigit(rest[i]);
    assert (x + rest)[|x| + i] == rest[i];
  }

  lemma EndCopy(s: string)
    requires s != "" && !Numeric(s[1..])
    ensures ReplaceEnd(s) == [s[0]] + ReplaceEnd(s[1..])
  {}

  lemma {:induction false} EndSkips(x: string, rest: string)
    requires HasOther(rest)
    ensures ReplaceEnd(x + rest) == x + ReplaceEnd(rest)
  {
    if x == "" {
      assert x + rest == rest;
    } else {
      hide ReplaceEnd, Numeric, HasOther;
      EndSkips(x[1..], rest);
      NotNumeric(x[1..], rest);
      Behead(x, rest);
      EndCopy(x + rest);
      Uncons(x, ReplaceEnd(rest));
    }
  }

  lemma {:induction false} EndSkipsPlain(x: string)
    requires forall i | 0 <= i < |x| :: x[i] != '.'
    ensures ReplaceEnd(x) == x
  {
    if x != "" {
      EndSkipsPlain(x[1..]);
    }
  }

  lemma {:induction false} EndOfRendered(pieces: seq<Piece>)
    requires AllWellFormed(pieces)
    ensures ReplaceEnd(Rendered(pieces)) == Rendered(EndPieces(pieces))
  {
    if pieces != [] {
      hide ReplaceEnd, Rendered, EndPieces, Numeric;
      var text, rest := pieces[0].text, pieces[1..];
      assert WellFormed(pieces[0]);
      EndOfRendered(rest);
      RenderedStep(pieces);
      EndPiecesStep(pieces);
      if pieces[0].Bracket? {
        EndOfBracket(text, Rendered(rest));
      } else if rest == [] {
        assert pieces == [Dot(text)];
        EndOfOne(text);
      } else {
        StartsSpecial(rest);
        assert HasOther(Rendered(rest));
        EndSkips("." + text, Rendered(rest));
        Join(".", text, Rendered(rest));
        Join(".", text, Rendered(EndPieces(rest)));
      }
    }
  }

  lemma EndPiecesStep(pieces: seq<Piece>)
    requires pieces != []
    ensures var ended, rest := EndPieces(pieces), EndPieces(pieces[1..]);
      if |pieces| == 1 && pieces[0].Dot? && Numeric(pieces[0].text) then ended == [Bracket(pieces[0].text)]
      else
        Rendered(ended) ==
          if pieces[0].Dot? then "." + (pieces[0].text + Rendered(rest))
          else "[" + (pieces[0].text + ("]" + Rendered(rest)))
    ensures |pieces| == 1 && pieces[0].Dot? && !Numeric(pieces[0].text) ==> EndPieces(pieces) == pieces
  {
    hide Rendered, Numeric;
    var rest := EndPieces(pieces[1..]);
    if !(|pieces| == 1 && pieces[0].Dot? && Numeric(pieces[0].text)) {
      assert EndPieces(pieces) == [pieces[0]] + rest;
      assert ([pieces[0]] + rest)[1..] == rest;
      RenderedStep(EndPieces(pieces));
    }
  }

  lemma EndCopiesClosing(rest: string)
    ensures ReplaceEnd("]" + rest) == "]" + ReplaceEnd(rest)
  {
    assert ("]" + rest)[1..] == rest;
  }

  lemma EndOfBracket(text: string, rest: string)
    ensures ReplaceEnd("[" + (text + ("]" + rest))) == "[" + (text + ("]" + ReplaceEnd(rest)))
  {
    assert ("]" + rest)[0] == ']' && ("]" + rest)[1..] == rest;
    assert HasOther("]" + rest);
    EndCopiesClosing(rest);
    hide ReplaceEnd;
    EndSkips("[" + text, "]" + rest);
    Join("[", text, "]" + rest);
    Join("[", text, "]" + ReplaceEnd(rest));
  }

  lemma EndOfOne(text: string)
    requires PlainText(text)
    ensures Rendered([Dot(text)]) == "." + text
    ensures ReplaceEnd("." + text) == if Numeric(text) then "[" + text + "]" else "." + text
    ensures Rendered([Bracket(text)]) == "[" + text + "]"
  {
    EndSkipsPlain(text);
    assert ("." + text)[1..] == text;
    assert [Dot(text)][1..] == [] && [Bracket(text)][1..] == [];
  }

  /** The first piece has lost its dot, and is no number at the end. */
  function EndTail(pieces: seq<Piece>): (r: seq<Piece>)
    requires pieces != []
    ensures r != [] && r[0] == pieces[0]
  {
    [pieces[0]] + EndPieces(pieces[1..])
  }

  lemma EndOfTail(pieces: seq<Piece>)
    requires pieces != [] && pieces[0].Dot? && AllWellFormed(pieces)
    ensures ReplaceEnd(Tail(pieces)) == Tail(EndTail(pieces))
  {
    var text, rest := pieces[0].text, pieces[1..];
    assert WellFormed(pieces[0]);
    EndOfRendered(rest);
    assert EndTail(pieces)[1..] == EndPieces(rest);
    if rest == [] {
      EndSkipsPlain(text);
      assert text + "" == text;
    } else {
      StartsSpecial(rest);
      assert HasOther(Rendered(rest));
      EndSkips(text, Rendered(rest));
    }
  }

  lemma {:induction false} EndWellFormed(pieces: seq<Piece>)
    requires AllWellFormed(pieces)
    ensures AllWellFormed(EndPieces(pieces))
  {
    if pieces != [] {
      assert WellFormed(pieces[0]);
      EndWellFormed(pieces[1..]);
    }
  }

  // -------------------------------------------------------- numbers between dots

  /** A number whose dot is its own, and before another dot. */
  predicate Between(pieces: seq<Piece>, i: nat) {
    i + 1 < |pieces| && pieces[i].Dot? && Numeric(pieces[i].text) && pieces[i + 1].Dot?
  }

  /** Whether the piece goes into brackets: it is between dots, and the dot before it has not been used up. */
  predicate Taken(pieces: seq<Piece>, i: nat) {
    i > 0 && Between(pieces, i) && !Taken(pieces, i - 1)
  }

  function MiddlePiece(pieces: seq<Piece>, i: nat): Piece
    requires i < |pieces|
  {
    match pieces[i]
    case Bracket(text) => Bracket(ReplaceMiddle(text))
    case Dot(text) => if Taken(pieces, i) then Bracket(text) else Dot(text)
  }

  /** The pieces from one on, after the numbers between dots have gone into brackets. */
  function MiddleFrom(pieces: seq<Piece>, i: nat): (r: seq<Piece>)
    requires i <= |pieces|
    ensures |r| == |pieces| - i && forall k | 0 <= k < |r| :: r[k] == MiddlePiece(pieces, i + k)
    decreases |pieces| - i
  {
    if i == |pieces| then [] else [MiddlePiece(pieces, i)] + MiddleFrom(pieces, i + 1)
  }

  lemma {:induction false} MiddleSkips(x: string, rest: string)
    requires forall i | 0 <= i < |x| :: x[i] != '.'
    ensures ReplaceMiddle(x + rest) == x + ReplaceMiddle(rest)
  {
    if x == "" {
      assert x + rest == rest;
    } else {
      hide ReplaceMiddle, Digits;
      Behead(x, rest);
      MiddleCopy(x + rest);
      MiddleSkips(x[1..], rest);
      Uncons(x, ReplaceMiddle(rest));
    }
  }

  lemma {:induction false} DigitsStop(s: string, n: nat)
    requires n <= |s| && (forall i | 0 <= i < n :: IsDigit(s[i])) && (n < |s| ==> !IsDigit(s[n]))
    ensures Digits(s) == n
  {
    var _ := Digits(s);
  }

  lemma SameMatch(x: string, rest: string)
    requires x != "" && forall i | 0 <= i < |x| :: x[i] != ']'
    ensures var s := x + ("]" + rest);
      && (NumberBetweenDots(s) <==> NumberBetweenDots(x)) && Digits(s[1..]) == Digits(x[1..])
      && (NumberBetweenDots(x) ==>
            s[1..Digits(x[1..]) + 1] == x[1..Digits(x[1..]) + 1] &&
            s[Digits(x[1..]) + 2..] == x[Digits(x[1..]) + 2..] + ("]" + rest))
  {
    var s, n := x + ("]" + rest), Digits(x[1..]);
    assert s[0] == x[0] && s[1..] == x[1..] + ("]" + rest);
    assert s[n + 1] == if n + 1 < |x| then x[n + 1] else ']';
    DigitsStop(s[1..], n);
  }

  lemma BeyondMatch(x: string, rest: string, r: string)
    requires NumberBetweenDots(x) && forall i | 0 <= i < |x| :: x[i] != ']'
    requires var tail := x[Digits(x[1..]) + 2..]; ReplaceMiddle(tail + ("]" + rest)) == ReplaceMiddle(tail) + ("]" + r)
    ensures ReplaceMiddle(x + ("]" + rest)) == ReplaceMiddle(x) + ("]" + r)
  {
    hide ReplaceMiddle, NumberBetweenDots, Digits;
    MatchFits(x);
    SameMatch(x, rest);
    MiddleMatch(x);
    MiddleMatch(x + ("]" + rest));
    Join("[" + x[1..Digits(x[1..]) + 1] + "].", ReplaceMiddle(x[Digits(x[1..]) + 2..]), "]" + r);
  }

  lemma BeyondCopy(x: string, rest: string, r: string)
    requires x != "" && !NumberBetweenDots(x) && forall i | 0 <= i < |x| :: x[i] != ']'
    requires ReplaceMiddle(x[1..] + ("]" + rest)) == ReplaceMiddle(x[1..]) + ("]" + r)
    ensures ReplaceMiddle(x + ("]" + rest)) == ReplaceMiddle(x) + ("]" + r)
  {
    hide ReplaceMiddle, NumberBetweenDots, Digits;
    SameMatch(x, rest);
    MiddleCopy(x);
    MiddleCopy(x + ("]" + rest));
    Behead(x, "]" + rest);
    Join([x[0]], ReplaceMiddle(x[1..]), "]" + r);
  }

  lemma ClosingCopied(rest: string)
    ensures ReplaceMiddle("" + ("]" + rest)) == ReplaceMiddle("") + ("]" + ReplaceMiddle(rest))
  {
    var s := "]" + rest;
    assert "" + s == s && s[1..] == rest;
    MiddleCopy(s);
    hide ReplaceMiddle;
    EmptyCopied();
    assert "" + ("]" + ReplaceMiddle(rest)) == "]" + ReplaceMiddle(rest);
  }

  lemma EmptyCopied()
    ensures ReplaceMiddle("") == ""
  {}

  /** No match goes beyond a bracket. */
  lemma {:induction false} MiddleInBracket(x: string, rest: string)
    requires forall i | 0 <= i < |x| :: x[i] != ']'
    ensures ReplaceMiddle(x + ("]" + rest)) == ReplaceMiddle(x) + ("]" + ReplaceMiddle(rest))
    decreases |x|
  {
    hide ReplaceMiddle, NumberBetweenDots, Digits;
    if x == "" {
      ClosingCopied(rest);
    } else if NumberBetweenDots(x) {
      MatchFits(x);
      MiddleInBracket(x[Digits(x[1..]) + 2..], rest);
      BeyondMatch(x, rest, ReplaceMiddle(rest));
    } else {
      MiddleInBracket(x[1..], rest);
      BeyondCopy(x, rest, ReplaceMiddle(rest));
    }
  }

  lemma MatchFits(x: string)
    requires NumberBetweenDots(x)
    ensures Digits(x[1..]) + 2 <= |x|
  {}

  lemma DigitsOfText(text: string, rest: string)
    requires text != "" && (rest == "" || !IsDigit(rest[0]))
    ensures var s, n := text + rest, Digits(text + rest);
      if Numeric(text) then n == |text| else n < |text| && s[n] == text[n] && !IsDigit(text[n])
  {
    var s := text + rest;
    assert forall i | 0 <= i < |text| :: s[i] == text[i];
    if Numeric(text) {
      assert rest != "" ==> s[|text|] == rest[0];
      DigitsStop(s, |text|);
    } else {
      var i :| 0 <= i < |text| && !IsDigit(text[i]);
      assert Digits(s) <= i;
    }
  }

  /** A piece behind a dot is a match exactly if it is a number before another dot. */
  lemma DotMatches(pieces: seq<Piece>)
    requires pieces != [] && pieces[0].Dot? && AllWellFormed(pieces)
    ensures NumberBetweenDots(Rendered(pieces)) <==> Between(pieces, 0)
    ensures Between(pieces, 0) ==> Digits(Rendered(pieces)[1..]) == |pieces[0].text|
  {
    hide Numeric, Rendered;
    var text, rest := pieces[0].text, Rendered(pieces[1..]);
    var s := "." + (text + rest);
    assert WellFormed(pieces[0]);
    RenderedStep(pieces);
    assert s[1..] == text + rest;
    if |pieces| > 1 {
      StartsSpecial(pieces[1..]);
      assert s[|text| + 1] == rest[0];
    } else {
      NoPieces();
    }
    DigitsOfText(text, rest);
  }

  lemma NoPieces()
    ensures Rendered([]) == ""
  {}

  lemma MiddleMatch(s: string)
    requires NumberBetweenDots(s)
    ensures var n := Digits(s[1..]); ReplaceMiddle(s) == "[" + s[1..n + 1] + "]." + ReplaceMiddle(s[n + 2..])
  {}

  lemma MiddleCopy(s: string)
    requires s != "" && !NumberBetweenDots(s)
    ensures ReplaceMiddle(s) == [s[0]] + ReplaceMiddle(s[1..])
  {}

  lemma RenderedDot(pieces: seq<Piece>)
    requires pieces != [] && pieces[0].Dot?
    ensures Rendered(pieces) == "." + Tail(pieces) && Rendered(pieces)[1..] == Tail(pieces)
  {
    assert "." + pieces[0].text + Rendered(pieces[1..]) == "." + Tail(pieces);
  }

  lemma MatchStep(pieces: seq<Piece>)
    requires AllWellFormed(pieces) && Between(pieces, 0)
    ensures ReplaceMiddle(Rendered(pieces)) == "[" + pieces[0].text + "]." + ReplaceMiddle(Tail(pieces[1..]))
  {
    hide Numeric, ReplaceMiddle, NumberBetweenDots, Rendered;
    var s, text, tail := Rendered(pieces), pieces[0].text, Tail(pieces[1..]);
    DotMatches(pieces);
    RenderedDot(pieces);
    RenderedDot(pieces[1..]);
    MiddleMatch(s);
    assert s == "." + (text + ("." + tail));
    assert s[1..|text| + 1] == text && s[|text| + 2..] == tail;
  }

  lemma DotStep(pieces: seq<Piece>)
    requires pieces != [] && pieces[0].Dot? && AllWellFormed(pieces)
    ensures ReplaceMiddle(Tail(pieces)) == pieces[0].text + ReplaceMiddle(Rendered(pieces[1..]))
    ensures !Between(pieces, 0) ==> ReplaceMiddle(Rendered(pieces)) == "." + ReplaceMiddle(Tail(pieces))
  {
    hide Between, ReplaceMiddle, NumberBetweenDots, Rendered;
    assert WellFormed(pieces[0]);
    MiddleSkips(pieces[0].text, Rendered(pieces[1..]));
    DotMatches(pieces);
    RenderedDot(pieces);
    if !Between(pieces, 0) {
      MiddleCopy(Rendered(pieces));
    }
  }

  lemma BracketStep(pieces: seq<Piece>)
    requires pieces != [] && pieces[0].Bracket? && AllWellFormed(pieces)
    ensures ReplaceMiddle(Rendered(pieces)) ==
      "[" + ReplaceMiddle(pieces[0].text) + "]" + ReplaceMiddle(Rendered(pieces[1..]))
  {
    hide ReplaceMiddle, Rendered;
    var text, rest := pieces[0].text, Rendered(pieces[1..]);
    assert WellFormed(pieces[0]);
    RenderedStep(pieces);
    MiddleSkips("[", text + ("]" + rest));
    MiddleInBracket(text, rest);
    var m := ReplaceMiddle(text);
    assert "[" + (m + ("]" + ReplaceMiddle(rest))) == "[" + m + "]" + ReplaceMiddle(rest);
  }

  /** The scan from a piece on, with or without its dot. */
  lemma {:induction false} MiddleOfRendered(pieces: seq<Piece>, i: nat, dot: bool)
    requires i <= |pieces| && AllWellFormed(pieces)
    requires dot <==> i > 0 && !Taken(pieces, i - 1)
    requires !dot ==> i < |pieces| && pieces[i].Dot?
    ensures !dot ==> MiddlePiece(pieces, i) == pieces[i]
    ensures ReplaceMiddle(if dot then Rendered(pieces[i..]) else Tail(pieces[i..])) ==
      if dot then Rendered(MiddleFrom(pieces, i)) else Tail(MiddleFrom(pieces, i))
    decreases |pieces| - i
  {
    if i == |pieces| {
      assert pieces[i..] == [];
    } else {
      hide ReplaceMiddle, WellFormed, Numeric, Rendered, Taken, Between, MiddlePiece;
      var from, next := pieces[i..], MiddleFrom(pieces, i + 1);
      SuffixAt(pieces, i, dot);
      RenderedFrom(pieces, i);
      if pieces[i].Bracket? {
        MiddleOfRendered(pieces, i + 1, true);
        BracketStep(from);
      } else if dot && Between(pieces, i) {
        MiddleOfRendered(pieces, i + 1, false);
        MatchStep(from);
        RenderedDot(next);
        Join("[" + pieces[i].text + "]", ".", Tail(next));
      } else {
        MiddleOfRendered(pieces, i + 1, true);
        DotStep(from);
        Join(".", pieces[i].text, Rendered(next));
      }
    }
  }

  lemma SuffixAt(pieces: seq<Piece>, i: nat, dot: bool)
    requires i < |pieces| && (dot <==> i > 0 && !Taken(pieces, i - 1))
    ensures pieces[i..][0] == pieces[i] && pieces[i..][1..] == pieces[i + 1..]
    ensures Between(pieces[i..], 0) <==> Between(pieces, i)
    ensures Taken(pieces, i) <==> dot && Between(pieces, i)
    ensures Between(pieces, i) ==> pieces[i].Dot? && i + 1 < |pieces| && pieces[i + 1].Dot?
    ensures MiddlePiece(pieces, i) ==
      match pieces[i]
      case Bracket(text) => Bracket(ReplaceMiddle(text))
      case Dot(text) => if dot && Between(pieces, i) then Bracket(text) else Dot(text)
  {
    hide Numeric, ReplaceMiddle;
  }

  lemma RenderedFrom(pieces: seq<Piece>, i: nat)
    requires i < |pieces|
    ensures var p, r, next := MiddlePiece(pieces, i), MiddleFrom(pieces, i), MiddleFrom(pieces, i + 1);
      && r != [] && r[0] == p && r[1..] == next
      && Tail(r) == p.text + Rendered(next)
      && Rendered(r) == (if p.Dot? then "." + p.text else "[" + p.text + "]") + Rendered(next)
  {
    hide MiddlePiece;
    assert MiddleFrom(pieces, i) == [MiddlePiece(pieces, i)] + MiddleFrom(pieces, i + 1);
  }

  // --------------------------------------------------------- numbers within brackets

  /** Between two dots of a name there is a number. */
  predicate NumberWithin(name: string) {
    exists i | 0 <= i < |name| :: NumberBetweenDots(name[i..])
  }

  /** A bracket is opened before one is closed. */
  ghost predicate Dirty(s: string) {
    exists k :: 0 <= k < |s| && s[k] == '[' && forall j | 0 <= j < k :: s[j] != ']'
  }

  lemma NumberAfter(s: string)
    requires s != ""
    ensures NumberWithin(s) <==> NumberBetweenDots(s) || NumberWithin(s[1..])
  {
    hide NumberBetweenDots;
    var t := s[1..];
    if i :| 0 <= i < |s| && NumberBetweenDots(s[i..]) {
      assert if i == 0 then s[i..] == s else t[i - 1..] == s[i..];
    }
    if NumberBetweenDots(s) {
      assert s[0..] == s;
    }
    if i :| 0 <= i < |t| && NumberBetweenDots(t[i..]) {
      assert s[i + 1..] == t[i..];
    }
  }

  /** A name in brackets is left alone, unless it has a number between two dots; then another bracket is opened
      in it. */
  lemma {:induction false} NameInBrackets(s: string)
    requires forall i | 0 <= i < |s| :: s[i] != '[' && s[i] != ']'
    ensures if NumberWithin(s) then Dirty(ReplaceMiddle(s)) else ReplaceMiddle(s) == s
  {
    if s != "" {
      hide NumberWithin, Numeric;
      NumberAfter(s);
      if NumberBetweenDots(s) {
        assert ReplaceMiddle(s)[0] == '[';
      } else {
        NameInBrackets(s[1..]);
        if NumberWithin(s) {
          DirtyAfter(s[0], ReplaceMiddle(s[1..]));
        }
      }
    }
  }

  lemma DirtyAfter(c: char, s: string)
    requires c != ']' && Dirty(s)
    ensures Dirty([c] + s)
  {
    var k :| 0 <= k < |s| && s[k] == '[' && forall j | 0 <= j < k :: s[j] != ']';
    assert ([c] + s)[k + 1] == '[';
  }

  // -------------------------------------------------------------- reading the pieces

  ghost predicate Readable(p: Piece) {
    match p
    case Dot(text) => PlainText(text)
    case Bracket(text) => NoBrackets(text) || Dirty(text)
  }

  ghost predicate SomeDirty(pieces: seq<Piece>) {
    exists p <- pieces :: p.Bracket? && Dirty(p.text)
  }

  function Meaning(p: Piece): Segment {
    match p
    case Dot(text) => Field(text)
    case Bracket(text) => FieldOrIndex(text)
  }

  function Meanings(pieces: seq<Piece>): (segments: seq<Segment>)
    ensures |segments| == |pieces| && forall i | 0 <= i < |pieces| :: segments[i] == Meaning(pieces[i])
  {
    if pieces == [] then [] else [Meaning(pieces[0])] + Meanings(pieces[1..])
  }

  lemma FieldEnds(s: string, n: nat)
    requires n <= |s| && (forall k | 0 <= k < n :: !Special(s[k])) && (n < |s| ==> Special(s[n]))
    ensures FieldEnd(s) == n
  {
    var _ := FieldEnd(s);
  }

  lemma ClosesAt(s: string, n: nat)
    requires n < |s| && s[n] == ']' && forall k | 0 <= k < n :: s[k] != ']'
    ensures Closing(s) == Some(n)
  {
    var _ := Closing(s);
  }

  lemma LexDot(text: string, next: string, start: bool)
    requires (forall i | 0 <= i < |text| :: !Special(text[i])) && (start ==> text != "")
    requires next != "" && !Special(next[0])
    ensures Lex(text + ("." + next), start) == More(NameBefore(text), next)
  {
    var s, n := text + ("." + next), |text|;
    FieldEnds(s, n);
    assert s[..n] == text && s[n] == '.' && s[n + 1] == next[0] && s[n + 1..] == next;
  }

  lemma LexBracketsDirty(field: seq<Segment>, u: string, rest: string)
    requires Dirty(u)
    ensures LexBrackets(field, u + ("]" + rest)) == Malformed
  {
    hide FieldOrIndex, Closing;
    DirtyContent(u, rest);
  }

  lemma LexBracketsClean(field: seq<Segment>, u: string, rest: string)
    requires NoBrackets(u)
    ensures LexBrackets(field, u + ("]" + rest)) == More(field + [FieldOrIndex(u)], rest)
  {
    hide FieldOrIndex, Closing;
    var after := u + ("]" + rest);
    assert after[|u|] == ']' && after[..|u|] == u && after[|u| + 1..] == rest;
    ClosesAt(after, |u|);
  }

  lemma LexBracket(text: string, u: string, rest: string, start: bool)
    requires forall i | 0 <= i < |text| :: !Special(text[i])
    requires NoBrackets(u) || Dirty(u)
    ensures Lex(text + ("[" + (u + ("]" + rest))), start) ==
      if Dirty(u) then Malformed else More(NameBefore(text) + [FieldOrIndex(u)], rest)
  {
    hide FieldOrIndex, FieldEnd, Closing, NameBefore, LexBrackets, Dirty, NoBrackets;
    var after := u + ("]" + rest);
    var s, n := text + ("[" + after), |text|;
    assert s[..n] == text && s[n] == '[' && s[n + 1..] == after;
    FieldEnds(s, n);
    if Dirty(u) {
      LexBracketsDirty(NameBefore(text), u, rest);
    } else {
      LexBracketsClean(NameBefore(text), u, rest);
    }
  }

  lemma DirtyContent(u: string, rest: string)
    requires Dirty(u)
    ensures var after := u + ("]" + rest);
      Closing(after).Some? && '[' in after[..Closing(after).value]
  {
    var after := u + ("]" + rest);
    assert after[|u|] == ']';
    var k :| 0 <= k < |u| && u[k] == '[' && forall j | 0 <= j < k :: u[j] != ']';
    assert after[k] == '[' && forall m | 0 <= m < k :: after[m] == u[m];
    var j := Closing(after).value;
    assert forall m | 0 <= m <= k :: after[m] != ']';
    assert k < j && after[..j][k] == '[';
  }

  lemma MeaningsStep(pieces: seq<Piece>)
    requires pieces != []
    ensures Meanings(pieces) == [Meaning(pieces[0])] + Meanings(pieces[1..])
    ensures SomeDirty(pieces) <==> (pieces[0].Bracket? && Dirty(pieces[0].text)) || SomeDirty(pieces[1..])
  {
    hide Dirty, Meaning;
    assert forall p :: p in pieces <==> p == pieces[0] || p in pieces[1..];
  }

  lemma PlainStarts(u: string, rest: string)
    requires PlainText(u)
    ensures u + rest != "" && !Special((u + rest)[0]) && NameBefore(u) == [Field(u)]
    ensures forall i | 0 <= i < |u| :: !Special(u[i])
  {}

  ghost predicate AllReadable(pieces: seq<Piece>) {
    forall p <- pieces :: Readable(p)
  }

  /** What a text of pieces behind a name is read as. */
  ghost function Read(text: string, pieces: seq<Piece>): Option<seq<Segment>> {
    if SomeDirty(pieces) then None else Some(NameBefore(text) + Meanings(pieces))
  }

  lemma ReadStep(text: string, pieces: seq<Piece>)
    requires pieces != [] && AllReadable(pieces)
    ensures Readable(pieces[0]) && AllReadable(pieces[1..])
    ensures var u, rest := pieces[0].text, pieces[1..];
      Read(text, pieces) ==
        if pieces[0].Dot? then Prepend(NameBefore(text), Read(u, rest))
        else if Dirty(u) then None
        else Prepend(NameBefore(text) + [FieldOrIndex(u)], Read("", rest))
  {
    hide PlainText, NoBrackets, Dirty, FieldOrIndex, Special, SomeDirty, Meanings;
    var u, rest := pieces[0].text, pieces[1..];
    assert Readable(pieces[0]);
    MeaningsStep(pieces);
    if pieces[0].Dot? {
      PlainStarts(u, "");
    } else {
      NoName();
      assert NameBefore(text) + [FieldOrIndex(u)] + ([] + Meanings(rest)) == NameBefore(text) + Meanings(pieces);
    }
  }

  /** Where the parser is after a name, or after a bracket with no name behind it. */
  lemma {:induction false} ParseOfRendered(text: string, pieces: seq<Piece>, start: bool)
    requires (forall i | 0 <= i < |text| :: !Special(text[i])) && (start ==> text != "") && AllReadable(pieces)
    ensures ParsePath(text + Rendered(pieces), start) == Read(text, pieces)
    decreases |pieces|
  {
    if pieces == [] {
      ParseEnd(text, start);
    } else {
      hide Lex, ParsePath, Rendered, NoBrackets, Dirty, FieldOrIndex, NameBefore, Read, AllReadable;
      var u, rest := pieces[0].text, pieces[1..];
      RenderedStep(pieces);
      ReadStep(text, pieces);
      if pieces[0].Dot? {
        PlainStarts(u, Rendered(rest));
        ParseOfRendered(u, rest, false);
        LexDot(text, u + Rendered(rest), start);
        ParseMore(text + Rendered(pieces), start, NameBefore(text), u + Rendered(rest));
      } else {
        ParseOfRendered("", rest, false);
        assert "" + Rendered(rest) == Rendered(rest);
        LexBracket(text, u, Rendered(rest), start);
        if Dirty(u) {
          ParseMalformed(text + Rendered(pieces), start);
        } else {
          ParseMore(text + Rendered(pieces), start, NameBefore(text) + [FieldOrIndex(u)], Rendered(rest));
        }
      }
    }
  }

  lemma ParseMore(s: string, start: bool, segments: seq<Segment>, rest: string)
    requires Lex(s, start) == More(segments, rest)
    ensures ParsePath(s, start) == Prepend(segments, ParsePath(rest, false))
  {
    hide Lex;
  }

  lemma ParseMalformed(s: string, start: bool)
    requires Lex(s, start) == Malformed
    ensures ParsePath(s, start) == None
  {
    hide Lex;
  }

  lemma NoName()
    ensures NameBefore("") == []
  {}

  lemma ParseEnd(text: string, start: bool)
    requires forall i | 0 <= i < |text| :: !Special(text[i])
    ensures ParsePath(text + Rendered([]), start) == Some(NameBefore(text) + Meanings([])) && !SomeDirty([])
  {
    assert text + Rendered([]) == text && text[..|text|] == text;
    FieldEnds(text, |text|);
    assert NameBefore(text) + [] == NameBefore(text);
  }
}
