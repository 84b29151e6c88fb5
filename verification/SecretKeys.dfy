/** The keys of connection secrets that stand for field paths (`pkg/resource/sensitive.go`): how they are printed, and
    which paths come back from their keys. */
module SecretKeys {
  import opened Numerals
  import opened SecretKeyText
  import opened Wrappers

  lemma {:induction false} DecimalParses(n: nat)
    ensures Numeric(Decimal(n)) && ParseDecimal(Decimal(n)) == n
  {
    assert "0123456789"[n % 10] as int == '0' as int + n % 10;
    if n >= 10 {
      DecimalParses(n / 10);
      var s := Decimal(n);
      assert s[..|s| - 1] == Decimal(n / 10);
    }
  }

  // --------------------------------------------------------------- printing a key

  /** A field name or an index behind a dot, or a name with dots between three dots each. */
  datatype Component = Plain(text: string) | Block(text: string)

  predicate Dotted(name: string) {
    '.' in name
  }

  function ComponentOf(s: Segment): Component {
    match s
    case Field(name) => if Dotted(name) then Block(name) else Plain(name)
    case Index(index) => Plain(Decimal(index))
  }

  function Key(path: seq<Segment>): (key: seq<Component>)
    ensures |key| == |path| && forall i | 0 <= i < |path| :: key[i] == ComponentOf(path[i])
  {
    if path == [] then [] else [ComponentOf(path[0])] + Key(path[1..])
  }

  function Printed(c: Component): string {
    match c
    case Plain(text) => "." + text
    case Block(text) => "..." + text + "..."
  }

  function Text(key: seq<Component>): string {
    if key == [] then "" else Printed(key[0]) + Text(key[1..])
  }

  ghost function TextFrom(path: seq<Segment>, i: nat): string
    requires i <= |path|
  {
    Text(Key(path[i..]))
  }

  lemma TextStep(path: seq<Segment>, i: nat)
    requires i < |path|
    ensures TextFrom(path, i) == Printed(ComponentOf(path[i])) + TextFrom(path, i + 1)
  {
    hide Decimal;
    assert path[i..][0] == path[i] && path[i..][1..] == path[i + 1..];
    assert Key(path[i..])[1..] == Key(path[i + 1..]);
  }

  function SecretKey(path: seq<Segment>): string {
    TrimPrefix(Text(Key(path)), '.')
  }

  /** fieldPathToSecretKey, once its path is parsed. */
  method FieldPathToSecretKey(path: seq<Segment>) returns (key: string)
    ensures key == SecretKey(path)
  {
    var b := "";
    assert path[0..] == path;
    for i := 0 to |path|
      invariant b + TextFrom(path, i) == Text(Key(path))
    {
      hide Decimal, TextFrom, Text, Key;
      TextStep(path, i);
      var printed: string;
      match path[i] {
        case Field(name) =>
          printed := if '.' in name then "..." + name + "..." else "." + name;
        case Index(index) =>
          printed := "." + Decimal(index);
      }
      assert printed == Printed(ComponentOf(path[i]));
      Join(b, printed, TextFrom(path, i + 1));
      b := b + printed;
    }
    assert TextFrom(path, |path|) == "";
    key := TrimPrefix(b, '.');
  }

  // ------------------------------------------------------------ finding the blocks

  /** The three dots behind a name are the first ones in it and behind it. */
  predicate SoundBlock(name: string) {
    && NoBrackets(name) && '\n' !in name && name[|name| - 1] != '.'
    && forall i | 0 <= i < |name| - 2 :: !(name[i] == name[i + 1] == name[i + 2] == '.')
  }

  predicate Sound(c: Component) {
    match c
    case Plain(text) => PlainText(text)
    case Block(text) => SoundBlock(text)
  }

  ghost predicate AllSound(key: seq<Component>) {
    forall c <- key :: Sound(c)
  }

  function Pieces(key: seq<Component>): (pieces: seq<Piece>)
    ensures |pieces| == |key|
    ensures forall i | 0 <= i < |key| ::
      pieces[i] == if key[i].Plain? then Dot(key[i].text) else Bracket(key[i].text)
  {
    if key == [] then []
    else [if key[0].Plain? then Dot(key[0].text) else Bracket(key[0].text)] + Pieces(key[1..])
  }

  lemma BlocksCopy(s: string)
    requires s != "" && !ThreeDots(s)
    ensures ReplaceBlocks(s) == [s[0]] + ReplaceBlocks(s[1..])
  {}

  lemma {:induction false} SkipPlain(text: string, rest: string)
    requires forall i | 0 <= i < |text| :: text[i] != '.'
    ensures ReplaceBlocks(text + rest) == text + ReplaceBlocks(rest)
    decreases |text|
  {
    if text == "" {
      assert text + rest == rest;
    } else {
      hide ReplaceBlocks;
      Behead(text, rest);
      BlocksCopy(text + rest);
      SkipPlain(text[1..], rest);
      Uncons(text, ReplaceBlocks(rest));
    }
  }

  lemma {:induction false} BlockEnds(name: string, from: nat, rest: string)
    requires SoundBlock(name) && from <= |name|
    ensures FindDots(name[from..] + ("..." + rest)) == Some(|name| - from)
    decreases |name| - from
  {
    var s := name[from..] + ("..." + rest);
    if from < |name| {
      BlockEnds(name, from + 1, rest);
      assert s[1..] == name[from + 1..] + ("..." + rest);
      assert s[0] == name[from] && (from + 1 < |name| ==> s[1] == name[from + 1]);
      assert from + 2 < |name| ==> s[2] == name[from + 2];
    }
  }

  lemma BlocksMatch(s: string, i: nat)
    requires ThreeDots(s) && FindDots(s[3..]) == Some(i)
    ensures i + 6 <= |s| && ReplaceBlocks(s) == "[" + s[3..3 + i] + "]" + ReplaceBlocks(s[i + 6..])
  {}

  lemma BlockParts(name: string, rest: string)
    ensures var s := "..." + name + "..." + rest;
      ThreeDots(s) && s[3..] == name + ("..." + rest) && s[3..3 + |name|] == name && s[|name| + 6..] == rest
  {}

  lemma BlockFound(name: string, rest: string)
    requires SoundBlock(name)
    ensures ReplaceBlocks("..." + name + "..." + rest) == "[" + name + "]" + ReplaceBlocks(rest)
  {
    hide FindDots, SoundBlock, ReplaceBlocks, ThreeDots;
    BlockEnds(name, 0, rest);
    assert name[0..] == name;
    BlockParts(name, rest);
    BlocksMatch("..." + name + "..." + rest, |name|);
  }

  lemma PlainFound(text: string, rest: string)
    requires PlainText(text)
    ensures ReplaceBlocks("." + text + rest) == "." + text + ReplaceBlocks(rest)
  {
    hide ReplaceBlocks;
    var s := "." + text + rest;
    assert s[1] == text[0] && s[1..] == text + rest;
    BlocksCopy(s);
    SkipPlain(text, rest);
    Join(".", text, ReplaceBlocks(rest));
  }

  /** The blocks of a printed key are found again. */
  lemma {:induction false} BlocksFound(key: seq<Component>)
    requires AllSound(key)
    ensures ReplaceBlocks(Text(key)) == Rendered(Pieces(key))
  {
    if key != [] {
      hide ReplaceBlocks, SoundBlock;
      BlocksFound(key[1..]);
      assert Sound(key[0]);
      assert Pieces(key)[1..] == Pieces(key[1..]);
      match key[0]
      case Plain(text) => PlainFound(text, Text(key[1..]));
      case Block(text) => BlockFound(text, Text(key[1..]));
    }
  }

  lemma PlainFirst(key: seq<Component>)
    requires key != [] && key[0].Plain?
    ensures TrimPrefix(Text(key), '.') == key[0].text + Text(key[1..])
    ensures Tail(Pieces(key)) == key[0].text + Rendered(Pieces(key[1..]))
  {
    assert Pieces(key)[1..] == Pieces(key[1..]);
    Join(".", key[0].text, Text(key[1..]));
    assert ("." + (key[0].text + Text(key[1..])))[1..] == key[0].text + Text(key[1..]);
  }

  /** The text of a key whose first dot is cut off. */
  lemma BlocksOfKey(key: seq<Component>)
    requires key != [] && key[0].Plain? && AllSound(key)
    ensures ReplaceBlocks(TrimPrefix(Text(key), '.')) == Tail(Pieces(key))
  {
    hide ReplaceBlocks, Text, Rendered, Tail, TrimPrefix;
    assert Sound(key[0]) && AllSound(key[1..]);
    BlocksFound(key[1..]);
    PlainFirst(key);
    SkipPlain(key[0].text, Text(key[1..]));
  }

  // ---------------------------------------------------------------- reading a key

  /** The pieces after all three expressions. */
  ghost function ReadPieces(key: seq<Component>): (pieces: seq<Piece>)
    requires key != []
  {
    MiddleFrom(EndTail(Pieces(key)), 0)
  }

  lemma PiecesWellFormed(key: seq<Component>)
    requires AllSound(key)
    ensures AllWellFormed(Pieces(key))
  {
    var pieces := Pieces(key);
    forall p <- pieces
      ensures WellFormed(p)
    {
      var i :| 0 <= i < |pieces| && pieces[i] == p;
      assert Sound(key[i]);
    }
  }

  /** The text that is left is that of the pieces. */
  lemma TextRead(key: seq<Component>)
    requires key != [] && key[0].Plain? && AllSound(key)
    ensures ReadPieces(key) != []
    ensures ReplaceMiddle(ReplaceEnd(ReplaceBlocks(TrimPrefix(Text(key), '.')))) == Tail(ReadPieces(key))
  {
    hide ReplaceBlocks, ReplaceEnd, ReplaceMiddle, Sound, WellFormed, EndPieces, MiddlePiece, Tail;
    var pieces := Pieces(key);
    BlocksOfKey(key);
    PiecesWellFormed(key);
    EndOfTail(pieces);
    var ended := EndTail(pieces);
    EndWellFormed(pieces[1..]);
    assert AllWellFormed(ended);
    MiddleOfRendered(ended, 0, false);
    assert ended[0..] == ended;
  }

  /** The component is a number behind a dot. */
  predicate Number(key: seq<Component>, i: nat) {
    i < |key| && key[i].Plain? && Numeric(key[i].text)
  }

  /** The component keeps its dot when a number at the end goes into brackets. */
  predicate BehindDot(key: seq<Component>, i: nat) {
    i < |key| && key[i].Plain? && !(i == |key| - 1 && Number(key, i))
  }

  /** Which numbers are read in brackets: one at the end; and one between two dots, unless the number before it has used
      up the first of them. A number that a key starts with is not. */
  predicate InBrackets(key: seq<Component>, i: nat) {
    i > 0 && Number(key, i) && (i == |key| - 1 || (BehindDot(key, i + 1) && !InBrackets(key, i - 1)))
  }

  lemma {:induction false} EndPiecesAt(pieces: seq<Piece>, i: nat)
    requires i < |pieces|
    ensures |EndPieces(pieces)| == |pieces|
    ensures EndPieces(pieces)[i] ==
      if i == |pieces| - 1 && pieces[i].Dot? && Numeric(pieces[i].text) then Bracket(pieces[i].text) else pieces[i]
  {
    hide Numeric;
    if |pieces| > 1 {
      EndPiecesAt(pieces[1..], if i == 0 then 0 else i - 1);
    }
  }

  lemma EndedAt(key: seq<Component>, i: nat)
    requires i < |key| && key[0].Plain?
    ensures var ended := EndTail(Pieces(key));
      && |ended| == |key|
      && ended[i] ==
           match key[i]
           case Block(text) => Bracket(text)
           case Plain(text) => if i > 0 && i == |key| - 1 && Numeric(text) then Bracket(text) else Dot(text)
  {
    hide Numeric;
    var pieces := Pieces(key);
    if |key| > 1 {
      EndPiecesAt(pieces[1..], if i == 0 then 0 else i - 1);
    }
  }

  lemma {:induction false} TakenIff(key: seq<Component>, i: nat)
    requires i < |key| - 1 && key[0].Plain?
    ensures Taken(EndTail(Pieces(key)), i) <==> InBrackets(key, i)
  {
    hide Numeric, EndTail, Pieces;
    EndedAt(key, i);
    EndedAt(key, i + 1);
    if i > 0 {
      TakenIff(key, i - 1);
    }
  }

  lemma NoDotsLeft(text: string)
    requires PlainText(text)
    ensures ReplaceMiddle(text) == text
  {
    MiddleSkips(text, "");
    EmptyCopied();
    assert text + "" == text;
  }

  /** Each component leaves one piece. */
  lemma ReadAt(key: seq<Component>, i: nat)
    requires i < |key| && key[0].Plain? && AllSound(key)
    ensures |ReadPieces(key)| == |key|
    ensures ReadPieces(key)[i] ==
      match key[i]
      case Block(text) => Bracket(ReplaceMiddle(text))
      case Plain(text) => if InBrackets(key, i) then Bracket(text) else Dot(text)
  {
    hide Numeric, EndTail, Pieces, ReplaceMiddle;
    assert Sound(key[i]);
    EndedAt(key, i);
    if i < |key| - 1 {
      TakenIff(key, i);
    } else if key[i].Plain? {
      NoDotsLeft(key[i].text);
    }
  }

  /** The name of a block has a number between two of its dots. */
  ghost predicate Clashes(key: seq<Component>) {
    exists c <- key :: c.Block? && NumberWithin(c.text)
  }

  lemma ReadableAt(key: seq<Component>, i: nat)
    requires i < |key| && key[0].Plain? && AllSound(key)
    ensures i < |ReadPieces(key)| && Readable(ReadPieces(key)[i])
    ensures ReadPieces(key)[i].Bracket? && Dirty(ReadPieces(key)[i].text) <==>
      key[i].Block? && NumberWithin(key[i].text)
  {
    hide ReadPieces, ReplaceMiddle, NumberWithin, InBrackets, Dirty, NoBrackets;
    assert Sound(key[i]);
    ReadAt(key, i);
    match key[i]
    case Block(text) => BlockReadable(text);
    case Plain(text) => PlainReadable(text);
  }

  lemma BlockReadable(text: string)
    requires SoundBlock(text)
    ensures if NumberWithin(text) then Dirty(ReplaceMiddle(text))
            else NoBrackets(ReplaceMiddle(text)) && !Dirty(ReplaceMiddle(text)) && ReplaceMiddle(text) == text
  {
    hide NumberWithin;
    NameInBrackets(text);
  }

  lemma PlainReadable(text: string)
    requires PlainText(text)
    ensures NoBrackets(text) && !Dirty(text)
  {}

  /** What a key is read as: a segment for each component, or nothing. */
  lemma KeyRead(key: seq<Component>)
    requires key != [] && key[0].Plain? && AllSound(key)
    ensures SecretKeyToFieldPath(TrimPrefix(Text(key), '.')) ==
      if Clashes(key) then None else Some(Meanings(ReadPieces(key)))
  {
    hide ReadPieces, Readable, Dirty, NumberWithin, ReplaceMiddle, ReplaceEnd, ReplaceBlocks, ParsePath, Meanings,
      Read, Text, InBrackets;
    TextRead(key);
    var pieces := ReadPieces(key);
    ReadAt(key, 0);
    FirstStays(key);
    forall p <- pieces
      ensures Readable(p)
    {
      var i :| 0 <= i < |pieces| && pieces[i] == p;
      ReadableAt(key, i);
    }
    SomeDirtyIff(key);
    assert Sound(key[0]);
    TailRead(pieces);
  }

  lemma FirstStays(key: seq<Component>)
    requires key != [] && key[0].Plain?
    ensures !InBrackets(key, 0)
  {}

  lemma SomeDirtyIff(key: seq<Component>)
    requires key != [] && key[0].Plain? && AllSound(key)
    ensures SomeDirty(ReadPieces(key)) <==> Clashes(key)
  {
    hide ReadPieces, Dirty, NumberWithin, Sound, Readable;
    var pieces := ReadPieces(key);
    ReadAt(key, 0);
    if SomeDirty(pieces) {
      var p :| p in pieces && p.Bracket? && Dirty(p.text);
      var i :| 0 <= i < |pieces| && pieces[i] == p;
      ReadableAt(key, i);
      assert key[i] in key;
    }
    if Clashes(key) {
      var c :| c in key && c.Block? && NumberWithin(c.text);
      var i :| 0 <= i < |key| && key[i] == c;
      ReadableAt(key, i);
      assert pieces[i] in pieces;
    }
  }

  lemma TailRead(pieces: seq<Piece>)
    requires pieces != [] && pieces[0].Dot? && PlainText(pieces[0].text) && forall p <- pieces :: Readable(p)
    ensures ParsePath(Tail(pieces), true) == if SomeDirty(pieces) then None else Some(Meanings(pieces))
  {
    hide ParsePath, Readable, Dirty, Meanings, SomeDirty;
    var text, rest := pieces[0].text, pieces[1..];
    PlainStarts(text, "");
    ParseOfRendered(text, rest, true);
    MeaningsStep(pieces);
  }

  // --------------------------------------------------- a key that starts with a block

  /** Nothing, or a path that starts with the name without its first character. */
  ghost predicate LostItsDot(name: string, read: Option<seq<Segment>>)
    requires name != ""
  {
    read.Some? ==> read.value != [] && read.value[0] == FieldOrIndex(name[1..])
  }

  lemma LeadingDot(s: string)
    requires s != "" && !IsDigit(s[0])
    ensures SecretKeyText.ParsePath(ReplaceMiddle("." + s), true) == None
  {
    var t := "." + s;
    assert t[1..] == s;
    DigitsStop(s, 0);
    MiddleCopy(t);
    hide ReplaceMiddle, Digits;
    var r := ReplaceMiddle(t);
    assert r[0] == '.';
    FieldEnds(r, 0);
    ParseMalformed(r, true);
  }

  lemma EndStartsAlike(s: string)
    requires s != "" && s[0] == '.'
    ensures ReplaceEnd(s) != "" && !IsDigit(ReplaceEnd(s)[0])
  {}

  /** Two dots and no third are left at the start, and are no path. */
  lemma TwoDots(s: string)
    requires s != "" && s[0] != '.'
    ensures SecretKeyToFieldPath(".." + s) == None
  {
    var t, u := ".." + s, "." + s;
    assert t[1..] == u && u[1..] == s && u[1] == s[0] && t[2] == s[0];
    BlocksCopy(t);
    BlocksCopy(u);
    hide ReplaceBlocks, ReplaceMiddle, ParsePath;
    var v := ReplaceBlocks(u);
    assert v[0] == '.' && ReplaceBlocks(t) == "." + v && ("." + v)[1..] == v;
    assert !Numeric(v);
    EndCopy("." + v);
    EndStartsAlike(v);
    LeadingDot(ReplaceEnd(v));
  }

  /** With a third one, the block is found, but not that dot of the name. */
  lemma ThirdDot(name: string, rest: string)
    requires SoundBlock(name)
    ensures LostItsDot("." + name, SecretKeyToFieldPath("..." + name + "..." + rest))
  {
    hide ReplaceBlocks, ReplaceEnd, ReplaceMiddle, ParsePath, Lex, FieldOrIndex, Dirty, NumberWithin;
    BlockFound(name, rest);
    var r := ReplaceBlocks(rest);
    assert "[" + name + "]" + r == "[" + (name + ("]" + r));
    EndOfBracket(name, r);
    var e := ReplaceEnd(r);
    MiddleSkips("[", name + ("]" + e));
    MiddleInBracket(name, e);
    BlockReadable(name);
    var u, q := ReplaceMiddle(name), ReplaceMiddle(e);
    LexBracket("", u, q, true);
    assert "" + ("[" + (u + ("]" + q))) == "[" + (u + ("]" + q));
    assert ("." + name)[1..] == name;
    if Dirty(u) {
      ParseMalformed("[" + (u + ("]" + q)), true);
    } else {
      NoName();
      ParseMore("[" + (u + ("]" + q)), true, NameBefore("") + [FieldOrIndex(u)], q);
    }
  }

  lemma TrimmedBlock(key: seq<Component>)
    requires key != [] && key[0].Block?
    ensures TrimPrefix(Text(key), '.') == ".." + (key[0].text + ("..." + Text(key[1..])))
  {
    var s := ".." + (key[0].text + ("..." + Text(key[1..])));
    assert Text(key) == "." + s && ("." + s)[1..] == s;
  }

  lemma DotMoved(name: string, rest: string)
    requires name != "" && name[0] == '.'
    ensures ".." + (name + rest) == "..." + name[1..] + rest
  {}

  lemma WithoutDot(name: string)
    requires SoundBlock(name) && name[0] == '.'
    ensures SoundBlock(name[1..]) && "." + name[1..] == name
  {}

  lemma BlockFirst(key: seq<Component>)
    requires key != [] && key[0].Block? && Sound(key[0])
    ensures LostItsDot(key[0].text, SecretKeyToFieldPath(TrimPrefix(Text(key), '.')))
  {
    hide SecretKeyToFieldPath, Text, TrimPrefix, LostItsDot;
    var name, rest := key[0].text, Text(key[1..]);
    TrimmedBlock(key);
    if name[0] != '.' {
      TwoDots(name + ("..." + rest));
      NothingLost(name);
    } else {
      WithoutDot(name);
      DotMoved(name, "..." + rest);
      Join("..." + name[1..], "...", rest);
      ThirdDot(name[1..], rest);
    }
  }

  lemma NothingLost(name: string)
    requires name != ""
    ensures LostItsDot(name, None)
  {}

  // ---------------------------------------------------------------- the round trip

  /** A path as the library's parser makes it, with names that the blocks of a key can hold. */
  predicate Parsed(path: seq<Segment>) {
    forall s <- path :: if s.Field? then Sound(ComponentOf(s)) else s.index < 0x1_0000_0000
  }

  /** The component reads as an index if it is in brackets. */
  predicate LooksLikeIndex(path: seq<Segment>, i: nat)
    requires i < |path|
  {
    var c := ComponentOf(path[i]);
    c.Plain? && Numeric(c.text) && ParseDecimal(c.text) < 0x1_0000_0000
  }

  predicate NoNumberWithin(path: seq<Segment>) {
    forall s <- path | s.Field? && Dotted(s.name) :: !NumberWithin(s.name)
  }

  /** What looks like an index is in brackets exactly if it is one. */
  predicate NumbersMeant(path: seq<Segment>) {
    forall i | 0 <= i < |path| && LooksLikeIndex(path, i) :: path[i].Index? <==> InBrackets(Key(path), i)
  }

  lemma ParsedSound(path: seq<Segment>)
    requires Parsed(path)
    ensures AllSound(Key(path))
  {
    var key := Key(path);
    forall c <- key
      ensures Sound(c)
    {
      var i :| 0 <= i < |key| && key[i] == c;
      assert path[i] in path;
      if path[i].Index? {
        DecimalParses(path[i].index);
        DigitsArePlain(Decimal(path[i].index));
      }
    }
  }

  lemma DigitsArePlain(s: string)
    requires Numeric(s)
    ensures PlainText(s)
  {}

  lemma ClashesIff(path: seq<Segment>)
    ensures Clashes(Key(path)) <==> !NoNumberWithin(path)
  {
    hide NumberWithin, Dotted, Decimal;
    var key := Key(path);
    if Clashes(key) {
      var c :| c in key && c.Block? && NumberWithin(c.text);
      var i :| 0 <= i < |key| && key[i] == c;
      assert path[i] in path;
    }
    if s :| s in path && s.Field? && Dotted(s.name) && NumberWithin(s.name) {
      var i :| 0 <= i < |path| && path[i] == s;
      assert key[i] in key;
    }
  }

  /** A segment comes back exactly if what looks like an index is in brackets or not, as it should be. */
  lemma SegmentBack(path: seq<Segment>, i: nat)
    requires Parsed(path) && NoNumberWithin(path) && i < |path| && Key(path)[0].Plain?
    ensures i < |ReadPieces(Key(path))|
    ensures Meaning(ReadPieces(Key(path))[i]) == path[i] <==>
      (LooksLikeIndex(path, i) ==> (path[i].Index? <==> InBrackets(Key(path), i)))
  {
    hide ReadPieces, InBrackets, NumberWithin, ReplaceMiddle, Decimal, ParseDecimal, SoundBlock;
    var key := Key(path);
    ParsedSound(path);
    ReadAt(key, i);
    assert path[i] in path;
    match path[i]
    case Index(n) => DecimalParses(n);
    case Field(name) =>
      if Dotted(name) {
        assert Sound(key[i]);
        BlockReadable(name);
        DottedIsNoNumber(name);
      }
  }

  lemma DottedIsNoNumber(name: string)
    requires Dotted(name)
    ensures !Numeric(name)
  {}

  /** A field path comes back from its key exactly when it does not start with a dotted name, no dotted name has a
      number between two of its dots, and of what looks like an index, exactly the indices are read in brackets. */
  lemma RoundTripExactly(path: seq<Segment>)
    requires path != [] && Parsed(path)
    ensures SecretKeyToFieldPath(SecretKey(path)) == Some(path) <==>
      Key(path)[0].Plain? && NoNumberWithin(path) && NumbersMeant(path)
  {
    hide SecretKeyToFieldPath, ReadPieces, InBrackets, NumberWithin, Decimal, Text, Parsed, NoNumberWithin, AllSound,
      Clashes, Meaning, LooksLikeIndex;
    var key := Key(path);
    ParsedSound(path);
    if key[0].Block? {
      FirstSound(path);
      BlockFirst(key);
      FirstIsField(path);
    } else {
      KeyRead(key);
      ClashesIff(path);
      if NoNumberWithin(path) {
        var pieces := ReadPieces(key);
        ReadAt(key, 0);
        forall i | 0 <= i < |path|
          ensures Meaning(pieces[i]) == path[i] <==>
            (LooksLikeIndex(path, i) ==> (path[i].Index? <==> InBrackets(key, i)))
        {
          SegmentBack(path, i);
        }
        assert Meanings(pieces) == path <==> forall i | 0 <= i < |path| :: Meaning(pieces[i]) == path[i];
      }
    }
  }

  lemma FirstSound(path: seq<Segment>)
    requires path != [] && AllSound(Key(path))
    ensures Sound(Key(path)[0])
  {
    assert Key(path)[0] in Key(path);
  }

  lemma FirstIsField(path: seq<Segment>)
    requires path != [] && Key(path)[0].Block?
    ensures path[0] == Field(Key(path)[0].text) && Key(path)[0].text != ""
    ensures FieldOrIndex(Key(path)[0].text[1..]) != path[0]
  {
    hide Decimal;
    var name := Key(path)[0].text;
    assert |name[1..]| < |name|;
  }

  predicate NoNumericNames(path: seq<Segment>) {
    forall s <- path | s.Field? :: !Numeric(s.name)
  }

  predicate StartsPlain(path: seq<Segment>) {
    path != [] && path[0].Field? && !Dotted(path[0].name)
  }

  /** Behind an index comes a field name without dots. */
  predicate IndicesApart(path: seq<Segment>) {
    forall i | 0 <= i < |path| - 1 :: path[i].Index? ==> path[i + 1].Field? && !Dotted(path[i + 1].name)
  }

  lemma NumberIff(path: seq<Segment>, i: nat)
    requires Parsed(path) && NoNumericNames(path) && i < |path|
    ensures Number(Key(path), i) <==> path[i].Index?
    ensures LooksLikeIndex(path, i) <==> path[i].Index?
    ensures Key(path)[i].Plain? <==> path[i].Index? || !Dotted(path[i].name)
  {
    hide Numeric, ParseDecimal, Decimal, Sound, Dotted;
    assert path[i] in path;
    if path[i].Index? {
      DecimalParses(path[i].index);
    }
  }

  lemma IndexBracketed(path: seq<Segment>, i: nat)
    requires Parsed(path) && NoNumericNames(path) && StartsPlain(path) && IndicesApart(path)
    requires i < |path| && path[i].Index?
    ensures InBrackets(Key(path), i)
  {
    hide Number, LooksLikeIndex, Key, Dotted, Parsed, NoNumericNames;
    NumberIff(path, i);
    NumberIff(path, i - 1);
    assert !path[i - 1].Index?;
    if i < |path| - 1 {
      NumberIff(path, i + 1);
    }
  }

  lemma BracketedApart(path: seq<Segment>, i: nat)
    requires Parsed(path) && NoNumericNames(path) && i < |path| && path[i].Index? && InBrackets(Key(path), i)
    requires i + 1 < |path| && path[i + 1].Index? ==> InBrackets(Key(path), i + 1)
    ensures i > 0 && (i + 1 < |path| ==> path[i + 1].Field? && !Dotted(path[i + 1].name))
  {
    hide Number, LooksLikeIndex, Key, Dotted, Parsed, NoNumericNames;
    if i + 1 < |path| {
      NumberIff(path, i + 1);
    }
  }

  /** Without field names that are numbers, what matters is that the indices are apart. */
  lemma MeantIffApart(path: seq<Segment>)
    requires path != [] && Parsed(path) && NoNumericNames(path)
    ensures Key(path)[0].Plain? && NumbersMeant(path) <==> StartsPlain(path) && IndicesApart(path)
  {
    hide InBrackets, LooksLikeIndex, Key, Dotted, Parsed, NoNumericNames;
    forall i | 0 <= i < |path|
      ensures LooksLikeIndex(path, i) <==> path[i].Index?
    {
      NumberIff(path, i);
    }
    NumberIff(path, 0);
    if NumbersMeant(path) {
      forall i | 0 <= i < |path| && path[i].Index?
        ensures i > 0 && (i + 1 < |path| ==> path[i + 1].Field? && !Dotted(path[i + 1].name))
      {
        BracketedApart(path, i);
      }
    }
    if StartsPlain(path) && IndicesApart(path) {
      forall i | 0 <= i < |path| && path[i].Index?
        ensures InBrackets(Key(path), i)
      {
        IndexBracketed(path, i);
      }
    }
  }

  /** A path whose field names are no numbers comes back from its key exactly when it starts with a field name without
      dots, has such a name behind each index, and no name with a number between two of its dots. */
  lemma RoundTripIff(path: seq<Segment>)
    requires path != [] && Parsed(path) && NoNumericNames(path)
    ensures SecretKeyToFieldPath(SecretKey(path)) == Some(path) <==>
      StartsPlain(path) && IndicesApart(path) && NoNumberWithin(path)
  {
    hide SecretKeyToFieldPath, SecretKey, Key, Parsed, NumbersMeant, IndicesApart, NoNumberWithin, StartsPlain;
    RoundTripExactly(path);
    MeantIffApart(path);
  }

  /** An address as a field name is lost: one of its numbers is taken for an index. */
  lemma AddressLost()
    ensures var path := [Field("hosts"), Field("10.0.0.1")]; SecretKeyToFieldPath(SecretKey(path)) != Some(path)
  {
    var name := "10.0.0.1";
    var path := [Field("hosts"), Field(name)];
    AddressParsed();
    AddressHasNumber();
    assert path[1] in path && Dotted(name);
    hide SecretKeyToFieldPath, SecretKey, Parsed, NumberWithin;
    RoundTripExactly(path);
  }

  lemma AddressParsed()
    ensures Dotted("10.0.0.1") && Parsed([Field("hosts"), Field("10.0.0.1")])
  {
    assert "10.0.0.1"[2] == '.';
    assert forall i | 0 <= i < 5 :: "hosts"[i] != '.';
    assert SoundBlock("10.0.0.1") && PlainText("hosts");
  }

  lemma AddressHasNumber()
    ensures NumberWithin("10.0.0.1")
  {
    var name := "10.0.0.1";
    assert name[2..] == ".0.0.1" && ".0.0.1"[1..] == "0.0.1";
    DigitsStop("0.0.1", 1);
    assert NumberBetweenDots(name[2..]);
  }
}
