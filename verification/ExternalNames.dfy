/** Reading an external name back out of a Terraform ID (`pkg/config/externalname.go`). A template is cut at the
    action that prints the external name; the ID is what the template prints. */
module ExternalNames {

  // ----------------------------------------------------------- the string functions

  function Split(s: string, c: char): (pieces: seq<string>)
    ensures |pieces| > 0
  {
    if s == "" then [""]
    else
      var rest := Split(s[1..], c);
      if s[0] == c then [""] + rest else [[s[0]] + rest[0]] + rest[1..]
  }

  function Count(s: string, c: char): nat {
    if s == "" then 0 else (if s[0] == c then 1 else 0) + Count(s[1..], c)
  }

  /** Up to n pieces, each but the last ending in the separator. */
  function SplitAfterN(s: string, c: char, n: nat): (pieces: seq<string>)
    requires n > 0
    ensures |pieces| > 0
  {
    if n == 1 || c !in s then [s]
    else if s[0] == c then [[c]] + SplitAfterN(s[1..], c, n - 1)
    else
      var rest := SplitAfterN(s[1..], c, n);
      [[s[0]] + rest[0]] + rest[1..]
  }

  /** The name read from an ID, given the text of the template before and after the action that prints it. The
      count takes in the brace that opens the action. */
  function GetExternalNameFromTemplated(left: string, right: string, val: string): string {
    if left == "" && right == "" then val
    else if left == "" then Split(val, right[0])[0]
    else if right == "" then
      var separated := Split(val, left[|left| - 1]);
      separated[|separated| - 1]
    else
      var leftSeparator := left[|left| - 1];
      var leftSeparatorCount := Count(left + "{", leftSeparator);
      var separatedLeft := SplitAfterN(val, leftSeparator, leftSeparatorCount + 1);
      Split(separatedLeft[|separatedLeft| - 1], right[0])[0]
  }

  lemma {:induction false} SplitFirst(a: string, b: string, c: char)
    requires b == "" || b[0] == c
    ensures Split(a + b, c)[0] == a <==> c !in a
    ensures c in a ==> |Split(a + b, c)[0]| < |a|
  {
    if a == "" {
      assert a + b == b;
    } else {
      assert (a + b)[1..] == a[1..] + b;
      SplitFirst(a[1..], b, c);
      assert a[0] != c ==> Split(a + b, c)[0] == [a[0]] + Split(a[1..] + b, c)[0];
      assert a == [a[0]] + a[1..];
    }
  }

  lemma {:induction false} SplitLast(a: string, b: string, c: char)
    requires a != "" && a[|a| - 1] == c
    ensures Split(a + b, c)[|Split(a + b, c)| - 1] == b <==> c !in b
    ensures |Split(a + b, c)| > 1
  {
    assert (a + b)[1..] == a[1..] + b;
    if |a| == 1 {
      assert a[1..] + b == b;
      LastPiece(b, c);
    } else {
      SplitLast(a[1..], b, c);
    }
  }

  lemma {:induction false} LastPiece(b: string, c: char)
    ensures |Split(b, c)| > 1 <==> c in b
    ensures Split(b, c)[|Split(b, c)| - 1] == b <==> c !in b
    ensures |Split(b, c)[|Split(b, c)| - 1]| <= |b|
  {
    if b != "" {
      LastPiece(b[1..], c);
      assert b == [b[0]] + b[1..];
    }
  }

  lemma {:induction false} CountLast(a: string, c: char)
    requires a != "" && a[|a| - 1] == c
    ensures Count(a, c) > 0
  {
    if |a| > 1 {
      CountLast(a[1..], c);
    }
  }

  /** What is left of a text after so many separators, or after the last one if there are fewer. */
  function After(s: string, c: char, k: nat): string {
    if k == 0 || c !in s then s
    else if s[0] == c then After(s[1..], c, k - 1)
    else After(s[1..], c, k)
  }

  lemma {:induction false} LastPieceAfter(s: string, c: char, k: nat)
    ensures var pieces := SplitAfterN(s, c, k + 1); pieces[|pieces| - 1] == After(s, c, k)
    ensures k > 0 && c in s ==> |SplitAfterN(s, c, k + 1)| > 1
  {
    if k > 0 && c in s {
      if s[0] == c {
        LastPieceAfter(s[1..], c, k - 1);
      } else {
        LastPieceAfter(s[1..], c, k);
      }
    }
  }

  /** Behind a text that ends in the separator, the count goes on; before its end, something of it is left. */
  lemma {:induction false} AfterConcat(a: string, b: string, c: char, k: nat)
    requires a != "" && a[|a| - 1] == c
    ensures k >= Count(a, c) ==> After(a + b, c, k) == After(b, c, k - Count(a, c))
    ensures k < Count(a, c) ==> After(a, c, k) != "" && After(a + b, c, k) == After(a, c, k) + b
  {
    var rest := a[1..];
    assert (a + b)[1..] == rest + b;
    assert a[|a| - 1] in a + b && a[|a| - 1] in a;
    if |a| == 1 {
      assert Count(rest, c) == 0 && rest + b == b;
    } else if k > 0 {
      AfterConcat(rest, b, c, if a[0] == c then k - 1 else k);
    } else {
      CountLast(a, c);
    }
  }

  /** A text without the separator is passed over. */
  lemma {:induction false} AfterPlain(a: string, b: string, c: char, k: nat)
    requires c !in a && k > 0
    ensures After(a + b, c, k) == if c in b then After(b, c, k) else a + b
  {
    if a == "" {
      assert a + b == b;
    } else if c in b {
      assert (a + b)[1..] == a[1..] + b;
      assert b[..] == b && c in a + b;
      assert (a + b)[0] == a[0];
      AfterPlain(a[1..], b, c, k);
    } else {
      assert c !in a + b;
    }
  }

  lemma {:induction false} SplitFirstIn(a: string, b: string, c: char)
    requires c in a
    ensures Split(a + b, c)[0] == Split(a, c)[0]
  {
    assert (a + b)[1..] == a[1..] + b;
    if a[0] != c {
      SplitFirstIn(a[1..], b, c);
    }
  }

  lemma {:induction false} CountConcat(a: string, b: string, c: char)
    ensures Count(a + b, c) == Count(a, c) + Count(b, c)
  {
    if a == "" {
      assert a + b == b;
    } else {
      assert (a + b)[1..] == a[1..] + b;
      CountConcat(a[1..], b, c);
    }
  }

  // -------------------------------------------------------------------- templates

  /** A piece of a template: text that is printed as it is, or an action with the value it prints. */
  datatype Part = Literal(text: string) | Action(text: string, value: string)

  function Source(parts: seq<Part>): string {
    if parts == [] then "" else parts[0].text + Source(parts[1..])
  }

  function Printed(parts: seq<Part>): string {
    if parts == [] then ""
    else (if parts[0].Literal? then parts[0].text else parts[0].value) + Printed(parts[1..])
  }

  /** The character next to the name, if there is one, is a literal. */
  predicate EndsInLiteral(parts: seq<Part>) {
    parts != [] ==> parts[|parts| - 1].Literal? && parts[|parts| - 1].text != ""
  }

  predicate StartsInLiteral(parts: seq<Part>) {
    parts != [] ==> parts[0].Literal? && parts[0].text != ""
  }

  function Last(s: string): char
    requires s != ""
  {
    s[|s| - 1]
  }

  /** The character before the name. */
  function Separator(left: seq<Part>): char
    requires EndsInLiteral(left) && left != []
  {
    Last(left[|left| - 1].text)
  }

  /** No action before the name has the separator in its text or in what it prints. */
  predicate Plain(left: seq<Part>)
    requires EndsInLiteral(left) && left != []
  {
    Separator(left) != '{' && forall p <- left | p.Action? :: Separator(left) !in p.text && Separator(left) !in p.value
  }

  lemma {:induction false} LastLiteral(parts: seq<Part>)
    requires EndsInLiteral(parts) && parts != []
    ensures Source(parts) != "" && Last(Source(parts)) == Separator(parts)
  {
    var p, rest := parts[0], parts[1..];
    if rest != [] {
      assert rest[|rest| - 1] == parts[|parts| - 1];
      LastLiteral(rest);
      LastOfConcat(p.text, Source(rest));
    } else {
      assert Source(rest) == "";
      assert p.text + "" == p.text;
    }
  }

  lemma NoText()
    ensures Source([]) == Printed([]) == ""
  {}

  lemma FirstCharacter(parts: seq<Part>)
    requires StartsInLiteral(parts)
    ensures if parts == [] then Source(parts) == Printed(parts) == ""
            else (&& Source(parts) != "" && Printed(parts) != ""
                  && Source(parts)[0] == Printed(parts)[0] == parts[0].text[0])
  {}

  lemma BraceApart(s: string, c: char)
    requires c != '{'
    ensures Count(s + "{", c) == Count(s, c)
  {
    CountConcat(s, "{", c);
    NoneCounted("{", c);
  }

  lemma {:induction false} LastCharacter(parts: seq<Part>)
    requires EndsInLiteral(parts) && parts != []
    ensures Source(parts) != "" && Printed(parts) != "" && Last(Source(parts)) == Last(Printed(parts))
  {
    var p, rest := parts[0], parts[1..];
    if rest != [] {
      assert rest[|rest| - 1] == parts[|parts| - 1];
      LastCharacter(rest);
      LastOfConcat(p.text, Source(rest));
      LastOfConcat(if p.Literal? then p.text else p.value, Printed(rest));
    } else {
      assert Source(rest) == "" && Printed(rest) == "";
      assert p.text + "" == p.text;
    }
  }

  lemma LastOfConcat(a: string, b: string)
    requires b != ""
    ensures Last(a + b) == Last(b)
  {}

  lemma {:induction false} SameCount(parts: seq<Part>, c: char)
    requires forall p <- parts | p.Action? :: c !in p.text && c !in p.value
    ensures Count(Source(parts), c) == Count(Printed(parts), c)
  {
    if parts != [] {
      var p := parts[0];
      SameCount(parts[1..], c);
      CountConcat(p.text, Source(parts[1..]), c);
      CountConcat(if p.Literal? then p.text else p.value, Printed(parts[1..]), c);
      if p.Action? {
        NoneCounted(p.text, c);
        NoneCounted(p.value, c);
      }
    }
  }

  lemma {:induction false} NoneCounted(s: string, c: char)
    requires c !in s
    ensures Count(s, c) == 0
  {
    if s != "" {
      NoneCounted(s[1..], c);
    }
  }

  /** How many separators the reading counts in the template, and how many the text printed before the name has. */
  function Counted(left: seq<Part>): nat
    requires EndsInLiteral(left) && left != []
  {
    Count(Source(left) + "{", Separator(left))
  }

  function Passed(left: seq<Part>): nat
    requires EndsInLiteral(left) && left != []
  {
    Count(Printed(left), Separator(left))
  }

  /** When no action before the name has the separator, the counts agree. */
  lemma PlainCounts(left: seq<Part>)
    requires EndsInLiteral(left) && left != [] && Plain(left)
    ensures Counted(left) == Passed(left)
  {
    hide Count, Source, Printed;
    SameCount(left, Separator(left));
    BraceApart(Source(left), Separator(left));
  }

  function ReadBack(left: seq<Part>, right: seq<Part>, name: string): string {
    GetExternalNameFromTemplated(Source(left), Source(right), Printed(left) + name + Printed(right))
  }

  /** Printing a name and reading it back gives the name exactly when it has no character the reading splits on. */
  lemma NameRecoveredIff(left: seq<Part>, right: seq<Part>, name: string)
    requires EndsInLiteral(left) && StartsInLiteral(right)
    requires left != [] && right != [] ==> Counted(left) == Passed(left)
    ensures
      ReadBack(left, right, name) == name <==>
      if right != [] then right[0].text[0] !in name
      else if left != [] then Separator(left) !in name
      else true
  {
    hide Split, SplitAfterN, After, Count, Source, Printed;
    var l, r, pl, pr := Source(left), Source(right), Printed(left), Printed(right);
    FirstCharacter(right);
    if left == [] {
      NoText();
      assert pl + name + pr == name + pr;
      if right == [] {
        assert name + pr == name;
      } else {
        SplitFirst(name, pr, r[0]);
      }
    } else {
      LastCharacter(left);
      LastLiteral(left);
      if right == [] {
        assert pl + name + pr == pl + name;
        SplitLast(pl, name, Last(l));
      } else {
        ReadBetween(left, right, name);
        AfterConcat(pl, name + pr, Separator(left), Counted(left));
        AfterNone(name + pr, Separator(left));
        SplitFirst(name, pr, r[0]);
      }
    }
  }

  lemma AfterNone(s: string, c: char)
    ensures After(s, c, 0) == s
  {}

  /** Between two literals, what is read is what comes after the separators counted, up to the right one. */
  lemma ReadBetween(left: seq<Part>, right: seq<Part>, name: string)
    requires EndsInLiteral(left) && StartsInLiteral(right) && left != [] && right != []
    ensures Printed(left) != "" && Last(Printed(left)) == Separator(left)
    ensures ReadBack(left, right, name) ==
      Split(After(Printed(left) + (name + Printed(right)), Separator(left), Counted(left)), right[0].text[0])[0]
  {
    hide Split, SplitAfterN, After, Count, Source, Printed;
    FirstCharacter(right);
    LastCharacter(left);
    LastLiteral(left);
    assert Printed(left) + name + Printed(right) == Printed(left) + (name + Printed(right));
    LastPieceAfter(Printed(left) + (name + Printed(right)), Separator(left), Counted(left));
  }

  /** The name has neither of the two characters next to it in the template. */
  predicate Free(left: seq<Part>, right: seq<Part>, name: string)
    requires EndsInLiteral(left) && StartsInLiteral(right) && left != [] && right != []
  {
    Separator(left) !in name && right[0].text[0] !in name
  }

  /** Whether the separators counted in the template lead to the name: they are as many as printed before it, or more
      while none is printed behind it. */
  predicate Aligned(left: seq<Part>, right: seq<Part>)
    requires EndsInLiteral(left) && left != []
  {
    Counted(left) == Passed(left) || (Counted(left) > Passed(left) && Separator(left) !in Printed(right))
  }

  /** Between two literals, every name free of both is read back exactly when the counts lead to it. */
  lemma FreeNamesRecoveredIff(left: seq<Part>, right: seq<Part>)
    requires EndsInLiteral(left) && StartsInLiteral(right) && left != [] && right != []
    ensures (forall name: string | Free(left, right, name) :: ReadBack(left, right, name) == name) <==>
      Aligned(left, right)
  {
    hide ReadBack, Counted, Passed;
    if Aligned(left, right) {
      forall name: string | Free(left, right, name)
        ensures ReadBack(left, right, name) == name
      {
        AlignedRecovers(left, right, name);
      }
    } else {
      var name := Misread(left, right);
    }
  }

  lemma AlignedRecovers(left: seq<Part>, right: seq<Part>, name: string)
    requires EndsInLiteral(left) && StartsInLiteral(right) && left != [] && right != []
    requires Aligned(left, right) && Free(left, right, name)
    ensures ReadBack(left, right, name) == name
  {
    hide Split, After, Count, Source, Printed, ReadBack, Counted;
    var c, pr := Separator(left), Printed(right);
    ReadBetween(left, right, name);
    AfterConcat(Printed(left), name + pr, c, Counted(left));
    AfterNone(name + pr, c);
    if Counted(left) > Passed(left) {
      AfterPlain(name, pr, c, Counted(left) - Passed(left));
    }
    FirstCharacter(right);
    SplitFirst(name, pr, right[0].text[0]);
  }

  /** A character other than two. */
  function Other(a: char, b: char): (d: char)
    ensures d != a && d != b
  {
    if 'x' != a && 'x' != b then 'x' else if 'y' != a && 'y' != b then 'y' else 'z'
  }

  /** Otherwise one of two names is read back wrongly. */
  lemma Misread(left: seq<Part>, right: seq<Part>) returns (name: string)
    requires EndsInLiteral(left) && StartsInLiteral(right) && left != [] && right != []
    requires !Aligned(left, right)
    ensures Free(left, right, name) && ReadBack(left, right, name) != name
  {
    var d := Other(Separator(left), right[0].text[0]);
    var one, two := [d], [d, d];
    if Counted(left) < Passed(left) {
      TooFewCounted(left, right, one);
      TooFewCounted(left, right, two);
    } else {
      TooManyCounted(left, right, one);
      TooManyCounted(left, right, two);
    }
    name := if ReadBack(left, right, one) != one then one else two;
  }

  /** With too few separators counted, something before the name is read with it, or in its place. */
  lemma TooFewCounted(left: seq<Part>, right: seq<Part>, name: string)
    requires EndsInLiteral(left) && StartsInLiteral(right) && left != [] && right != []
    requires Counted(left) < Passed(left) && Free(left, right, name)
    ensures var kept, r := After(Printed(left), Separator(left), Counted(left)), right[0].text[0];
      ReadBack(left, right, name) == (if r in kept then Split(kept, r)[0] else kept + name) && kept != ""
  {
    hide Split, After, Count, Source, Printed, ReadBack, Counted;
    var c, r, pr := Separator(left), right[0].text[0], Printed(right);
    var kept := After(Printed(left), c, Counted(left));
    ReadBetween(left, right, name);
    AfterConcat(Printed(left), name + pr, c, Counted(left));
    FirstCharacter(right);
    if r in kept {
      SplitFirstIn(kept, name + pr, r);
    } else {
      assert kept + (name + pr) == (kept + name) + pr;
      SplitFirst(kept + name, pr, r);
    }
  }

  /** With too many, and some behind the name, only what is behind it is read. */
  lemma TooManyCounted(left: seq<Part>, right: seq<Part>, name: string)
    requires EndsInLiteral(left) && StartsInLiteral(right) && left != [] && right != []
    requires Counted(left) > Passed(left) && Separator(left) in Printed(right) && Free(left, right, name)
    ensures ReadBack(left, right, name) ==
      Split(After(Printed(right), Separator(left), Counted(left) - Passed(left)), right[0].text[0])[0]
  {
    hide Split, After, Count, Source, Printed, ReadBack, Counted;
    var c, pr := Separator(left), Printed(right);
    ReadBetween(left, right, name);
    AfterConcat(Printed(left), name + pr, c, Counted(left));
    AfterPlain(name, pr, c, Counted(left) - Passed(left));
  }
}
