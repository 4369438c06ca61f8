/**
  What may leave in an engine error (Guard.Shape, Mark, Unmark and scrubQuoted in
  internal/agent/redact/redact.go, and shape in internal/agent/redact/shape.go).
  Text is a sequence of characters.
*/
module Redact {
  import opened Strings

  // ---- shapes -----------------------------------------------------------------------

  /** Unicode's classes, as far as they are consulted. */
  datatype Classes = Classes(isDigit: char -> bool, isLetter: char -> bool, isSpace: char -> bool)

  ghost predicate Lawful(u: Classes) {
    && u.isDigit('9') && !u.isLetter('9') && !u.isSpace('9')
    && u.isLetter('X') && !u.isDigit('X') && !u.isSpace('X')
    && u.isSpace(' ') && !u.isDigit(' ') && !u.isLetter(' ')
    && Plain(u, QUOTE)
  }

  /** A character that shapes leave as it is and nothing else is shaped to. */
  predicate Plain(u: Classes, c: char) { !u.isDigit(c) && !u.isLetter(c) && !u.isSpace(c) }

  function ShapeOf(u: Classes, c: char): char {
    if u.isDigit(c) then '9' else if u.isLetter(c) then 'X' else if u.isSpace(c) then ' ' else c
  }

  function Shape(u: Classes, s: string): string {
    seq(|s|, i requires 0 <= i < |s| => ShapeOf(u, s[i]))
  }

  method ShapeText(u: Classes, s: string) returns (shaped: string)
    ensures shaped == Shape(u, s)
  {
    shaped := "";
    for i := 0 to |s|
      invariant shaped == Shape(u, s[..i])
    {
      assert Shape(u, s[..i + 1]) == Shape(u, s[..i]) + [ShapeOf(u, s[i])];
      if u.isDigit(s[i]) {
        shaped := shaped + "9";
      } else if u.isLetter(s[i]) {
        shaped := shaped + "X";
      } else if u.isSpace(s[i]) {
        shaped := shaped + " ";
      } else {
        shaped := shaped + [s[i]];
      }
    }
    assert s[..|s|] == s;
  }

  /** A shape is as long as its text, is its own shape, and keeps no digit but 9, no
      letter but X and no space but the blank. */
  lemma ShapeMeans(u: Classes, s: string)
    requires Lawful(u)
    ensures |Shape(u, s)| == |s| && Shape(u, Shape(u, s)) == Shape(u, s)
    ensures forall c :: c in Shape(u, s) ==>
      (u.isDigit(c) ==> c == '9') && (u.isLetter(c) ==> c == 'X') && (u.isSpace(c) ==> c == ' ')
  {
    var shaped := Shape(u, s);
    forall i | 0 <= i < |s| ensures ShapeOf(u, shaped[i]) == shaped[i] {
      assert shaped[i] == ShapeOf(u, s[i]);
    }
    assert Shape(u, shaped) == shaped;
    forall c | c in shaped ensures exists d :: c == ShapeOf(u, d) {
      var i :| 0 <= i < |shaped| && shaped[i] == c;
      assert c == ShapeOf(u, s[i]);
    }
  }

  // ---- marks ------------------------------------------------------------------------

  const OPEN := "\U{27E8}"
  const CLOSE := "\U{27E9}"

  function Mark(shape: string): string { OPEN + shape + CLOSE }

  function TrimPrefix(s: string, prefix: string): string { if prefix <= s then s[|prefix|..] else s }

  function TrimSuffix(s: string, suffix: string): string {
    if HasSuffix(s, suffix) then s[..|s| - |suffix|] else s
  }

  function Unmark(s: string): string { TrimSuffix(TrimPrefix(s, OPEN), CLOSE) }

  /** Unmarking gives the shape back, whatever it is. */
  lemma UnmarkMark(shape: string)
    ensures Unmark(Mark(shape)) == shape
  {
    var marked := Mark(shape);
    assert OPEN <= marked;
    assert marked[1..] == shape + CLOSE;
    assert (shape + CLOSE)[|shape|..] == CLOSE;
    assert (shape + CLOSE)[..|shape|] == shape;
  }

  // ---- what a quoted literal becomes -------------------------------------------------

  const ELLIPSIS := "\U{2026}"

  function Cut(shaped: string, max: nat): string {
    if |shaped| > max then shaped[..max] + ELLIPSIS else shaped
  }

  function Withheld(u: Classes, max: nat, quoted: string): string { Mark(Cut(Shape(u, quoted), max)) }

  predicate Contains(s: string, sub: string) { IndexOf(s, sub) >= 0 }

  /** The model wrote this literal itself, in the statement that failed. */
  predicate Known(sql: string, quoted: string) { sql != "" && Contains(sql, "'" + quoted + "'") }

  function Rendered(u: Classes, max: nat, sql: string, quoted: string): string {
    if Known(sql, quoted) then quoted else Withheld(u, max, quoted)
  }

  /** Known means written in the statement between quotes.  A value the statement holds
      without them is withheld like any other. */
  lemma KnownMeans(u: Classes, max: nat, sql: string, quoted: string)
    ensures Known(sql, quoted) <==> exists k :: At(sql, k, "'" + quoted + "'")
    ensures (forall k :: !At(sql, k, "'" + quoted + "'")) ==> Rendered(u, max, sql, quoted) == Withheld(u, max, quoted)
    ensures QUOTE !in sql ==> !Known(sql, quoted)
  {
    IndexOfMeans(sql, "'" + quoted + "'");
    if k :| At(sql, k, "'" + quoted + "'") {
      assert sql[k..k + |quoted| + 2][0] == QUOTE;
      assert sql[k] == QUOTE;
    }
  }

  /** What stands for a withheld value: its shape in marks, or as much of it as may be
      shown and an ellipsis. */
  lemma WithheldMeans(u: Classes, max: nat, quoted: string)
    ensures var text := Withheld(u, max, quoted);
      && |text| == 2 + (if |quoted| <= max then |quoted| else max + 1)
      && text[0] == '\U{27E8}' && text[|text| - 1] == '\U{27E9}'
      && text[1..][..if |quoted| <= max then |quoted| else max] == Shape(u, quoted)[..if |quoted| <= max then |quoted| else max]
      && (|quoted| > max ==> text[max + 1] == '\U{2026}')
  {
  }

  // ---- the parts of a message --------------------------------------------------------

  const QUOTE := '\''

  /** Where the next quote is, or the length when there is none. */
  function NextQuote(s: string): (i: nat)
    ensures i <= |s| && (i < |s| ==> s[i] == QUOTE) && QUOTE !in s[..i]
  {
    if s == "" || s[0] == QUOTE then 0
    else
      var i := 1 + NextQuote(s[1..]);
      assert s[..i] == [s[0]] + s[1..][..i - 1];
      i
  }

  predicate HasLiteral(s: string) {
    var i := NextQuote(s);
    i < |s| && i + 1 + NextQuote(s[i + 1..]) < |s|
  }

  function Before(s: string): string { s[..NextQuote(s)] }

  function Literal(s: string): string
    requires HasLiteral(s)
  {
    var i := NextQuote(s);
    s[i + 1..][..NextQuote(s[i + 1..])]
  }

  function After(s: string): (rest: string)
    requires HasLiteral(s)
    ensures |rest| + 2 <= |s|
  {
    var i := NextQuote(s);
    s[i + 1..][NextQuote(s[i + 1..]) + 1..]
  }

  /** The text outside the quoted literals: one piece more than there are literals. */
  function Outside(s: string): (pieces: seq<string>)
    ensures |pieces| >= 1
    decreases |s|
  {
    if HasLiteral(s) then [Before(s)] + Outside(After(s)) else [s]
  }

  function Literals(s: string): (quoted: seq<string>)
    ensures |Outside(s)| == |quoted| + 1
    decreases |s|
  {
    if HasLiteral(s) then [Literal(s)] + Literals(After(s)) else []
  }

  function Around(before: string, quoted: string, after: string): string { before + "'" + quoted + "'" + after }

  function Assemble(pieces: seq<string>, quoted: seq<string>): string
    requires |pieces| == |quoted| + 1
  {
    if quoted == [] then pieces[0]
    else Around(pieces[0], quoted[0], Assemble(pieces[1..], quoted[1..]))
  }

  function RenderAll(u: Classes, max: nat, sql: string, quoted: seq<string>): seq<string> {
    seq(|quoted|, i requires 0 <= i < |quoted| => Rendered(u, max, sql, quoted[i]))
  }

  /** The scrubbed message: the same text around the rendered literals. */
  function Scrub(u: Classes, max: nat, sql: string, s: string): string {
    Assemble(Outside(s), RenderAll(u, max, sql, Literals(s)))
  }

  // ---- the guard ------------------------------------------------------------------------

  function Shaped(sql: string, quoted: seq<string>): nat {
    if quoted == [] then 0 else (if Known(sql, quoted[0]) then 0 else 1) + Shaped(sql, quoted[1..])
  }

  function TooLong(max: nat, sql: string, quoted: seq<string>): nat {
    if quoted == [] then 0
    else (if !Known(sql, quoted[0]) && |quoted[0]| > max then 1 else 0) + TooLong(max, sql, quoted[1..])
  }

  class Guard {
    const u: Classes
    const max: nat
    var shaped: nat
    var truncated: nat

    constructor (u: Classes, maxShapeLen: int)
      ensures this.u == u && max == (if maxShapeLen <= 0 then 60 else maxShapeLen) && shaped == 0 && truncated == 0
    {
      this.u := u;
      max := if maxShapeLen <= 0 then 60 else maxShapeLen;
      shaped, truncated := 0, 0;
    }

    method Shape(s: string) returns (text: string)
      modifies this
      ensures text == Withheld(u, max, s)
      ensures shaped == old(shaped) + 1 && truncated == old(truncated) + (if |s| > max then 1 else 0)
    {
      var out := ShapeText(u, s);
      if |out| > max {
        out := out[..max] + ELLIPSIS;
        truncated := truncated + 1;
      }
      shaped := shaped + 1;
      return Mark(out);
    }

    /** scrubQuoted: one literal after another, from the left. */
    method ScrubQuoted(s: string, sql: string) returns (text: string)
      modifies this
      ensures text == Scrub(u, max, sql, s)
      ensures shaped == old(shaped) + Shaped(sql, Literals(s))
      ensures truncated == old(truncated) + TooLong(max, sql, Literals(s))
    {
      text := "";
      var rest := s;
      while true
        invariant text + Scrub(u, max, sql, rest) == Scrub(u, max, sql, s)
        invariant shaped + Shaped(sql, Literals(rest)) == old(shaped) + Shaped(sql, Literals(s))
        invariant truncated + TooLong(max, sql, Literals(rest)) == old(truncated) + TooLong(max, sql, Literals(s))
        decreases |rest|
      {
        var i := NextQuote(rest);
        if i == |rest| {
          text := text + rest;
          return;
        }
        var j := NextQuote(rest[i + 1..]);
        if i + 1 + j == |rest| {
          text := text + rest;
          return;
        }
        ghost var said, prior := text, rest;
        TakeOneMore(rest, i);
        text := text + rest[..i + 1];
        var quoted := rest[i + 1..][..j];
        if sql != "" && Contains(sql, "'" + quoted + "'") {
          text := text + quoted;
        } else {
          var shape := Shape(quoted);
          text := text + shape;
        }
        text := text + "'";
        rest := rest[i + 1..][j + 1..];
        assert quoted == Literal(prior) && rest == After(prior);
        assert text == ((said + (Before(prior) + "'")) + Rendered(u, max, sql, quoted)) + "'";
        ScrubOne(u, max, sql, prior);
        CountOne(max, sql, prior);
        Regroup(said, Before(prior), Rendered(u, max, sql, quoted), Scrub(u, max, sql, rest));
      }
    }
  }

  lemma Regroup(a: string, b: string, c: string, d: string)
    ensures (((a + (b + "'")) + c) + "'") + d == a + Around(b, c, d)
  {
  }

  lemma ScrubOne(u: Classes, max: nat, sql: string, s: string)
    requires HasLiteral(s)
    ensures Scrub(u, max, sql, s) ==
      Around(Before(s), Rendered(u, max, sql, Literal(s)), Scrub(u, max, sql, After(s)))
  {
    FirstParts(s);
    AssembleOne(u, max, sql, Outside(s), Literals(s));
  }

  lemma AssembleOne(u: Classes, max: nat, sql: string, pieces: seq<string>, quoted: seq<string>)
    requires |pieces| == |quoted| + 1 && quoted != []
    ensures Assemble(pieces, RenderAll(u, max, sql, quoted)) ==
      Around(pieces[0], Rendered(u, max, sql, quoted[0]), Assemble(pieces[1..], RenderAll(u, max, sql, quoted[1..])))
  {
    var out := RenderAll(u, max, sql, quoted);
    assert out[1..] == RenderAll(u, max, sql, quoted[1..]);
    assert out[0] == Rendered(u, max, sql, quoted[0]);
  }

  lemma CountOne(max: nat, sql: string, s: string)
    requires HasLiteral(s)
    ensures Shaped(sql, Literals(s)) == (if Known(sql, Literal(s)) then 0 else 1) + Shaped(sql, Literals(After(s)))
    ensures TooLong(max, sql, Literals(s)) ==
      (if !Known(sql, Literal(s)) && |Literal(s)| > max then 1 else 0) + TooLong(max, sql, Literals(After(s)))
  {
    FirstParts(s);
  }

  // ---- taking a message apart and putting it together ------------------------------------

  /** Pieces and literals as Outside and Literals give them: no quote inside but at
      most one in the last piece. */
  ghost predicate WellCut(pieces: seq<string>, quoted: seq<string>) {
    && |pieces| == |quoted| + 1 && !HasLiteral(pieces[|quoted|])
    && forall i :: 0 <= i < |quoted| ==> QUOTE !in pieces[i] && QUOTE !in quoted[i]
  }

  lemma FirstParts(s: string)
    requires HasLiteral(s)
    ensures Outside(s)[0] == Before(s) && Outside(s)[1..] == Outside(After(s))
    ensures Literals(s) != [] && Literals(s)[0] == Literal(s) && Literals(s)[1..] == Literals(After(s))
  {
  }

  lemma CutAtLiteral(s: string)
    requires HasLiteral(s)
    ensures s == Around(Before(s), Literal(s), After(s))
    ensures QUOTE !in Before(s) && QUOTE !in Literal(s)
  {
    var i := NextQuote(s);
    CutTwice(s, i, NextQuote(s[i + 1..]));
  }

  lemma CutTwice(s: string, i: nat, j: nat)
    requires i < |s| && s[i] == QUOTE && i + 1 + j < |s| && s[i + 1..][j] == QUOTE
    ensures s == Around(s[..i], s[i + 1..][..j], s[i + 1..][j + 1..])
  {
    var tail := s[i + 1..];
    CutAt(s, i);
    CutAt(tail, j);
    Nested(s[..i], tail[..j], tail[j + 1..]);
  }

  lemma Nested(a: string, q: string, rest: string)
    ensures a + "'" + (q + "'" + rest) == Around(a, q, rest)
  {
  }

  lemma CutAt(s: string, i: nat)
    requires i < |s| && s[i] == QUOTE
    ensures s == s[..i] + "'" + s[i + 1..]
  {
  }

  /** Taking a message apart loses nothing. */
  lemma {:induction false} PartsAssemble(s: string)
    ensures Assemble(Outside(s), Literals(s)) == s
    decreases |s|
  {
    if HasLiteral(s) {
      PartsAssemble(After(s));
      CutAtLiteral(s);
      FirstParts(s);
    }
  }

  lemma {:induction false} PartsAreWellCut(s: string)
    ensures WellCut(Outside(s), Literals(s))
    decreases |s|
  {
    if HasLiteral(s) {
      PartsAreWellCut(After(s));
      CutAtLiteral(s);
      FirstParts(s);
      OneMorePart(Outside(s), Literals(s));
    }
  }

  lemma OneMorePart(pieces: seq<string>, quoted: seq<string>)
    requires |pieces| == |quoted| + 1 && quoted != [] && WellCut(pieces[1..], quoted[1..])
    requires QUOTE !in pieces[0] && QUOTE !in quoted[0]
    ensures WellCut(pieces, quoted)
  {
    forall i | 0 <= i < |quoted| ensures QUOTE !in pieces[i] && QUOTE !in quoted[i] {
      if i > 0 {
        assert pieces[i] == pieces[1..][i - 1] && quoted[i] == quoted[1..][i - 1];
      }
    }
  }

  lemma {:induction false} NextQuoteIs(a: string, b: string)
    requires QUOTE !in a
    ensures NextQuote(a + "'" + b) == |a|
  {
    var s := a + "'" + b;
    if a == "" {
      assert s[0] == QUOTE;
    } else {
      assert s[1..] == a[1..] + "'" + b;
      NextQuoteIs(a[1..], b);
    }
  }

  lemma OneLiteral(a: string, q: string, rest: string)
    requires QUOTE !in a && QUOTE !in q
    ensures var s := Around(a, q, rest);
      HasLiteral(s) && Before(s) == a && Literal(s) == q && After(s) == rest
  {
    var s, tail := Around(a, q, rest), q + "'" + rest;
    assert s == a + "'" + tail;
    NextQuoteIs(a, tail);
    assert s[|a| + 1..] == tail;
    NextQuoteIs(q, rest);
    assert tail[..|q|] == q && tail[|q| + 1..] == rest;
  }

  lemma PartsOfAround(a: string, q: string, rest: string)
    requires QUOTE !in a && QUOTE !in q
    ensures Outside(Around(a, q, rest)) == [a] + Outside(rest)
    ensures Literals(Around(a, q, rest)) == [q] + Literals(rest)
  {
    OneLiteral(a, q, rest);
  }

  lemma HeadAndTail(s: seq<string>)
    requires s != []
    ensures s == [s[0]] + s[1..]
  {
  }

  lemma FewerParts(pieces: seq<string>, quoted: seq<string>)
    requires WellCut(pieces, quoted) && quoted != []
    ensures WellCut(pieces[1..], quoted[1..]) && QUOTE !in pieces[0] && QUOTE !in quoted[0]
  {
  }

  /** A message is its parts: assembling well-cut parts and taking them apart again
      gives them back. */
  lemma {:induction false} PartsOfAssembled(pieces: seq<string>, quoted: seq<string>)
    requires WellCut(pieces, quoted)
    ensures Outside(Assemble(pieces, quoted)) == pieces && Literals(Assemble(pieces, quoted)) == quoted
    decreases |quoted|
  {
    if quoted == [] {
      assert pieces == [pieces[0]];
    } else {
      var rest := Assemble(pieces[1..], quoted[1..]);
      FewerParts(pieces, quoted);
      PartsOfAssembled(pieces[1..], quoted[1..]);
      PartsOfAround(pieces[0], quoted[0], rest);
      HeadAndTail(pieces);
      HeadAndTail(quoted);
    }
  }

  // ---- what scrubbing keeps, and what it hides ----------------------------------------------

  lemma RenderedHasNoQuote(u: Classes, max: nat, sql: string, quoted: string)
    requires QUOTE !in quoted
    ensures QUOTE !in Rendered(u, max, sql, quoted)
  {
    var shaped := Shape(u, quoted);
    assert QUOTE !in shaped;
    assert QUOTE !in Cut(shaped, max);
  }

  /** The scrubbed message has the same text outside its quotes, and inside them what
      each literal is rendered as, nothing else. */
  lemma OutsideIsKept(u: Classes, max: nat, sql: string, s: string)
    ensures Outside(Scrub(u, max, sql, s)) == Outside(s)
    ensures Literals(Scrub(u, max, sql, s)) == RenderAll(u, max, sql, Literals(s))
  {
    PartsAreWellCut(s);
    var quoted := RenderAll(u, max, sql, Literals(s));
    forall i | 0 <= i < |quoted| ensures QUOTE !in quoted[i] {
      RenderedHasNoQuote(u, max, sql, Literals(s)[i]);
    }
    PartsOfAssembled(Outside(s), quoted);
  }

  /** Exactly what a scrubbed message tells: its outside text and its rendered
      literals. */
  lemma ScrubTellsExactly(u: Classes, max: nat, sql: string, s: string, t: string)
    ensures Scrub(u, max, sql, s) == Scrub(u, max, sql, t) <==>
      Outside(s) == Outside(t) && RenderAll(u, max, sql, Literals(s)) == RenderAll(u, max, sql, Literals(t))
  {
    OutsideIsKept(u, max, sql, s);
    OutsideIsKept(u, max, sql, t);
  }

  /** Literals the receiver cannot tell apart: the same, or both unknown to it and of
      one shape. */
  predicate Alike(u: Classes, sql: string, p: string, q: string) {
    p == q || (!Known(sql, p) && !Known(sql, q) && Shape(u, p) == Shape(u, q))
  }

  /** Messages that differ only inside unknown literals of equal shapes scrub to the
      same text. */
  lemma NothingElseEscapes(u: Classes, max: nat, sql: string, s: string, t: string)
    requires Outside(s) == Outside(t)
    requires forall i :: 0 <= i < |Literals(s)| ==> Alike(u, sql, Literals(s)[i], Literals(t)[i])
    ensures Scrub(u, max, sql, s) == Scrub(u, max, sql, t)
  {
    var p, q := Literals(s), Literals(t);
    forall i | 0 <= i < |p| ensures Rendered(u, max, sql, p[i]) == Rendered(u, max, sql, q[i]) {
      assert Alike(u, sql, p[i], q[i]);
    }
    assert RenderAll(u, max, sql, p) == RenderAll(u, max, sql, q);
  }

  // ---- values in messages ------------------------------------------------------------------------

  /** The engine writes a value between quotes as it stands.  An apostrophe in it ends
      the literal there; of the pieces it is cut into, every second one is read as a
      literal and the others as text outside. */
  function Cuts(v: string): bool { QUOTE in v }

  function Head(v: string): (h: string)
    requires Cuts(v)
    ensures QUOTE !in h
  {
    v[..NextQuote(v)]
  }

  function Rest(v: string): (r: string)
    requires Cuts(v)
    ensures |r| < |v|
  {
    QuoteIsFound(v);
    v[NextQuote(v) + 1..]
  }

  lemma {:induction false} QuoteIsFound(v: string)
    ensures NextQuote(v) < |v| <==> QUOTE in v
  {
    if v != "" && v[0] != QUOTE {
      QuoteIsFound(v[1..]);
      assert v == [v[0]] + v[1..];
    }
  }

  lemma HeadAndRest(v: string)
    requires Cuts(v)
    ensures v == Head(v) + "'" + Rest(v)
  {
    QuoteIsFound(v);
    CutAt(v, NextQuote(v));
  }

  /** The pieces of a value that are read as text outside. */
  function Shown(v: string): seq<string>
    decreases |v|
  {
    if Cuts(v) then ShownAfter(Rest(v)) else []
  }

  /** The same of what follows an apostrophe, where text goes on. */
  function ShownAfter(r: string): seq<string>
    decreases |r|
  {
    if Cuts(r) then [Head(r)] + Shown(Rest(r)) else [r]
  }

  /** The pieces that are read as literals. */
  function Hidden(v: string): seq<string>
    decreases |v|
  {
    if Cuts(v) then [Head(v)] + HiddenAfter(Rest(v)) else [v]
  }

  function HiddenAfter(r: string): seq<string>
    decreases |r|
  {
    if Cuts(r) then Hidden(Rest(r)) else []
  }

  predicate NoneKnown(sql: string, qs: seq<string>) { forall q :: q in qs ==> !Known(sql, q) }

  predicate AllUnknown(sql: string, v: string) { NoneKnown(sql, Hidden(v)) }

  lemma {:induction false} SameShapeSameCuts(u: Classes, v: string, v': string)
    requires Lawful(u) && Shape(u, v) == Shape(u, v')
    ensures |v| == |v'| && NextQuote(v) == NextQuote(v') && (Cuts(v) <==> Cuts(v'))
    decreases |v|
  {
    assert |v| == |Shape(u, v)| && |v'| == |Shape(u, v')|;
    if v != "" {
      assert ShapeOf(u, v[0]) == Shape(u, v)[0] == Shape(u, v')[0] == ShapeOf(u, v'[0]);
      SameShapeAt(u, v, v', 1);
      SameShapeSameCuts(u, v[1..], v'[1..]);
    }
    QuoteIsFound(v);
    QuoteIsFound(v');
  }

  lemma SameShapeAt(u: Classes, v: string, v': string, i: nat)
    requires Shape(u, v) == Shape(u, v') && i <= |v|
    ensures |v| == |v'| && Shape(u, v[..i]) == Shape(u, v'[..i]) && Shape(u, v[i..]) == Shape(u, v'[i..])
  {
    assert |v| == |Shape(u, v)| && |v'| == |Shape(u, v')|;
    forall k | 0 <= k < |v| ensures ShapeOf(u, v[k]) == ShapeOf(u, v'[k]) {
      assert ShapeOf(u, v[k]) == Shape(u, v)[k] && ShapeOf(u, v'[k]) == Shape(u, v')[k];
    }
  }

  lemma SameShapeParts(u: Classes, v: string, v': string)
    requires Lawful(u) && Shape(u, v) == Shape(u, v') && Cuts(v)
    ensures Cuts(v') && |Head(v)| == |Head(v')|
    ensures Shape(u, Head(v)) == Shape(u, Head(v')) && Shape(u, Rest(v)) == Shape(u, Rest(v'))
  {
    SameShapeSameCuts(u, v, v');
    QuoteIsFound(v);
    SameShapeAt(u, v, v', NextQuote(v));
    SameShapeAt(u, v, v', NextQuote(v) + 1);
  }

  /** Scrubbing goes on after the first literal, whatever it is. */
  lemma ScrubAround(u: Classes, max: nat, sql: string, pre: string, q: string, rest: string)
    requires QUOTE !in pre && QUOTE !in q
    ensures Scrub(u, max, sql, Around(pre, q, rest)) == Around(pre, Rendered(u, max, sql, q), Scrub(u, max, sql, rest))
  {
    OneLiteral(pre, q, rest);
    ScrubOne(u, max, sql, Around(pre, q, rest));
  }

  lemma AroundParts(a: string, q: string, r: string, a': string, q': string, r': string)
    requires QUOTE !in a && QUOTE !in q && QUOTE !in a' && QUOTE !in q'
    requires Around(a, q, r) == Around(a', q', r')
    ensures a == a' && q == q' && r == r'
  {
    OneLiteral(a, q, r);
    OneLiteral(a', q', r');
  }

  /** What one cut makes of a message: the value's head is the literal, and the rest of
      the value is where text goes on. */
  lemma CutMessage(pre: string, v: string, post: string)
    requires Cuts(v)
    ensures Around(pre, v, post) == Around(pre, Head(v), Rest(v) + "'" + post)
  {
    HeadAndRest(v);
    Recut(pre, Head(v), Rest(v), post);
  }

  lemma CutText(r: string, post: string)
    requires Cuts(r)
    ensures r + "'" + post == Around(Head(r), Rest(r), post)
  {
    HeadAndRest(r);
  }

  lemma Recut(a: string, b: string, c: string, d: string)
    ensures a + "'" + (b + "'" + c) + "'" + d == a + "'" + b + "'" + (c + "'" + d)
  {
  }

  /** Text before a quote is shown as it is. */
  lemma TextIsShown(u: Classes, max: nat, sql: string, w: string, w': string, post: string)
    requires QUOTE !in w && QUOTE !in w' && |w| == |w'|
    requires Scrub(u, max, sql, w + "'" + post) == Scrub(u, max, sql, w' + "'" + post)
    ensures w == w'
  {
    OutsideIsKept(u, max, sql, w + "'" + post);
    OutsideIsKept(u, max, sql, w' + "'" + post);
    StartsOutside(w, post);
    StartsOutside(w', post);
  }

  lemma StartsOutside(w: string, post: string)
    requires QUOTE !in w
    ensures w <= Outside(w + "'" + post)[0]
  {
    NextQuoteIs(w, post);
  }

  /** Of two unknown values of one shape, each read as a literal from its start, after
      text without a quote. */
  lemma {:induction false} ShownAtOpening(u: Classes, max: nat, sql: string, pre: string, pre': string,
                                              v: string, v': string, post: string)
    requires Lawful(u) && QUOTE !in pre && QUOTE !in pre'
    requires Shape(u, v) == Shape(u, v') && AllUnknown(sql, v) && AllUnknown(sql, v')
    ensures Scrub(u, max, sql, Around(pre, v, post)) == Scrub(u, max, sql, Around(pre', v', post)) <==>
      pre == pre' && Shown(v) == Shown(v')
    decreases |v|
  {
    SameShapeSameCuts(u, v, v');
    if !Cuts(v) {
      assert v in Hidden(v) && v' in Hidden(v');
      SameLiteral(u, max, sql, pre, pre', v, v', post, post);
    } else {
      var r, r' := Rest(v), Rest(v');
      SameShapeParts(u, v, v');
      CutMessage(pre, v, post);
      CutMessage(pre', v', post);
      UnknownParts(sql, v);
      UnknownParts(sql, v');
      SameLiteral(u, max, sql, pre, pre', Head(v), Head(v'), r + "'" + post, r' + "'" + post);
      TextShows(u, max, sql, r, r', post);
    }
  }

  lemma UnknownParts(sql: string, v: string)
    requires Cuts(v) && AllUnknown(sql, v)
    ensures !Known(sql, Head(v)) && NoneKnown(sql, HiddenAfter(Rest(v)))
  {
    assert Head(v) in Hidden(v);
    assert forall q :: q in HiddenAfter(Rest(v)) ==> q in Hidden(v);
  }

  lemma {:induction false} TextShows(u: Classes, max: nat, sql: string, r: string, r': string, post: string)
    requires Lawful(u) && Shape(u, r) == Shape(u, r')
    requires NoneKnown(sql, HiddenAfter(r)) && NoneKnown(sql, HiddenAfter(r'))
    ensures Scrub(u, max, sql, r + "'" + post) == Scrub(u, max, sql, r' + "'" + post) <==> ShownAfter(r) == ShownAfter(r')
    decreases |r|
  {
    SameShapeSameCuts(u, r, r');
    if !Cuts(r) {
      if Scrub(u, max, sql, r + "'" + post) == Scrub(u, max, sql, r' + "'" + post) {
        TextIsShown(u, max, sql, r, r', post);
      }
    } else {
      SameShapeParts(u, r, r');
      CutText(r, post);
      CutText(r', post);
      ShownAtOpening(u, max, sql, Head(r), Head(r'), Rest(r), Rest(r'), post);
      SameCons(Head(r), Shown(Rest(r)), Head(r'), Shown(Rest(r')));
    }
  }

  lemma SameCons(x: string, s: seq<string>, x': string, s': seq<string>)
    ensures [x] + s == [x'] + s' <==> x == x' && s == s'
  {
    assert ([x] + s)[0] == x && ([x] + s)[1..] == s;
    assert ([x'] + s')[0] == x' && ([x'] + s')[1..] == s';
  }

  lemma SameLiteral(u: Classes, max: nat, sql: string, pre: string, pre': string, q: string, q': string, rest: string, rest': string)
    requires QUOTE !in pre && QUOTE !in pre' && QUOTE !in q && QUOTE !in q'
    requires Shape(u, q) == Shape(u, q') && !Known(sql, q) && !Known(sql, q')
    ensures Scrub(u, max, sql, Around(pre, q, rest)) == Scrub(u, max, sql, Around(pre', q', rest')) <==>
      pre == pre' && Scrub(u, max, sql, rest) == Scrub(u, max, sql, rest')
  {
    ScrubAround(u, max, sql, pre, q, rest);
    ScrubAround(u, max, sql, pre', q', rest');
    var out := Rendered(u, max, sql, q);
    assert out == Rendered(u, max, sql, q');
    RenderedHasNoQuote(u, max, sql, q);
    if Around(pre, out, Scrub(u, max, sql, rest)) == Around(pre', out, Scrub(u, max, sql, rest')) {
      AroundParts(pre, out, Scrub(u, max, sql, rest), pre', out, Scrub(u, max, sql, rest'));
    }
  }

  /** Whether the quote before a value is read as the end of a literal, as it is after
      an odd number of others: the value is then read as text from its start. */
  predicate InText(pre: string) { multiset(pre)[QUOTE] % 2 == 1 }

  function ShownIn(pre: string, v: string): seq<string> { if InText(pre) then ShownAfter(v) else Shown(v) }

  function HiddenIn(pre: string, v: string): seq<string> { if InText(pre) then HiddenAfter(v) else Hidden(v) }

  lemma QuotesIn(pre: string)
    ensures !Cuts(pre) ==> multiset(pre)[QUOTE] == 0
    ensures Cuts(pre) ==> multiset(pre)[QUOTE] == 1 + multiset(Rest(pre))[QUOTE]
  {
    if Cuts(pre) {
      HeadAndRest(pre);
      assert QUOTE !in multiset(Head(pre));
    } else {
      assert QUOTE !in multiset(pre);
    }
  }

  /** Quotes come in pairs: a literal in front does not change how a value is read. */
  lemma InTextSteps(pre: string)
    ensures !Cuts(pre) ==> !InText(pre)
    ensures Cuts(pre) && !Cuts(Rest(pre)) ==> InText(pre)
    ensures Cuts(pre) && Cuts(Rest(pre)) ==> (InText(pre) <==> InText(Rest(Rest(pre))))
  {
    QuotesIn(pre);
    if Cuts(pre) {
      QuotesIn(Rest(pre));
    }
  }

  /** The same literal in front changes nothing. */
  lemma SameFront(u: Classes, max: nat, sql: string, a: string, q: string, rest: string, rest': string)
    requires QUOTE !in a && QUOTE !in q
    ensures Scrub(u, max, sql, Around(a, q, rest)) == Scrub(u, max, sql, Around(a, q, rest')) <==>
      Scrub(u, max, sql, rest) == Scrub(u, max, sql, rest')
  {
    ScrubAround(u, max, sql, a, q, rest);
    ScrubAround(u, max, sql, a, q, rest');
    var out := Rendered(u, max, sql, q);
    RenderedHasNoQuote(u, max, sql, q);
    if Around(a, out, Scrub(u, max, sql, rest)) == Around(a, out, Scrub(u, max, sql, rest')) {
      AroundParts(a, out, Scrub(u, max, sql, rest), a, out, Scrub(u, max, sql, rest'));
    }
  }

  lemma FrontCut(pre: string, v: string, post: string)
    requires Cuts(pre)
    ensures Around(pre, v, post) == Around(Head(pre), Rest(pre), v + "'" + post)
    ensures Cuts(Rest(pre)) ==>
      Around(pre, v, post) == Around(Head(pre), Head(Rest(pre)), Around(Rest(Rest(pre)), v, post))
  {
    HeadAndRest(pre);
    Refront(Head(pre), Rest(pre), v, post);
    if Cuts(Rest(pre)) {
      HeadAndRest(Rest(pre));
      Rejoin(Head(pre), Head(Rest(pre)), Rest(Rest(pre)), v, post);
    }
  }

  lemma Refront(a: string, r: string, v: string, post: string)
    ensures Around(a + "'" + r, v, post) == Around(a, r, v + "'" + post)
  {
  }

  lemma Rejoin(a: string, b: string, x: string, v: string, post: string)
    ensures Around(a, b + "'" + x, v + "'" + post) == Around(a, b, Around(x, v, post))
  {
  }

  /** Of two unknown values of one shape, in one place, the messages scrub to the same
      text exactly when the values show the same pieces. */
  lemma {:induction false} ShownIsAllThatShows(u: Classes, max: nat, sql: string, pre: string, v: string, v': string, post: string)
    requires Lawful(u) && Shape(u, v) == Shape(u, v')
    requires NoneKnown(sql, HiddenIn(pre, v)) && NoneKnown(sql, HiddenIn(pre, v'))
    ensures Scrub(u, max, sql, Around(pre, v, post)) == Scrub(u, max, sql, Around(pre, v', post)) <==>
      ShownIn(pre, v) == ShownIn(pre, v')
    decreases |pre|
  {
    InTextSteps(pre);
    if !Cuts(pre) {
      ShownAtOpening(u, max, sql, pre, pre, v, v', post);
    } else if !Cuts(Rest(pre)) {
      ShownInText(u, max, sql, pre, v, v', post);
    } else {
      var x := Rest(Rest(pre));
      ShownIsAllThatShows(u, max, sql, x, v, v', post);
      FrontDropped(u, max, sql, pre, v, v', post);
    }
  }

  lemma ShownInText(u: Classes, max: nat, sql: string, pre: string, v: string, v': string, post: string)
    requires Lawful(u) && Shape(u, v) == Shape(u, v') && Cuts(pre) && !Cuts(Rest(pre))
    requires NoneKnown(sql, HiddenAfter(v)) && NoneKnown(sql, HiddenAfter(v'))
    ensures Scrub(u, max, sql, Around(pre, v, post)) == Scrub(u, max, sql, Around(pre, v', post)) <==>
      ShownAfter(v) == ShownAfter(v')
  {
    FrontCut(pre, v, post);
    FrontCut(pre, v', post);
    SameFront(u, max, sql, Head(pre), Rest(pre), v + "'" + post, v' + "'" + post);
    TextShows(u, max, sql, v, v', post);
  }

  lemma FrontDropped(u: Classes, max: nat, sql: string, pre: string, v: string, v': string, post: string)
    requires Cuts(pre) && Cuts(Rest(pre))
    ensures Scrub(u, max, sql, Around(pre, v, post)) == Scrub(u, max, sql, Around(pre, v', post)) <==>
      Scrub(u, max, sql, Around(Rest(Rest(pre)), v, post)) == Scrub(u, max, sql, Around(Rest(Rest(pre)), v', post))
  {
    var x := Rest(Rest(pre));
    FrontCut(pre, v, post);
    FrontCut(pre, v', post);
    SameFront(u, max, sql, Head(pre), Head(Rest(pre)), Around(x, v, post), Around(x, v', post));
  }

  /** A value whose digits, letters and spaces the message does not tell: any other
      unknown value of its shape gives the same message. */
  ghost predicate Withholds(u: Classes, max: nat, sql: string, pre: string, v: string, post: string) {
    forall v' :: Shape(u, v') == Shape(u, v) && NoneKnown(sql, HiddenIn(pre, v')) ==>
      Scrub(u, max, sql, Around(pre, v', post)) == Scrub(u, max, sql, Around(pre, v, post))
  }

  ghost predicate AllPlain(u: Classes, s: string) { forall k :: 0 <= k < |s| ==> Plain(u, s[k]) }

  ghost predicate OnlyPlain(u: Classes, pieces: seq<string>) { forall p :: p in pieces ==> AllPlain(u, p) }

  ghost predicate ShowsOnlyPlain(u: Classes, v: string) { OnlyPlain(u, Shown(v)) }

  /** There is more than one digit, letter and space. */
  ghost predicate Varied(u: Classes) {
    && u.isDigit('0') && u.isLetter('A') && !u.isDigit('A')
    && u.isSpace('\t') && !u.isDigit('\t') && !u.isLetter('\t')
  }

  /** Exact, wherever in a message: an unknown value is withheld if and only if nothing
      but punctuation comes after an odd number of apostrophes, counting those before
      it.  So one without any, after an even number, always is. */
  lemma WithheldExactly(u: Classes, max: nat, sql: string, pre: string, v: string, post: string)
    requires Lawful(u) && Varied(u) && NoneKnown(sql, HiddenIn(pre, v))
    ensures Withholds(u, max, sql, pre, v, post) <==> OnlyPlain(u, ShownIn(pre, v))
    ensures QUOTE !in v && !InText(pre) ==> Withholds(u, max, sql, pre, v, post)
  {
    if OnlyPlain(u, ShownIn(pre, v)) {
      forall v' | Shape(u, v') == Shape(u, v) && NoneKnown(sql, HiddenIn(pre, v'))
        ensures Scrub(u, max, sql, Around(pre, v', post)) == Scrub(u, max, sql, Around(pre, v, post))
      {
        if InText(pre) {
          PlainAfterIsFixed(u, v, v');
        } else {
          PlainIsFixed(u, v, v');
        }
        ShownIsAllThatShows(u, max, sql, pre, v', v, post);
      }
    } else {
      var v';
      if InText(pre) {
        v' := DisguisedAfter(u, v);
      } else {
        v' := Disguised(u, v);
      }
      assert NoneKnown(sql, HiddenIn(pre, v'));
      ShownIsAllThatShows(u, max, sql, pre, v', v, post);
    }
  }

  lemma {:induction false} PlainIsFixed(u: Classes, v: string, v': string)
    requires Lawful(u) && Shape(u, v) == Shape(u, v') && ShowsOnlyPlain(u, v)
    ensures Shown(v) == Shown(v')
    decreases |v|
  {
    SameShapeSameCuts(u, v, v');
    if Cuts(v) {
      SameShapeParts(u, v, v');
      PlainAfterIsFixed(u, Rest(v), Rest(v'));
    }
  }

  lemma {:induction false} PlainAfterIsFixed(u: Classes, r: string, r': string)
    requires Lawful(u) && Shape(u, r) == Shape(u, r') && OnlyPlain(u, ShownAfter(r))
    ensures ShownAfter(r) == ShownAfter(r')
    decreases |r|
  {
    SameShapeSameCuts(u, r, r');
    if Cuts(r) {
      SameShapeParts(u, r, r');
      assert Head(r) in ShownAfter(r);
      PlainText(u, Head(r), Head(r'));
      assert forall p :: p in Shown(Rest(r)) ==> p in ShownAfter(r);
      PlainIsFixed(u, Rest(r), Rest(r'));
    } else {
      assert r in ShownAfter(r);
      PlainText(u, r, r');
    }
  }

  lemma PlainText(u: Classes, s: string, s': string)
    requires Lawful(u) && Shape(u, s) == Shape(u, s') && AllPlain(u, s)
    ensures s == s'
  {
    assert |s| == |Shape(u, s)| && |s'| == |Shape(u, s')|;
    forall k | 0 <= k < |s| ensures s[k] == s'[k] {
      assert ShapeOf(u, s[k]) == Shape(u, s)[k] == Shape(u, s')[k] == ShapeOf(u, s'[k]);
    }
  }

  function Another(u: Classes, c: char): char {
    if u.isDigit(c) then (if c == '0' then '9' else '0')
    else if u.isLetter(c) then (if c == 'A' then 'X' else 'A')
    else if c == ' ' then '\t' else ' '
  }

  lemma ChangeOne(u: Classes, s: string) returns (s': string)
    requires Lawful(u) && Varied(u) && QUOTE !in s && !AllPlain(u, s)
    ensures s' != s && Shape(u, s') == Shape(u, s) && QUOTE !in s'
  {
    var k :| 0 <= k < |s| && !Plain(u, s[k]);
    s' := s[k := Another(u, s[k])];
    assert s'[k] != s[k];
  }

  lemma JoinedShape(u: Classes, a: string, b: string, a': string, b': string)
    requires Shape(u, a) == Shape(u, a') && Shape(u, b) == Shape(u, b')
    ensures Shape(u, a + "'" + b) == Shape(u, a' + "'" + b')
  {
    ShapeOfJoined(u, a, b);
    ShapeOfJoined(u, a', b');
  }

  lemma ShapeOfJoined(u: Classes, a: string, b: string)
    ensures Shape(u, a + "'" + b) == Shape(u, a) + [ShapeOf(u, QUOTE)] + Shape(u, b)
  {
  }

  lemma JoinedParts(a: string, b: string)
    requires QUOTE !in a
    ensures var v := a + "'" + b; Cuts(v) && Head(v) == a && Rest(v) == b
  {
    var v := a + "'" + b;
    assert v[|a|] == QUOTE;
    NextQuoteIs(a, b);
    assert v[..|a|] == a && v[|a| + 1..] == b;
  }

  /** Another value of the same shape that shows something else and hides the same. */
  lemma {:induction false} Disguised(u: Classes, v: string) returns (v': string)
    requires Lawful(u) && Varied(u) && !ShowsOnlyPlain(u, v)
    ensures Shape(u, v') == Shape(u, v) && Hidden(v') == Hidden(v) && Shown(v') != Shown(v)
    decreases |v|
  {
    var r' := DisguisedAfter(u, Rest(v));
    v' := Head(v) + "'" + r';
    HeadAndRest(v);
    JoinedShape(u, Head(v), r', Head(v), Rest(v));
    JoinedParts(Head(v), r');
  }

  lemma {:induction false} DisguisedAfter(u: Classes, r: string) returns (r': string)
    requires Lawful(u) && Varied(u) && !OnlyPlain(u, ShownAfter(r))
    ensures Shape(u, r') == Shape(u, r) && HiddenAfter(r') == HiddenAfter(r) && ShownAfter(r') != ShownAfter(r)
    decreases |r|
  {
    if !Cuts(r) {
      r' := ChangeOne(u, r);
    } else if !AllPlain(u, Head(r)) {
      var b' := ChangeOne(u, Head(r));
      r' := b' + "'" + Rest(r);
      HeadAndRest(r);
      JoinedShape(u, b', Rest(r), Head(r), Rest(r));
      JoinedParts(b', Rest(r));
      SameCons(Head(r), Shown(Rest(r)), b', Shown(Rest(r)));
    } else {
      var p :| p in ShownAfter(r) && !AllPlain(u, p);
      assert p in Shown(Rest(r));
      var x' := Disguised(u, Rest(r));
      r' := Head(r) + "'" + x';
      HeadAndRest(r);
      JoinedShape(u, Head(r), x', Head(r), Rest(r));
      JoinedParts(Head(r), x');
      SameCons(Head(r), Shown(Rest(r)), Head(r), Shown(x'));
    }
  }

  lemma Leaks(u: Classes, max: nat, pre: string, v: string, post: string, p: string, k: nat)
    requires Lawful(u) && Varied(u) && p in ShownIn(pre, v) && k < |p| && !Plain(u, p[k])
    ensures !Withholds(u, max, "", pre, v, post)
  {
    assert !AllPlain(u, p);
    WithheldExactly(u, max, "", pre, v, post);
  }

  lemma OneApostrophe(a: string, b: string)
    requires QUOTE !in a && QUOTE !in b
    ensures Shown(a + "'" + b) == [b] && InText(a + "'" + b) && !InText(a)
  {
    JoinedParts(a, b);
    InTextSteps(a + "'" + b);
    InTextSteps(a);
  }

  /** What follows an apostrophe in a name leaves as it stands, in O'B for one. */
  lemma ApostropheShowsTheRest(u: Classes, max: nat, pre: string, a: string, b: string, post: string)
    requires Lawful(u) && Varied(u) && QUOTE !in pre && QUOTE !in a && QUOTE !in b
    ensures ShownIn(pre, a + "'" + b) == [b]
    ensures !AllPlain(u, b) ==> !Withholds(u, max, "", pre, a + "'" + b, post)
  {
    OneApostrophe(a, b);
    InTextSteps(pre);
    if !AllPlain(u, b) {
      var k :| 0 <= k < |b| && !Plain(u, b[k]);
      Leaks(u, max, pre, a + "'" + b, post, b, k);
    }
  }

  /** After an apostrophe in the text before it, as in "can't cast", a value leaves as
      it stands whether it holds one or not. */
  lemma ApostropheBeforeShowsAll(u: Classes, max: nat, a: string, b: string, v: string, post: string)
    requires Lawful(u) && Varied(u) && QUOTE !in a && QUOTE !in b && QUOTE !in v
    ensures ShownIn(a + "'" + b, v) == [v]
    ensures !AllPlain(u, v) ==> !Withholds(u, max, "", a + "'" + b, v, post)
  {
    OneApostrophe(a, b);
    if !AllPlain(u, v) {
      var k :| 0 <= k < |v| && !Plain(u, v[k]);
      Leaks(u, max, a + "'" + b, v, post, v, k);
    }
  }

  /** Two such inputs: O'B after a message's opening text, and B after "can't ". */
  lemma SurnameAndMessage(u: Classes, max: nat, open: string, o: string, b: string, can: string, t: string)
    requires Lawful(u) && Varied(u) && u.isLetter('B')
    requires open == "value " && o == "O" && b == "B" && can == "can" && t == "t "
    ensures !Withholds(u, max, "", open, o + "'" + b, "")
    ensures !Withholds(u, max, "", can + "'" + t, b, "")
  {
    assert !Plain(u, b[0]) && !AllPlain(u, b);
    assert QUOTE !in open && QUOTE !in o && QUOTE !in b && QUOTE !in can && QUOTE !in t;
    SurnameParts(u, max, open, o, b, can, t);
  }

  lemma SurnameParts(u: Classes, max: nat, open: string, o: string, b: string, can: string, t: string)
    requires Lawful(u) && Varied(u) && !AllPlain(u, b)
    requires QUOTE !in open && QUOTE !in o && QUOTE !in b && QUOTE !in can && QUOTE !in t
    ensures !Withholds(u, max, "", open, o + "'" + b, "")
    ensures !Withholds(u, max, "", can + "'" + t, b, "")
  {
    ApostropheShowsTheRest(u, max, open, o, b, "");
    ApostropheBeforeShowsAll(u, max, can, t, b, "");
  }

  // ---- the statement itself --------------------------------------------------------------------

  lemma OccursHere(a: string, b: string, c: string)
    ensures Contains(a + b + c, b)
  {
    assert (a + b + c)[|a|..|a| + |b|] == b;
    assert At(a + b + c, |a|, b);
    IndexOfMeans(a + b + c, b);
  }

  lemma OccursWithin(a: string, s: string, sub: string)
    requires Contains(s, sub)
    ensures Contains(a + s, sub)
  {
    IndexOfMeans(s, sub);
    var k := IndexOf(s, sub);
    assert (a + s)[|a| + k..|a| + k + |sub|] == s[k..k + |sub|];
    assert At(a + s, |a| + k, sub);
    IndexOfMeans(a + s, sub);
  }

  lemma FirstLiteralOccurs(s: string)
    requires HasLiteral(s)
    ensures Contains(s, "'" + Literal(s) + "'")
  {
    CutAtLiteral(s);
    MiddleOccurs(Before(s), Literal(s), After(s));
  }

  lemma MiddleOccurs(a: string, q: string, rest: string)
    ensures Contains(Around(a, q, rest), "'" + q + "'")
  {
    var literal := "'" + q + "'";
    assert Around(a, q, rest) == a + literal + rest;
    OccursHere(a, literal, rest);
  }

  lemma OccursAfterLiteral(s: string, sub: string)
    requires HasLiteral(s) && Contains(After(s), sub)
    ensures Contains(s, sub)
  {
    CutAtLiteral(s);
    OccursWithin(Before(s) + "'" + Literal(s) + "'", After(s), sub);
  }

  lemma {:induction false} LiteralsOccur(s: string, i: nat)
    requires i < |Literals(s)|
    ensures Contains(s, "'" + Literals(s)[i] + "'")
    decreases |s|
  {
    FirstParts(s);
    if i == 0 {
      FirstLiteralOccurs(s);
    } else {
      var q := Literals(After(s))[i - 1];
      assert Literals(s)[i] == q;
      LiteralsOccur(After(s), i - 1);
      OccursAfterLiteral(s, "'" + q + "'");
    }
  }

  /** The statement, echoed back by the engine, is not rewritten. */
  lemma EchoIsUnchanged(u: Classes, max: nat, sql: string)
    ensures Scrub(u, max, sql, sql) == sql
  {
    var quoted := Literals(sql);
    forall i | 0 <= i < |quoted| ensures Rendered(u, max, sql, quoted[i]) == quoted[i] {
      LiteralsOccur(sql, i);
    }
    assert RenderAll(u, max, sql, quoted) == quoted;
    PartsAssemble(sql);
  }
}
