/**
  The wire between a run and a browser: the frames sendEvent prints
  (internal/api/events.go) and the incremental parser that reads them back from
  arbitrary pieces of the response (streamRun in web/src/api.ts).  Framing as in
  sections 9.2.5 and 9.2.6 of the WHATWG HTML standard.

  Text is a sequence of characters; encoding an event as JSON and decoding it
  are parameters.
*/
module EventStream {
  import opened Wrappers
  import opened Strings
  import Positions

  // ---- printing -------------------------------------------------------------------

  /** An event on its way out; `body` is its JSON, or None if it cannot be encoded. */
  datatype Outgoing = Outgoing(kind: string, body: Option<string>)

  function Head(kind: string, body: string): string {
    "event: " + kind + "\n" + "data: " + body
  }

  /** sendEvent: an event that cannot be encoded is logged and skipped. */
  function Printed(ev: Outgoing): string {
    match ev.body
    case None => ""
    case Some(body) => Head(ev.kind, body) + "\n\n"
  }

  function PrintAll(evs: seq<Outgoing>): string {
    if evs == [] then "" else Printed(evs[0]) + PrintAll(evs[1..])
  }

  function Payloads(evs: seq<Outgoing>): seq<string> {
    if evs == [] then []
    else (if evs[0].body.Some? then [evs[0].body.value] else []) + Payloads(evs[1..])
  }

  // ---- parsing ----------------------------------------------------------------------

  /** What String.prototype.trim removes. */
  const JS_SPACE: set<char> := {
    '\t', '\n', '\r', ' ', '\U{B}', '\U{C}', '\U{A0}', '\U{1680}', '\U{2000}', '\U{2001}', '\U{2002}', '\U{2003}',
    '\U{2004}', '\U{2005}', '\U{2006}', '\U{2007}', '\U{2008}', '\U{2009}', '\U{200A}', '\U{2028}', '\U{2029}',
    '\U{202F}', '\U{205F}', '\U{3000}', '\U{FEFF}'}

  function TrimStart(s: string): string {
    if s != "" && s[0] in JS_SPACE then TrimStart(s[1..]) else s
  }

  function TrimEnd(s: string): string {
    if s != "" && s[|s| - 1] in JS_SPACE then TrimEnd(s[..|s| - 1]) else s
  }

  function Trim(s: string): string { TrimEnd(TrimStart(s)) }

  function DataLines(lines: seq<string>): seq<string> {
    if lines == [] then []
    else (if "data:" <= lines[0] then [Trim(lines[0][5..])] else []) + DataLines(lines[1..])
  }

  ghost predicate AllSpace(s: string) { forall c :: c in s ==> c in JS_SPACE }

  ghost predicate Trimmed(s: string) { s != "" ==> s[0] !in JS_SPACE && s[|s| - 1] !in JS_SPACE }

  lemma {:induction false} TrimStartMeans(s: string) returns (front: string)
    ensures s == front + TrimStart(s) && AllSpace(front)
    ensures TrimStart(s) != "" ==> TrimStart(s)[0] !in JS_SPACE
  {
    front := "";
    if s != "" && s[0] in JS_SPACE {
      var more := TrimStartMeans(s[1..]);
      front := [s[0]] + more;
      assert s == [s[0]] + s[1..];
    }
  }

  lemma {:induction false} TrimEndMeans(s: string) returns (back: string)
    ensures s == TrimEnd(s) + back && AllSpace(back)
    ensures TrimEnd(s) != "" ==> TrimEnd(s)[|TrimEnd(s)| - 1] !in JS_SPACE && TrimEnd(s)[0] == s[0]
    decreases |s|
  {
    back := "";
    if s != "" && s[|s| - 1] in JS_SPACE {
      var n := |s| - 1;
      var more := TrimEndMeans(s[..n]);
      back := more + [s[n]];
      assert s == s[..n] + [s[n]];
    }
  }

  /** Trimming takes white space off both ends, all of it and nothing else. */
  lemma TrimMeans(s: string) returns (front: string, back: string)
    ensures s == front + Trim(s) + back && AllSpace(front) && AllSpace(back) && Trimmed(Trim(s))
  {
    front := TrimStartMeans(s);
    back := TrimEndMeans(TrimStart(s));
  }

  ghost function DataIn(lines: seq<string>): set<nat> { set i: nat | i < |lines| && "data:" <= lines[i] }

  lemma {:induction false} LastDataLine(lines: seq<string>)
    requires lines != []
    ensures var n := |lines| - 1;
      DataLines(lines) == DataLines(lines[..n]) + (if "data:" <= lines[n] then [Trim(lines[n][5..])] else [])
    decreases |lines|
  {
    var n := |lines| - 1;
    if n == 0 {
      assert lines[1..] == [] && lines[..0] == [];
    } else {
      LastDataLine(lines[1..]);
      assert lines[1..][..n - 1] == lines[..n][1..];
      ConcatAssociates(if "data:" <= lines[0] then [Trim(lines[0][5..])] else [], DataLines(lines[..n][1..]),
                       if "data:" <= lines[n] then [Trim(lines[n][5..])] else []);
    }
  }

  lemma LastDataIn(lines: seq<string>)
    requires lines != []
    ensures var n := |lines| - 1; DataIn(lines) == DataIn(lines[..n]) + (if "data:" <= lines[n] then {n} else {})
  {
  }

  /** The data of a frame: every line that is marked as data, trimmed, in order. */
  lemma {:induction false} DataLinesAre(lines: seq<string>) returns (at: seq<nat>)
    ensures Positions.Lists(at, DataIn(lines)) && |at| == |DataLines(lines)|
    ensures forall k :: 0 <= k < |at| ==>
      at[k] < |lines| && |lines[at[k]]| >= 5 && DataLines(lines)[k] == Trim(lines[at[k]][5..])
    decreases |lines|
  {
    at := [];
    if lines != [] {
      var n := |lines| - 1;
      at := DataLinesAre(lines[..n]);
      LastDataLine(lines);
      LastDataIn(lines);
      assert forall k :: 0 <= k < |at| ==> lines[..n][at[k]] == lines[at[k]];
      if "data:" <= lines[n] {
        Positions.OneMoreListed(at, DataIn(lines[..n]), n);
        at := at + [n];
      }
    }
  }

  function FrameData(frame: string): string { Join(DataLines(Split(frame, '\n')), "\n") }

  /** onEvent is called unless the frame has no data or its data does not parse. */
  function Delivers(parses: string -> bool, frame: string): seq<string> {
    var data := FrameData(frame);
    if data != "" && parses(data) then [data] else []
  }

  function OnFrame(parses: string -> bool): string -> seq<string> {
    frame => Delivers(parses, frame)
  }

  datatype Reading = Reading(delivered: seq<string>, buffer: string)

  /** All the text at once: the frames before the last separator, each handed to
      `deliver`, and what is left. */
  function Drain(deliver: string -> seq<string>, text: string): (r: Reading)
    ensures IndexOf(r.buffer, "\n\n") < 0
    decreases |text|
  {
    var split := IndexOf(text, "\n\n");
    if split < 0 then Reading([], text)
    else
      var rest := Drain(deliver, text[split + 2..]);
      Reading(deliver(text[..split]) + rest.delivered, rest.buffer)
  }

  function Concat(chunks: seq<string>): string {
    if chunks == [] then "" else Concat(chunks[..|chunks| - 1]) + chunks[|chunks| - 1]
  }

  lemma FirstSeparatorStays(x: string, y: string)
    requires IndexOf(x, "\n\n") >= 0
    ensures IndexOf(x + y, "\n\n") == IndexOf(x, "\n\n")
  {
    var i := IndexOf(x, "\n\n");
    IndexOfMeans(x, "\n\n");
    assert (x + y)[i..i + 2] == x[i..i + 2];
    assert At(x + y, i, "\n\n");
    forall k | 0 <= k < i ensures !At(x + y, k, "\n\n") {
      assert (x + y)[k..k + 2] == x[k..k + 2];
      assert !At(x, k, "\n\n");
    }
    FirstIsIndexOf(x + y, "\n\n", i);
  }

  lemma DrainFirst(deliver: string -> seq<string>, x: string)
    requires IndexOf(x, "\n\n") >= 0
    ensures var split := IndexOf(x, "\n\n"); var rest := Drain(deliver, x[split + 2..]);
      Drain(deliver, x) == Reading(deliver(x[..split]) + rest.delivered, rest.buffer)
  {
  }

  lemma FirstFrameStays(deliver: string -> seq<string>, x: string, y: string)
    requires IndexOf(x, "\n\n") >= 0
    ensures var split := IndexOf(x, "\n\n"); var rest := Drain(deliver, x[split + 2..] + y);
      Drain(deliver, x + y) == Reading(deliver(x[..split]) + rest.delivered, rest.buffer)
  {
    var split := IndexOf(x, "\n\n");
    FirstSeparatorStays(x, y);
    assert (x + y)[..split] == x[..split] && (x + y)[split + 2..] == x[split + 2..] + y;
    DrainFirst(deliver, x + y);
  }

  /** Reading on from the buffer is the same as having read everything at once. */
  lemma {:induction false} DrainOn(deliver: string -> seq<string>, x: string, y: string, a: Reading, b: Reading)
    requires a == Drain(deliver, x) && b == Drain(deliver, a.buffer + y)
    ensures Drain(deliver, x + y) == Reading(a.delivered + b.delivered, b.buffer)
    decreases |x|
  {
    var split := IndexOf(x, "\n\n");
    if split < 0 {
      assert [] + b.delivered == b.delivered;
    } else {
      var here, tail := deliver(x[..split]), x[split + 2..];
      DrainFirst(deliver, x);
      FirstFrameStays(deliver, x, y);
      var after := Drain(deliver, tail);
      DrainOn(deliver, tail, y, after, b);
      ConcatAssociates(here, after.delivered, b.delivered);
    }
  }

  /** streamRun's inner loop: hands over every complete frame in the buffer. */
  method TakeFrames(parses: string -> bool, text: string) returns (delivered: seq<string>, buffer: string)
    ensures Reading(delivered, buffer) == Drain(OnFrame(parses), text)
  {
    delivered, buffer := [], text;
    ghost var whole := Drain(OnFrame(parses), text);
    var split := IndexOf(buffer, "\n\n");
    assert [] + whole.delivered == whole.delivered;
    while split != -1
      invariant split == IndexOf(buffer, "\n\n")
      invariant delivered + Drain(OnFrame(parses), buffer).delivered == whole.delivered
      invariant Drain(OnFrame(parses), buffer).buffer == whole.buffer
      decreases |buffer|
    {
      DrainFirst(OnFrame(parses), buffer);
      var data := FrameData(buffer[..split]);
      ghost var more := Delivers(parses, buffer[..split]);
      ghost var rest := Drain(OnFrame(parses), buffer[split + 2..]).delivered;
      assert OnFrame(parses)(buffer[..split]) == more;
      ConcatAssociates(delivered, more, rest);
      buffer := buffer[split + 2..];
      if data != "" && parses(data) {
        delivered := delivered + [data];
      } else {
        assert delivered + more == delivered;
      }
      split := IndexOf(buffer, "\n\n");
    }
    assert delivered + [] == delivered;
  }

  /** streamRun: whatever the cuts, the events delivered and the text kept are those
      of the concatenation. */
  method StreamRun(parses: string -> bool, chunks: seq<string>) returns (delivered: seq<string>, buffer: string)
    ensures Reading(delivered, buffer) == Drain(OnFrame(parses), Concat(chunks))
  {
    delivered, buffer := [], "";
    var i := 0;
    assert chunks[..0] == [] && IndexOf("", "\n\n") < 0;
    while i < |chunks|
      invariant 0 <= i <= |chunks|
      invariant Reading(delivered, buffer) == Drain(OnFrame(parses), Concat(chunks[..i]))
    {
      assert chunks[..i + 1][..i] == chunks[..i];
      ghost var before := Reading(delivered, buffer);
      var more;
      more, buffer := TakeFrames(parses, buffer + chunks[i]);
      DrainOn(OnFrame(parses), Concat(chunks[..i]), chunks[i], before, Reading(more, buffer));
      delivered := delivered + more;
      i := i + 1;
    }
    assert chunks[..i] == chunks;
  }

  // ---- round trip ----------------------------------------------------------------------

  /** One line of JSON for an object, as the encoder writes it; the receiver can
      parse it. */
  ghost predicate GoodEvent(parses: string -> bool, ev: Outgoing) {
    && '\n' !in ev.kind
    && (ev.body.Some? ==>
         var b := ev.body.value;
         |b| >= 2 && b[0] == '{' && b[|b| - 1] == '}' && '\n' !in b && parses(b))
  }

  ghost predicate GoodEvents(parses: string -> bool, evs: seq<Outgoing>) {
    forall i :: 0 <= i < |evs| ==> GoodEvent(parses, evs[i])
  }

  lemma {:induction false} SplitLine(s: string)
    requires '\n' !in s
    ensures Split(s, '\n') == [s]
    decreases |s|
  {
    if s != "" {
      SplitLine(s[1..]);
      assert s == [s[0]] + s[1..];
    }
  }

  lemma {:induction false} SplitTwoLines(a: string, b: string)
    requires '\n' !in a && '\n' !in b
    ensures Split(a + "\n" + b, '\n') == [a, b]
    decreases |a|
  {
    var s := a + "\n" + b;
    if a == "" {
      assert s[1..] == b && s[0] == '\n';
      SplitLine(b);
    } else {
      SplitTwoLines(a[1..], b);
      assert s[1..] == a[1..] + "\n" + b && s[0] == a[0];
      assert a == [a[0]] + a[1..];
    }
  }

  lemma BodyIsFrameData(kind: string, body: string)
    requires '\n' !in kind && '\n' !in body
    requires |body| >= 2 && body[0] == '{' && body[|body| - 1] == '}'
    ensures FrameData(Head(kind, body)) == body
  {
    var a, b := "event: " + kind, "data: " + body;
    assert Head(kind, body) == a + "\n" + b;
    SplitTwoLines(a, b);
    assert !("data:" <= a) by { assert a[0] == 'e'; }
    assert "data:" <= b && b[5..] == " " + body;
    TrimKeeps(body);
    DataOfSecond(a, b);
  }

  lemma TrimKeeps(body: string)
    requires |body| >= 2 && body[0] == '{' && body[|body| - 1] == '}'
    ensures Trim(" " + body) == body
  {
    assert (" " + body)[1..] == body;
    assert TrimStart(" " + body) == TrimStart(body) == body;
  }

  lemma DataOfSecond(a: string, b: string)
    requires !("data:" <= a) && "data:" <= b
    ensures DataLines([a, b]) == [Trim(b[5..])]
  {
    var none: seq<string> := [];
    assert [a, b][1..] == [b] && [b][1..] == none;
    assert DataLines([b]) == [Trim(b[5..])] + DataLines(none);
    assert DataLines([a, b]) == none + DataLines([b]);
  }

  lemma HeadHasNoSeparator(kind: string, body: string)
    requires '\n' !in kind && '\n' !in body && body != ""
    ensures var h := Head(kind, body);
      (forall k :: !At(h, k, "\n\n")) && h[|h| - 1] != '\n'
  {
    var h := Head(kind, body);
    var a := "event: " + kind;
    assert h == a + "\n" + ("data: " + body);
    assert forall j :: 0 <= j < |h| && h[j] == '\n' ==> j == |a|;
    assert h[|a| + 1] == 'd' && h[|h| - 1] == body[|body| - 1];
    forall k ensures !At(h, k, "\n\n") {
      BlankLineAt(h, k);
    }
  }

  lemma BlankLineAt(s: string, k: int)
    ensures At(s, k, "\n\n") <==> 0 <= k < |s| - 1 && s[k] == '\n' && s[k + 1] == '\n'
  {
    if 0 <= k < |s| - 1 {
      assert s[k..k + 2] == [s[k], s[k + 1]];
    }
  }

  /** The separator that ends a printed frame is the first one in the text. */
  lemma SeparatorEndsFrame(kind: string, body: string, rest: string)
    requires '\n' !in kind && '\n' !in body && body != ""
    ensures var h := Head(kind, body);
      IndexOf(h + "\n\n" + rest, "\n\n") == |h|
  {
    var h := Head(kind, body);
    var text := h + "\n\n" + rest;
    HeadHasNoSeparator(kind, body);
    forall k | 0 <= k < |h| ensures !At(text, k, "\n\n") {
      BlankLineAt(text, k);
      BlankLineAt(h, k);
      assert text[k] == h[k];
    }
    BlankLineAt(text, |h|);
    assert At(text, |h|, "\n\n");
    FirstIsIndexOf(text, "\n\n", |h|);
  }

  /** A frame at the front of the text is taken first, and delivers its payload. */
  lemma FrameFirst(parses: string -> bool, kind: string, body: string, rest: string)
    requires GoodEvent(parses, Outgoing(kind, Some(body)))
    ensures var r := Drain(OnFrame(parses), rest);
      Drain(OnFrame(parses), Head(kind, body) + "\n\n" + rest) == Reading([body] + r.delivered, r.buffer)
  {
    var h := Head(kind, body);
    var text := h + "\n\n" + rest;
    SeparatorEndsFrame(kind, body, rest);
    assert text[..|h|] == h && text[|h| + 2..] == rest;
    BodyIsFrameData(kind, body);
    DrainFirst(OnFrame(parses), text);
    assert OnFrame(parses)(h) == Delivers(parses, h);
  }

  lemma PayloadOfOne(ev: Outgoing)
    ensures Payloads([ev]) == if ev.body.Some? then [ev.body.value] else []
  {
    var none: seq<Outgoing> := [];
    assert [ev][1..] == none && Payloads(none) == [];
  }

  lemma FrameThenRest(parses: string -> bool, ev: Outgoing, rest: string)
    requires GoodEvent(parses, ev)
    ensures var r := Drain(OnFrame(parses), rest);
      Drain(OnFrame(parses), Printed(ev) + rest) == Reading(Payloads([ev]) + r.delivered, r.buffer)
  {
    PayloadOfOne(ev);
    if ev.body.None? {
      assert "" + rest == rest;
    } else {
      FrameFirst(parses, ev.kind, ev.body.value, rest);
      assert Printed(ev) + rest == Head(ev.kind, ev.body.value) + "\n\n" + rest;
    }
  }

  /** Everything printed is delivered, in order, and nothing is left over. */
  lemma {:induction false} PrintedIsDelivered(parses: string -> bool, evs: seq<Outgoing>)
    requires GoodEvents(parses, evs)
    ensures Drain(OnFrame(parses), PrintAll(evs)) == Reading(Payloads(evs), "")
    decreases |evs|
  {
    if evs != [] {
      PrintedIsDelivered(parses, evs[1..]);
      FrameThenRest(parses, evs[0], PrintAll(evs[1..]));
      assert [evs[0]][1..] == [] && Payloads([]) == [];
      assert Payloads(evs) == Payloads([evs[0]]) + Payloads(evs[1..]);
    }
  }

  /** A frame still arriving delivers nothing. */
  lemma PartialFrameWaits(parses: string -> bool, ev: Outgoing, n: nat)
    requires GoodEvent(parses, ev) && n < |Printed(ev)|
    ensures Drain(OnFrame(parses), Printed(ev)[..n]) == Reading([], Printed(ev)[..n])
  {
    var h := Head(ev.kind, ev.body.value);
    var part := Printed(ev)[..n];
    HeadHasNoSeparator(ev.kind, ev.body.value);
    forall k ensures !At(part, k, "\n\n") {
      BlankLineAt(part, k);
      BlankLineAt(h, k);
      assert forall j :: 0 <= j < |part| && j < |h| ==> part[j] == h[j];
    }
    IndexOfMeans(part, "\n\n");
  }

  /** The first n characters of the stream deliver the first k events, and leave in the
      buffer exactly the printed text that follows them, less than one frame. */
  ghost predicate UpTo(parses: string -> bool, evs: seq<Outgoing>, n: nat, k: nat)
    requires n <= |PrintAll(evs)|
  {
    var r := Drain(OnFrame(parses), PrintAll(evs)[..n]);
    && k <= |evs|
    && r.delivered == Payloads(evs[..k])
    && PrintAll(evs[..k]) + r.buffer == PrintAll(evs)[..n]
    && (if k < |evs| then |r.buffer| < |Printed(evs[k])| else r.buffer == "")
  }

  lemma {:induction false} DeliveredSoFar(parses: string -> bool, evs: seq<Outgoing>, n: nat) returns (k: nat)
    requires GoodEvents(parses, evs) && n <= |PrintAll(evs)|
    ensures UpTo(parses, evs, n, k)
    decreases |evs|
  {
    k := 0;
    if evs == [] {
      assert evs[..0] == [];
    } else if n < |Printed(evs[0])| {
      NoneDelivered(parses, evs, n);
    } else {
      var j := DeliveredSoFar(parses, evs[1..], n - |Printed(evs[0])|);
      OneMoreDelivered(parses, evs, n, j);
      k := j + 1;
    }
  }

  lemma NoneDelivered(parses: string -> bool, evs: seq<Outgoing>, n: nat)
    requires GoodEvents(parses, evs) && evs != [] && n < |Printed(evs[0])|
    ensures n <= |PrintAll(evs)| && UpTo(parses, evs, n, 0)
  {
    var text := PrintAll(evs)[..n];
    assert text == Printed(evs[0])[..n] && evs[..0] == [] && "" + text == text;
    PartialFrameWaits(parses, evs[0], n);
  }

  lemma PrintedFirst(evs: seq<Outgoing>, n: nat)
    requires evs != [] && |Printed(evs[0])| <= n <= |PrintAll(evs)|
    ensures n - |Printed(evs[0])| <= |PrintAll(evs[1..])|
    ensures PrintAll(evs)[..n] == Printed(evs[0]) + PrintAll(evs[1..])[..n - |Printed(evs[0])|]
  {
  }

  lemma OneMoreDelivered(parses: string -> bool, evs: seq<Outgoing>, n: nat, j: nat)
    requires GoodEvents(parses, evs) && evs != [] && |Printed(evs[0])| <= n <= |PrintAll(evs)|
    requires n - |Printed(evs[0])| <= |PrintAll(evs[1..])| && UpTo(parses, evs[1..], n - |Printed(evs[0])|, j)
    ensures UpTo(parses, evs, n, j + 1)
  {
    var tail := PrintAll(evs[1..])[..n - |Printed(evs[0])|];
    var later := Drain(OnFrame(parses), tail);
    PrintedFirst(evs, n);
    FrameThenRest(parses, evs[0], tail);
    ShownStep(evs, j);
    ConcatAssociates(Printed(evs[0]), PrintAll(evs[1..][..j]), later.buffer);
    assert j + 1 < |evs| ==> evs[1..][j] == evs[j + 1];
  }

  lemma ShownStep(evs: seq<Outgoing>, j: nat)
    requires j < |evs|
    ensures PrintAll(evs[..j + 1]) == Printed(evs[0]) + PrintAll(evs[1..][..j])
    ensures Payloads(evs[..j + 1]) == Payloads([evs[0]]) + Payloads(evs[1..][..j])
  {
    var shown := evs[..j + 1];
    var none: seq<Outgoing> := [];
    assert shown[0] == evs[0] && shown[1..] == evs[1..][..j];
    assert [evs[0]][1..] == none && Payloads(none) == [];
  }
}
