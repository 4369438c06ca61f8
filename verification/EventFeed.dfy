/**
  The fan-out of one run's progress to whoever is watching (activeRun in
  internal/api/runner.go).

  Every operation holds the run's lock, so an interleaving of goroutines is a
  sequence of the steps below; a receive is the subscriber's own step.  Sending
  on a closed channel and closing one twice are panics in Go: here they are
  broken preconditions of Channel.TrySend and Channel.Close.
*/
module EventFeed {
  const CAPACITY: nat := 64

  datatype Event = Event(position: nat, message: string)

  // ---- a channel and what the run does to it -----------------------------------------

  /** A non-blocking send: dropped when the buffer is full. */
  function Offered(queue: seq<Event>, ev: Event): seq<Event> {
    if |queue| < CAPACITY then queue + [ev] else queue
  }

  class Channel {
    var queue: seq<Event>
    var closed: bool

    constructor ()
      ensures queue == [] && !closed
    {
      queue, closed := [], false;
    }

    method TrySend(ev: Event)
      requires !closed
      modifies this`queue
      ensures queue == Offered(old(queue), ev)
    {
      if |queue| < CAPACITY {
        queue := queue + [ev];
      }
    }

    method Receive() returns (ev: Event)
      requires queue != []
      modifies this`queue
      ensures ev == old(queue)[0] && queue == old(queue)[1..]
    {
      ev := queue[0];
      queue := queue[1..];
    }

    method Close()
      requires !closed
      modifies this`closed
      ensures closed
    {
      closed := true;
    }
  }

  class ActiveRun {
    var history: seq<Event>
    var subs: set<Channel>
    var closed: bool

    ghost predicate Valid()
      reads this, subs
    {
      && (forall c :: c in subs ==> !c.closed && |c.queue| <= CAPACITY)
      && (closed ==> subs == {})
      && Numbered(history)
    }

    constructor ()
      ensures Valid() && history == [] && subs == {} && !closed
    {
      history, subs, closed := [], {}, false;
    }

    /** No channel at all when the run is over. */
    method Subscribe() returns (backlog: seq<Event>, updates: Channel?)
      requires Valid()
      modifies this`subs
      ensures Valid() && backlog == history
      ensures closed ==> updates == null && subs == old(subs)
      ensures !closed ==> updates != null && fresh(updates) && updates.queue == [] && subs == old(subs) + {updates}
    {
      backlog := history;
      if closed {
        return backlog, null;
      }
      var c := new Channel();
      subs := subs + {c};
      updates := c;
    }

    method Unsubscribe(c: Channel)
      requires Valid()
      modifies this`subs, c`closed
      ensures Valid() && subs == old(subs) - {c}
      ensures c.closed <==> old(c.closed) || c in old(subs)
    {
      if c in subs {
        subs := subs - {c};
        c.Close();
      }
    }

    method Publish(message: string)
      requires Valid()
      modifies this`history, subs
      ensures Valid()
      ensures old(closed) ==> history == old(history)
      ensures !old(closed) ==> history == old(history) + [Event(|old(history)| + 1, message)]
      ensures !old(closed) ==> forall c :: c in subs ==> c.queue == Offered(old(c.queue), history[|history| - 1])
    {
      if closed {
        return;
      }
      var ev := Event(|history| + 1, message);
      history := history + [ev];
      var rest := subs;
      while rest != {}
        invariant rest <= subs && history == old(history) + [ev]
        invariant forall c :: c in subs ==> c.closed == old(c.closed)
        invariant forall c :: c in subs ==> c.queue == if c in rest then old(c.queue) else Offered(old(c.queue), ev)
        decreases rest
      {
        var c :| c in rest;
        c.TrySend(ev);
        rest := rest - {c};
      }
    }

    method Close()
      requires Valid()
      modifies this`closed, this`subs, subs
      ensures Valid() && closed
      ensures forall c :: c in old(subs) ==> c.closed && c.queue == old(c.queue)
    {
      if closed {
        return;
      }
      closed := true;
      var rest := subs;
      while rest != {}
        invariant rest <= subs && subs == old(subs) && closed
        invariant forall c :: c in subs ==> (c.closed <==> c !in rest) && c.queue == old(c.queue)
        decreases rest
      {
        var c :| c in rest;
        c.Close();
        rest := rest - {c};
      }
      subs := {};
    }
  }

  // ---- every interleaving ---------------------------------------------------------------

  ghost predicate Numbered(history: seq<Event>) {
    forall i :: 0 <= i < |history| ==> history[i].position == i + 1
  }

  /** One subscription: how much history its backlog covered, what is buffered,
      and what its reader has taken so far. */
  datatype Subscription = Subscription(joined: nat, queue: seq<Event>, taken: seq<Event>)

  datatype Feed = Feed(history: seq<Event>, all: map<nat, Subscription>, subs: set<nat>, closed: bool)

  const START := Feed([], map[], {}, false)

  datatype Step =
    | Subscribe(id: nat)
    | Publish(message: string)
    | Receive(id: nat)
    | Unsubscribe(id: nat)
    | Close

  predicate Enabled(f: Feed, s: Step) {
    match s
    case Subscribe(id) => id !in f.all
    case Receive(id) => id in f.all && f.all[id].queue != []
    case _ => true
  }

  function Take(s: Subscription): Subscription
    requires s.queue != []
  {
    s.(queue := s.queue[1..], taken := s.taken + [s.queue[0]])
  }

  function Do(f: Feed, s: Step): Feed
    requires Enabled(f, s)
  {
    match s
    case Subscribe(id) =>
      if f.closed then f
      else f.(all := f.all[id := Subscription(|f.history|, [], [])], subs := f.subs + {id})
    case Publish(message) =>
      if f.closed then f
      else
        var ev := Event(|f.history| + 1, message);
        f.(history := f.history + [ev],
           all := map id | id in f.all ::
             if id in f.subs then f.all[id].(queue := Offered(f.all[id].queue, ev)) else f.all[id])
    case Receive(id) => f.(all := f.all[id := Take(f.all[id])])
    case Unsubscribe(id) => f.(subs := f.subs - {id})
    case Close => f.(closed := true, subs := {})
  }

  ghost predicate Possible(f: Feed, steps: seq<Step>)
    decreases |steps|
  {
    steps == [] || (Enabled(f, steps[0]) && Possible(Do(f, steps[0]), steps[1..]))
  }

  ghost function After(f: Feed, steps: seq<Step>): Feed
    requires Possible(f, steps)
    decreases |steps|
  {
    if steps == [] then f else After(Do(f, steps[0]), steps[1..])
  }

  /** The run and its readers' channels are in the state `f`. */
  ghost predicate Represents(run: ActiveRun, channels: map<nat, Channel>, f: Feed)
    reads run, channels.Values
  {
    && channels.Keys == f.all.Keys && f.subs <= f.all.Keys
    && run.history == f.history && run.closed == f.closed
    && (forall i, j :: i in channels && j in channels && i != j ==> channels[i] != channels[j])
    && (forall id :: id in channels ==> channels[id].queue == f.all[id].queue)
    && (forall id :: id in channels ==> (channels[id] in run.subs <==> id in f.subs))
    && run.subs <= channels.Values
  }

  /** Each operation of the run, and each receive, takes the state where Do says. */
  method Perform(run: ActiveRun, channels: map<nat, Channel>, s: Step, ghost f: Feed) returns (after: map<nat, Channel>)
    requires run.Valid() && Represents(run, channels, f) && Enabled(f, s)
    modifies run, run.subs, channels.Values
    ensures run.Valid() && Represents(run, after, Do(f, s))
  {
    after := channels;
    match s {
      case Subscribe(id) =>
        var backlog;
        after, backlog := PerformSubscribe(run, channels, id, f);
      case Publish(message) => PerformPublish(run, channels, message, f);
      case Receive(id) => PerformReceive(run, channels, id, f);
      case Unsubscribe(id) => PerformUnsubscribe(run, channels, id, f);
      case Close => PerformClose(run, channels, f);
    }
  }

  method PerformSubscribe(run: ActiveRun, channels: map<nat, Channel>, id: nat, ghost f: Feed)
    returns (after: map<nat, Channel>, backlog: seq<Event>)
    requires run.Valid() && Represents(run, channels, f) && Enabled(f, Subscribe(id))
    modifies run, run.subs, channels.Values
    ensures run.Valid() && Represents(run, after, Do(f, Subscribe(id)))
    ensures backlog == f.history
    ensures !f.closed ==> id in Do(f, Subscribe(id)).all && Do(f, Subscribe(id)).all[id].joined == |backlog|
  {
    after := channels;
    var c;
    backlog, c := run.Subscribe();
    if c != null {
      after := channels[id := c];
      AddedValue(channels, id, c);
    }
  }

  lemma AddedValue(channels: map<nat, Channel>, id: nat, c: Channel)
    requires id !in channels
    ensures channels[id := c].Values == channels.Values + {c}
  {
    var after := channels[id := c];
    assert after[id] == c;
    forall d | d in channels.Values ensures d in after.Values {
      var i :| i in channels && channels[i] == d;
      assert after[i] == d;
    }
  }

  method PerformPublish(run: ActiveRun, channels: map<nat, Channel>, message: string, ghost f: Feed)
    requires run.Valid() && Represents(run, channels, f) && Enabled(f, Publish(message))
    modifies run, run.subs, channels.Values
    ensures run.Valid() && Represents(run, channels, Do(f, Publish(message)))
  {
    run.Publish(message);
  }

  method PerformReceive(run: ActiveRun, channels: map<nat, Channel>, id: nat, ghost f: Feed)
    requires run.Valid() && Represents(run, channels, f) && Enabled(f, Receive(id))
    modifies run, run.subs, channels.Values
    ensures run.Valid() && Represents(run, channels, Do(f, Receive(id)))
  {
    assert channels[id] in channels.Values;
    var ev := channels[id].Receive();
  }

  method PerformUnsubscribe(run: ActiveRun, channels: map<nat, Channel>, id: nat, ghost f: Feed)
    requires run.Valid() && Represents(run, channels, f) && Enabled(f, Unsubscribe(id))
    modifies run, run.subs, channels.Values
    ensures run.Valid() && Represents(run, channels, Do(f, Unsubscribe(id)))
  {
    if id in channels {
      assert channels[id] in channels.Values;
      run.Unsubscribe(channels[id]);
    }
  }

  method PerformClose(run: ActiveRun, channels: map<nat, Channel>, ghost f: Feed)
    requires run.Valid() && Represents(run, channels, f) && Enabled(f, Close)
    modifies run, run.subs, channels.Values
    ensures run.Valid() && Represents(run, channels, Do(f, Close))
  {
    run.Close();
  }

  /** What has reached a subscription: taken by its reader, or waiting for it. */
  function Reached(s: Subscription): seq<Event> { s.taken + s.queue }

  ghost predicate Increasing(evs: seq<Event>) {
    forall i, j :: 0 <= i < j < |evs| ==> evs[i].position < evs[j].position
  }

  /** Each event is the one at its position in the history, after the backlog. */
  ghost predicate FromHistory(history: seq<Event>, s: Subscription) {
    s.joined <= |history| &&
    forall i :: 0 <= i < |Reached(s)| ==>
      s.joined < Reached(s)[i].position <= |history| && Reached(s)[i] == history[Reached(s)[i].position - 1]
  }

  ghost predicate SoundSubscription(history: seq<Event>, s: Subscription) {
    FromHistory(history, s) && Increasing(Reached(s)) && |s.queue| <= CAPACITY
  }

  ghost predicate Sound(f: Feed) {
    && Numbered(f.history)
    && (f.closed ==> f.subs == {})
    && (forall id :: id in f.subs ==> id in f.all)
    && (forall id :: id in f.all ==> SoundSubscription(f.history, f.all[id]))
  }

  lemma PublishReaches(f: Feed, message: string, id: nat)
    requires Sound(f) && !f.closed && id in f.all
    ensures var g := Do(f, Publish(message));
      SoundSubscription(g.history, g.all[id])
  {
    var g := Do(f, Publish(message));
    var s, t := f.all[id], g.all[id];
    var ev := Event(|f.history| + 1, message);
    if id in f.subs && |s.queue| < CAPACITY {
      assert Reached(t) == Reached(s) + [ev];
    } else {
      assert Reached(t) == Reached(s);
    }
    forall i | 0 <= i < |Reached(t)|
      ensures s.joined < Reached(t)[i].position <= |g.history| && Reached(t)[i] == g.history[Reached(t)[i].position - 1]
    {
      if i < |Reached(s)| {
        assert Reached(t)[i] == Reached(s)[i];
      }
    }
  }

  /** A receive moves an event from the buffer to the reader. */
  lemma TakeKeeps(history: seq<Event>, s: Subscription)
    requires SoundSubscription(history, s) && s.queue != []
    ensures Reached(Take(s)) == Reached(s) && SoundSubscription(history, Take(s))
  {
    assert Reached(Take(s)) == Reached(s);
  }

  lemma StepKeepsSound(f: Feed, s: Step)
    requires Sound(f) && Enabled(f, s)
    ensures Sound(Do(f, s))
  {
    match s {
      case Publish(message) =>
        if !f.closed {
          PublishKeepsSound(f, message);
        }
      case Receive(id) => TakeKeeps(f.history, f.all[id]);
      case Subscribe(id) => assert Reached(Subscription(|f.history|, [], [])) == [];
      case _ =>
    }
  }

  lemma PublishKeepsSound(f: Feed, message: string)
    requires Sound(f) && !f.closed
    ensures Sound(Do(f, Publish(message)))
  {
    var g := Do(f, Publish(message));
    forall id | id in g.all ensures SoundSubscription(g.history, g.all[id]) {
      PublishReaches(f, message, id);
    }
  }

  /** In every interleaving: positions are strictly increasing, every event is the
      one at its position, none repeats, and none is before the subscription. */
  lemma {:induction false} AlwaysSound(f: Feed, steps: seq<Step>)
    requires Sound(f) && Possible(f, steps)
    ensures Sound(After(f, steps))
    decreases |steps|
  {
    if steps != [] {
      StepKeepsSound(f, steps[0]);
      AlwaysSound(Do(f, steps[0]), steps[1..]);
    }
  }

  lemma BacklogThenUpdatesIncrease(steps: seq<Step>, id: nat)
    requires Possible(START, steps) && id in After(START, steps).all
    ensures var f := After(START, steps); var s := f.all[id];
      s.joined <= |f.history| && Increasing(f.history[..s.joined] + Reached(s))
  {
    AlwaysSound(START, steps);
  }

  /** What has reached a subscription stays, and a subscription is never reused. */
  lemma {:induction false} ReachedGrows(f: Feed, steps: seq<Step>, id: nat)
    requires Sound(f) && Possible(f, steps) && id in f.all
    ensures var g := After(f, steps);
      f.history <= g.history && id in g.all && g.all[id].joined == f.all[id].joined &&
      Reached(f.all[id]) <= Reached(g.all[id]) &&
      forall i :: |Reached(f.all[id])| <= i < |Reached(g.all[id])| ==> Reached(g.all[id])[i].position > |f.history|
    decreases |steps|
  {
    if steps != [] {
      var mid := Do(f, steps[0]);
      StepKeepsSound(f, steps[0]);
      StepGrows(f, steps[0], id);
      ReachedGrows(mid, steps[1..], id);
      var g := After(f, steps);
      forall i | |Reached(f.all[id])| <= i < |Reached(g.all[id])|
        ensures Reached(g.all[id])[i].position > |f.history|
      {
        if i < |Reached(mid.all[id])| {
          assert Reached(g.all[id])[i] == Reached(mid.all[id])[i];
        }
      }
    }
  }

  lemma StepGrows(f: Feed, s: Step, id: nat)
    requires Sound(f) && Enabled(f, s) && id in f.all
    ensures var g := Do(f, s);
      f.history <= g.history && id in g.all && g.all[id].joined == f.all[id].joined &&
      Reached(f.all[id]) <= Reached(g.all[id]) &&
      forall i :: |Reached(f.all[id])| <= i < |Reached(g.all[id])| ==> Reached(g.all[id])[i].position > |f.history|
  {
    match s {
      case Receive(other) => TakeKeeps(f.history, f.all[other]);
      case Publish(message) =>
        if !f.closed {
          OfferGrows(f.all[id], Event(|f.history| + 1, message));
        }
      case _ =>
    }
  }

  lemma OfferGrows(s: Subscription, ev: Event)
    ensures var t := s.(queue := Offered(s.queue, ev));
      Reached(s) <= Reached(t) && forall i :: |Reached(s)| <= i < |Reached(t)| ==> Reached(t)[i] == ev
  {
  }

  /** An event published while subscribed is missed, for good, exactly when 64
      were unread at that moment. */
  lemma MissedOnlyWhenFull(f: Feed, message: string, later: seq<Step>, id: nat)
    requires Sound(f) && id in f.subs
    requires Possible(Do(f, Publish(message)), later)
    ensures var g := After(Do(f, Publish(message)), later);
      var ev := Event(|f.history| + 1, message);
      id in g.all &&
      (ev in Reached(g.all[id]) <==> |f.all[id].queue| < CAPACITY) &&
      (ev !in Reached(g.all[id]) <==> |f.all[id].queue| == CAPACITY)
  {
    var mid := Do(f, Publish(message));
    var ev := Event(|f.history| + 1, message);
    StepKeepsSound(f, Publish(message));
    ReachedGrows(mid, later, id);
    var before, here, there := Reached(f.all[id]), Reached(mid.all[id]), Reached(After(mid, later).all[id]);
    if |f.all[id].queue| < CAPACITY {
      assert here == before + [ev];
      assert here[|before|] == ev && there[|before|] == ev;
    } else {
      assert here == before;
      forall i | 0 <= i < |there| ensures there[i] != ev {
        if i < |here| {
          assert there[i] == before[i];
          assert before[i].position <= |f.history|;
        }
      }
    }
  }

  /** Backlog and updates leave no gap: whatever follows a subscription, its backlog is
      the history as it was then, and its updates are of what came after. */
  lemma BacklogIsTheHistoryThen(f: Feed, id: nat, later: seq<Step>)
    requires Sound(f) && !f.closed && id !in f.all && Possible(Do(f, Subscribe(id)), later)
    ensures var g := After(Do(f, Subscribe(id)), later);
      id in g.all && g.all[id].joined == |f.history| && f.history <= g.history
  {
    StepKeepsSound(f, Subscribe(id));
    ReachedGrows(Do(f, Subscribe(id)), later, id);
  }

  /** What is unsubscribed gets nothing more. */
  lemma {:induction false} UnsubscribedIsFinal(f: Feed, steps: seq<Step>, id: nat)
    requires Sound(f) && Possible(f, steps) && id in f.all && id !in f.subs
    ensures id in After(f, steps).all && id !in After(f, steps).subs
    ensures Reached(After(f, steps).all[id]) == Reached(f.all[id])
    decreases |steps|
  {
    if steps != [] {
      StepKeepsSound(f, steps[0]);
      if steps[0] == Receive(id) {
        TakeKeeps(f.history, f.all[id]);
      }
      UnsubscribedIsFinal(Do(f, steps[0]), steps[1..], id);
    }
  }

  lemma UnsubscribeEnds(f: Feed, steps: seq<Step>, id: nat)
    requires Sound(f) && id in f.all && Possible(Do(f, Unsubscribe(id)), steps)
    ensures var g := After(Do(f, Unsubscribe(id)), steps); id in g.all && Reached(g.all[id]) == Reached(f.all[id])
  {
    StepKeepsSound(f, Unsubscribe(id));
    UnsubscribedIsFinal(Do(f, Unsubscribe(id)), steps, id);
  }

  /** After the end nothing is published and nobody is left to close again. */
  lemma {:induction false} ClosedIsFinal(f: Feed, steps: seq<Step>)
    requires Sound(f) && f.closed && Possible(f, steps)
    ensures After(f, steps).closed && After(f, steps).history == f.history && After(f, steps).subs == {}
    decreases |steps|
  {
    if steps != [] {
      StepKeepsSound(f, steps[0]);
      ClosedIsFinal(Do(f, steps[0]), steps[1..]);
    }
  }
}
