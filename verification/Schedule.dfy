/**
  When an audit is next due (internal/schedule/schedule.go).

  Instants and offsets are integers counting nanoseconds.  A zone is the offset
  in force at each instant together with `date`, which stands for time.Date: it
  turns a wall clock reading into an instant.  Of time.Date only the documented
  contract is used: for a reading that does not occur, or occurs twice, it
  answers with one of the two offsets around the transition, unspecified which.
*/
module Schedule {
  const MINUTE: int := 60_000_000_000
  const DAY: int := 1440 * MINUTE
  const MAX_INTERVAL: int := 366 * DAY
  // time.Time{}, the first instant of year 1
  const ZERO_TIME: int := -62_135_596_800_000_000_000

  datatype Zone = Zone(offset: int -> int, date: int -> int)

  datatype Spec =
    | Daily(atMinute: int)
    | Weekly(atMinute: int, weekday: int)
    | Interval(every: int)
    | Other(name: string)

  predicate IsWallClock(s: Spec) { s.Daily? || s.Weekly? }

  /** Schedule.Validate: true when it reports no error. */
  predicate Validate(s: Spec) {
    match s
    case Daily(at) => 0 <= at < 1440
    case Weekly(at, w) => 0 <= at < 1440 && 0 <= w <= 6
    case Interval(e) => MINUTE <= e <= MAX_INTERVAL
    case Other(_) => false
  }

  // ---- wall clocks and calendar days ------------------------------------------

  function Local(z: Zone, t: int): int { t + z.offset(t) }

  function DayOf(z: Zone, t: int): int { Local(z, t) / DAY }

  /** Day 0 is 1970-01-01, a Thursday; Sunday is 0. */
  function WeekdayOf(day: int): int { (day + 4) % 7 }

  function Wall(day: int, atMinute: int): int { day * DAY + atMinute * MINUTE }

  /** The clock reading w is jumped over at the transition tr. */
  predicate GapAt(z: Zone, w: int, tr: int) {
    tr + z.offset(tr - 1) <= w < tr + z.offset(tr)
  }

  ghost predicate Resolves(z: Zone, w: int, i: int) {
    Local(z, i) == w ||
    ((forall s :: Local(z, s) != w) &&
     exists tr :: GapAt(z, w, tr) && (i == w - z.offset(tr - 1) || i == w - z.offset(tr)))
  }

  /** What time.Date documents; offsets of real zones are well inside a day. */
  ghost predicate ZoneContract(z: Zone) {
    && (forall t :: -DAY < z.offset(t) < DAY)
    && (forall w :: Resolves(z, w, z.date(w)))
  }

  // ---- Next -------------------------------------------------------------------

  function Step(s: Spec): int { if s.Weekly? then 7 else 1 }

  predicate FiresOn(s: Spec, day: int) {
    match s
    case Daily(_) => true
    case Weekly(_, w) => WeekdayOf(day) == w
    case _ => false
  }

  function WindowOn(z: Zone, s: Spec, day: int): int
    requires IsWallClock(s)
  {
    z.date(Wall(day, s.atMinute))
  }

  function FirstDay(s: Spec, day: int): int {
    if s.Weekly? then day + (s.weekday - WeekdayOf(day) + 7) % 7 else day
  }

  /** Schedule.nextWallClock */
  function NextWallClock(z: Zone, s: Spec, after: int): int
    requires IsWallClock(s)
  {
    var d := FirstDay(s, DayOf(z, after));
    var next := WindowOn(z, s, d);
    if next > after then next else WindowOn(z, s, d + Step(s))
  }

  /** Schedule.Next */
  function Next(z: Zone, s: Spec, after: int): int {
    match s
    case Interval(e) => after + e
    case Daily(_) => NextWallClock(z, s, after)
    case Weekly(_, _) => NextWallClock(z, s, after)
    case Other(_) => ZERO_TIME
  }

  /** Schedule.Window */
  function Window(s: Spec): int {
    match s
    case Daily(_) => DAY
    case Weekly(_, _) => 7 * DAY
    case Interval(e) => e
    case Other(_) => 0
  }

  // ---- what Next promises -----------------------------------------------------

  ghost predicate IsWindow(z: Zone, s: Spec, i: int)
    requires IsWallClock(s)
  {
    exists day :: FiresOn(s, day) && i == WindowOn(z, s, day)
  }

  ghost predicate LeastWindowAfter(z: Zone, s: Spec, t: int, i: int)
    requires IsWallClock(s)
  {
    && IsWindow(z, s, i)
    && t < i
    && forall day :: FiresOn(s, day) && t < WindowOn(z, s, day) ==> i <= WindowOn(z, s, day)
  }

  /** The window of `day` comes after every instant that is at least one period
      of local days earlier, and not after any instant of a later local day. */
  ghost predicate Separates(z: Zone, s: Spec, day: int)
    requires IsWallClock(s)
  {
    forall t :: (DayOf(z, t) + Step(s) <= day ==> t < WindowOn(z, s, day)) &&
                (DayOf(z, t) > day ==> WindowOn(z, s, day) <= t)
  }

  ghost predicate AllSeparate(z: Zone, s: Spec)
    requires IsWallClock(s)
  {
    forall day :: FiresOn(s, day) ==> Separates(z, s, day)
  }

  ghost predicate WindowsIncrease(z: Zone, s: Spec)
    requires IsWallClock(s)
  {
    forall d, e :: FiresOn(s, d) && FiresOn(s, e) && d < e ==> WindowOn(z, s, d) < WindowOn(z, s, e)
  }

  lemma FirstDayFires(s: Spec, day: int)
    requires IsWallClock(s) && Validate(s)
    ensures FiresOn(s, FirstDay(s, day)) && FiresOn(s, FirstDay(s, day) + Step(s))
    ensures day <= FirstDay(s, day) < day + Step(s)
    ensures forall e :: FiresOn(s, e) && e > FirstDay(s, day) ==> e >= FirstDay(s, day) + Step(s)
    ensures forall e :: FiresOn(s, e) && e < FirstDay(s, day) ==> e < day
  {
  }

  /** Days run through the week, and 2000-01-01, day 10957, was a Saturday. */
  lemma WeekdaysGoRound(day: int)
    ensures WeekdayOf(10957) == 6
    ensures WeekdayOf(day + 1) == if WeekdayOf(day) == 6 then 0 else WeekdayOf(day) + 1
  {
  }

  ghost predicate NextFiring(s: Spec, day: int, later: int) {
    FiresOn(s, day) && FiresOn(s, later) && day < later && forall d :: day < d < later ==> !FiresOn(s, d)
  }

  /** The nominal gap is that between the readings of consecutive firing days. */
  lemma WindowIsPeriod(s: Spec, day: int, later: int)
    requires IsWallClock(s) && Validate(s) && NextFiring(s, day, later)
    ensures Wall(later, s.atMinute) - Wall(day, s.atMinute) == Window(s)
  {
    assert FiresOn(s, day + Step(s));
    assert later == day + Step(s);
  }

  /** Windows that keep to their days come in the order of their days. */
  lemma SeparatedWindowsInOrder(z: Zone, s: Spec, d: int, e: int)
    requires IsWallClock(s) && Separates(z, s, d) && Separates(z, s, e) && d + Step(s) <= e
    ensures WindowOn(z, s, d) <= WindowOn(z, s, e)
  {
    assert DayOf(z, WindowOn(z, s, d) - 1) <= d;
  }

  lemma NextIsLeastWhenSeparated(z: Zone, s: Spec, t: int)
    requires IsWallClock(s) && Validate(s) && AllSeparate(z, s)
    ensures LeastWindowAfter(z, s, t, Next(z, s, t))
  {
    var d := FirstDay(s, DayOf(z, t));
    FirstDayFires(s, DayOf(z, t));
    assert Separates(z, s, d) && Separates(z, s, d + Step(s));
    assert t < WindowOn(z, s, d + Step(s));
    SeparatedWindowsInOrder(z, s, d, d + Step(s));
    forall day | FiresOn(s, day) && t < WindowOn(z, s, day)
      ensures Next(z, s, t) <= WindowOn(z, s, day)
    {
      assert Separates(z, s, day);
      assert DayOf(z, t) <= day;
      assert day == d || day >= d + Step(s);
      if day > d {
        SeparatedWindowsInOrder(z, s, d, day);
        if day >= d + 2 * Step(s) {
          SeparatedWindowsInOrder(z, s, d + Step(s), day);
        } else {
          OnlyOneFiringDay(s, d, day);
        }
      }
    }
  }

  lemma OnlyOneFiringDay(s: Spec, d: int, day: int)
    requires IsWallClock(s) && FiresOn(s, d) && FiresOn(s, day) && d + Step(s) <= day < d + 2 * Step(s)
    ensures day == d + Step(s)
  {
  }

  /** Exact: where windows come in the order of their days, Next always answers
      with the first window strictly after its argument if and only if every
      window keeps to its own local day. */
  lemma NextIsLeastIffSeparated(z: Zone, s: Spec)
    requires IsWallClock(s) && Validate(s) && WindowsIncrease(z, s)
    ensures (forall t :: LeastWindowAfter(z, s, t, Next(z, s, t))) <==> AllSeparate(z, s)
  {
    if AllSeparate(z, s) {
      forall t ensures LeastWindowAfter(z, s, t, Next(z, s, t)) {
        NextIsLeastWhenSeparated(z, s, t);
      }
    }
    if forall t :: LeastWindowAfter(z, s, t, Next(z, s, t)) {
      forall day | FiresOn(s, day) ensures Separates(z, s, day) {
        forall t
          ensures (DayOf(z, t) + Step(s) <= day ==> t < WindowOn(z, s, day)) &&
                  (DayOf(z, t) > day ==> WindowOn(z, s, day) <= t)
        {
          assert LeastWindowAfter(z, s, t, Next(z, s, t));
          LeastKeepsToDay(z, s, day, t);
        }
      }
    }
  }

  lemma LeastKeepsToDay(z: Zone, s: Spec, day: int, t: int)
    requires IsWallClock(s) && Validate(s) && WindowsIncrease(z, s) && FiresOn(s, day)
    requires LeastWindowAfter(z, s, t, Next(z, s, t))
    ensures DayOf(z, t) + Step(s) <= day ==> t < WindowOn(z, s, day)
    ensures DayOf(z, t) > day ==> WindowOn(z, s, day) <= t
  {
    var d := FirstDay(s, DayOf(z, t));
    FirstDayFires(s, DayOf(z, t));
    assert WindowOn(z, s, d) < WindowOn(z, s, d + Step(s));
    if DayOf(z, t) + Step(s) <= day {
      assert day >= d + Step(s);
      assert WindowOn(z, s, d + Step(s)) <= WindowOn(z, s, day);
    } else if DayOf(z, t) > day {
      assert WindowOn(z, s, day) < WindowOn(z, s, d);
    }
  }

  lemma DayBounds(z: Zone, t: int, day: int)
    ensures DayOf(z, t) < day <==> Local(z, t) < day * DAY
    ensures DayOf(z, t) > day <==> Local(z, t) >= day * DAY + DAY
  {
  }

  // ---- when windows keep to their day ------------------------------------------

  /** The reading w occurs exactly once and is never jumped over. */
  ghost predicate PlainReading(z: Zone, w: int) {
    && (forall s, t :: Local(z, s) == w && Local(z, t) == w ==> s == t)
    && (forall tr :: !GapAt(z, w, tr))
  }

  /** Within two days of the reading w the offset moves by at most b, either way. */
  ghost predicate SteadyAround(z: Zone, w: int, b: int) {
    forall s, t :: w - 2 * DAY <= s <= w + 2 * DAY && w - 2 * DAY <= t <= w + 2 * DAY
      ==> z.offset(s) - z.offset(t) <= b
  }

  lemma {:induction false} ClockCrosses(z: Zone, w: int, lo: int, hi: int) returns (t: int)
    requires lo < hi && Local(z, lo) < w < Local(z, hi)
    ensures lo < t <= hi && (Local(z, t) == w || GapAt(z, w, t))
    decreases hi - lo
  {
    t := lo + 1;
    if Local(z, t) < w {
      t := ClockCrosses(z, w, t, hi);
    }
  }

  lemma PlainReadingSeparates(z: Zone, s: Spec, day: int)
    requires IsWallClock(s) && Validate(s) && ZoneContract(z)
    requires PlainReading(z, Wall(day, s.atMinute))
    ensures Separates(z, s, day)
  {
    var w := Wall(day, s.atMinute);
    var i := WindowOn(z, s, day);
    assert Resolves(z, w, i);
    assert Local(z, i) == w;
    forall t ensures (DayOf(z, t) + Step(s) <= day ==> t < i) && (DayOf(z, t) > day ==> i <= t) {
      if DayOf(z, t) < day && t >= i {
        assert Local(z, t) < w;
        var late := t + 3 * DAY + (if w > t then w - t else 0);
        assert Local(z, late) > w;
        var u := ClockCrosses(z, w, t, late);
        assert false;
      }
      if DayOf(z, t) > day && t < i {
        assert Local(z, t) > w;
        var early := t - 3 * DAY - (if w < t then t - w else 0);
        assert Local(z, early) < w;
        var u := ClockCrosses(z, w, early, t);
        assert false;
      }
    }
  }

  function SlackOf(s: Spec): int
    requires IsWallClock(s)
  {
    (if s.atMinute <= 720 then s.atMinute else 1440 - s.atMinute) * MINUTE
  }

  /** time.Date subtracts an offset that is in force near the reading. */
  lemma ResolvedNearby(z: Zone, w: int, i: int) returns (near: int)
    requires ZoneContract(z) && i == z.date(w)
    ensures i == w - z.offset(near) && w - 2 * DAY <= near <= w + 2 * DAY
  {
    assert Resolves(z, w, i);
    near := i;
    if Local(z, i) != w {
      var tr :| GapAt(z, w, tr) && (i == w - z.offset(tr - 1) || i == w - z.offset(tr));
      near := if i == w - z.offset(tr) then tr else tr - 1;
      assert -DAY < z.offset(tr) < DAY && -DAY < z.offset(tr - 1) < DAY;
    } else {
      assert -DAY < z.offset(i) < DAY;
    }
  }

  lemma SteadyZoneSeparates(z: Zone, s: Spec, day: int)
    requires IsWallClock(s) && Validate(s) && ZoneContract(z)
    requires SteadyAround(z, Wall(day, s.atMinute), SlackOf(s))
    ensures Separates(z, s, day)
  {
    var w := Wall(day, s.atMinute);
    var i := WindowOn(z, s, day);
    assert Resolves(z, w, i);
    var near := ResolvedNearby(z, w, i);
    forall t ensures (DayOf(z, t) + Step(s) <= day ==> t < i) && (DayOf(z, t) > day ==> i <= t) {
      assert -DAY < z.offset(t) < DAY && -DAY < z.offset(near) < DAY;
      DayBounds(z, t, day);
      if w - 2 * DAY <= t <= w + 2 * DAY {
        assert z.offset(near) - z.offset(t) <= SlackOf(s);
        assert z.offset(t) - z.offset(near) <= SlackOf(s);
      }
    }
  }

  /** Local dates do not run backwards past this day's two midnights. */
  ghost predicate DatesKeepOrder(z: Zone, day: int) {
    forall s, t :: s <= t ==>
      (DayOf(z, s) >= day ==> DayOf(z, t) >= day) && (DayOf(z, s) > day ==> DayOf(z, t) > day)
  }

  /** Within two days of the reading w the offset moves forward by at most b; how far
      it moves back does not matter. */
  ghost predicate ForwardWithin(z: Zone, w: int, b: int) {
    forall s, t :: w - 2 * DAY <= s <= t <= w + 2 * DAY ==> z.offset(t) - z.offset(s) <= b
  }

  lemma DatesAt(z: Zone, day: int, s: int, t: int)
    requires DatesKeepOrder(z, day) && s <= t
    ensures DayOf(z, s) >= day ==> DayOf(z, t) >= day
    ensures DayOf(z, s) > day ==> DayOf(z, t) > day
  {
  }

  lemma MovesForwardAtMost(z: Zone, w: int, b: int, s: int, t: int)
    requires ForwardWithin(z, w, b) && w - 2 * DAY <= s <= t <= w + 2 * DAY
    ensures z.offset(t) - z.offset(s) <= b
  {
  }

  /** A window at which its local day has begun, and just before which it is not over. */
  ghost predicate OnItsDay(z: Zone, day: int, i: int) { DayOf(z, i) >= day && DayOf(z, i - 1) <= day }

  lemma OrderedDatesSeparate(z: Zone, s: Spec, day: int)
    requires IsWallClock(s) && DatesKeepOrder(z, day) && OnItsDay(z, day, WindowOn(z, s, day))
    ensures Separates(z, s, day)
  {
    var i := WindowOn(z, s, day);
    forall t ensures (DayOf(z, t) + Step(s) <= day ==> t < i) && (DayOf(z, t) > day ==> i <= t) {
      if t >= i {
        DatesAt(z, day, i, t);
      } else {
        DatesAt(z, day, t, i - 1);
      }
    }
  }

  lemma ForwardBoundSeparates(z: Zone, s: Spec, day: int)
    requires IsWallClock(s) && Validate(s) && ZoneContract(z)
    requires DatesKeepOrder(z, day) && ForwardWithin(z, Wall(day, s.atMinute), SlackOf(s))
    ensures Separates(z, s, day)
  {
    var w := Wall(day, s.atMinute);
    if Local(z, z.date(w)) == w {
      ReadOnItsDay(z, s, day);
    } else {
      var tr := SkippedBy(z, w);
      ReadEarlier(z, s, day, tr);
      ReadLater(z, s, day, tr);
    }
    OrderedDatesSeparate(z, s, day);
  }

  lemma ReadOnItsDay(z: Zone, s: Spec, day: int)
    requires IsWallClock(s) && Validate(s) && DatesKeepOrder(z, day)
    requires Local(z, WindowOn(z, s, day)) == Wall(day, s.atMinute)
    ensures OnItsDay(z, day, WindowOn(z, s, day))
  {
    var i := WindowOn(z, s, day);
    DayBounds(z, i, day);
    DatesAt(z, day, i - 1, i);
  }

  lemma SkippedBy(z: Zone, w: int) returns (tr: int)
    requires ZoneContract(z) && Local(z, z.date(w)) != w
    ensures (forall s :: Local(z, s) != w) && GapAt(z, w, tr)
    ensures z.date(w) == w - z.offset(tr - 1) || z.date(w) == w - z.offset(tr)
  {
    var i := z.date(w);
    assert Resolves(z, w, i);
    tr :| GapAt(z, w, tr) && (i == w - z.offset(tr - 1) || i == w - z.offset(tr));
  }

  /** Read with the offset before the skip, the instant comes after it. */
  lemma ReadEarlier(z: Zone, s: Spec, day: int, tr: int)
    requires IsWallClock(s) && Validate(s) && ZoneContract(z)
    requires DatesKeepOrder(z, day) && ForwardWithin(z, Wall(day, s.atMinute), SlackOf(s))
    requires GapAt(z, Wall(day, s.atMinute), tr)
    ensures OnItsDay(z, day, Wall(day, s.atMinute) - z.offset(tr - 1))
  {
    var w := Wall(day, s.atMinute);
    var i := w - z.offset(tr - 1);
    InstantNear(z, w, tr - 1);
    InstantNear(z, w, tr);
    DayBounds(z, tr, day);
    DatesAt(z, day, tr, i);
    if i == tr {
      DayBounds(z, tr - 1, day);
    } else {
      MovesForwardAtMost(z, w, SlackOf(s), tr - 1, i - 1);
      DayBounds(z, i - 1, day);
    }
  }

  /** Read with the offset after the skip, it comes before. */
  lemma ReadLater(z: Zone, s: Spec, day: int, tr: int)
    requires IsWallClock(s) && Validate(s) && ZoneContract(z)
    requires DatesKeepOrder(z, day) && ForwardWithin(z, Wall(day, s.atMinute), SlackOf(s))
    requires GapAt(z, Wall(day, s.atMinute), tr)
    ensures OnItsDay(z, day, Wall(day, s.atMinute) - z.offset(tr))
  {
    var w := Wall(day, s.atMinute);
    var i := w - z.offset(tr);
    InstantNear(z, w, tr - 1);
    InstantNear(z, w, tr);
    DayBounds(z, tr - 1, day);
    DatesAt(z, day, i - 1, tr - 1);
    MovesForwardAtMost(z, w, SlackOf(s), i, tr);
    DayBounds(z, i, day);
  }

  lemma InstantNear(z: Zone, w: int, t: int)
    requires ZoneContract(z)
    ensures -DAY < z.offset(t) < DAY
    ensures w - DAY < w - z.offset(t) < w + DAY
  {
  }

  /** What keeps a firing day's window to its day: its reading is neither skipped nor
      repeated; or the offset moves around it, either way, by no more than the
      distance from AtMinute to the nearer midnight; or only forward moves are so
      bounded and local dates keep their order there. */
  ghost predicate Tame(z: Zone, s: Spec, day: int)
    requires IsWallClock(s)
  {
    var w := Wall(day, s.atMinute);
    PlainReading(z, w) || SteadyAround(z, w, SlackOf(s)) || (DatesKeepOrder(z, day) && ForwardWithin(z, w, SlackOf(s)))
  }

  /** The main promise: where every firing day is tame, Next is the least window
      strictly after its argument. */
  lemma NextIsLeastWindow(z: Zone, s: Spec, t: int)
    requires IsWallClock(s) && Validate(s) && ZoneContract(z)
    requires forall day :: FiresOn(s, day) ==> Tame(z, s, day)
    ensures LeastWindowAfter(z, s, t, Next(z, s, t))
  {
    forall day | FiresOn(s, day) ensures Separates(z, s, day) {
      assert Tame(z, s, day);
      if PlainReading(z, Wall(day, s.atMinute)) {
        PlainReadingSeparates(z, s, day);
      } else if SteadyAround(z, Wall(day, s.atMinute), SlackOf(s)) {
        SteadyZoneSeparates(z, s, day);
      } else {
        ForwardBoundSeparates(z, s, day);
      }
    }
    NextIsLeastWhenSeparated(z, s, t);
  }

  /** An interval's next window is later by exactly Every, counted from the
      instant asked about. */
  lemma IntervalMovesOn(z: Zone, s: Spec, t: int)
    requires s.Interval? && Validate(s)
    ensures t + MINUTE <= Next(z, s, t) == t + Window(s)
  {
  }

  // ---- one transition: the exact condition --------------------------------------

  /** Offset a until the instant tr, offset b from it on. */
  function OneTransition(tr: int, a: int, b: int): int -> int {
    t => if t < tr then a else b
  }

  /** A time.Date for that zone: unambiguous readings have one answer, and a
      skipped or repeated one is read with the earlier offset if `early`. */
  function OneDate(tr: int, a: int, b: int, early: bool): int -> int {
    w => if w < tr + a && w < tr + b then w - a
         else if w >= tr + a && w >= tr + b then w - b
         else if early then w - a else w - b
  }

  /** The window of `day` is safe across the transition: if the clock skips it, the
      skip is no longer than the time since midnight (to which a weekly schedule adds
      the six days before), nor than the time left of the day (unless the skip begins
      exactly there); if the clock repeats it, the repeated stretch does not reach
      back before that midnight (or six days earlier), nor on past the next. */
  predicate SafeAcross(tr: int, a: int, b: int, s: Spec, day: int)
    requires IsWallClock(s)
  {
    var w := Wall(day, s.atMinute);
    var spare := (Step(s) - 1) * DAY;
    && (tr + a <= w < tr + b ==>
          b - a <= s.atMinute * MINUTE + spare && (b - a <= (1440 - s.atMinute) * MINUTE || w == tr + a))
    && (tr + b <= w < tr + a ==>
          day * DAY - spare <= tr + b && tr + a <= (day + 1) * DAY)
  }

  lemma OneDateMeetsContract(tr: int, a: int, b: int, early: bool)
    requires -DAY < a < DAY && -DAY < b < DAY
    ensures ZoneContract(Zone(OneTransition(tr, a, b), OneDate(tr, a, b, early)))
  {
    var z := Zone(OneTransition(tr, a, b), OneDate(tr, a, b, early));
    forall w ensures Resolves(z, w, z.date(w)) {
      if tr + a <= w < tr + b {
        assert GapAt(z, w, tr);
      }
    }
  }

  /** Where an answer of time.Date in a one-transition zone can lie. */
  predicate MayAnswer(tr: int, a: int, b: int, w: int, i: int) {
    && (i == w - a || i == w - b)
    && (w < tr + a && w < tr + b ==> i == w - a)
    && (w >= tr + a && w >= tr + b ==> i == w - b)
  }

  lemma OneTransitionAnswers(tr: int, a: int, b: int, z: Zone, w: int)
    requires z.offset == OneTransition(tr, a, b) && ZoneContract(z)
    ensures MayAnswer(tr, a, b, w, z.date(w))
  {
    var i := z.date(w);
    assert Resolves(z, w, i);
    if Local(z, i) != w {
      var g := SkippedBy(z, w);
      OnlyOneGap(tr, a, b, z, w, g);
      NeverRead(tr, a, b, z, w);
    }
  }

  /** A reading that never occurs is between the two sides of the transition. */
  lemma NeverRead(tr: int, a: int, b: int, z: Zone, w: int)
    requires z.offset == OneTransition(tr, a, b) && forall s :: Local(z, s) != w
    ensures tr + a <= w < tr + b
  {
    assert Local(z, w - a) != w && Local(z, w - b) != w;
  }

  lemma OnlyOneGap(tr: int, a: int, b: int, z: Zone, w: int, g: int)
    requires z.offset == OneTransition(tr, a, b) && GapAt(z, w, g)
    ensures g == tr
  {
  }

  /** Clock readings only: an instant whose reading is before the start of the period
      that ends with `day` comes before the window. */
  lemma SafeNotBefore(tr: int, a: int, b: int, s: Spec, day: int, i: int, t: int)
    requires IsWallClock(s) && Validate(s) && SafeAcross(tr, a, b, s, day)
    requires MayAnswer(tr, a, b, Wall(day, s.atMinute), i)
    requires t + OneTransition(tr, a, b)(t) < day * DAY - (Step(s) - 1) * DAY
    ensures t < i
  {
  }

  lemma SafeNotAfter(tr: int, a: int, b: int, s: Spec, day: int, i: int, t: int)
    requires IsWallClock(s) && Validate(s) && SafeAcross(tr, a, b, s, day)
    requires MayAnswer(tr, a, b, Wall(day, s.atMinute), i)
    requires t + OneTransition(tr, a, b)(t) >= day * DAY + DAY
    ensures i <= t
  {
  }

  /** The start of the period of Step days that ends with `day`. */
  lemma PeriodStart(z: Zone, s: Spec, day: int, t: int)
    requires IsWallClock(s)
    ensures DayOf(z, t) + Step(s) <= day <==> Local(z, t) < day * DAY - (Step(s) - 1) * DAY
  {
    var first := day - Step(s) + 1;
    DayBounds(z, t, first);
    assert first * DAY == day * DAY - (Step(s) - 1) * DAY;
  }

  lemma SafeAnswerSeparates(tr: int, a: int, b: int, s: Spec, z: Zone, day: int)
    requires IsWallClock(s) && Validate(s) && z.offset == OneTransition(tr, a, b) && SafeAcross(tr, a, b, s, day)
    requires MayAnswer(tr, a, b, Wall(day, s.atMinute), WindowOn(z, s, day))
    ensures Separates(z, s, day)
  {
    var i := WindowOn(z, s, day);
    forall t ensures (DayOf(z, t) + Step(s) <= day ==> t < i) && (DayOf(z, t) > day ==> i <= t) {
      if DayOf(z, t) + Step(s) <= day {
        PeriodStart(z, s, day, t);
        SafeNotBefore(tr, a, b, s, day, i, t);
      } else if DayOf(z, t) > day {
        DayBounds(z, t, day);
        SafeNotAfter(tr, a, b, s, day, i, t);
      }
    }
  }

  lemma SafeTransitionSeparates(tr: int, a: int, b: int, s: Spec, z: Zone, day: int)
    requires IsWallClock(s) && Validate(s)
    requires z.offset == OneTransition(tr, a, b) && ZoneContract(z)
    requires SafeAcross(tr, a, b, s, day)
    ensures Separates(z, s, day)
  {
    OneTransitionAnswers(tr, a, b, z, Wall(day, s.atMinute));
    SafeAnswerSeparates(tr, a, b, s, z, day);
  }

  lemma SafeTransitionSuffices(tr: int, a: int, b: int, s: Spec, z: Zone, t: int)
    requires IsWallClock(s) && Validate(s)
    requires z.offset == OneTransition(tr, a, b) && ZoneContract(z)
    requires forall day :: FiresOn(s, day) ==> SafeAcross(tr, a, b, s, day)
    ensures LeastWindowAfter(z, s, t, Next(z, s, t))
  {
    forall day | FiresOn(s, day) ensures Separates(z, s, day) {
      SafeTransitionSeparates(tr, a, b, s, z, day);
    }
    NextIsLeastWhenSeparated(z, s, t);
  }

  lemma UnsafeTransitionFails(tr: int, a: int, b: int, s: Spec, day: int) returns (early: bool, t: int)
    requires IsWallClock(s) && Validate(s) && FiresOn(s, day) && -DAY <= b - a <= DAY
    requires !SafeAcross(tr, a, b, s, day)
    ensures !NextRight(tr, a, b, s, early, t)
  {
    if Wall(day, s.atMinute) < tr + b {
      early, t := UnsafeSkipFails(tr, a, b, s, day);
    } else {
      early, t := UnsafeRepeatFails(tr, a, b, s, day);
    }
  }

  lemma NeighbouringWalls(day: int, at: int, n: int)
    ensures Wall(day + n, at) == Wall(day, at) + n * DAY
  {
  }

  /** From an instant of the next local day the search starts past the window. */
  lemma AskedADayLate(z: Zone, s: Spec, day: int, t: int)
    requires IsWallClock(s) && Validate(s) && FiresOn(s, day) && DayOf(z, t) == day + 1
    requires t < WindowOn(z, s, day) < WindowOn(z, s, day + Step(s))
    ensures !LeastWindowAfter(z, s, t, Next(z, s, t))
  {
    NextFiringDay(s, day);
    assert Next(z, s, t) == WindowOn(z, s, day + Step(s));
    assert FiresOn(s, day) && t < WindowOn(z, s, day);
  }

  lemma NextFiringDay(s: Spec, day: int)
    requires IsWallClock(s) && Validate(s) && FiresOn(s, day)
    ensures FirstDay(s, day + 1) == day + Step(s)
  {
  }

  /** From an instant of the day before, a daily search tries that day and then this
      one, and finds neither window ahead. */
  lemma AskedADayEarly(z: Zone, s: Spec, day: int, t: int)
    requires s.Daily? && DayOf(z, t) == day - 1
    requires WindowOn(z, s, day - 1) <= t && WindowOn(z, s, day) <= t
    ensures !LeastWindowAfter(z, s, t, Next(z, s, t))
  {
    assert FirstDay(s, day - 1) == day - 1;
  }

  lemma UnsafeSkipFails(tr: int, a: int, b: int, s: Spec, day: int) returns (early: bool, t: int)
    requires IsWallClock(s) && Validate(s) && FiresOn(s, day) && -DAY <= b - a <= DAY
    requires !SafeAcross(tr, a, b, s, day) && Wall(day, s.atMinute) < tr + b
    ensures !NextRight(tr, a, b, s, early, t)
  {
    var w, step := Wall(day, s.atMinute), Step(s);
    NeighbouringWalls(day, s.atMinute, -1);
    NeighbouringWalls(day, s.atMinute, step);
    early := b - a <= s.atMinute * MINUTE + (step - 1) * DAY;
    t := if early then w - a - 1 else w - b;
    var z := Zone(OneTransition(tr, a, b), OneDate(tr, a, b, early));
    DayBounds(z, t, day - 1);
    DayBounds(z, t, day);
    DayBounds(z, t, day + 1);
    if early {
      assert DayOf(z, t) == day + 1;
      AskedADayLate(z, s, day, t);
    } else {
      assert DayOf(z, t) == day - 1;
      AskedADayEarly(z, s, day, t);
    }
  }

  lemma UnsafeRepeatFails(tr: int, a: int, b: int, s: Spec, day: int) returns (early: bool, t: int)
    requires IsWallClock(s) && Validate(s) && FiresOn(s, day) && -DAY <= b - a <= DAY
    requires !SafeAcross(tr, a, b, s, day) && tr + b <= Wall(day, s.atMinute)
    ensures !NextRight(tr, a, b, s, early, t)
  {
    var step := Step(s);
    NeighbouringWalls(day, s.atMinute, -1);
    NeighbouringWalls(day, s.atMinute, step);
    early := day * DAY - (step - 1) * DAY > tr + b;
    t := if early then tr else tr - 1;
    var z := Zone(OneTransition(tr, a, b), OneDate(tr, a, b, early));
    DayBounds(z, t, day - 1);
    DayBounds(z, t, day);
    DayBounds(z, t, day + 1);
    if early {
      assert DayOf(z, t) == day - 1;
      AskedADayEarly(z, s, day, t);
    } else {
      assert DayOf(z, t) == day + 1;
      AskedADayLate(z, s, day, t);
    }
  }

  /** Exact, for daily and weekly schedules and a transition of up to a whole day:
      Next is right at every instant, however time.Date reads the doubtful hours, if
      and only if every day the schedule fires on is safe. */
  lemma OneTransitionExact(tr: int, a: int, b: int, s: Spec)
    requires -DAY < a < DAY && -DAY < b < DAY && -DAY <= b - a <= DAY && IsWallClock(s) && Validate(s)
    ensures (forall early, t :: NextRight(tr, a, b, s, early, t)) <==>
      (forall day :: FiresOn(s, day) ==> SafeAcross(tr, a, b, s, day))
  {
    if forall day :: FiresOn(s, day) ==> SafeAcross(tr, a, b, s, day) {
      forall early, t ensures NextRight(tr, a, b, s, early, t) {
        OneDateMeetsContract(tr, a, b, early);
        SafeTransitionSuffices(tr, a, b, s, Zone(OneTransition(tr, a, b), OneDate(tr, a, b, early)), t);
      }
    } else {
      var day :| FiresOn(s, day) && !SafeAcross(tr, a, b, s, day);
      var early, t := UnsafeTransitionFails(tr, a, b, s, day);
    }
  }

  ghost predicate NextRight(tr: int, a: int, b: int, s: Spec, early: bool, t: int)
    requires IsWallClock(s)
  {
    var z := Zone(OneTransition(tr, a, b), OneDate(tr, a, b, early));
    LeastWindowAfter(z, s, t, Next(z, s, t))
  }

  /** Spring forward at midnight, AtMinute 0: Next can answer with its argument. */
  lemma MidnightSpringForwardRepeats()
    ensures var z := Zone(OneTransition(0, 0, 60 * MINUTE), OneDate(0, 0, 60 * MINUTE, false));
      ZoneContract(z) && Next(z, Daily(0), -60 * MINUTE) == -60 * MINUTE
  {
    OneDateMeetsContract(0, 0, 60 * MINUTE, false);
    var z := Zone(OneTransition(0, 0, 60 * MINUTE), OneDate(0, 0, 60 * MINUTE, false));
    assert DayOf(z, -60 * MINUTE) == -1;
  }

  /** Clocks going back from 00:01 to 23:01, AtMinute 0: during the repeated hour
      before the second midnight, Next answers with the first midnight, which is
      in the past.  So a backward jump is not harmless either. */
  lemma RepeatedMidnightGoesBack()
    ensures var z := Zone(OneTransition(MINUTE, 0, -60 * MINUTE), OneDate(MINUTE, 0, -60 * MINUTE, true));
      ZoneContract(z) && Next(z, Daily(0), 30 * MINUTE) == 0
  {
    OneDateMeetsContract(MINUTE, 0, -60 * MINUTE, true);
    var z := Zone(OneTransition(MINUTE, 0, -60 * MINUTE), OneDate(MINUTE, 0, -60 * MINUTE, true));
    assert DayOf(z, 30 * MINUTE) == -1;
  }
}
