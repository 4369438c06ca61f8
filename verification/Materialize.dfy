/**
  Filling in a one_of rule from the data (internal/rules/materialize.go).  A
  materialized rule is proved to hold on every column it was read from, to list
  nothing the data does not hold, and to list nothing it could do without.
*/
module Materialize {
  import opened Wrappers
  import opened SqlLogic
  import opened Profile
  import opened Rules
  import opened Evaluate
  import Strings

  const MAX_VALUES: nat := 50
  const MAX_VALUE_LEN: nat := 120

  datatype Refusal = NotCurrent | NoColumnSelected | QueryFailed | TooManyValues | ValueTooLong | NoValueAtAll

  // ---- SELECT min(v) FROM source GROUP BY key ORDER BY 1 LIMIT n ------------------------

  function Min(a: string, b: string): string { if Strings.Less(b, a) then b else a }

  /** Joins v to its group, or starts one. */
  function JoinGroup(e: Engine, r: Rule, ms: seq<string>, v: string): seq<string> {
    if ms == [] then [v]
    else if Comparable(e, r, ms[0]) == Comparable(e, r, v) then [Min(ms[0], v)] + ms[1..]
    else [ms[0]] + JoinGroup(e, r, ms[1..], v)
  }

  function GroupMins(e: Engine, r: Rule, vs: seq<string>): seq<string> {
    if vs == [] then [] else JoinGroup(e, r, GroupMins(e, r, vs[1..]), vs[0])
  }

  function InOrder(ms: seq<string>, v: string): seq<string> {
    if ms == [] || Strings.AtMost(v, ms[0]) then [v] + ms else [ms[0]] + InOrder(ms[1..], v)
  }

  function OrderBy(ms: seq<string>): seq<string> {
    if ms == [] then [] else InOrder(OrderBy(ms[1..]), ms[0])
  }

  function Limit(ms: seq<string>, n: nat): seq<string> { if |ms| <= n then ms else ms[..n] }

  function Query(e: Engine, r: Rule, source: seq<string>): seq<string> {
    Limit(OrderBy(GroupMins(e, r, source)), MAX_VALUES + 1)
  }

  ghost predicate DistinctKeys(e: Engine, r: Rule, ms: seq<string>) {
    forall i, j :: 0 <= i < j < |ms| ==> Comparable(e, r, ms[i]) != Comparable(e, r, ms[j])
  }

  predicate HasKey(e: Engine, r: Rule, ms: seq<string>, key: string) {
    exists i :: 0 <= i < |ms| && Comparable(e, r, ms[i]) == key
  }

  lemma {:induction false} JoinGroupMeans(e: Engine, r: Rule, ms: seq<string>, v: string, key: string)
    ensures var js := JoinGroup(e, r, ms, v);
      HasKey(e, r, js, key) <==> HasKey(e, r, ms, key) || key == Comparable(e, r, v)
    ensures forall x :: x in JoinGroup(e, r, ms, v) ==> x in ms || x == v
    decreases |ms|
  {
    var js := JoinGroup(e, r, ms, v);
    if ms == [] {
      assert js[0] == v;
    } else {
      assert ms == [ms[0]] + ms[1..];
      if Comparable(e, r, ms[0]) == Comparable(e, r, v) {
        assert js[0] == Min(ms[0], v) && js[1..] == ms[1..];
        KeysOfCons(e, r, js, key);
      } else {
        JoinGroupMeans(e, r, ms[1..], v, key);
        assert js[1..] == JoinGroup(e, r, ms[1..], v);
        KeysOfCons(e, r, js, key);
      }
      KeysOfCons(e, r, ms, key);
    }
  }

  lemma KeysOfCons(e: Engine, r: Rule, ms: seq<string>, key: string)
    requires ms != []
    ensures HasKey(e, r, ms, key) <==> Comparable(e, r, ms[0]) == key || HasKey(e, r, ms[1..], key)
  {
    if HasKey(e, r, ms, key) && Comparable(e, r, ms[0]) != key {
      var i :| 0 <= i < |ms| && Comparable(e, r, ms[i]) == key;
      assert ms[1..][i - 1] == ms[i];
    }
    if HasKey(e, r, ms[1..], key) {
      var i :| 0 <= i < |ms[1..]| && Comparable(e, r, ms[1..][i]) == key;
      assert ms[i + 1] == ms[1..][i];
    }
  }

  lemma {:induction false} JoinGroupKeepsDistinct(e: Engine, r: Rule, ms: seq<string>, v: string)
    requires DistinctKeys(e, r, ms)
    ensures DistinctKeys(e, r, JoinGroup(e, r, ms, v))
    decreases |ms|
  {
    if ms != [] && Comparable(e, r, ms[0]) != Comparable(e, r, v) {
      JoinGroupKeepsDistinct(e, r, ms[1..], v);
      var js := JoinGroup(e, r, ms, v);
      forall j | 1 <= j < |js| ensures Comparable(e, r, js[0]) != Comparable(e, r, js[j]) {
        JoinGroupMeans(e, r, ms[1..], v, Comparable(e, r, ms[0]));
        assert Comparable(e, r, JoinGroup(e, r, ms[1..], v)[j - 1]) == Comparable(e, r, js[j]);
      }
    }
  }

  /** The groups: one for each key in the source, represented by a source value. */
  lemma {:induction false} GroupMinsMeans(e: Engine, r: Rule, vs: seq<string>, key: string)
    ensures DistinctKeys(e, r, GroupMins(e, r, vs))
    ensures HasKey(e, r, GroupMins(e, r, vs), key) <==> HasKey(e, r, vs, key)
    ensures forall x :: x in GroupMins(e, r, vs) ==> x in vs
    decreases |vs|
  {
    if vs != [] {
      GroupMinsMeans(e, r, vs[1..], key);
      JoinGroupMeans(e, r, GroupMins(e, r, vs[1..]), vs[0], key);
      JoinGroupKeepsDistinct(e, r, GroupMins(e, r, vs[1..]), vs[0]);
      KeysOfCons(e, r, vs, key);
    }
  }

  lemma {:induction false} InOrderKeepsValues(ms: seq<string>, v: string)
    ensures multiset(InOrder(ms, v)) == multiset(ms) + multiset{v}
    decreases |ms|
  {
    if ms != [] && !Strings.AtMost(v, ms[0]) {
      InOrderKeepsValues(ms[1..], v);
      assert ms == [ms[0]] + ms[1..];
    }
  }

  lemma {:induction false} OrderByKeepsValues(ms: seq<string>)
    ensures multiset(OrderBy(ms)) == multiset(ms)
    decreases |ms|
  {
    if ms != [] {
      OrderByKeepsValues(ms[1..]);
      InOrderKeepsValues(OrderBy(ms[1..]), ms[0]);
      assert ms == [ms[0]] + ms[1..];
    }
  }

  lemma PermutedKeysStayDistinct(e: Engine, r: Rule, a: seq<string>, b: seq<string>)
    requires multiset(a) == multiset(b) && DistinctKeys(e, r, a)
    ensures DistinctKeys(e, r, b)
  {
    forall i, j | 0 <= i < j < |b| ensures Comparable(e, r, b[i]) != Comparable(e, r, b[j]) {
      assert b[i] in multiset(b) && b[j] in multiset(b);
      assert b[i] in a && b[j] in a;
      var k :| 0 <= k < |a| && a[k] == b[i];
      var l :| 0 <= l < |a| && a[l] == b[j];
      if b[i] == b[j] {
        CountsTwice(b, i, j);
        TwiceInSeq(a, b[i]);
      }
    }
  }

  lemma CountsTwice(b: seq<string>, i: nat, j: nat)
    requires i < j < |b| && b[i] == b[j]
    ensures multiset(b)[b[i]] >= 2
  {
    assert b == b[..j] + b[j..] && b[i] in b[..j] && b[i] in b[j..];
  }

  lemma {:induction false} TwiceInSeq(a: seq<string>, x: string)
    requires multiset(a)[x] >= 2
    ensures exists i, j :: 0 <= i < j < |a| && a[i] == a[j] == x
    decreases |a|
  {
    assert a == [a[0]] + a[1..];
    if a[0] == x {
      assert x in a[1..];
      var j :| 0 <= j < |a[1..]| && a[1..][j] == x;
      assert a[0] == a[j + 1] == x;
    } else {
      TwiceInSeq(a[1..], x);
      var i, j :| 0 <= i < j < |a[1..]| && a[1..][i] == a[1..][j] == x;
      assert a[i + 1] == a[j + 1] == x;
    }
  }

  // ---- reading the target's values ---------------------------------------------------------

  /** SELECT col FROM table WHERE nonblank, as text. */
  function ContentOf(e: Engine, cells: seq<Cell>): seq<string> {
    if cells == [] then []
    else (if HasContent(e, cells[0]) then [cells[0].value] else []) + ContentOf(e, cells[1..])
  }

  /** UNION ALL over the columns the rule reaches. */
  function SourceOf(e: Engine, db: Database, sites: seq<Site>): seq<string> {
    if sites == [] then [] else ContentOf(e, CellsAt(db, sites[0])) + SourceOf(e, db, sites[1..])
  }

  lemma {:induction false} ContentOfMeans(e: Engine, cells: seq<Cell>, v: string)
    ensures v in ContentOf(e, cells) <==> Some(v) in cells && e.trim(v) != ""
  {
    if cells != [] {
      ContentOfMeans(e, cells[1..], v);
      assert cells == [cells[0]] + cells[1..];
    }
  }

  lemma {:induction false} SourceOfMeans(e: Engine, db: Database, sites: seq<Site>, v: string)
    ensures v in SourceOf(e, db, sites) <==>
      exists s :: s in sites && Some(v) in CellsAt(db, s) && e.trim(v) != ""
  {
    if sites != [] {
      SourceOfMeans(e, db, sites[1..], v);
      ContentOfMeans(e, CellsAt(db, sites[0]), v);
      assert sites == [sites[0]] + sites[1..];
    }
  }

  predicate AllShort(e: Engine, vs: seq<string>) { forall v :: v in vs ==> e.goLen(v) <= MAX_VALUE_LEN }

  /** Reading the values looks at the rule's globs only, whatever it expects. */
  function AsColumnRule(r: Rule): Rule { if r.expectation == Sql then r.(expectation := OneOf) else r }

  function Values(e: Engine, db: Database, ts: seq<Table>, r: Rule): Result<seq<string>, Refusal> {
    var sites := Sites(e, AsColumnRule(r), ts);
    var source := SourceOf(e, db, sites);
    var rows := Query(e, r, source);
    if sites == [] then Err(NoColumnSelected)
    else if e.fails(source) then Err(QueryFailed)
    else if |rows| > MAX_VALUES then Err(TooManyValues)
    else if !AllShort(e, rows) then Err(ValueTooLong)
    else if rows == [] then Err(NoValueAtAll)
    else Ok(rows)
  }

  /** currentValues */
  method CurrentValues(e: Engine, db: Database, ts: seq<Table>, r: Rule) returns (out: Result<seq<string>, Refusal>)
    ensures out == Values(e, db, ts, r)
  {
    var parts := TargetSites(e, AsColumnRule(r), ts);
    if parts == [] {
      return Err(NoColumnSelected);
    }
    var source := SourceOf(e, db, parts);
    if e.fails(source) {
      return Err(QueryFailed);
    }
    var rows := Query(e, r, source);
    if |rows| > MAX_VALUES {
      return Err(TooManyValues);
    }
    var values := ShortEnough(e, rows);
    if values.None? {
      return Err(ValueTooLong);
    }
    if rows == [] {
      return Err(NoValueAtAll);
    }
    return Ok(values.value);
  }

  /** Copies the rows, refusing one that is too long to be part of a vocabulary. */
  method ShortEnough(e: Engine, rows: seq<string>) returns (values: Option<seq<string>>)
    ensures values == if AllShort(e, rows) then Some(rows) else None
  {
    var copied: seq<string> := [];
    var k := 0;
    while k < |rows|
      invariant 0 <= k <= |rows| && copied == rows[..k] && AllShort(e, copied)
    {
      if e.goLen(rows[k]) > MAX_VALUE_LEN {
        return None;
      }
      copied := copied + [rows[k]];
      k := k + 1;
    }
    assert copied == rows;
    return Some(copied);
  }

  /** The parts of the UNION ALL: every column the rule's globs reach. */
  method TargetSites(e: Engine, r: Rule, ts: seq<Table>) returns (parts: seq<Site>)
    requires r.expectation != Sql
    ensures parts == Sites(e, r, ts)
  {
    parts := [];
    var i := 0;
    assert ts[0..] == ts && [] + Sites(e, r, ts) == Sites(e, r, ts);
    while i < |ts|
      invariant 0 <= i <= |ts|
      invariant Sites(e, r, ts) == parts + Sites(e, r, ts[i..])
    {
      var t := ts[i];
      ghost var rest := Sites(e, r, ts[i + 1..]);
      assert ts[i..][0] == t && ts[i..][1..] == ts[i + 1..];
      assert Sites(e, r, ts[i..]) == TableSites(e, r, t) + rest;
      var reached := TableReached(e, r, t);
      if reached {
        var more := ReachedSites(e, r, t);
        assert parts + (more + rest) == (parts + more) + rest;
        parts := parts + more;
      } else {
        assert [] + rest == rest;
      }
      i := i + 1;
    }
    assert parts + [] == parts;
  }

  method ReachedSites(e: Engine, r: Rule, t: Table) returns (parts: seq<Site>)
    ensures parts == ColumnSites(t, MatchedColumns(e, r, t.columns))
  {
    parts := [];
    var j := 0;
    assert [] + ColumnsLeft(e, r, t, 0) == ColumnsLeft(e, r, t, 0) && t.columns[0..] == t.columns;
    while j < |t.columns|
      invariant 0 <= j <= |t.columns|
      invariant ColumnsLeft(e, r, t, 0) == parts + ColumnsLeft(e, r, t, j)
    {
      ColumnsLeftStep(e, r, t, j);
      var reached := ColumnReached(e, r, t.columns[j]);
      if reached {
        Strings.ConcatAssociates(parts, [Site(t, Some(t.columns[j]))], ColumnsLeft(e, r, t, j + 1));
        parts := parts + [Site(t, Some(t.columns[j]))];
      } else {
        assert [] + ColumnsLeft(e, r, t, j + 1) == ColumnsLeft(e, r, t, j + 1);
      }
      j := j + 1;
    }
  }

  // ---- Materialize --------------------------------------------------------------------------

  function Resolve(e: Engine, db: Database, ts: seq<Table>, r: Rule): Result<Rule, Refusal> {
    if r.valuesFrom == "" then Ok(r)
    else if r.valuesFrom != FROM_CURRENT then Err(NotCurrent)
    else
      match Values(e, db, ts, r)
      case Err(why) => Err(why)
      case Ok(vs) => Ok(r.(values := vs, valuesFrom := ""))
  }

  /** The body of Materialize's loop. */
  method ResolveOne(e: Engine, db: Database, ts: seq<Table>, r: Rule) returns (resolved: Result<Rule, Refusal>)
    ensures resolved == Resolve(e, db, ts, r)
  {
    if r.valuesFrom == "" {
      return Ok(r);
    }
    if r.valuesFrom != FROM_CURRENT {
      return Err(NotCurrent);
    }
    var values := CurrentValues(e, db, ts, r);
    if values.Err? {
      return Err(values.error);
    }
    return Ok(r.(values := values.value, valuesFrom := ""));
  }

  /** The first n rules are resolved, the others as they were. */
  ghost predicate ResolvedUpTo(e: Engine, db: Database, ts: seq<Table>, was: seq<Rule>, rules: seq<Rule>, n: nat) {
    && |was| == |rules| && n <= |was|
    && (forall i :: 0 <= i < n ==> Resolve(e, db, ts, was[i]) == Ok(rules[i]))
    && (forall i :: n <= i < |was| ==> rules[i] == was[i])
  }

  lemma OneMoreResolved(e: Engine, db: Database, ts: seq<Table>, was: seq<Rule>, rules: seq<Rule>, n: nat, r: Rule)
    requires ResolvedUpTo(e, db, ts, was, rules, n) && n < |was| && Resolve(e, db, ts, was[n]) == Ok(r)
    ensures ResolvedUpTo(e, db, ts, was, rules[n := r], n + 1)
  {
  }

  /** Materialize: resolves the rules in place.  A refusal leaves the rules before
      the refused one resolved and the rest as they were. */
  method Materialize(e: Engine, db: Database, ts: seq<Table>, rules: array<Rule>) returns (refused: Option<Refusal>)
    modifies rules
    ensures refused.None? ==> ResolvedUpTo(e, db, ts, old(rules[..]), rules[..], rules.Length)
    ensures refused.Some? ==> exists n: nat ::
      ResolvedUpTo(e, db, ts, old(rules[..]), rules[..], n) && n < rules.Length &&
      Resolve(e, db, ts, old(rules[..])[n]) == Err(refused.value)
  {
    var i := 0;
    ghost var was := rules[..];
    while i < rules.Length
      invariant 0 <= i <= rules.Length && ResolvedUpTo(e, db, ts, was, rules[..], i)
    {
      var resolved := ResolveOne(e, db, ts, rules[i]);
      if resolved.Err? {
        return Some(resolved.error);
      }
      OneMoreResolved(e, db, ts, was, rules[..], i, resolved.value);
      assert rules[..][i := resolved.value] == rules[..i] + [resolved.value] + rules[i + 1..];
      rules[i] := resolved.value;
      i := i + 1;
    }
    return None;
  }

  lemma QueryMeans(e: Engine, r: Rule, source: seq<string>, key: string)
    requires |Query(e, r, source)| <= MAX_VALUES
    ensures var rows := Query(e, r, source);
      DistinctKeys(e, r, rows) && (forall v :: v in rows ==> v in source) &&
      (HasKey(e, r, rows, key) <==> HasKey(e, r, source, key))
  {
    var mins := GroupMins(e, r, source);
    var rows := OrderBy(mins);
    GroupMinsMeans(e, r, source, key);
    OrderByKeepsValues(mins);
    assert Query(e, r, source) == rows;
    PermutedKeysStayDistinct(e, r, mins, rows);
    forall v ensures v in rows <==> v in mins {
      assert v in rows <==> v in multiset(rows);
      assert v in mins <==> v in multiset(mins);
    }
    if HasKey(e, r, mins, key) { SameKeys(e, r, mins, rows, key); }
    if HasKey(e, r, rows, key) { SameKeys(e, r, rows, mins, key); }
  }

  lemma SameKeys(e: Engine, r: Rule, a: seq<string>, b: seq<string>, key: string)
    requires forall v :: v in a ==> v in b
    requires HasKey(e, r, a, key)
    ensures HasKey(e, r, b, key)
  {
    var i :| 0 <= i < |a| && Comparable(e, r, a[i]) == key;
    assert a[i] in b;
    var j :| 0 <= j < |b| && b[j] == a[i];
  }

  /** What a resolved rule looks like: still well-formed, a readable list of
      values, no two alike, each one held somewhere the rule reaches. */
  lemma ResolvedRuleIsReadable(e: Engine, db: Database, ts: seq<Table>, r: Rule, resolved: Rule)
    requires WellFormed(r) && r.valuesFrom != "" && Resolve(e, db, ts, r) == Ok(resolved)
    ensures WellFormed(resolved) && resolved.valuesFrom == ""
    ensures 1 <= |resolved.values| <= MAX_VALUES && AllShort(e, resolved.values)
    ensures DistinctKeys(e, resolved, resolved.values)
    ensures forall v :: v in resolved.values ==>
      exists s :: s in Sites(e, r, ts) && Some(v) in CellsAt(db, s) && e.trim(v) != ""
  {
    var source := SourceOf(e, db, Sites(e, r, ts));
    QueryMeans(e, r, source, "");
    assert DistinctKeys(e, r, resolved.values);
    forall i, j | 0 <= i < j < |resolved.values|
      ensures Comparable(e, resolved, resolved.values[i]) != Comparable(e, resolved, resolved.values[j])
    {
      assert Comparable(e, r, resolved.values[i]) != Comparable(e, r, resolved.values[j]);
    }
    forall v | v in resolved.values
      ensures exists s :: s in Sites(e, r, ts) && Some(v) in CellsAt(db, s) && e.trim(v) != ""
    {
      SourceOfMeans(e, db, Sites(e, r, ts), v);
    }
  }

  // ---- when a rule is resolved, and why not ---------------------------------------------

  /** The keys held in the columns a rule's globs reach: what its content is grouped by. */
  ghost function KeysHeld(e: Engine, r: Rule, source: seq<string>): set<string> {
    set v | v in source :: Comparable(e, r, v)
  }

  /** v is held, and no other spelling of its key held comes before it. */
  ghost predicate LeastSpelling(e: Engine, r: Rule, source: seq<string>, v: string) {
    v in source && forall w :: w in source && Comparable(e, r, w) == Comparable(e, r, v) ==> Strings.AtMost(v, w)
  }

  ghost predicate AllLeast(e: Engine, r: Rule, source: seq<string>, ms: seq<string>) {
    forall m :: m in ms ==> LeastSpelling(e, r, source, m)
  }

  lemma MinIsLeast(a: string, b: string)
    ensures Min(a, b) == a || Min(a, b) == b
    ensures Strings.AtMost(Min(a, b), a) && Strings.AtMost(Min(a, b), b)
  {
    Strings.LessTotal(a, b);
  }

  lemma AtMostTransitive(a: string, b: string, c: string)
    requires Strings.AtMost(a, b) && Strings.AtMost(b, c)
    ensures Strings.AtMost(a, c)
  {
    if a != b && b != c {
      Strings.LessTransitive(a, b, c);
    }
  }

  /** Where a member of a joined group comes from. */
  lemma {:induction false} JoinedFrom(e: Engine, r: Rule, ms: seq<string>, v: string, x: string)
    requires DistinctKeys(e, r, ms) && x in JoinGroup(e, r, ms, v)
    ensures if Comparable(e, r, x) != Comparable(e, r, v) then x in ms
            else (x == v && !HasKey(e, r, ms, Comparable(e, r, v))) ||
                 exists m :: m in ms && Comparable(e, r, m) == Comparable(e, r, v) && x == Min(m, v)
    decreases |ms|
  {
    if ms != [] {
      var key := Comparable(e, r, v);
      KeysOfCons(e, r, ms, key);
      MinIsLeast(ms[0], v);
      if Comparable(e, r, ms[0]) == key {
        assert x == Min(ms[0], v) || x in ms[1..];
        if x in ms[1..] {
          var j :| 0 <= j < |ms[1..]| && ms[1..][j] == x;
          assert Comparable(e, r, ms[0]) != Comparable(e, r, ms[j + 1]);
        }
      } else if x != ms[0] {
        JoinedFrom(e, r, ms[1..], v, x);
      }
    }
  }

  lemma {:induction false} GroupsAreLeast(e: Engine, r: Rule, vs: seq<string>)
    ensures AllLeast(e, r, vs, GroupMins(e, r, vs))
    decreases |vs|
  {
    if vs != [] {
      var before := GroupMins(e, r, vs[1..]);
      GroupsAreLeast(e, r, vs[1..]);
      GroupMinsMeans(e, r, vs[1..], Comparable(e, r, vs[0]));
      forall x | x in GroupMins(e, r, vs) ensures LeastSpelling(e, r, vs, x) {
        JoinedFrom(e, r, before, vs[0], x);
        JoinedIsLeast(e, r, vs, x);
      }
    }
  }

  lemma JoinedIsLeast(e: Engine, r: Rule, vs: seq<string>, x: string)
    requires vs != [] && AllLeast(e, r, vs[1..], GroupMins(e, r, vs[1..]))
    requires HasKey(e, r, GroupMins(e, r, vs[1..]), Comparable(e, r, vs[0])) <==> HasKey(e, r, vs[1..], Comparable(e, r, vs[0]))
    requires var v, before := vs[0], GroupMins(e, r, vs[1..]);
      if Comparable(e, r, x) != Comparable(e, r, v) then x in before
      else (x == v && !HasKey(e, r, before, Comparable(e, r, v))) ||
           exists m :: m in before && Comparable(e, r, m) == Comparable(e, r, v) && x == Min(m, v)
    ensures LeastSpelling(e, r, vs, x)
  {
    var v, before := vs[0], GroupMins(e, r, vs[1..]);
    assert vs == [v] + vs[1..];
    if x in before && Comparable(e, r, x) != Comparable(e, r, v) {
      assert LeastSpelling(e, r, vs[1..], x);
    } else if m :| m in before && Comparable(e, r, m) == Comparable(e, r, v) && x == Min(m, v) {
      assert LeastSpelling(e, r, vs[1..], m);
      MinIsLeast(m, v);
      forall w | w in vs[1..] && Comparable(e, r, w) == Comparable(e, r, x) ensures Strings.AtMost(x, w) {
        AtMostTransitive(x, m, w);
      }
    } else {
      forall w | w in vs[1..] ensures Comparable(e, r, w) != Comparable(e, r, v) {
        var i :| 0 <= i < |vs[1..]| && vs[1..][i] == w;
      }
    }
  }

  ghost predicate InOrderOf(ms: seq<string>) { forall i, j :: 0 <= i < j < |ms| ==> Strings.AtMost(ms[i], ms[j]) }

  lemma {:induction false} InOrderKeepsOrder(ms: seq<string>, v: string)
    requires InOrderOf(ms)
    ensures InOrderOf(InOrder(ms, v))
    decreases |ms|
  {
    if ms != [] {
      var out := InOrder(ms, v);
      if Strings.AtMost(v, ms[0]) {
        forall j | 1 <= j < |out| ensures Strings.AtMost(v, out[j]) {
          if j > 1 {
            AtMostTransitive(v, ms[0], ms[j - 1]);
          }
        }
      } else {
        InOrderKeepsOrder(ms[1..], v);
        InOrderKeepsValues(ms[1..], v);
        Strings.LessTotal(v, ms[0]);
        forall j | 1 <= j < |out| ensures Strings.AtMost(ms[0], out[j]) {
          assert out[j] == InOrder(ms[1..], v)[j - 1];
          assert out[j] in multiset(InOrder(ms[1..], v));
          assert out[j] == v || out[j] in ms[1..];
        }
      }
    }
  }

  lemma {:induction false} OrderByOrders(ms: seq<string>)
    ensures InOrderOf(OrderBy(ms))
    decreases |ms|
  {
    if ms != [] {
      OrderByOrders(ms[1..]);
      InOrderKeepsOrder(OrderBy(ms[1..]), ms[0]);
    }
  }

  /** One representative for each key: as many as there are keys. */
  lemma {:induction false} DistinctKeysCount(e: Engine, r: Rule, ms: seq<string>)
    requires DistinctKeys(e, r, ms)
    ensures |KeysHeld(e, r, ms)| == |ms|
    decreases |ms|
  {
    if ms == [] {
      assert KeysHeld(e, r, ms) == {};
    } else {
      var n := |ms| - 1;
      var last := Comparable(e, r, ms[n]);
      DistinctKeysCount(e, r, ms[..n]);
      assert ms == ms[..n] + [ms[n]];
      assert KeysHeld(e, r, ms) == KeysHeld(e, r, ms[..n]) + {last};
      forall v | v in ms[..n] ensures Comparable(e, r, v) != last {
        var i :| 0 <= i < n && ms[i] == v;
      }
    }
  }

  lemma SameKeysHeld(e: Engine, r: Rule, source: seq<string>)
    ensures KeysHeld(e, r, GroupMins(e, r, source)) == KeysHeld(e, r, source)
  {
    var mins := GroupMins(e, r, source);
    forall key ensures key in KeysHeld(e, r, mins) <==> key in KeysHeld(e, r, source) {
      GroupMinsMeans(e, r, source, key);
      KeyHeldMeans(e, r, mins, key);
      KeyHeldMeans(e, r, source, key);
    }
  }

  lemma KeyHeldMeans(e: Engine, r: Rule, ms: seq<string>, key: string)
    ensures key in KeysHeld(e, r, ms) <==> HasKey(e, r, ms, key)
  {
    if HasKey(e, r, ms, key) {
      var i :| 0 <= i < |ms| && Comparable(e, r, ms[i]) == key;
      assert ms[i] in ms;
    }
    if key in KeysHeld(e, r, ms) {
      var v :| v in ms && Comparable(e, r, v) == key;
      var i :| 0 <= i < |ms| && ms[i] == v;
    }
  }

  /** The query returns one row for each key, fifty-one at most. */
  lemma QueryCounts(e: Engine, r: Rule, source: seq<string>)
    ensures var n := |KeysHeld(e, r, source)|; |Query(e, r, source)| == if n <= 51 then n else 51
  {
    var mins := GroupMins(e, r, source);
    GroupMinsMeans(e, r, source, "");
    DistinctKeysCount(e, r, mins);
    SameKeysHeld(e, r, source);
    OrderByKeepsValues(mins);
    assert |multiset(OrderBy(mins))| == |OrderBy(mins)| && |multiset(mins)| == |mins|;
  }

  /** Its rows, when they are all there: the least spelling of each key, in order. */
  lemma QueryRows(e: Engine, r: Rule, source: seq<string>, v: string)
    requires |KeysHeld(e, r, source)| <= 50
    ensures InOrderOf(Query(e, r, source))
    ensures v in Query(e, r, source) <==> LeastSpelling(e, r, source, v)
  {
    var mins := GroupMins(e, r, source);
    QueryCounts(e, r, source);
    OrderByOrders(mins);
    QueryMeans(e, r, source, Comparable(e, r, v));
    GroupsAreLeast(e, r, source);
    OrderByKeepsValues(mins);
    var rows := Query(e, r, source);
    forall m | m in rows ensures LeastSpelling(e, r, source, m) {
      assert m in multiset(rows) && m in multiset(mins);
    }
    if LeastSpelling(e, r, source, v) {
      var j :| 0 <= j < |source| && source[j] == v;
      assert HasKey(e, r, source, Comparable(e, r, v));
      var i :| 0 <= i < |rows| && Comparable(e, r, rows[i]) == Comparable(e, r, v);
      assert rows[i] in rows && LeastSpelling(e, r, source, rows[i]);
      LeastIsOne(v, rows[i]);
    }
  }

  lemma LeastIsOne(a: string, b: string)
    requires Strings.AtMost(a, b) && Strings.AtMost(b, a)
    ensures a == b
  {
    if a != b {
      Strings.LessTransitive(a, b, a);
      Strings.NotLessThanItself(a);
    }
  }

  /** The content of every column the rule's globs reach. */
  function ContentReached(e: Engine, db: Database, ts: seq<Table>, r: Rule): seq<string> {
    SourceOf(e, db, Sites(e, AsColumnRule(r), ts))
  }

  /** A held value is too long to list, in its least spelling. */
  ghost predicate TooLongHeld(e: Engine, r: Rule, source: seq<string>) {
    exists v :: LeastSpelling(e, r, source, v) && e.goLen(v) > 120
  }

  /** Why the values of a rule are refused, in the order it is found out. */
  ghost predicate RefusedFor(e: Engine, db: Database, ts: seq<Table>, r: Rule, why: Refusal) {
    var source := ContentReached(e, db, ts, r);
    var n := |KeysHeld(e, r, source)|;
    var reached := exists s :: SiteReached(e, r, ts, s);
    match why
    case NotCurrent => r.valuesFrom != "current"
    case NoColumnSelected => r.valuesFrom == "current" && !reached
    case QueryFailed => r.valuesFrom == "current" && reached && e.fails(source)
    case TooManyValues => r.valuesFrom == "current" && reached && !e.fails(source) && n > 50
    case ValueTooLong => r.valuesFrom == "current" && reached && !e.fails(source) && n <= 50 && TooLongHeld(e, r, source)
    case NoValueAtAll => r.valuesFrom == "current" && reached && !e.fails(source) && n == 0
  }

  lemma LongRow(e: Engine, r: Rule, source: seq<string>)
    requires |KeysHeld(e, r, source)| <= 50
    ensures AllShort(e, Query(e, r, source)) <==> !TooLongHeld(e, r, source)
  {
    forall v ensures v in Query(e, r, source) <==> LeastSpelling(e, r, source, v) {
      QueryRows(e, r, source, v);
    }
  }

  lemma ReachedSomewhere(e: Engine, ts: seq<Table>, r: Rule)
    ensures Sites(e, AsColumnRule(r), ts) != [] <==> exists s :: SiteReached(e, r, ts, s)
  {
    var sites := Sites(e, AsColumnRule(r), ts);
    if sites != [] {
      SitesMeans(e, AsColumnRule(r), ts, sites[0]);
      assert SiteReached(e, r, ts, sites[0]);
    }
    if s :| SiteReached(e, r, ts, s) {
      SitesMeans(e, AsColumnRule(r), ts, s);
    }
  }

  /** Exact: a rule that reads its values is refused, with that reason, if and only if
      the reason holds; so it is resolved exactly when its globs reach a column, the
      query does not fail, and what they hold has from one to fifty keys, none of them
      too long in its least spelling. */
  lemma ResolvedExactly(e: Engine, db: Database, ts: seq<Table>, r: Rule, why: Refusal)
    requires r.valuesFrom != ""
    ensures Resolve(e, db, ts, r) == Err(why) <==> RefusedFor(e, db, ts, r, why)
    ensures var source := ContentReached(e, db, ts, r);
      Resolve(e, db, ts, r).Ok? <==>
        r.valuesFrom == "current" && (exists s :: SiteReached(e, r, ts, s)) && !e.fails(source) &&
        1 <= |KeysHeld(e, r, source)| <= 50 && !TooLongHeld(e, r, source)
  {
    ValuesAre(e, db, ts, r);
  }

  lemma ValuesAre(e: Engine, db: Database, ts: seq<Table>, r: Rule)
    ensures var source := ContentReached(e, db, ts, r); var n := |KeysHeld(e, r, source)|;
      Values(e, db, ts, r) ==
        if !(exists s :: SiteReached(e, r, ts, s)) then Err(NoColumnSelected)
        else if e.fails(source) then Err(QueryFailed)
        else if n > 50 then Err(TooManyValues)
        else if TooLongHeld(e, r, source) then Err(ValueTooLong)
        else if n == 0 then Err(NoValueAtAll)
        else Ok(Query(e, r, source))
    ensures var source := ContentReached(e, db, ts, r); TooLongHeld(e, r, source) ==> |KeysHeld(e, r, source)| > 0
  {
    var source := ContentReached(e, db, ts, r);
    ReachedSomewhere(e, ts, r);
    QueryCounts(e, r, source);
    if |KeysHeld(e, r, source)| <= 50 {
      LongRow(e, r, source);
    }
    if source != [] {
      SomeKeyHeld(e, r, source);
    }
  }

  lemma SomeKeyHeld(e: Engine, r: Rule, source: seq<string>)
    requires source != []
    ensures |KeysHeld(e, r, source)| > 0
  {
    assert Comparable(e, r, source[0]) in KeysHeld(e, r, source);
  }

  /** The list is the least spelling of every key held, in increasing order. */
  lemma ResolvedListIs(e: Engine, db: Database, ts: seq<Table>, r: Rule, resolved: Rule, v: string)
    requires r.valuesFrom != "" && Resolve(e, db, ts, r) == Ok(resolved)
    ensures resolved == r.(values := resolved.values, valuesFrom := "")
    ensures v in resolved.values <==> LeastSpelling(e, r, ContentReached(e, db, ts, r), v)
    ensures forall i, j :: 0 <= i < j < |resolved.values| ==> Strings.Less(resolved.values[i], resolved.values[j])
  {
    var source := ContentReached(e, db, ts, r);
    ResolvedExactly(e, db, ts, r, NotCurrent);
    QueryRows(e, r, source, v);
    QueryCounts(e, r, source);
    QueryMeans(e, r, source, "");
    forall i, j | 0 <= i < j < |resolved.values| ensures Strings.Less(resolved.values[i], resolved.values[j]) {
      assert Comparable(e, r, resolved.values[i]) != Comparable(e, r, resolved.values[j]);
    }
  }

  /** What is held: every cell with content of a column the globs reach. */
  lemma ContentReachedMeans(e: Engine, db: Database, ts: seq<Table>, r: Rule, v: string)
    ensures v in ContentReached(e, db, ts, r) <==>
      exists s :: SiteReached(e, r, ts, s) && Some(v) in CellsAt(db, s) && e.trim(v) != ""
  {
    var sites := Sites(e, AsColumnRule(r), ts);
    SourceOfMeans(e, db, sites, v);
    forall s ensures s in sites <==> SiteReached(e, r, ts, s) {
      SitesMeans(e, AsColumnRule(r), ts, s);
    }
  }

  /** Materializing a second time changes nothing, whatever the data has become. */
  lemma ResolvingAgainIsNoOp(e: Engine, db: Database, ts: seq<Table>, r: Rule, db': Database, ts': seq<Table>)
    requires Resolve(e, db, ts, r).Ok?
    ensures Resolve(e, db', ts', Resolve(e, db, ts, r).value) == Ok(Resolve(e, db, ts, r).value)
  {
  }

  /** Every value held where the rule reaches is permitted, in some spelling. */
  lemma HeldValueIsPermitted(e: Engine, db: Database, ts: seq<Table>, r: Rule, resolved: Rule, s: Site, v: string)
    returns (w: string)
    requires WellFormed(r) && r.valuesFrom != "" && Resolve(e, db, ts, r) == Ok(resolved)
    requires s in Sites(e, r, ts) && Some(v) in CellsAt(db, s) && e.trim(v) != ""
    ensures w in resolved.values && Comparable(e, resolved, v) == Comparable(e, resolved, w)
  {
    var source := SourceOf(e, db, Sites(e, r, ts));
    var key := Comparable(e, r, v);
    SourceOfMeans(e, db, Sites(e, r, ts), v);
    var j :| 0 <= j < |source| && source[j] == v;
    assert HasKey(e, r, source, key);
    QueryMeans(e, r, source, key);
    var k :| 0 <= k < |resolved.values| && Comparable(e, r, resolved.values[k]) == key;
    w := resolved.values[k];
  }

  /** A materialized rule has no violation on any column it reaches. */
  lemma ResolvedRuleHolds(e: Engine, db: Database, ts: seq<Table>, r: Rule, resolved: Rule, t: Table, c: Column)
    requires WellFormed(r) && r.valuesFrom != "" && Resolve(e, db, ts, r) == Ok(resolved)
    requires r.ignoreCase ==> FoldsAgree(e)
    requires t in ts && Loaded(db, t) && c in t.columns && ReachesTable(e, r, t) && ReachesColumn(e, r, c)
    ensures EvaluateOne(e, db, resolved, Site(t, Some(c))) == Ok([])
  {
    var s := Site(t, Some(c));
    var cells := db[t.name][c.name];
    SitesMeans(e, r, ts, s);
    ResolvedRuleIsReadable(e, db, ts, r, resolved);
    forall i | 0 <= i < |cells| ensures !Breaks(e, resolved, cells, i, Referenced(db, resolved)) {
      if HasContent(e, cells[i]) {
        assert Some(cells[i].value) in CellsAt(db, s);
        var w := HeldValueIsPermitted(e, db, ts, r, resolved, s, cells[i].value);
      }
    }
    assert BreakingRows(e, db, resolved, cells) == {};
    EvaluateOneCountsBreakingRows(e, db, resolved, t, c);
  }

  /** The list is as short as it can be: without any one of its values, the rule
      would be broken by a row it was read from. */
  lemma EveryPermittedValueIsNeeded(e: Engine, db: Database, ts: seq<Table>, r: Rule, resolved: Rule, k: nat)
    returns (s: Site, at: nat)
    requires WellFormed(r) && r.valuesFrom != "" && Resolve(e, db, ts, r) == Ok(resolved)
    requires k < |resolved.values|
    ensures s in Sites(e, r, ts) && at < |CellsAt(db, s)|
    ensures var shorter := resolved.(values := resolved.values[..k] + resolved.values[k + 1..]);
      Breaks(e, shorter, CellsAt(db, s), at, [])
  {
    ResolvedRuleIsReadable(e, db, ts, r, resolved);
    var v := resolved.values[k];
    assert v in resolved.values;
    s :| s in Sites(e, r, ts) && Some(v) in CellsAt(db, s) && e.trim(v) != "";
    at :| 0 <= at < |CellsAt(db, s)| && CellsAt(db, s)[at] == Some(v);
    OthersDiffer(e, resolved, k);
  }

  lemma OthersDiffer(e: Engine, r: Rule, k: nat)
    requires k < |r.values| && DistinctKeys(e, r, r.values)
    ensures var rest := r.values[..k] + r.values[k + 1..];
      forall w :: w in rest ==> Comparable(e, r, r.values[k]) != Comparable(e, r, w)
  {
    var rest := r.values[..k] + r.values[k + 1..];
    forall w | w in rest ensures Comparable(e, r, r.values[k]) != Comparable(e, r, w) {
      var i :| 0 <= i < |rest| && rest[i] == w;
      var j := if i < k then i else i + 1;
      assert r.values[j] == w;
    }
  }
}
