/**
  The set findings are collected in (Set.Add, AddAll and Verify in
  internal/finding/finding.go): an indexed list, unique by what a finding is
  about, that keeps the more severe of any duplicates and drops what the engine
  does not reproduce.
*/
module Findings {
  import opened Wrappers
  import opened Strings

  /** The fields the set looks at; `title` stands for all the prose. */
  datatype Finding = Finding(
    rule: string, table: string, column: string, line: int,
    severity: int, title: string, count: int, query: string, verified: bool)

  /** Finding.key.  The parts are joined with NUL bytes there, which none contains. */
  datatype Key = Key(rule: string, table: string, column: string, line: int)

  function KeyOf(f: Finding): Key { Key(f.rule, f.table, f.column, f.line) }

  // ---- what Add does to the list -------------------------------------------------------

  /** Where the finding about k sits. */
  function Find(items: seq<Finding>, k: Key): Option<nat> {
    if items == [] then None
    else
      var n := |items| - 1;
      if KeyOf(items[n]) == k then Some(n) else Find(items[..n], k)
  }

  function Added(items: seq<Finding>, f: Finding): seq<Finding> {
    match Find(items, KeyOf(f))
    case None => items + [f]
    case Some(i) => if i < |items| && f.severity > items[i].severity then items[i := f] else items
  }

  ghost predicate UniqueKeys(items: seq<Finding>) {
    forall i, j :: 0 <= i < j < |items| ==> KeyOf(items[i]) != KeyOf(items[j])
  }

  lemma {:induction false} FindMeans(items: seq<Finding>, k: Key)
    ensures match Find(items, k)
      case None => forall i :: 0 <= i < |items| ==> KeyOf(items[i]) != k
      case Some(i) => i < |items| && KeyOf(items[i]) == k
    decreases |items|
  {
    if items != [] {
      var n := |items| - 1;
      FindMeans(items[..n], k);
    }
  }

  lemma AddedKeepsUnique(items: seq<Finding>, f: Finding)
    requires UniqueKeys(items)
    ensures UniqueKeys(Added(items, f))
  {
    FindMeans(items, KeyOf(f));
  }

  // ---- Verify --------------------------------------------------------------------------------

  /** What the engine answers to a count query; None is an error. */
  type Answers = string -> Option<int>

  /** The finding as Verify leaves it: with the engine's number, marked verified. */
  function Checked(answers: Answers, f: Finding): Finding {
    if f.query == "" then f
    else match answers(f.query)
      case None => f.(verified := false)
      case Some(n) => if n == 0 && n != f.count then f.(count := n) else f.(count := n, verified := true)
  }

  /** Kept: no query to check, or a number that is not a correction to zero. */
  predicate Stands(answers: Answers, f: Finding) {
    f.query == "" || (answers(f.query).Some? && (answers(f.query).value != 0 || f.count == 0))
  }

  function Kept(answers: Answers, items: seq<Finding>): seq<Finding> {
    if items == [] then []
    else
      var n := |items| - 1;
      Kept(answers, items[..n]) + (if Stands(answers, items[n]) then [Checked(answers, items[n])] else [])
  }

  function Dropped(answers: Answers, items: seq<Finding>): seq<Finding> {
    if items == [] then []
    else
      var n := |items| - 1;
      Dropped(answers, items[..n]) + (if Stands(answers, items[n]) then [] else [Checked(answers, items[n])])
  }

  lemma OneMoreVerified(answers: Answers, items: seq<Finding>, i: nat)
    requires i < |items|
    ensures var f := items[i];
      && Kept(answers, items[..i + 1]) == Kept(answers, items[..i]) + (if Stands(answers, f) then [Checked(answers, f)] else [])
      && Dropped(answers, items[..i + 1]) == Dropped(answers, items[..i]) + (if Stands(answers, f) then [] else [Checked(answers, f)])
  {
    assert items[..i + 1][..i] == items[..i];
  }

  // ---- the set ---------------------------------------------------------------------------------

  class FindingSet {
    var items: seq<Finding>
    var seen: map<Key, nat>

    /** The index and the items agree, which makes keys unique. */
    ghost predicate Valid()
      reads this
    {
      && (forall i :: 0 <= i < |items| ==> KeyOf(items[i]) in seen && seen[KeyOf(items[i])] == i)
      && (forall k :: k in seen ==> seen[k] < |items| && KeyOf(items[seen[k]]) == k)
    }

    constructor ()
      ensures Valid() && items == []
    {
      items, seen := [], map[];
    }

    method Add(f: Finding)
      requires Valid()
      modifies this
      ensures Valid() && items == Added(old(items), f)
    {
      var k := KeyOf(f);
      FindMeans(items, k);
      if k in seen {
        var i := seen[k];
        if f.severity > items[i].severity {
          items := items[i := f];
        }
        return;
      }
      seen := seen[k := |items|];
      items := items + [f];
    }

    method AddAll(fs: seq<Finding>)
      requires Valid()
      modifies this
      ensures Valid() && items == AddedAll(old(items), fs)
    {
      var i := 0;
      while i < |fs|
        invariant 0 <= i <= |fs| && Valid()
        invariant items == AddedAll(old(items), fs[..i])
      {
        TakeOneMore(fs, i);
        assert fs[..i + 1][..i] == fs[..i];
        Add(fs[i]);
        i := i + 1;
      }
      assert fs[..i] == fs;
    }

    method Verify(answers: Answers) returns (dropped: seq<Finding>)
      requires Valid()
      modifies this
      ensures Valid() && items == Kept(answers, old(items)) && dropped == Dropped(answers, old(items))
    {
      ghost var all := items;
      assert UniqueKeys(all);
      var kept: seq<Finding> := [];
      dropped := [];
      var i := 0;
      while i < |items|
        invariant 0 <= i <= |items| && items == all
        invariant kept == Kept(answers, all[..i]) && dropped == Dropped(answers, all[..i])
      {
        var f := items[i];
        OneMoreVerified(answers, all, i);
        i := i + 1;
        if f.query == "" {
          kept := kept + [f];
          continue;
        }
        var got := answers(f.query);
        if got.None? {
          dropped := dropped + [f.(verified := false)];
          continue;
        }
        if got.value != f.count {
          f := f.(count := got.value);
          if got.value == 0 {
            dropped := dropped + [f];
            continue;
          }
        }
        f := f.(verified := true);
        kept := kept + [f];
      }
      assert all[..i] == all;
      KeptKeysUnique(answers, all);
      items := kept;
      Reindex();
    }

    method Reindex()
      requires UniqueKeys(items)
      modifies this`seen
      ensures Valid()
    {
      seen := map[];
      var i := 0;
      while i < |items|
        invariant 0 <= i <= |items|
        invariant forall j :: 0 <= j < i ==> KeyOf(items[j]) in seen && seen[KeyOf(items[j])] == j
        invariant forall k :: k in seen ==> seen[k] < i && KeyOf(items[seen[k]]) == k
      {
        seen := seen[KeyOf(items[i]) := i];
        i := i + 1;
      }
    }
  }

  function AddedAll(items: seq<Finding>, fs: seq<Finding>): seq<Finding> {
    if fs == [] then items
    else
      var n := |fs| - 1;
      Added(AddedAll(items, fs[..n]), fs[n])
  }

  // ---- which findings survive -------------------------------------------------------------------

  /** The first of the most severe findings about k. */
  function Best(fs: seq<Finding>, k: Key): Option<Finding> {
    if fs == [] then None
    else
      var n := |fs| - 1;
      var earlier := Best(fs[..n], k);
      if KeyOf(fs[n]) != k then earlier
      else if earlier.None? || fs[n].severity > earlier.value.severity then Some(fs[n])
      else earlier
  }

  /** The i-th is about k, no other is more severe, no earlier one as severe. */
  ghost predicate IsBest(fs: seq<Finding>, k: Key, i: int) {
    && 0 <= i < |fs| && KeyOf(fs[i]) == k
    && (forall j :: 0 <= j < |fs| && KeyOf(fs[j]) == k ==> fs[j].severity <= fs[i].severity)
    && (forall j :: 0 <= j < i && KeyOf(fs[j]) == k ==> fs[j].severity < fs[i].severity)
  }

  lemma {:induction false} BestMeans(fs: seq<Finding>, k: Key) returns (i: int)
    ensures Best(fs, k).None? <==> forall j :: 0 <= j < |fs| ==> KeyOf(fs[j]) != k
    ensures Best(fs, k).Some? ==> IsBest(fs, k, i) && fs[i] == Best(fs, k).value
    decreases |fs|
  {
    i := 0;
    if fs != [] {
      var n := |fs| - 1;
      var init := fs[..n];
      i := BestMeans(init, k);
      assert forall j :: 0 <= j < n ==> fs[j] == init[j];
      if Best(fs, k) != Best(init, k) {
        i := n;
      }
    }
  }

  function Lookup(items: seq<Finding>, k: Key): Option<Finding> {
    match Find(items, k)
    case None => None
    case Some(i) => if i < |items| then Some(items[i]) else None
  }

  lemma LookupAdded(items: seq<Finding>, f: Finding, k: Key)
    requires UniqueKeys(items)
    ensures Lookup(Added(items, f), k) ==
      if KeyOf(f) != k then Lookup(items, k)
      else if Lookup(items, k).None? || f.severity > Lookup(items, k).value.severity then Some(f)
      else Lookup(items, k)
  {
    FindMeans(items, k);
    FindMeans(items, KeyOf(f));
    AddedKeepsUnique(items, f);
    var after := Added(items, f);
    FindMeans(after, k);
    if KeyOf(f) != k {
      if Find(items, k).Some? {
        FindIs(after, k, Find(items, k).value);
      }
    } else if Find(items, k).Some? {
      FindIs(after, k, Find(items, k).value);
    } else {
      FindIs(after, k, |items|);
    }
  }

  lemma FindIs(items: seq<Finding>, k: Key, i: nat)
    requires UniqueKeys(items) && i < |items| && KeyOf(items[i]) == k
    ensures Find(items, k) == Some(i)
  {
    FindMeans(items, k);
  }

  /** Adding findings one by one keeps, about each key, the first of the most severe. */
  lemma {:induction false} AddingKeepsBest(fs: seq<Finding>, k: Key)
    ensures UniqueKeys(AddedAll([], fs)) && Lookup(AddedAll([], fs), k) == Best(fs, k)
    decreases |fs|
  {
    if fs != [] {
      var n := |fs| - 1;
      AddingKeepsBest(fs[..n], k);
      AddedKeepsUnique(AddedAll([], fs[..n]), fs[n]);
      LookupAdded(AddedAll([], fs[..n]), fs[n], k);
    }
  }

  lemma {:induction false} UniqueItemsRebuild(items: seq<Finding>)
    requires UniqueKeys(items)
    ensures AddedAll([], items) == items
    decreases |items|
  {
    if items != [] {
      var n := |items| - 1;
      UniqueItemsRebuild(items[..n]);
      FindMeans(items[..n], KeyOf(items[n]));
      assert items == items[..n] + [items[n]];
    }
  }

  // ---- any sequence of Add and Verify ------------------------------------------------------------

  datatype Op = Adding(f: Finding) | Verifying(answers: Answers)

  function Items(ops: seq<Op>): seq<Finding> {
    if ops == [] then []
    else
      var n := |ops| - 1;
      match ops[n]
      case Adding(f) => Added(Items(ops[..n]), f)
      case Verifying(answers) => Kept(answers, Items(ops[..n]))
  }

  /** What the last Verify kept, and everything added since. */
  function SinceVerify(ops: seq<Op>): seq<Finding> {
    if ops == [] then []
    else
      var n := |ops| - 1;
      match ops[n]
      case Adding(f) => SinceVerify(ops[..n]) + [f]
      case Verifying(answers) => Kept(answers, Items(ops[..n]))
  }

  /** from[i] is where the i-th kept finding was, in order, and nothing that stands
      is missing. */
  ghost predicate KeptFrom(answers: Answers, items: seq<Finding>, from: seq<nat>) {
    && |from| == |Kept(answers, items)|
    && (forall i :: 0 <= i < |from| ==> from[i] < |items| && Stands(answers, items[from[i]]))
    && (forall i :: 0 <= i < |from| ==> from[i] < |items| && Kept(answers, items)[i] == Checked(answers, items[from[i]]))
    && (forall i, j :: 0 <= i < j < |from| ==> from[i] < from[j])
    && (forall n :: 0 <= n < |items| && Stands(answers, items[n]) ==> n in from)
  }

  lemma {:induction false} KeptMeans(answers: Answers, items: seq<Finding>) returns (from: seq<nat>)
    ensures KeptFrom(answers, items, from)
    decreases |items|
  {
    if items == [] {
      from := [];
    } else {
      var n := |items| - 1;
      var init := items[..n];
      var before := KeptMeans(answers, init);
      if Stands(answers, items[n]) {
        from := before + [n];
        OneMoreKept(answers, items, before);
      } else {
        from := before;
        assert Kept(answers, items) == Kept(answers, init) + [];
        assert forall i :: 0 <= i < n ==> init[i] == items[i];
      }
    }
  }

  lemma OneMoreKept(answers: Answers, items: seq<Finding>, before: seq<nat>)
    requires items != [] && Stands(answers, items[|items| - 1]) && KeptFrom(answers, items[..|items| - 1], before)
    ensures KeptFrom(answers, items, before + [|items| - 1])
  {
    var n := |items| - 1;
    var init, from, kept := items[..n], before + [n], Kept(answers, items[..n]);
    assert Kept(answers, items) == kept + [Checked(answers, items[n])];
    forall i | 0 <= i < |before|
      ensures from[i] < n && init[from[i]] == items[from[i]] && Kept(answers, items)[i] == kept[i]
    {
      assert from[i] == before[i];
    }
    forall k | 0 <= k < |items| && Stands(answers, items[k]) ensures k in from {
      if k < n {
        assert init[k] == items[k] && k in before;
      } else {
        assert from[|before|] == n;
      }
    }
  }

  lemma KeptKeysUnique(answers: Answers, items: seq<Finding>)
    requires UniqueKeys(items)
    ensures UniqueKeys(Kept(answers, items))
  {
    var from := KeptMeans(answers, items);
    var kept := Kept(answers, items);
    forall i, j | 0 <= i < j < |kept| ensures KeyOf(kept[i]) != KeyOf(kept[j]) {
      assert KeyOf(kept[i]) == KeyOf(items[from[i]]) && KeyOf(kept[j]) == KeyOf(items[from[j]]);
    }
  }

  /** At every point of every sequence: keys are unique, and about each key the set
      holds the first of the most severe findings since the last Verify. */
  lemma {:induction false} SetHoldsBestSinceVerify(ops: seq<Op>, k: Key)
    ensures UniqueKeys(Items(ops)) && Items(ops) == AddedAll([], SinceVerify(ops))
    ensures Lookup(Items(ops), k) == Best(SinceVerify(ops), k)
    decreases |ops|
  {
    if ops != [] {
      var n := |ops| - 1;
      SetHoldsBestSinceVerify(ops[..n], k);
      match ops[n] {
        case Adding(f) =>
          var since := SinceVerify(ops);
          assert since[..|since| - 1] == SinceVerify(ops[..n]) && since[|since| - 1] == f;
        case Verifying(answers) =>
          KeptKeysUnique(answers, Items(ops[..n]));
          UniqueItemsRebuild(Kept(answers, Items(ops[..n])));
      }
    }
    AddingKeepsBest(SinceVerify(ops), k);
  }

  predicate SamePlace(f: Finding, g: Finding) {
    f.rule == g.rule && f.table == g.table && f.column == g.column && f.line == g.line
  }

  /** In the findings' own terms: no two in the set share rule, table, column and line. */
  lemma NoPlaceTwice(ops: seq<Op>, i: nat, j: nat)
    requires i < j < |Items(ops)|
    ensures !SamePlace(Items(ops)[i], Items(ops)[j])
  {
    SetHoldsBestSinceVerify(ops, KeyOf(Items(ops)[i]));
    assert KeyOf(Items(ops)[i]) != KeyOf(Items(ops)[j]);
  }

  /** The m-th is at f's place, no other there is more severe, no earlier one as severe. */
  ghost predicate BestOfPlace(fs: seq<Finding>, f: Finding, m: nat) {
    && m < |fs| && SamePlace(fs[m], f)
    && (forall l :: 0 <= l < |fs| && SamePlace(fs[l], f) ==> fs[l].severity <= fs[m].severity)
    && (forall l :: 0 <= l < m && SamePlace(fs[l], f) ==> fs[l].severity < fs[m].severity)
  }

  lemma BestOfKeyIsOfPlace(fs: seq<Finding>, f: Finding, m: nat)
    requires IsBest(fs, KeyOf(f), m)
    ensures BestOfPlace(fs, f, m)
  {
    assert forall l :: 0 <= l < |fs| ==> (SamePlace(fs[l], f) <==> KeyOf(fs[l]) == KeyOf(f));
  }

  lemma LookupHolds(items: seq<Finding>, k: Key)
    ensures Lookup(items, k).Some? ==> Lookup(items, k).value in items
  {
    FindMeans(items, k);
  }

  /** And of each place something was added about since the last Verify, the set holds
      the first of the most severe findings. */
  lemma BestOfPlaceHeld(ops: seq<Op>, f: Finding) returns (m: nat)
    requires f in SinceVerify(ops)
    ensures BestOfPlace(SinceVerify(ops), f, m) && SinceVerify(ops)[m] in Items(ops)
  {
    var since, k := SinceVerify(ops), KeyOf(f);
    SetHoldsBestSinceVerify(ops, k);
    var n :| 0 <= n < |since| && since[n] == f;
    var i := BestMeans(since, k);
    m := i;
    LookupHolds(Items(ops), k);
    BestOfKeyIsOfPlace(since, f, m);
  }

  /** The same of what is dropped: in order, as checked, and nothing that falls is
      missing. */
  ghost predicate DroppedFrom(answers: Answers, items: seq<Finding>, from: seq<nat>) {
    && |from| == |Dropped(answers, items)|
    && (forall i :: 0 <= i < |from| ==> from[i] < |items| && !Stands(answers, items[from[i]]))
    && (forall i :: 0 <= i < |from| ==> from[i] < |items| && Dropped(answers, items)[i] == Checked(answers, items[from[i]]))
    && (forall i, j :: 0 <= i < j < |from| ==> from[i] < from[j])
    && (forall n :: 0 <= n < |items| && !Stands(answers, items[n]) ==> n in from)
  }

  lemma {:induction false} DroppedMeans(answers: Answers, items: seq<Finding>) returns (from: seq<nat>)
    ensures DroppedFrom(answers, items, from)
    decreases |items|
  {
    if items == [] {
      from := [];
    } else {
      var n := |items| - 1;
      var init := items[..n];
      var before := DroppedMeans(answers, init);
      if Stands(answers, items[n]) {
        from := before;
        assert Dropped(answers, items) == Dropped(answers, init) + [];
        assert forall i :: 0 <= i < n ==> init[i] == items[i];
      } else {
        from := before + [n];
        OneMoreDropped(answers, items, before);
      }
    }
  }

  lemma OneMoreDropped(answers: Answers, items: seq<Finding>, before: seq<nat>)
    requires items != [] && !Stands(answers, items[|items| - 1]) && DroppedFrom(answers, items[..|items| - 1], before)
    ensures DroppedFrom(answers, items, before + [|items| - 1])
  {
    var n := |items| - 1;
    var init, from, dropped := items[..n], before + [n], Dropped(answers, items[..n]);
    assert Dropped(answers, items) == dropped + [Checked(answers, items[n])];
    forall i | 0 <= i < |before|
      ensures from[i] < n && init[from[i]] == items[from[i]] && Dropped(answers, items)[i] == dropped[i]
    {
      assert from[i] == before[i];
    }
    forall k | 0 <= k < |items| && !Stands(answers, items[k]) ensures k in from {
      if k < n {
        assert init[k] == items[k] && k in before;
      } else {
        assert from[|before|] == n;
      }
    }
  }

  /** The engine cannot answer, or answers zero to a claim of something. */
  predicate Unsupported(answers: Answers, f: Finding) {
    f.query != "" && (answers(f.query).None? || (answers(f.query) == Some(0) && f.count != 0))
  }

  /** Verify splits the set in two: what it keeps and what it drops are the findings
      that stand and those that do not, each in order and as checked; a kept finding
      with a query carries the engine's number, and only an engine error, or a zero
      where there was none, drops one. */
  lemma VerifyPartitions(answers: Answers, items: seq<Finding>) returns (kept: seq<nat>, dropped: seq<nat>)
    ensures KeptFrom(answers, items, kept) && DroppedFrom(answers, items, dropped)
    ensures |kept| + |dropped| == |items| && forall n :: 0 <= n < |items| ==> (n in kept <==> n !in dropped)
    ensures forall f :: f in Kept(answers, items) && f.query != "" ==> answers(f.query) == Some(f.count) && f.verified
    ensures forall n :: 0 <= n < |items| ==> (n in dropped <==> Unsupported(answers, items[n]))
  {
    kept := KeptMeans(answers, items);
    dropped := DroppedMeans(answers, items);
    SizesAddUp(answers, items);
    KeptCarryCounts(answers, items);
    forall n | 0 <= n < |items| ensures n in kept <==> Stands(answers, items[n]) {
    }
    forall n | 0 <= n < |items| ensures n in dropped <==> !Stands(answers, items[n]) {
    }
  }

  lemma {:induction false} SizesAddUp(answers: Answers, items: seq<Finding>)
    ensures |Kept(answers, items)| + |Dropped(answers, items)| == |items|
    decreases |items|
  {
    if items != [] {
      SizesAddUp(answers, items[..|items| - 1]);
    }
  }

  lemma {:induction false} KeptCarryCounts(answers: Answers, items: seq<Finding>)
    ensures forall f :: f in Kept(answers, items) && f.query != "" ==> answers(f.query) == Some(f.count) && f.verified
    decreases |items|
  {
    if items != [] {
      KeptCarryCounts(answers, items[..|items| - 1]);
    }
  }

  lemma CheckedAgain(answers: Answers, f: Finding)
    requires Stands(answers, f)
    ensures Stands(answers, Checked(answers, f)) && Checked(answers, Checked(answers, f)) == Checked(answers, f)
  {
  }

  lemma {:induction false} SettledStays(answers: Answers, items: seq<Finding>)
    requires forall f :: f in items ==> Stands(answers, f) && Checked(answers, f) == f
    ensures Kept(answers, items) == items && Dropped(answers, items) == []
    decreases |items|
  {
    if items != [] {
      var n := |items| - 1;
      SettledStays(answers, items[..n]);
      assert items == items[..n] + [items[n]];
    }
  }

  /** Asked again, the engine changes nothing. */
  lemma VerifyTwiceIsOnce(answers: Answers, items: seq<Finding>)
    ensures Kept(answers, Kept(answers, items)) == Kept(answers, items)
    ensures Dropped(answers, Kept(answers, items)) == []
  {
    var kept := Kept(answers, items);
    var from := KeptMeans(answers, items);
    forall f | f in kept ensures Stands(answers, f) && Checked(answers, f) == f {
      var i :| 0 <= i < |kept| && kept[i] == f;
      CheckedAgain(answers, items[from[i]]);
    }
    SettledStays(answers, kept);
  }
}
