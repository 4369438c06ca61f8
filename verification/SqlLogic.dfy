/**
  The SQL that Veritix's checks are compiled to: predicates over one row of a
  table of optional strings, evaluated in three-valued logic.  IN follows
  section 8.4 of ISO/IEC 9075-2: a disjunction of equalities, so one NULL among
  the candidates keeps NOT IN from ever being true.

  The engine's own functions (lower, trim, TRY_CAST, regular expressions, the
  clock) are parameters.
*/
module SqlLogic {
  import opened Wrappers

  datatype Truth = True | False | Unknown

  type Cell = Option<string>

  function Known(b: bool): Truth { if b then True else False }

  function Not3(a: Truth): Truth {
    match a case True => False case False => True case Unknown => Unknown
  }

  function And3(a: Truth, b: Truth): Truth {
    if a == False || b == False then False
    else if a == True && b == True then True else Unknown
  }

  function Or3(a: Truth, b: Truth): Truth { Not3(And3(Not3(a), Not3(b))) }

  function Eq3(a: Cell, b: Cell): Truth {
    if a.Some? && b.Some? then Known(a == b) else Unknown
  }

  function In3(x: Cell, candidates: seq<Cell>): Truth {
    if candidates == [] then False
    else Or3(Eq3(x, candidates[0]), In3(x, candidates[1..]))
  }

  /** Stands for the database engine's built-in functions, and for Go's
      strings.ToLower, strings.TrimSpace and len beside them. */
  datatype Engine = Engine(
    goLower: string -> string,
    goTrim: string -> string,
    goLen: string -> nat,
    lower: string -> string,
    trim: string -> string,
    toDouble: string -> Option<real>,
    toTimestamp: string -> Option<int>,
    fullMatch: (string, string) -> bool,
    clause: (string, string, nat) -> Truth,
    // whether a query over these values fails: a timeout, say
    fails: seq<string> -> bool,
    now: int)

  /** table name -> column name -> cells, row by row */
  type Database = map<string, map<string, seq<Cell>>>

  datatype Scalar = Col | Lit(text: string) | Lower(arg: Scalar) | Trim(arg: Scalar)

  datatype Bound = Below(limit: real) | AtMost(limit: real) | Above(limit: real)

  datatype Pred =
    | IsNotNull(s: Scalar)
    | Differs(s: Scalar, t: Scalar)
    | In(s: Scalar, list: seq<Scalar>)
    // s IN (SELECT sel FROM table WHERE filter)
    | InSelect(s: Scalar, sel: Scalar, table: string, column: string, filter: Pred)
    // the same, unfiltered, where table lacks the column: it is then the outer row's
    | InOuter(s: Scalar, sel: Scalar, table: string, from: string, column: string)
    // s IN (SELECT sel FROM table WHERE filter GROUP BY 1 HAVING count(*) > 1)
    | InRepeated(s: Scalar, sel: Scalar, table: string, column: string, filter: Pred)
    // no WHERE clause at all
    | Always
    // TRY_CAST(s AS DOUBLE) compared with a limit, inside coalesce(.., 0) or not
    | Number(s: Scalar, coalesceZero: bool, bound: Bound)
    | AfterNow(s: Scalar)
    | FullMatch(s: Scalar, pattern: string)
    | Clause(text: string)
    | Neg(p: Pred)
    | Both(p: Pred, q: Pred)
    | Either(p: Pred, q: Pred)

  /** The row a predicate is asked about, and the cell of its column there. */
  datatype Row = Row(table: string, index: nat, cell: Cell)

  function EvalScalar(e: Engine, s: Scalar, v: Cell): Cell {
    match s
    case Col => v
    case Lit(t) => Some(t)
    case Lower(a) =>
      (match EvalScalar(e, a, v) case None => None case Some(x) => Some(e.lower(x)))
    case Trim(a) =>
      (match EvalScalar(e, a, v) case None => None case Some(x) => Some(e.trim(x)))
  }

  function EvalScalars(e: Engine, ss: seq<Scalar>, v: Cell): (r: seq<Cell>)
    ensures |r| == |ss| && forall i :: 0 <= i < |ss| ==> r[i] == EvalScalar(e, ss[i], v)
  {
    seq(|ss|, i requires 0 <= i < |ss| => EvalScalar(e, ss[i], v))
  }

  function Compare(x: real, b: Bound): bool {
    match b
    case Below(l) => x < l
    case AtMost(l) => x <= l
    case Above(l) => x > l
  }

  /** Every table and column the predicate names exists. */
  predicate Names(db: Database, p: Pred) {
    match p
    case InSelect(_, _, t, c, f) => t in db && c in db[t] && Names(db, f)
    case InRepeated(_, _, t, c, f) => t in db && c in db[t] && Names(db, f)
    case InOuter(_, _, t, from, c) => t in db && from in db && c in db[from]
    case Neg(q) => Names(db, q)
    case Both(q, r) => Names(db, q) && Names(db, r)
    case Either(q, r) => Names(db, q) && Names(db, r)
    case _ => true
  }

  /** A column of an unfiltered subquery is looked for in the subquery's table, and
      then in the table the whole statement is about. */
  function Bind(db: Database, from: string, p: Pred): Pred {
    match p
    case InSelect(s, sel, t, c, Always) =>
      if t in db && c !in db[t] && from in db && c in db[from] then InOuter(s, sel, t, from, c) else p
    case Neg(q) => Neg(Bind(db, from, q))
    case Both(q, r) => Both(Bind(db, from, q), Bind(db, from, r))
    case Either(q, r) => Either(Bind(db, from, q), Bind(db, from, r))
    case _ => p
  }

  lemma {:induction false} NamesBindThemselves(db: Database, from: string, p: Pred)
    requires Names(db, p)
    ensures Bind(db, from, p) == p
  {
    match p
    case Neg(q) => NamesBindThemselves(db, from, q);
    case Both(q, r) =>
      NamesBindThemselves(db, from, q);
      NamesBindThemselves(db, from, r);
    case Either(q, r) =>
      NamesBindThemselves(db, from, q);
      NamesBindThemselves(db, from, r);
    case _ =>
  }

  predicate HasRows(db: Database, table: string) {
    table in db && exists c :: c in db[table] && db[table][c] != []
  }

  function OuterCell(db: Database, from: string, column: string, index: nat): Cell {
    if from in db && column in db[from] && index < |db[from][column]| then db[from][column][index] else None
  }

  function Eval(e: Engine, db: Database, p: Pred, row: Row): Truth
    requires Names(db, p)
    decreases p, 0
  {
    match p
    case IsNotNull(s) => Known(EvalScalar(e, s, row.cell).Some?)
    case Differs(s, t) => Not3(Eq3(EvalScalar(e, s, row.cell), EvalScalar(e, t, row.cell)))
    case In(s, list) => In3(EvalScalar(e, s, row.cell), EvalScalars(e, list, row.cell))
    case InSelect(s, sel, t, c, f) =>
      In3(EvalScalar(e, s, row.cell), Pick(Verdicts(e, db, f, t, db[t][c]), Values(e, sel, db[t][c])))
    case InOuter(s, sel, t, from, c) =>
      In3(EvalScalar(e, s, row.cell),
          if HasRows(db, t) then [EvalScalar(e, sel, OuterCell(db, from, c, row.index))] else [])
    case InRepeated(s, sel, t, c, f) =>
      In3(EvalScalar(e, s, row.cell), Repeated(Pick(Verdicts(e, db, f, t, db[t][c]), Values(e, sel, db[t][c]))))
    case Always => True
    case Number(s, zero, b) =>
      (match EvalScalar(e, s, row.cell)
       case None => if zero then Known(Compare(0.0, b)) else Unknown
       case Some(x) =>
         match e.toDouble(x)
         case None => if zero then Known(Compare(0.0, b)) else Unknown
         case Some(d) => Known(Compare(d, b)))
    case AfterNow(s) =>
      (match EvalScalar(e, s, row.cell)
       case None => Unknown
       case Some(x) =>
         match e.toTimestamp(x) case None => Unknown case Some(t) => Known(t > e.now))
    case FullMatch(s, pattern) =>
      (match EvalScalar(e, s, row.cell) case None => Unknown case Some(x) => Known(e.fullMatch(x, pattern)))
    case Clause(text) => e.clause(text, row.table, row.index)
    case Neg(q) => Not3(Eval(e, db, q, row))
    case Both(q, r) => And3(Eval(e, db, q, row), Eval(e, db, r, row))
    case Either(q, r) => Or3(Eval(e, db, q, row), Eval(e, db, r, row))
  }

  /** A predicate's verdict on every row of a table. */
  function Verdicts(e: Engine, db: Database, p: Pred, table: string, cells: seq<Cell>): (r: seq<Truth>)
    requires Names(db, p)
    ensures |r| == |cells|
    ensures forall i :: 0 <= i < |cells| ==> r[i] == Eval(e, db, p, Row(table, i, cells[i]))
    decreases p, 1
  {
    seq(|cells|, i requires 0 <= i < |cells| => Eval(e, db, p, Row(table, i, cells[i])))
  }

  function Values(e: Engine, s: Scalar, cells: seq<Cell>): (r: seq<Cell>)
    ensures |r| == |cells| && forall i :: 0 <= i < |cells| ==> r[i] == EvalScalar(e, s, cells[i])
  {
    seq(|cells|, i requires 0 <= i < |cells| => EvalScalar(e, s, cells[i]))
  }

  /** WHERE: the values of the rows whose verdict is TRUE. */
  function Pick(verdicts: seq<Truth>, values: seq<Cell>): seq<Cell>
    requires |verdicts| == |values|
  {
    if values == [] then []
    else
      var n := |values| - 1;
      Pick(verdicts[..n], values[..n]) + (if verdicts[n] == True then [values[n]] else [])
  }

  function Repeated(vs: seq<Cell>): (r: seq<Cell>) {
    Filter(vs, vs)
  }

  function Filter(vs: seq<Cell>, all: seq<Cell>): seq<Cell> {
    if vs == [] then []
    else (if multiset(all)[vs[0]] > 1 then [vs[0]] else []) + Filter(vs[1..], all)
  }

  // ---- how IN comes out ----------------------------------------------------------

  lemma {:induction false} InMeans(x: Cell, vs: seq<Cell>)
    ensures In3(x, vs) == True <==> x.Some? && x in vs
    ensures In3(x, vs) == False <==> vs == [] || (x.Some? && None !in vs && x !in vs)
  {
    if vs != [] {
      InMeans(x, vs[1..]);
      assert vs == [vs[0]] + vs[1..];
    }
  }

  /** A value is in a multiset-filtered sequence exactly when it repeats. */
  lemma {:induction false} FilterMeans(vs: seq<Cell>, all: seq<Cell>, x: Cell)
    ensures x in Filter(vs, all) <==> x in vs && multiset(all)[x] > 1
  {
    if vs != [] {
      FilterMeans(vs[1..], all, x);
      assert vs == [vs[0]] + vs[1..];
    }
  }

  /** The rows from which a selection yields x. */
  ghost function Sources(verdicts: seq<Truth>, values: seq<Cell>, x: Cell): set<nat>
    requires |verdicts| == |values|
  {
    set j: nat | j < |values| && verdicts[j] == True && values[j] == x
  }

  /** A selection yields a value once for each row that is a source of it. */
  lemma {:induction false} PickCounts(verdicts: seq<Truth>, values: seq<Cell>, x: Cell)
    requires |verdicts| == |values|
    ensures multiset(Pick(verdicts, values))[x] == |Sources(verdicts, values, x)|
    decreases |values|
  {
    if values == [] {
      assert Sources(verdicts, values, x) == {};
    } else {
      var n := |values| - 1;
      PickCounts(verdicts[..n], values[..n], x);
      SourcesStep(verdicts, values, x);
    }
  }

  lemma SourcesOfLast(verdicts: seq<Truth>, values: seq<Cell>, x: Cell)
    requires |verdicts| == |values| > 0
    ensures var n := |values| - 1;
      Sources(verdicts, values, x) ==
        Sources(verdicts[..n], values[..n], x) + (if verdicts[n] == True && values[n] == x then {n} else {})
  {
  }

  lemma SourcesStep(verdicts: seq<Truth>, values: seq<Cell>, x: Cell)
    requires |verdicts| == |values| > 0
    ensures var n := |values| - 1;
      |Sources(verdicts, values, x)| ==
        |Sources(verdicts[..n], values[..n], x)| + (if verdicts[n] == True && values[n] == x then 1 else 0)
  {
    var n := |values| - 1;
    SourcesOfLast(verdicts, values, x);
    var before := Sources(verdicts[..n], values[..n], x);
    assert n !in before;
  }

  lemma PickMeans(verdicts: seq<Truth>, values: seq<Cell>, x: Cell)
    requires |verdicts| == |values|
    ensures x in Pick(verdicts, values) <==> exists j :: 0 <= j < |values| && verdicts[j] == True && values[j] == x
  {
    PickCounts(verdicts, values, x);
    var sources := Sources(verdicts, values, x);
    assert x in Pick(verdicts, values) <==> x in multiset(Pick(verdicts, values));
    if sources != {} {
      var j :| j in sources;
      assert verdicts[j] == True && values[j] == x;
    }
    if j :| 0 <= j < |values| && verdicts[j] == True && values[j] == x {
      assert j in sources;
    }
  }

  ghost predicate Yields(verdicts: seq<Truth>, values: seq<Cell>, x: Cell)
    requires |verdicts| == |values|
  {
    exists j :: 0 <= j < |values| && verdicts[j] == True && values[j] == x
  }

  /** IN over a selection: true of a value some row yields; otherwise unknown as soon
      as some row yields NULL. */
  lemma InPickMeans(verdicts: seq<Truth>, values: seq<Cell>, key: string)
    requires |verdicts| == |values|
    ensures In3(Some(key), Pick(verdicts, values)) ==
      if Yields(verdicts, values, Some(key)) then True else if Yields(verdicts, values, None) then Unknown else False
  {
    PickMeans(verdicts, values, Some(key));
    PickMeans(verdicts, values, None);
    InMeans(Some(key), Pick(verdicts, values));
  }

  /** HAVING count(*) > 1 keeps the value of a yielding row exactly when another
      row yields it too. */
  lemma RepeatedMeans(verdicts: seq<Truth>, values: seq<Cell>, i: nat)
    requires |verdicts| == |values| && i < |values| && verdicts[i] == True
    ensures values[i] in Repeated(Pick(verdicts, values)) <==>
      exists j :: 0 <= j < |values| && j != i && verdicts[j] == True && values[j] == values[i]
  {
    var vs := Pick(verdicts, values);
    FilterMeans(vs, vs, values[i]);
    PickCounts(verdicts, values, values[i]);
    SeveralSources(verdicts, values, i);
    assert values[i] in multiset(vs);
  }

  /** The same as a three-valued IN, where no yielding row holds a NULL. */
  lemma InRepeatedMeans(verdicts: seq<Truth>, values: seq<Cell>, i: nat)
    requires |verdicts| == |values| && i < |values| && verdicts[i] == True && values[i].Some?
    requires !Yields(verdicts, values, None)
    ensures In3(values[i], Repeated(Pick(verdicts, values))) ==
      Known(exists j :: 0 <= j < |values| && j != i && verdicts[j] == True && values[j] == values[i])
  {
    var vs := Pick(verdicts, values);
    RepeatedMeans(verdicts, values, i);
    InMeans(values[i], Repeated(vs));
    FilterMeans(vs, vs, None);
    PickMeans(verdicts, values, None);
  }

  lemma SeveralSources(verdicts: seq<Truth>, values: seq<Cell>, i: nat)
    requires |verdicts| == |values| && i < |values| && verdicts[i] == True
    ensures |Sources(verdicts, values, values[i])| >= 1
    ensures |Sources(verdicts, values, values[i])| > 1 <==>
      exists j :: 0 <= j < |values| && j != i && verdicts[j] == True && values[j] == values[i]
  {
    var sources := Sources(verdicts, values, values[i]);
    assert i in sources;
    var others := sources - {i};
    assert |others| == |sources| - 1;
    if others != {} {
      var j :| j in others;
      assert j != i && verdicts[j] == True && values[j] == values[i];
    }
    if j :| 0 <= j < |values| && j != i && verdicts[j] == True && values[j] == values[i] {
      assert j in others;
    }
  }

  // ---- SELECT count(*) FROM table WHERE p ------------------------------------------

  function CountTrue(verdicts: seq<Truth>): nat {
    if verdicts == [] then 0
    else CountTrue(verdicts[..|verdicts| - 1]) + (if verdicts[|verdicts| - 1] == True then 1 else 0)
  }

  /** SELECT count(*): how many rows the predicate is TRUE of. */
  lemma {:induction false} CountIsCardinality(verdicts: seq<Truth>)
    ensures CountTrue(verdicts) == |set i: nat | i < |verdicts| && verdicts[i] == True|
  {
    var hits := set i: nat | i < |verdicts| && verdicts[i] == True;
    if verdicts == [] {
      assert hits == {};
    } else {
      var n := |verdicts| - 1;
      var init := verdicts[..n];
      CountIsCardinality(init);
      var before := set i: nat | i < |init| && init[i] == True;
      if verdicts[n] == True {
        assert hits == before + {n};
      } else {
        assert hits == before;
      }
    }
  }

  function Count(e: Engine, db: Database, p: Pred, table: string, cells: seq<Cell>): nat
    requires Names(db, p)
  {
    CountTrue(Verdicts(e, db, p, table, cells))
  }
}
