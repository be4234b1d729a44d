/** The schema upgrade generator: compares the statements that describe a table in a new and in an old
    release and emits the statements that turn the old table into the new one (sql_process.py).
    Statements are given a small schema semantics, so that the output can be run. */
module SchemaMigration {

  import opened Basics

  /** A column item of a CREATE TABLE, white space and case normalised. */
  datatype Column = Column(name: string, definition: string, notNull: bool, default: Option<string>)

  /** A statement of a release's table description. `post` is what follows the columns without the
      PCTFREE and STORAGE clauses, which are kept in `storage` and ignored when comparing. */
  datatype SqlItem =
    | CreateTable(kind: nat, table: string, pre: string, columns: seq<Column>, post: string, storage: string)
    | CreateIndex(name: string, unique: bool, definition: string)
    | LoadDictionary(table: string)

  /** A generated statement. */
  datatype Stmt =
    | Exec(sql: SqlItem)
    | DropIndex(name: string)
    | AddColumn(column: Column)
    | UpdateColumn(name: string, value: string)
    | Commit

  datatype Error = UnmatchedItem | HeaderChanged | DecrementItems | NoDefault

  // ---- what statements mean ----

  /** The table as the database holds it: its columns in order (None: no table) and its indexes. */
  datatype Schema = Schema(columns: Option<seq<Column>>, indexes: map<string, SqlItem>)

  const NoTable: Schema := Schema(None, map[])

  /** Runs one statement; None when the database would reject it. */
  function Step(s: Schema, st: Stmt): Option<Schema> {
    match st
    case Exec(CreateTable(_, _, _, cols, _, _)) =>
      if s.columns.Some? || !DistinctNames(cols) then None else Some(s.(columns := Some(cols)))
    case Exec(CreateIndex(n, _, _)) =>
      if s.columns.None? || n in s.indexes then None else Some(s.(indexes := s.indexes[n := st.sql]))
    case Exec(LoadDictionary(_)) => Some(s)
    case DropIndex(n) => if n in s.indexes then Some(s.(indexes := s.indexes - {n})) else None
    case AddColumn(c) =>
      if s.columns.None? || HasColumn(s.columns.value, c.name) then None
      else Some(s.(columns := Some(s.columns.value + [c])))
    case UpdateColumn(n, _) => if s.columns.Some? && HasColumn(s.columns.value, n) then Some(s) else None
    case Commit => Some(s)
  }

  predicate DistinctNames(cols: seq<Column>) {
    forall j, k :: 0 <= j < k < |cols| ==> cols[j].name != cols[k].name
  }

  predicate HasColumn(cols: seq<Column>, name: string) { exists k :: 0 <= k < |cols| && cols[k].name == name }

  function Run(s: Schema, script: seq<Stmt>): Option<Schema>
    decreases script
  {
    if script == [] then Some(s)
    else
      var t := Step(s, script[0]);
      if t.None? then None else Run(t.value, script[1..])
  }

  lemma {:induction false} RunConcat(s: Schema, a: seq<Stmt>, b: seq<Stmt>)
    ensures Run(s, a + b) == (var t := Run(s, a); if t.None? then None else Run(t.value, b))
    decreases a
  {
    if a == [] {
      assert a + b == b;
    } else {
      assert (a + b)[1..] == a[1..] + b;
      var t := Step(s, a[0]);
      if t.Some? { RunConcat(t.value, a[1..], b); }
    }
  }

  // ---- a release's table group ----

  /** A group starts with its CREATE TABLE and holds no other; its column and index names are unique. */
  ghost predicate IsGroup(sqls: seq<SqlItem>) {
    && |sqls| > 0 && sqls[0].CreateTable? && DistinctNames(sqls[0].columns)
    && (forall k :: 1 <= k < |sqls| ==> !sqls[k].CreateTable?)
    && UniqueNames(sqls)
  }

  ghost predicate UniqueNames(sqls: seq<SqlItem>) {
    forall j, k :: 0 <= j < k < |sqls| && sqls[j].CreateIndex? && sqls[k].CreateIndex? ==> sqls[j].name != sqls[k].name
  }

  ghost function IndexMap(sqls: seq<SqlItem>): map<string, SqlItem> {
    if sqls == [] then map[]
    else
      var last := sqls[|sqls| - 1];
      var m := IndexMap(sqls[..|sqls| - 1]);
      if last.CreateIndex? then m[last.name := last] else m
  }

  /** The schema a group describes. */
  ghost function Described(sqls: seq<SqlItem>): Schema
    requires |sqls| > 0 && sqls[0].CreateTable?
  {
    Schema(Some(sqls[0].columns), IndexMap(sqls))
  }

  /** The map holds exactly the index statements of the group. */
  lemma {:induction false} IndexMapHolds(sqls: seq<SqlItem>, s: SqlItem)
    requires UniqueNames(sqls)
    ensures s.CreateIndex? ==> (s in sqls <==> s.name in IndexMap(sqls) && IndexMap(sqls)[s.name] == s)
  {
    if sqls != [] {
      var front, last := sqls[..|sqls| - 1], sqls[|sqls| - 1];
      IndexMapHolds(front, s);
      assert sqls == front + [last];
    }
  }

  /** Every entry of the map is an index statement, filed under its name. */
  lemma {:induction false} IndexMapNames(sqls: seq<SqlItem>, n: string)
    requires n in IndexMap(sqls)
    ensures IndexMap(sqls)[n].CreateIndex? && IndexMap(sqls)[n].name == n
  {
    if !(sqls[|sqls| - 1].CreateIndex? && sqls[|sqls| - 1].name == n) {
      IndexMapNames(sqls[..|sqls| - 1], n);
    }
  }

  ghost predicate IndexesWithin(a: seq<SqlItem>, b: seq<SqlItem>) {
    forall s :: s in a && s.CreateIndex? ==> s in b
  }

  lemma MapWithin(a: seq<SqlItem>, b: seq<SqlItem>, n: string)
    requires UniqueNames(a) && UniqueNames(b) && IndexesWithin(a, b)
    requires n in IndexMap(a)
    ensures n in IndexMap(b) && IndexMap(b)[n] == IndexMap(a)[n]
  {
    IndexMapNames(a, n);
    IndexMapHolds(a, IndexMap(a)[n]);
    IndexMapHolds(b, IndexMap(a)[n]);
  }

  /** Two groups have the same indexes exactly when each holds the other's index statements. */
  lemma SameIndexes(a: seq<SqlItem>, b: seq<SqlItem>)
    requires UniqueNames(a) && UniqueNames(b)
    ensures IndexMap(a) == IndexMap(b) <==> IndexesWithin(a, b) && IndexesWithin(b, a)
  {
    forall s: SqlItem | IndexMap(a) == IndexMap(b) && s.CreateIndex?
      ensures s in a <==> s in b
    {
      IndexMapHolds(a, s);
      IndexMapHolds(b, s);
    }
    if IndexesWithin(a, b) && IndexesWithin(b, a) {
      forall n | n in IndexMap(a) ensures n in IndexMap(b) && IndexMap(b)[n] == IndexMap(a)[n] { MapWithin(a, b, n); }
      forall n | n in IndexMap(b) ensures n in IndexMap(a) { MapWithin(b, a, n); }
    }
  }

  // ---- dropping and creating all indexes ----

  function Drops(sqls: seq<SqlItem>): seq<Stmt> {
    if sqls == [] then []
    else
      var last := sqls[|sqls| - 1];
      Drops(sqls[..|sqls| - 1]) + (if last.CreateIndex? then [DropIndex(last.name)] else [])
  }

  function Creates(sqls: seq<SqlItem>): seq<Stmt> {
    if sqls == [] then []
    else
      var last := sqls[|sqls| - 1];
      Creates(sqls[..|sqls| - 1]) + (if last.CreateIndex? then [Exec(last)] else [])
  }

  function Loads(sqls: seq<SqlItem>): seq<Stmt> {
    if sqls == [] then []
    else
      var last := sqls[|sqls| - 1];
      Loads(sqls[..|sqls| - 1]) + (if last.LoadDictionary? then [Exec(last)] else [])
  }

  predicate HasLoad(sqls: seq<SqlItem>) { exists k :: 0 <= k < |sqls| && sqls[k].LoadDictionary? }

  lemma RunOne(s: Schema, st: Stmt)
    ensures Run(s, [st]) == Step(s, st)
  {
    assert [st][1..] == [];
  }

  ghost predicate Holds(m: map<string, SqlItem>, sqls: seq<SqlItem>) {
    forall s :: s in sqls && s.CreateIndex? ==> s.name in m
  }

  ghost predicate Free(m: map<string, SqlItem>, sqls: seq<SqlItem>) {
    forall s :: s in sqls && s.CreateIndex? ==> s.name !in m
  }

  /** Dropping every index of a group succeeds and leaves none of them. */
  lemma {:induction false} DropsRun(c: Option<seq<Column>>, m: map<string, SqlItem>, sqls: seq<SqlItem>)
    requires UniqueNames(sqls) && Holds(m, sqls)
    ensures Run(Schema(c, m), Drops(sqls)) == Some(Schema(c, m - IndexMap(sqls).Keys))
  {
    if sqls == [] {
      assert m - IndexMap(sqls).Keys == m;
    } else {
      var front, last := sqls[..|sqls| - 1], sqls[|sqls| - 1];
      DropsRun(c, m, front);
      var mid := m - IndexMap(front).Keys;
      if last.CreateIndex? {
        RunConcat(Schema(c, m), Drops(front), [DropIndex(last.name)]);
        RunOne(Schema(c, mid), DropIndex(last.name));
        NotBefore(sqls);
        assert mid - {last.name} == m - IndexMap(sqls).Keys;
      } else {
        assert Drops(sqls) == Drops(front);
      }
    }
  }

  lemma NotBefore(sqls: seq<SqlItem>)
    requires sqls != [] && UniqueNames(sqls) && sqls[|sqls| - 1].CreateIndex?
    ensures sqls[|sqls| - 1].name !in IndexMap(sqls[..|sqls| - 1])
  {
    var front, n := sqls[..|sqls| - 1], sqls[|sqls| - 1].name;
    if n in IndexMap(front) {
      IndexMapNames(front, n);
      IndexMapHolds(front, IndexMap(front)[n]);
      assert false;
    }
  }

  /** Creating every index of a group, none of them there before, succeeds. */
  lemma {:induction false} CreatesRun(c: seq<Column>, m: map<string, SqlItem>, sqls: seq<SqlItem>)
    requires UniqueNames(sqls) && Free(m, sqls)
    ensures Run(Schema(Some(c), m), Creates(sqls)) == Some(Schema(Some(c), m + IndexMap(sqls)))
  {
    if sqls == [] {
      assert m + IndexMap(sqls) == m;
    } else {
      var front, last := sqls[..|sqls| - 1], sqls[|sqls| - 1];
      CreatesRun(c, m, front);
      var mid := m + IndexMap(front);
      if last.CreateIndex? {
        RunConcat(Schema(Some(c), m), Creates(front), [Exec(last)]);
        RunOne(Schema(Some(c), mid), Exec(last));
        NotBefore(sqls);
        assert mid[last.name := last] == m + IndexMap(sqls);
      } else {
        assert Creates(sqls) == Creates(front);
      }
    }
  }

  lemma {:induction false} LoadsRun(s: Schema, sqls: seq<SqlItem>)
    ensures Run(s, Loads(sqls)) == Some(s)
  {
    if sqls != [] {
      var front, last := sqls[..|sqls| - 1], sqls[|sqls| - 1];
      LoadsRun(s, front);
      if last.LoadDictionary? {
        RunConcat(s, Loads(front), [Exec(last)]);
        RunOne(s, Exec(last));
      } else {
        assert Loads(sqls) == Loads(front);
      }
    }
  }

  /** Dropping the old indexes and creating the new ones turns one index set into the other. */
  lemma RebuildRuns(c: seq<Column>, former: seq<SqlItem>, latest: seq<SqlItem>)
    requires UniqueNames(former) && UniqueNames(latest)
    ensures Run(Schema(Some(c), IndexMap(former)), Drops(former) + Creates(latest))
         == Some(Schema(Some(c), IndexMap(latest)))
  {
    var m := IndexMap(former);
    forall s | s in former && s.CreateIndex? ensures s.name in m { IndexMapHolds(former, s); }
    DropsRun(Some(c), m, former);
    assert m - m.Keys == map[];
    CreatesRun(c, map[], latest);
    assert map[] + IndexMap(latest) == IndexMap(latest);
    RunConcat(Schema(Some(c), m), Drops(former), Creates(latest));
  }

  // ---- comparing a new item with the old one ----

  /** SqlItem.isMatched, called on the old item. */
  predicate Matches(former: SqlItem, latest: SqlItem) {
    match former
    case CreateIndex(n, _, _) => latest.CreateIndex? && n == latest.name
    case CreateTable(k, t, _, _, _, _) => latest.CreateTable? && k == latest.kind && t == latest.table
    case LoadDictionary(_) => former == latest
  }

  /** Position of the first old item that matches, or the number of items. */
  function FirstMatch(sqls: seq<SqlItem>, s: SqlItem): (k: nat)
    ensures k <= |sqls|
    ensures k < |sqls| ==> Matches(sqls[k], s)
    ensures forall j :: 0 <= j < k ==> !Matches(sqls[j], s)
  {
    if sqls == [] then 0 else if Matches(sqls[0], s) then 0 else 1 + FirstMatch(sqls[1..], s)
  }

  function Adds(cs: seq<Column>): seq<Stmt> {
    if cs == [] then [] else Adds(cs[..|cs| - 1]) + [AddColumn(cs[|cs| - 1])]
  }

  /** What filling a new column takes. */
  function FillOf(c: Column): seq<Stmt> {
    if c.notNull && c.default.Some? then [UpdateColumn(c.name, c.default.value), Commit] else []
  }

  /** The UPDATE and COMMIT that fill a NOT NULL column with its default. */
  function Fills(cs: seq<Column>): seq<Stmt> {
    if cs == [] then []
    else Fills(cs[..|cs| - 1]) + FillOf(cs[|cs| - 1])
  }

  ghost predicate CanAdd(cs: seq<Column>) { forall k :: 0 <= k < |cs| ==> (cs[k].notNull ==> cs[k].default.Some?) }

  /** CreateTableSql.incrementItems: the columns added at the end; anything else is refused. */
  method IncrementItems(latest: seq<Column>, former: seq<Column>) returns (r: Result<seq<Column>, Error>)
    ensures r.Ok? <==> former <= latest
    ensures r.Ok? ==> r.value == latest[|former|..]
    ensures r.Err? ==> r.error == DecrementItems
  {
    if |latest| == |former| {
      for i := 0 to |latest|
        invariant latest[..i] == former[..i]
      {
        if latest[i] != former[i] {
          return Err(DecrementItems);
        }
      }
      assert latest[..|latest|] == latest && former[..|former|] == former;
      return Ok([]);
    }
    if |latest| < |former| {
      return Err(DecrementItems);
    }
    for i := 0 to |former|
      invariant latest[..i] == former[..i]
    {
      if latest[i] != former[i] {
        return Err(DecrementItems);
      }
    }
    assert former[..|former|] == former;
    var increment := [];
    for i := |former| to |latest|
      invariant increment == latest[|former|..i]
    {
      increment := increment + [latest[i]];
    }
    return Ok(increment);
  }

  /** The old table can grow into the new one by adding columns. */
  ghost predicate Grows(latest: SqlItem, former: SqlItem)
    requires latest.CreateTable? && former.CreateTable?
  {
    latest == former || (latest.pre == former.pre && latest.post == former.post && former.columns <= latest.columns
                     && CanAdd(latest.columns[|former.columns|..]))
  }

  lemma AddsStep(cs: seq<Column>, i: nat)
    requires i < |cs|
    ensures Adds(cs[..i + 1]) == Adds(cs[..i]) + [AddColumn(cs[i])]
    ensures Fills(cs[..i + 1]) == Fills(cs[..i]) + FillOf(cs[i])
  {
    assert cs[..i + 1][..i] == cs[..i];
  }

  lemma AddsNone(cs: seq<Column>)
    requires cs == []
    ensures Adds(cs) == [] && Fills(cs) == []
  {
  }

  /** SqlItem.generateUpgradeSql for a CREATE TABLE that has an old counterpart. */
  method UpgradeTable(latest: SqlItem, former: SqlItem) returns (r: Result<seq<Stmt>, Error>, extra: seq<Stmt>)
    requires latest.CreateTable? && former.CreateTable?
    ensures r.Ok? <==> Grows(latest, former)
    ensures r.Ok? ==> former.columns <= latest.columns
                      && r.value == Adds(latest.columns[|former.columns|..])
                      && extra == Fills(latest.columns[|former.columns|..])
  {
    hide Adds, Fills;
    extra := [];
    if latest == former {
      AddsNone(latest.columns[|former.columns|..]);
      return Ok([]), [];
    }
    if latest.pre != former.pre || latest.post != former.post {
      return Err(HeaderChanged), [];
    }
    var inc := IncrementItems(latest.columns, former.columns);
    if inc.Err? {
      return Err(inc.error), [];
    }
    var items, up := inc.value, [];
    AddsNone(items[..0]);
    for i := 0 to |items|
      invariant up == Adds(items[..i]) && extra == Fills(items[..i])
      invariant CanAdd(items[..i])
    {
      AddsStep(items, i);
      var item := items[i];
      if item.notNull {
        if item.default.None? {
          assert !CanAdd(items);
          return Err(NoDefault), [];
        }
        extra := extra + [UpdateColumn(item.name, item.default.value), Commit];
      }
      up := up + [AddColumn(item)];
    }
    assert items[..|items|] == items;
    return Ok(up), extra;
  }

  lemma LastIsNew(cols: seq<Column>, cs: seq<Column>)
    requires cs != [] && DistinctNames(cols + cs)
    ensures var front, last := cs[..|cs| - 1], cs[|cs| - 1];
            DistinctNames(cols + front) && !HasColumn(cols + front, last.name)
  {
    var front, last := cs[..|cs| - 1], cs[|cs| - 1];
    assert cols + cs == cols + front + [last];
    assert forall k :: 0 <= k < |cols + front| ==> (cols + cs)[k] == (cols + front)[k];
    forall k | 0 <= k < |cols + front| ensures (cols + front)[k].name != last.name {
      assert (cols + cs)[k] == (cols + front)[k] && (cols + cs)[|cols + cs| - 1] == last;
    }
  }

  lemma {:induction false} AddsRun(cols: seq<Column>, m: map<string, SqlItem>, cs: seq<Column>)
    requires DistinctNames(cols + cs)
    ensures Run(Schema(Some(cols), m), Adds(cs)) == Some(Schema(Some(cols + cs), m))
  {
    if cs == [] {
      assert cols + cs == cols;
    } else {
      var front, last := cs[..|cs| - 1], cs[|cs| - 1];
      LastIsNew(cols, cs);
      AddsRun(cols, m, front);
      RunConcat(Schema(Some(cols), m), Adds(front), [AddColumn(last)]);
      RunOne(Schema(Some(cols + front), m), AddColumn(last));
      assert cols + front + [last] == cols + cs;
    }
  }

  /** Filling columns the table has succeeds and changes no schema. */
  lemma {:induction false} FillsRun(cols: seq<Column>, m: map<string, SqlItem>, cs: seq<Column>)
    requires forall c :: c in cs ==> c in cols
    ensures Run(Schema(Some(cols), m), Fills(cs)) == Some(Schema(Some(cols), m))
  {
    if cs != [] {
      var front, c := cs[..|cs| - 1], cs[|cs| - 1];
      FillsRun(cols, m, front);
      if c.notNull && c.default.Some? {
        var s, u := Schema(Some(cols), m), UpdateColumn(c.name, c.default.value);
        RunConcat(s, Fills(front), [u, Commit]);
        assert c in cols;
        assert HasColumn(cols, c.name);
        assert [u, Commit] == [u] + [Commit];
        RunConcat(s, [u], [Commit]);
        RunOne(s, u);
        RunOne(s, Commit);
      } else {
        assert Fills(cs) == Fills(front);
      }
    }
  }

  // ---- the upgrade scripts and what they do ----

  /** Positions of `former` that the non-index items of `latest` fetch. */
  ghost function Touched(latest: seq<SqlItem>, former: seq<SqlItem>): set<nat> {
    if latest == [] then {}
    else
      var last := latest[|latest| - 1];
      var k := FirstMatch(former, last);
      Touched(latest[..|latest| - 1], former) + (if !last.CreateIndex? && k < |former| then {k} else {})
  }

  /** Every old statement other than an index still has a counterpart. */
  ghost predicate AllMatched(latest: seq<SqlItem>, former: seq<SqlItem>) {
    forall j :: 0 <= j < |former| && !former[j].CreateIndex? ==> j in Touched(latest, former)
  }

  /** When an upgrade exists: nothing but indexes may go away, and the table may only grow. */
  ghost predicate Upgradable(latest: seq<SqlItem>, former: seq<SqlItem>)
    requires IsGroup(latest) && IsGroup(former)
  {
    AllMatched(latest, former) && Grows(latest[0], former[0])
  }

  ghost function NewColumns(latest: seq<SqlItem>, former: seq<SqlItem>): seq<Column>
    requires IsGroup(latest) && IsGroup(former) && Grows(latest[0], former[0])
  {
    latest[0].columns[|former[0].columns|..]
  }

  lemma {:induction false} TouchedBy(latest: seq<SqlItem>, former: seq<SqlItem>, j: nat) returns (i: nat)
    requires j in Touched(latest, former)
    ensures i < |latest| && !latest[i].CreateIndex? && FirstMatch(former, latest[i]) == j && j < |former|
  {
    i := |latest| - 1;
    if latest[i].CreateIndex? || FirstMatch(former, latest[i]) != j || j >= |former| {
      i := TouchedBy(latest[..i], former, j);
    }
  }

  /** A fully matched old group is for the same table, found at its head. */
  lemma TableMatched(latest: seq<SqlItem>, former: seq<SqlItem>)
    requires IsGroup(latest) && IsGroup(former) && AllMatched(latest, former)
    ensures FirstMatch(former, latest[0]) == 0
  {
    var i := TouchedBy(latest, former, 0);
    assert i == 0;
  }

  /** An index statement fetches the old index of the same name; none other has it. */
  lemma IndexMatch(former: seq<SqlItem>, s: SqlItem)
    requires UniqueNames(former) && s.CreateIndex? && s in former
    ensures FirstMatch(former, s) < |former| && former[FirstMatch(former, s)] == s
  {
    var q :| 0 <= q < |former| && former[q] == s;
    var p := FirstMatch(former, s);
    assert Matches(former[q], s);
    assert p <= q;
    assert former[p].CreateIndex? && former[p].name == former[q].name;
  }

  /** SqlItem.generateUpgradeSql for any item; `matched` is its old counterpart. */
  method UpgradeItem(latest: SqlItem, matched: Option<SqlItem>) returns (r: Result<seq<Stmt>, Error>, extra: seq<Stmt>)
    requires matched.Some? ==> Matches(matched.value, latest)
    ensures matched.None? ==> r == Ok([Exec(latest)]) && extra == []
    ensures matched.Some? && latest == matched.value ==> r == Ok([]) && extra == []
    ensures matched.Some? && latest != matched.value && latest.CreateIndex? ==>
              r == Ok([DropIndex(latest.name), Exec(latest)]) && extra == []
    ensures matched.Some? && latest.CreateTable? ==> (r.Ok? <==> Grows(latest, matched.value))
    ensures matched.Some? && latest.CreateTable? && r.Ok? ==>
              && matched.value.columns <= latest.columns
              && r.value == Adds(latest.columns[|matched.value.columns|..])
              && extra == Fills(latest.columns[|matched.value.columns|..])
  {
    if matched.None? {
      return Ok([Exec(latest)]), [];
    }
    if latest == matched.value {
      if latest.CreateTable? { assert latest.columns[|latest.columns|..] == []; }
      return Ok([]), [];
    }
    if latest.CreateIndex? {
      return Ok([DropIndex(matched.value.name), Exec(latest)]), [];
    }
    r, extra := UpgradeTable(latest, matched.value);
  }

  /** The statements up to the index rebuild: reload, then the new columns. */
  lemma GrowRuns(latest: seq<SqlItem>, former: seq<SqlItem>, load: SqlItem)
    requires IsGroup(latest) && IsGroup(former) && Grows(latest[0], former[0]) && load.LoadDictionary?
    ensures Run(Described(former), Adds(NewColumns(latest, former)))
         == Some(Schema(Some(latest[0].columns), IndexMap(former)))
    ensures Run(Described(former), [Exec(load)] + Adds(NewColumns(latest, former)))
         == Some(Schema(Some(latest[0].columns), IndexMap(former)))
    ensures forall m :: var s := Schema(Some(latest[0].columns), m);
              Run(s, Fills(NewColumns(latest, former))) == Some(s)
  {
    var d := Described(former);
    assert former[0].columns + NewColumns(latest, former) == latest[0].columns;
    AddsRun(former[0].columns, IndexMap(former), NewColumns(latest, former));
    RunConcat(d, [Exec(load)], Adds(NewColumns(latest, former)));
    RunOne(d, Exec(load));
    forall m ensures var s := Schema(Some(latest[0].columns), m); Run(s, Fills(NewColumns(latest, former))) == Some(s) {
      FillsRun(latest[0].columns, m, NewColumns(latest, former));
    }
  }

  /** Every statement of a group as it stands; `all` keeps the reloads too. */
  function Copies(sqls: seq<SqlItem>, all: bool): seq<Stmt> {
    if sqls == [] then []
    else
      var last := sqls[|sqls| - 1];
      Copies(sqls[..|sqls| - 1], all) + (if all || !last.LoadDictionary? then [Exec(last)] else [])
  }

  /** A new table's script builds what the group describes, with or without the reloads. */
  lemma {:induction false} CopiesRun(sqls: seq<SqlItem>, all: bool)
    requires IsGroup(sqls)
    ensures Run(NoTable, Copies(sqls, all)) == Some(Described(sqls))
  {
    var front, last := sqls[..|sqls| - 1], sqls[|sqls| - 1];
    if front == [] {
      RunOne(NoTable, Exec(last));
      assert Copies(sqls, all) == [Exec(last)];
      assert IndexMap(front) == map[];
    } else {
      CopiesRun(front, all);
      if all || !last.LoadDictionary? {
        RunConcat(NoTable, Copies(front, all), [Exec(last)]);
        RunOne(Described(front), Exec(last));
        if last.CreateIndex? { NotBefore(sqls); }
      } else {
        assert Copies(sqls, all) == Copies(front, all);
      }
    }
  }

  /** Growing the table and rebuilding its indexes turns the old table into the new one. */
  lemma RebuildUpgrades(latest: seq<SqlItem>, former: seq<SqlItem>, load: SqlItem)
    requires IsGroup(latest) && IsGroup(former) && Grows(latest[0], former[0]) && load.LoadDictionary?
    ensures var d, more := Described(former), NewColumns(latest, former);
            var adds, fills := Adds(more), Fills(more);
            && Run(d, [Exec(load)] + adds + (Drops(former) + Creates(latest) + Loads(latest)))
               == Some(Described(latest))
            && Run(d, adds + (fills + (Drops(former) + Creates(latest)))) == Some(Described(latest))
  {
    hide Run, Step, Adds, Fills, Drops, Creates, Loads, IndexMap, UniqueNames;
    var d, adds, fills := Described(former), Adds(NewColumns(latest, former)), Fills(NewColumns(latest, former));
    var mid := Schema(Some(latest[0].columns), IndexMap(former));
    GrowRuns(latest, former, load);
    RebuildRuns(latest[0].columns, former, latest);
    LoadsRun(Described(latest), latest);
    RunConcat(mid, Drops(former) + Creates(latest), Loads(latest));
    RunConcat(d, [Exec(load)] + adds, Drops(former) + Creates(latest) + Loads(latest));
    RunConcat(mid, fills, Drops(former) + Creates(latest));
    RunConcat(d, adds, fills + (Drops(former) + Creates(latest)));
  }

  /** Growing the table alone leaves the old indexes. */
  lemma KeepUpgrades(latest: seq<SqlItem>, former: seq<SqlItem>, load: SqlItem)
    requires IsGroup(latest) && IsGroup(former) && Grows(latest[0], former[0]) && load.LoadDictionary?
    ensures var d, more := Described(former), NewColumns(latest, former);
            var adds, fills := Adds(more), Fills(more);
            var kept := Some(Schema(Some(latest[0].columns), IndexMap(former)));
            && Run(d, adds) == kept
            && Run(d, [Exec(load)] + adds) == kept
            && Run(d, [Exec(load)] + adds + [Exec(load)]) == kept
            && Run(d, adds + fills) == kept
  {
    var d, adds, fills := Described(former), Adds(NewColumns(latest, former)), Fills(NewColumns(latest, former));
    var mid := Schema(Some(latest[0].columns), IndexMap(former));
    GrowRuns(latest, former, load);
    RunConcat(d, [Exec(load)] + adds, [Exec(load)]);
    RunOne(mid, Exec(load));
    RunConcat(d, adds, fills);
  }

  /** The script leads from the old table to the new one exactly when the indexes are unchanged or the
      group reloads its dictionary; otherwise it leaves the old indexes on the grown table. */
  ghost predicate Upgrades(latest: seq<SqlItem>, former: seq<SqlItem>, script: seq<Stmt>)
    requires IsGroup(latest) && IsGroup(former)
  {
    && (Run(Described(former), script) == Some(Described(latest)) <==>
          HasLoad(latest) || IndexMap(latest) == IndexMap(former))
    && (!HasLoad(latest) ==> Run(Described(former), script) == Some(Schema(Some(latest[0].columns), IndexMap(former))))
  }

  lemma RebuildMeets(latest: seq<SqlItem>, former: seq<SqlItem>, load: Stmt, script: seq<Stmt>, diff: seq<Stmt>)
    requires IsGroup(latest) && IsGroup(former) && Grows(latest[0], former[0])
    requires load.Exec? && load.sql.LoadDictionary?
    requires IndexMap(latest) != IndexMap(former)
    requires script == [load] + Adds(NewColumns(latest, former)) +
                       (if HasLoad(latest) then Drops(former) + Creates(latest) + Loads(latest) else [])
    requires diff == Adds(NewColumns(latest, former)) +
                     (if HasLoad(latest)
                      then Fills(NewColumns(latest, former)) + (Drops(former) + Creates(latest)) else [])
    ensures Upgrades(latest, former, script) && Upgrades(latest, former, diff)
  {
    hide Run, Step, Adds, Fills, Drops, Creates, Loads, IndexMap, UniqueNames, Grows, HasLoad;
    if HasLoad(latest) {
      RebuildUpgrades(latest, former, load.sql);
    } else {
      KeepUpgrades(latest, former, load.sql);
      assert script == [load] + Adds(NewColumns(latest, former)) && diff == Adds(NewColumns(latest, former));
    }
  }

  lemma KeepMeets(latest: seq<SqlItem>, former: seq<SqlItem>, load: Stmt, script: seq<Stmt>, diff: seq<Stmt>)
    requires IsGroup(latest) && IsGroup(former) && Grows(latest[0], former[0])
    requires load.Exec? && load.sql.LoadDictionary?
    requires IndexMap(latest) == IndexMap(former)
    requires var adds := Adds(NewColumns(latest, former));
             && script == (if adds == [] then [load] else [load] + adds + [load])
             && diff == (if adds == [] then [] else adds + Fills(NewColumns(latest, former)))
    ensures Upgrades(latest, former, script) && Upgrades(latest, former, diff)
  {
    hide Run, Step, Adds, Fills, IndexMap, UniqueNames, Grows, HasLoad;
    KeepUpgrades(latest, former, load.sql);
    if Adds(NewColumns(latest, former)) == [] {
      assert [load] + [] == [load];
    }
  }

  // ---- the dictionary cache ----

  /** Is the dictionary stale after the script? A change of table or index makes it so, a reload clears it. */
  function StaleAfter(stale: bool, script: seq<Stmt>): bool {
    if script == [] then stale
    else
      match script[|script| - 1]
      case Exec(LoadDictionary(_)) => false
      case UpdateColumn(_, _) => StaleAfter(stale, script[..|script| - 1])
      case Commit => StaleAfter(stale, script[..|script| - 1])
      case _ => true
  }

  lemma {:induction false} StaleConcat(stale: bool, a: seq<Stmt>, b: seq<Stmt>)
    ensures StaleAfter(stale, a + b) == StaleAfter(StaleAfter(stale, a), b)
  {
    if b == [] {
      assert a + b == a;
    } else {
      assert (a + b)[..|a + b| - 1] == a + b[..|b| - 1];
      StaleConcat(stale, a, b[..|b| - 1]);
    }
  }

  lemma {:induction false} LoadsClear(stale: bool, sqls: seq<SqlItem>)
    ensures StaleAfter(stale, Loads(sqls)) == (stale && !HasLoad(sqls))
  {
    if sqls != [] {
      var front, last := sqls[..|sqls| - 1], sqls[|sqls| - 1];
      LoadsClear(stale, front);
      assert sqls == front + [last];
      if last.LoadDictionary? {
        assert sqls[|sqls| - 1].LoadDictionary?;
      } else {
        assert Loads(sqls) == Loads(front);
        assert HasLoad(sqls) ==> HasLoad(front);
        assert HasLoad(front) ==> HasLoad(sqls);
      }
    }
  }

  lemma AddsStale(stale: bool, cs: seq<Column>)
    ensures StaleAfter(stale, Adds(cs)) == (stale || cs != [])
  {
  }

  /** A new table's script leaves the dictionary loaded exactly when its last statement reloads it. */
  lemma CopiesStale(sqls: seq<SqlItem>)
    requires IsGroup(sqls)
    ensures StaleAfter(false, Copies(sqls, true)) <==> !sqls[|sqls| - 1].LoadDictionary?
  {
  }

  lemma RebuildStale(latest: seq<SqlItem>, former: seq<SqlItem>, load: Stmt, more: seq<Column>, script: seq<Stmt>)
    requires load.Exec? && load.sql.LoadDictionary?
    requires script == [load] + Adds(more) +
                       (if HasLoad(latest) then Drops(former) + Creates(latest) + Loads(latest) else [])
    ensures StaleAfter(false, script) <==> !HasLoad(latest) && more != []
  {
    hide Adds, Drops, Creates, Loads, HasLoad;
    var start := [load] + Adds(more);
    StaleConcat(false, [load], Adds(more));
    AddsStale(StaleAfter(false, [load]), more);
    if HasLoad(latest) {
      StaleConcat(false, start, Drops(former) + Creates(latest) + Loads(latest));
      StaleConcat(StaleAfter(false, start), Drops(former) + Creates(latest), Loads(latest));
      LoadsClear(StaleAfter(StaleAfter(false, start), Drops(former) + Creates(latest)), latest);
    } else {
      assert script == start;
    }
  }

  // ---- filling the new columns ----

  /** The NOT NULL columns whose rows still wait for their default, and whether updates are uncommitted. */
  datatype Ledger = Ledger(owed: map<string, string>, uncommitted: bool)

  const SETTLED: Ledger := Ledger(map[], false)

  function Post(l: Ledger, st: Stmt): Ledger {
    match st
    case AddColumn(c) => if c.notNull && c.default.Some? then l.(owed := l.owed[c.name := c.default.value]) else l
    case UpdateColumn(n, v) =>
      Ledger(if n in l.owed && l.owed[n] == v then l.owed - {n} else l.owed, true)
    case Commit => l.(uncommitted := false)
    case _ => l
  }

  function PostAll(l: Ledger, script: seq<Stmt>): Ledger {
    if script == [] then l else Post(PostAll(l, script[..|script| - 1]), script[|script| - 1])
  }

  lemma {:induction false} PostConcat(l: Ledger, a: seq<Stmt>, b: seq<Stmt>)
    ensures PostAll(l, a + b) == PostAll(PostAll(l, a), b)
  {
    if b == [] {
      assert a + b == a;
    } else {
      assert (a + b)[..|a + b| - 1] == a + b[..|b| - 1];
      PostConcat(l, a, b[..|b| - 1]);
    }
  }

  /** What rows owe after the columns were added. */
  ghost function Dues(cs: seq<Column>): map<string, string> {
    if cs == [] then map[]
    else
      var c := cs[|cs| - 1];
      var m := Dues(cs[..|cs| - 1]);
      if c.notNull && c.default.Some? then m[c.name := c.default.value] else m
  }

  lemma {:induction false} DuesNames(cs: seq<Column>, n: string)
    ensures n in Dues(cs) <==> exists k :: 0 <= k < |cs| && cs[k].name == n && cs[k].notNull && cs[k].default.Some?
  {
    if cs != [] {
      var front, c := cs[..|cs| - 1], cs[|cs| - 1];
      DuesNames(front, n);
      assert cs == front + [c];
      if n in Dues(front) {
        var k :| 0 <= k < |front| && front[k].name == n && front[k].notNull && front[k].default.Some?;
        assert cs[k] == front[k];
      }
      if c.name == n && c.notNull && c.default.Some? { assert cs[|cs| - 1] == c; }
    }
  }

  lemma NewDue(cs: seq<Column>)
    requires cs != [] && DistinctNames(cs)
    ensures var front, c := cs[..|cs| - 1], cs[|cs| - 1];
            && DistinctNames(front) && c.name !in Dues(front)
            && Dues(cs) == if c.notNull && c.default.Some? then Dues(front)[c.name := c.default.value] else Dues(front)
  {
    var front, c := cs[..|cs| - 1], cs[|cs| - 1];
    assert forall k :: 0 <= k < |front| ==> front[k] == cs[k];
    DuesNames(front, c.name);
  }

  lemma {:induction false} AddsPost(cs: seq<Column>)
    ensures PostAll(SETTLED, Adds(cs)) == Ledger(Dues(cs), false)
  {
    if cs != [] { AddsPost(cs[..|cs| - 1]); }
  }

  /** The columns' rows owe exactly what the ledger says of them. */
  ghost predicate OwedIn(l: Ledger, dues: map<string, string>) {
    forall n :: n in dues ==> n in l.owed && l.owed[n] == dues[n]
  }

  lemma FillOne(l: Ledger, c: Column)
    requires !l.uncommitted
    requires c.notNull && c.default.Some? ==> c.name in l.owed && l.owed[c.name] == c.default.value
    ensures PostAll(l, FillOf(c)) == if c.notNull && c.default.Some? then Ledger(l.owed - {c.name}, false) else l
  {
    if c.notNull && c.default.Some? {
      var u := UpdateColumn(c.name, c.default.value);
      assert FillOf(c) == [u] + [Commit];
      PostConcat(l, [u], [Commit]);
      PostOne(l, u);
      PostOne(Post(l, u), Commit);
    }
  }

  lemma RestOwed(l: Ledger, cs: seq<Column>)
    requires cs != [] && DistinctNames(cs) && OwedIn(l, Dues(cs))
    ensures var front, c := cs[..|cs| - 1], cs[|cs| - 1];
            && DistinctNames(front) && OwedIn(l, Dues(front))
            && var mid := l.owed - Dues(front).Keys;
            if c.notNull && c.default.Some?
            then c.name in mid && mid[c.name] == c.default.value && mid - {c.name} == l.owed - Dues(cs).Keys
            else mid == l.owed - Dues(cs).Keys
  {
    NewDue(cs);
    hide Dues, DistinctNames;
  }

  /** The fills settle what the columns owe and nothing else. */
  lemma {:induction false} FillsPost(l: Ledger, cs: seq<Column>)
    requires DistinctNames(cs) && !l.uncommitted && OwedIn(l, Dues(cs))
    ensures PostAll(l, Fills(cs)) == Ledger(l.owed - Dues(cs).Keys, false)
  {
    if cs == [] {
      assert l.owed - Dues(cs).Keys == l.owed;
    } else {
      var front, c := cs[..|cs| - 1], cs[|cs| - 1];
      assert Fills(cs) == Fills(front) + FillOf(c);
      hide *;
      RestOwed(l, cs);
      FillsPost(l, front);
      PostConcat(l, Fills(front), FillOf(c));
      FillOne(Ledger(l.owed - Dues(front).Keys, false), c);
    }
  }

  lemma PostOne(l: Ledger, st: Stmt)
    ensures PostAll(l, [st]) == Post(l, st)
  {
    assert [st][..0] == [];
  }

  ghost predicate Plain(script: seq<Stmt>) {
    forall k :: 0 <= k < |script| ==> script[k].Exec? || script[k].DropIndex?
  }

  lemma {:induction false} PlainPost(l: Ledger, script: seq<Stmt>)
    requires Plain(script)
    ensures PostAll(l, script) == l
  {
    if script != [] { PlainPost(l, script[..|script| - 1]); }
  }

  lemma {:induction false} IndexStmtsPlain(sqls: seq<SqlItem>)
    ensures Plain(Drops(sqls)) && Plain(Creates(sqls)) && Plain(Loads(sqls))
  {
    if sqls != [] { IndexStmtsPlain(sqls[..|sqls| - 1]); }
  }

  /** A script that adds the columns among plain statements, followed by the fills, settles every row. */
  lemma FillsSettle(before: seq<Stmt>, cs: seq<Column>, rest: seq<Stmt>)
    requires Plain(before) && Plain(rest) && DistinctNames(cs)
    ensures PostAll(SETTLED, before + Adds(cs) + rest) == Ledger(Dues(cs), false)
    ensures PostAll(SETTLED, before + Adds(cs) + rest + Fills(cs)) == SETTLED
  {
    hide Adds, Fills, Plain, Dues, DistinctNames;
    PostConcat(SETTLED, before + Adds(cs) + rest, Fills(cs));
    PostConcat(SETTLED, before + Adds(cs), rest);
    PostConcat(SETTLED, before, Adds(cs));
    PlainPost(SETTLED, before);
    AddsPost(cs);
    PlainPost(Ledger(Dues(cs), false), rest);
    FillsPost(Ledger(Dues(cs), false), cs);
    assert Dues(cs) - Dues(cs).Keys == map[];
  }

  /** The script and then the extra statements leave no row of a new NOT NULL column without its default. */
  ghost predicate Settles(script: seq<Stmt>, extra: seq<Stmt>) { PostAll(SETTLED, script + extra) == SETTLED }

  lemma NewColumnsDistinct(latest: seq<SqlItem>, former: seq<SqlItem>)
    requires IsGroup(latest) && IsGroup(former) && Grows(latest[0], former[0])
    ensures DistinctNames(NewColumns(latest, former))
  {
    var n := |former[0].columns|;
    forall j, k | 0 <= j < k < |NewColumns(latest, former)|
      ensures NewColumns(latest, former)[j].name != NewColumns(latest, former)[k].name
    {
      assert NewColumns(latest, former)[j] == latest[0].columns[n + j];
      assert NewColumns(latest, former)[k] == latest[0].columns[n + k];
    }
  }

  lemma RebuildSettles(latest: seq<SqlItem>, former: seq<SqlItem>, load: Stmt, script: seq<Stmt>)
    requires IsGroup(latest) && IsGroup(former) && Grows(latest[0], former[0]) && load.Exec?
    requires script == [load] + Adds(NewColumns(latest, former)) +
                       (if HasLoad(latest) then Drops(former) + Creates(latest) + Loads(latest) else [])
    ensures Settles(script, Fills(NewColumns(latest, former)))
  {
    hide Adds, Fills, Drops, Creates, Loads, HasLoad, PostAll, IsGroup, Grows;
    NewColumnsDistinct(latest, former);
    IndexStmtsPlain(former);
    IndexStmtsPlain(latest);
    var rest := if HasLoad(latest) then Drops(former) + Creates(latest) + Loads(latest) else [];
    FillsSettle([load], NewColumns(latest, former), rest);
  }

  lemma KeepSettles(latest: seq<SqlItem>, former: seq<SqlItem>, load: Stmt, script: seq<Stmt>)
    requires IsGroup(latest) && IsGroup(former) && Grows(latest[0], former[0]) && load.Exec?
    requires var adds := Adds(NewColumns(latest, former));
             script == if adds == [] then [load] else [load] + adds + [load]
    ensures Settles(script, Fills(NewColumns(latest, former)))
  {
    hide Fills, PostAll, IsGroup, Grows, Adds;
    NewColumnsDistinct(latest, former);
    if Adds(NewColumns(latest, former)) == [] {
      FillsSettle([load], NewColumns(latest, former), []);
      assert [load] + [] + [] == [load];
    } else {
      FillsSettle([load], NewColumns(latest, former), [load]);
    }
  }

  lemma RebuildDiffSettles(latest: seq<SqlItem>, former: seq<SqlItem>, diff: seq<Stmt>)
    requires IsGroup(latest) && IsGroup(former) && Grows(latest[0], former[0])
    requires diff == Adds(NewColumns(latest, former)) +
                     (if HasLoad(latest)
                      then Fills(NewColumns(latest, former)) + (Drops(former) + Creates(latest)) else [])
    ensures PostAll(SETTLED, diff) == SETTLED <==> HasLoad(latest) || Dues(NewColumns(latest, former)) == map[]
  {
    hide Adds, Fills, Drops, Creates, HasLoad, PostAll, IsGroup, Grows, Dues;
    var cs := NewColumns(latest, former);
    NewColumnsDistinct(latest, former);
    FillsSettle([], cs, []);
    assert [] + Adds(cs) + [] == Adds(cs);
    if HasLoad(latest) {
      var rest := Drops(former) + Creates(latest);
      IndexStmtsPlain(former);
      IndexStmtsPlain(latest);
      assert diff == Adds(cs) + Fills(cs) + rest;
      PostConcat(SETTLED, Adds(cs) + Fills(cs), rest);
      PlainPost(SETTLED, rest);
    } else {
      assert diff == Adds(cs);
    }
  }

  lemma KeepDiffSettles(latest: seq<SqlItem>, former: seq<SqlItem>, diff: seq<Stmt>)
    requires IsGroup(latest) && IsGroup(former) && Grows(latest[0], former[0])
    requires var adds := Adds(NewColumns(latest, former));
             diff == if adds == [] then [] else adds + Fills(NewColumns(latest, former))
    ensures PostAll(SETTLED, diff) == SETTLED
  {
    hide Adds, Fills, IsGroup, Grows;
    var cs := NewColumns(latest, former);
    NewColumnsDistinct(latest, former);
    FillsSettle([], cs, []);
    assert [] + Adds(cs) + [] == Adds(cs);
  }

  lemma KeepClear(adds: seq<Stmt>, load: Stmt)
    requires load.Exec? && load.sql.LoadDictionary?
    ensures !StaleAfter(false, [load]) && !StaleAfter(false, [load] + adds + [load])
  {
  }

  // ---- what must not go away ----

  lemma {:induction false} TouchedIf(latest: seq<SqlItem>, former: seq<SqlItem>, i: nat)
    requires i < |latest| && !latest[i].CreateIndex? && FirstMatch(former, latest[i]) < |former|
    ensures FirstMatch(former, latest[i]) in Touched(latest, former)
  {
    if i < |latest| - 1 { TouchedIf(latest[..|latest| - 1], former, i); }
  }

  /** Reload j of the old group is there in the new one, and is not a repetition. */
  ghost predicate ReloadKept(latest: seq<SqlItem>, former: seq<SqlItem>, j: nat)
    requires j < |former|
  {
    former[j] in latest && forall i :: 0 <= i < j ==> former[i] != former[j]
  }

  /** Everything is matched exactly when the table is the same and every reload is kept, none written twice. */
  lemma AllMatchedMeans(latest: seq<SqlItem>, former: seq<SqlItem>)
    requires IsGroup(latest) && IsGroup(former)
    ensures AllMatched(latest, former) <==>
              && latest[0].kind == former[0].kind && latest[0].table == former[0].table
              && forall j :: 0 <= j < |former| && former[j].LoadDictionary? ==> ReloadKept(latest, former, j)
  {
    if latest[0].kind == former[0].kind && latest[0].table == former[0].table {
      assert Matches(former[0], latest[0]);
      TouchedIf(latest, former, 0);
    }
    if AllMatched(latest, former) {
      TableMatched(latest, former);
    }
    forall j | 0 <= j < |former| && former[j].LoadDictionary?
      ensures j in Touched(latest, former) <==> ReloadKept(latest, former, j)
    {
      ReloadTouched(latest, former, j);
    }
  }

  lemma ReloadTouched(latest: seq<SqlItem>, former: seq<SqlItem>, j: nat)
    requires j < |former| && former[j].LoadDictionary?
    ensures j in Touched(latest, former) <==> ReloadKept(latest, former, j)
  {
    if j in Touched(latest, former) {
      var i := TouchedBy(latest, former, j);
      assert latest[i] == former[j];
      forall k | 0 <= k < j ensures former[k] != former[j] { assert !Matches(former[k], latest[i]); }
    }
    if ReloadKept(latest, former, j) {
      var i :| 0 <= i < |latest| && latest[i] == former[j];
      assert Matches(former[j], latest[i]);
      assert forall k :: 0 <= k < j ==> !Matches(former[k], latest[i]);
      TouchedIf(latest, former, i);
    }
  }

  lemma TouchedPlain(latest: seq<SqlItem>, former: seq<SqlItem>, j: nat)
    requires j in Touched(latest, former)
    ensures j < |former| && !former[j].CreateIndex?
  {
    var i := TouchedBy(latest, former, j);
  }

  const BARE_TABLE: SqlItem :=
    CreateTable(1, "T", "CREATE TABLE T (", [Column("ID", "NUMBER", false, None)], ")", "")
  const NEW_INDEX: SqlItem := CreateIndex("IX_T", true, "(ID)")

  lemma IndexAdded()
    ensures IsGroup([BARE_TABLE]) && IsGroup([BARE_TABLE, NEW_INDEX])
    ensures Upgradable([BARE_TABLE, NEW_INDEX], [BARE_TABLE]) && !HasLoad([BARE_TABLE, NEW_INDEX])
    ensures IndexMap([BARE_TABLE]) == map[] && "IX_T" in IndexMap([BARE_TABLE, NEW_INDEX])
  {
    var former, latest := [BARE_TABLE], [BARE_TABLE, NEW_INDEX];
    assert latest[..1] == former && former[..0] == [];
    assert FirstMatch(former, BARE_TABLE) == 0;
    assert Touched(former, former) == {0};
    assert Touched(latest, former) == Touched(former, former);
    assert IndexMap([]) == map[];
    assert IndexMap(former) == map[];
    assert IndexMap(latest) == map["IX_T" := NEW_INDEX];
  }

  /** Adding an index to a group without LOAD DICTIONARY: the generator accepts it, and its script leaves the
      table without the index. */
  method IndexNeverMade() returns (script: seq<Stmt>)
    ensures IsGroup([BARE_TABLE, NEW_INDEX]) && "IX_T" in Described([BARE_TABLE, NEW_INDEX]).indexes
    ensures Run(Described([BARE_TABLE]), script) == Some(Described([BARE_TABLE]))
    ensures "IX_T" !in Described([BARE_TABLE]).indexes
  {
    hide IndexMap, IsGroup, Upgradable, HasLoad, Run, Fills;
    IndexAdded();
    var former := new TableGroup("T", [BARE_TABLE]);
    var latest := new TableGroup("T", [BARE_TABLE, NEW_INDEX]);
    var r, extra := latest.GenerateUpgrade(former);
    script := r.value;
  }

  class TableGroup {
    const table: string
    const sqls: seq<SqlItem>
    var fetched: set<nat>
    var tableDiff: seq<Stmt>

    constructor (table: string, sqls: seq<SqlItem>)
      ensures this.table == table && this.sqls == sqls && fetched == {} && tableDiff == []
    {
      this.table, this.sqls, fetched, tableDiff := table, sqls, {}, [];
    }

    /** TableGroup.__fetch: the first item that matches, which is flagged. */
    method Fetch(sql: SqlItem) returns (matched: Option<SqlItem>)
      modifies this`fetched
      ensures var k := FirstMatch(sqls, sql);
              && matched == (if k < |sqls| then Some(sqls[k]) else None)
              && fetched == old(fetched) + (if k < |sqls| then {k} else {})
    {
      for i := 0 to |sqls|
        invariant fetched == old(fetched)
        invariant forall j :: 0 <= j < i ==> !Matches(sqls[j], sql)
      {
        if Matches(sqls[i], sql) {
          fetched := fetched + {i};
          return Some(sqls[i]);
        }
      }
      return None;
    }

    /** TableGroup.__isAllMatched. */
    method IsAllMatched(other: TableGroup) returns (all: bool)
      requires other.fetched == {}
      modifies other`fetched
      ensures all <==> AllMatched(sqls, other.sqls)
      ensures other.fetched == Touched(sqls, other.sqls)
    {
      for i := 0 to |sqls|
        invariant other.fetched == Touched(sqls[..i], other.sqls)
      {
        assert sqls[..i + 1][..i] == sqls[..i];
        if !sqls[i].CreateIndex? {
          var _ := other.Fetch(sqls[i]);
        }
      }
      assert sqls[..|sqls|] == sqls;
      for j := 0 to |other.sqls|
        invariant forall k :: 0 <= k < j && !other.sqls[k].CreateIndex? ==> k in other.fetched
      {
        if !other.sqls[j].CreateIndex? && j !in other.fetched {
          return false;
        }
      }
      return true;
    }

    /** The flagged old indexes are the first `i` new statements' indexes. */
    ghost predicate Flagged(other: TableGroup, i: nat)
      reads other
      requires i <= |sqls|
    {
      forall j :: 0 <= j < |other.sqls| && other.sqls[j].CreateIndex? ==>
        (j in other.fetched <==> other.sqls[j] in sqls[..i])
    }

    /** One pass of the first loop of __isDropIndex. */
    method SameIndex(other: TableGroup, i: nat) returns (same: bool)
      requires i < |sqls| && sqls[i].CreateIndex? && UniqueNames(other.sqls) && Flagged(other, i)
      modifies other`fetched
      ensures same <==> sqls[i] in other.sqls
      ensures same ==> Flagged(other, i + 1)
      ensures old(other.fetched) <= other.fetched
    {
      if sqls[i] in other.sqls {
        IndexMatch(other.sqls, sqls[i]);
      }
      var matched := other.Fetch(sqls[i]);
      assert sqls[..i + 1] == sqls[..i] + [sqls[i]];
      same := matched.Some? && matched.value == sqls[i];
    }

    /** TableGroup.__isDropIndex: must the indexes be rebuilt? Exactly when the two releases' indexes differ. */
    method IsDropIndex(other: TableGroup) returns (drop: bool)
      requires UniqueNames(sqls) && UniqueNames(other.sqls)
      requires Flagged(other, 0)
      modifies other`fetched
      ensures drop <==> IndexMap(sqls) != IndexMap(other.sqls)
      ensures old(other.fetched) <= other.fetched
    {
      SameIndexes(sqls, other.sqls);
      for i := 0 to |sqls|
        invariant IndexesWithin(sqls[..i], other.sqls) && Flagged(other, i)
        invariant old(other.fetched) <= other.fetched
      {
        assert sqls[..i + 1] == sqls[..i] + [sqls[i]];
        if sqls[i].CreateIndex? {
          var same := SameIndex(other, i);
          if !same {
            return true;
          }
        }
      }
      assert sqls[..|sqls|] == sqls;
      for j := 0 to |other.sqls|
        invariant forall k :: 0 <= k < j && other.sqls[k].CreateIndex? ==> other.sqls[k] in sqls
      {
        if other.sqls[j].CreateIndex? && j !in other.fetched {
          return true;
        }
      }
      return false;
    }

    /** The branch of generateUpgradeSql for a table the old release does not have. */
    method CreateAll() returns (script: seq<Stmt>)
      modifies this`tableDiff
      ensures script == Copies(sqls, true) && tableDiff == Copies(sqls, false)
    {
      script, tableDiff := [], [];
      for i := 0 to |sqls|
        invariant script == Copies(sqls[..i], true) && tableDiff == Copies(sqls[..i], false)
      {
        assert sqls[..i + 1][..i] == sqls[..i];
        var up, _ := UpgradeItem(sqls[i], None);
        script := script + up.value;
        if !sqls[i].LoadDictionary? {
          tableDiff := tableDiff + up.value;
        }
      }
      assert sqls[..|sqls|] == sqls;
    }

    /** TableGroup.__geneDropAllIndexSqls. */
    method DropAllIndexes() returns (drops: seq<Stmt>)
      ensures drops == Drops(sqls)
    {
      drops := [];
      for i := 0 to |sqls|
        invariant drops == Drops(sqls[..i])
      {
        assert sqls[..i + 1][..i] == sqls[..i];
        if sqls[i].CreateIndex? {
          drops := drops + [DropIndex(sqls[i].name)];
        }
      }
      assert sqls[..|sqls|] == sqls;
    }

    /** The branch of generateUpgradeSql that drops and creates all indexes. */
    method Rebuild(other: TableGroup) returns (r: Result<seq<Stmt>, Error>, extra: seq<Stmt>)
      requires this != other && IsGroup(sqls) && IsGroup(other.sqls) && AllMatched(sqls, other.sqls)
      modifies this`tableDiff, other`fetched
      ensures old(other.fetched) <= other.fetched
      ensures r.Ok? <==> Grows(sqls[0], other.sqls[0])
      ensures r.Ok? ==>
                var adds := Adds(NewColumns(sqls, other.sqls));
                && extra == Fills(NewColumns(sqls, other.sqls))
                && r.value == [Exec(LoadDictionary(table))] + adds +
                      (if HasLoad(sqls) then Drops(other.sqls) + Creates(sqls) + Loads(sqls) else [])
                && tableDiff == adds + (if HasLoad(sqls) then extra + (Drops(other.sqls) + Creates(sqls)) else [])
    {
      TableMatched(sqls, other.sqls);
      var script := [Exec(LoadDictionary(table))];
      extra, tableDiff := [], [];
      for i := 0 to |sqls|
        invariant old(other.fetched) <= other.fetched
        invariant !HasLoad(sqls[..i])
        invariant i == 0 ==> script == [Exec(LoadDictionary(table))] && extra == [] && tableDiff == []
        invariant i > 0 ==> Grows(sqls[0], other.sqls[0])
                            && tableDiff == Adds(NewColumns(sqls, other.sqls))
                            && script == [Exec(LoadDictionary(table))] + tableDiff
                            && extra == Fills(NewColumns(sqls, other.sqls))
      {
        if sqls[i].LoadDictionary? {
          var drops := other.DropAllIndexes();
          var up := drops + Creates(sqls);
          tableDiff := tableDiff + (extra + up);
          return Ok(script + (up + Loads(sqls))), extra;
        }
        if sqls[i].CreateTable? {
          var matched := other.Fetch(sqls[i]);
          var up, more := UpgradeItem(sqls[i], matched);
          if up.Err? {
            return Err(up.error), [];
          }
          script, extra, tableDiff := script + up.value, extra + more, tableDiff + up.value;
        }
      }
      assert sqls[..|sqls|] == sqls;
      return Ok(script), extra;
    }

    /** The branch of generateUpgradeSql that keeps the indexes. */
    method Keep(other: TableGroup) returns (r: Result<seq<Stmt>, Error>, extra: seq<Stmt>)
      requires this != other && IsGroup(sqls) && IsGroup(other.sqls) && AllMatched(sqls, other.sqls)
      requires IndexesWithin(sqls, other.sqls)
      modifies this`tableDiff, other`fetched
      ensures old(other.fetched) <= other.fetched
      ensures r.Ok? <==> Grows(sqls[0], other.sqls[0])
      ensures r.Ok? ==>
                var adds, load := Adds(NewColumns(sqls, other.sqls)), [Exec(LoadDictionary(table))];
                && extra == Fills(NewColumns(sqls, other.sqls))
                && r.value == (if adds == [] then load else load + adds + load)
                && tableDiff == (if adds == [] then [] else adds + extra)
    {
      TableMatched(sqls, other.sqls);
      var script := [];
      extra, tableDiff := [], [];
      var i := 0;
      while i < |sqls|
        invariant i <= |sqls| && tableDiff == [] && old(other.fetched) <= other.fetched
        invariant i == 0 ==> script == [] && extra == []
        invariant i > 0 ==> Grows(sqls[0], other.sqls[0])
                            && script == Adds(NewColumns(sqls, other.sqls))
                            && extra == Fills(NewColumns(sqls, other.sqls))
      {
        if sqls[i].CreateIndex? { IndexMatch(other.sqls, sqls[i]); }
        var matched := other.Fetch(sqls[i]);
        var up, more := UpgradeItem(sqls[i], matched);
        if up.Err? {
          return Err(up.error), [];
        }
        extra := extra + more;
        if sqls[i].LoadDictionary? {
          break;
        }
        script := script + up.value;
        i := i + 1;
      }
      if script != [] {
        tableDiff := script + extra;
        script := [Exec(LoadDictionary(table))] + script;
      }
      return Ok(script + [Exec(LoadDictionary(table))]), extra;
    }

    /** The branch of generateUpgradeSql for a table both releases have. */
    method UpgradeFrom(other: TableGroup) returns (r: Result<seq<Stmt>, Error>, extra: seq<Stmt>)
      requires IsGroup(sqls) && other != this && IsGroup(other.sqls) && other.fetched == {}
      modifies this`tableDiff, other`fetched
      ensures r.Ok? <==> Upgradable(sqls, other.sqls)
      ensures r.Ok? ==> Upgrades(sqls, other.sqls, r.value) && Upgrades(sqls, other.sqls, tableDiff)
      ensures r.Ok? ==> extra == Fills(NewColumns(sqls, other.sqls)) && Settles(r.value, extra)
                        && Run(Described(sqls), extra) == Some(Described(sqls))
      ensures r.Ok? ==> (PostAll(SETTLED, tableDiff) == SETTLED <==>
                           HasLoad(sqls) || IndexMap(sqls) == IndexMap(other.sqls)
                           || Dues(NewColumns(sqls, other.sqls)) == map[])
      ensures r.Ok? ==> (StaleAfter(false, r.value) <==> !HasLoad(sqls) && IndexMap(sqls) != IndexMap(other.sqls)
                                                         && NewColumns(sqls, other.sqls) != [])
      ensures other.fetched >= Touched(sqls, other.sqls)
    {
      hide Run, Step, Adds, Fills, Drops, Creates, Loads, IndexMap, UniqueNames, Grows, HasLoad;
      hide Upgrades, AllMatched, Touched, StaleAfter, Settles, PostAll, Dues;
      tableDiff := [];
      var all := IsAllMatched(other);
      if !all {
        return Err(UnmatchedItem), [];
      }
      forall j: nat | j in Touched(sqls, other.sqls) ensures j < |other.sqls| && !other.sqls[j].CreateIndex? {
        TouchedPlain(sqls, other.sqls, j);
      }
      var drop := IsDropIndex(other);
      if drop {
        r, extra := Rebuild(other);
        if r.Ok? {
          RebuildMeets(sqls, other.sqls, Exec(LoadDictionary(table)), r.value, tableDiff);
          RebuildSettles(sqls, other.sqls, Exec(LoadDictionary(table)), r.value);
          RebuildDiffSettles(sqls, other.sqls, tableDiff);
          RebuildStale(sqls, other.sqls, Exec(LoadDictionary(table)), NewColumns(sqls, other.sqls), r.value);
        }
      } else {
        SameIndexes(sqls, other.sqls);
        r, extra := Keep(other);
        if r.Ok? {
          KeepMeets(sqls, other.sqls, Exec(LoadDictionary(table)), r.value, tableDiff);
          KeepSettles(sqls, other.sqls, Exec(LoadDictionary(table)), r.value);
          KeepDiffSettles(sqls, other.sqls, tableDiff);
          KeepClear(Adds(NewColumns(sqls, other.sqls)), Exec(LoadDictionary(table)));
        }
      }
      if r.Ok? { GrowRuns(sqls, other.sqls, LoadDictionary(table)); }
    }

    /** TableGroup.generateUpgradeSql. The script and the recorded difference turn the old table into the
        new one, except that without a LOAD DICTIONARY statement in the group changed indexes stay. */
    method GenerateUpgrade(other: TableGroup?) returns (r: Result<seq<Stmt>, Error>, extra: seq<Stmt>)
      requires IsGroup(sqls)
      requires other != null ==> other != this && IsGroup(other.sqls) && other.fetched == {}
      modifies this`tableDiff, (if other == null then {} else {other})`fetched
      ensures other == null ==> r.Ok? && extra == []
                                && Run(NoTable, r.value) == Some(Described(sqls))
                                && Run(NoTable, tableDiff) == Some(Described(sqls))
      ensures other != null ==> (r.Ok? <==> Upgradable(sqls, other.sqls))
      ensures other != null && r.Ok? ==> Upgrades(sqls, other.sqls, r.value) && Upgrades(sqls, other.sqls, tableDiff)
      ensures other != null && r.Ok? ==> extra == Fills(NewColumns(sqls, other.sqls)) && Settles(r.value, extra)
                                         && Run(Described(sqls), extra) == Some(Described(sqls))
      ensures other != null && r.Ok? ==>
                (StaleAfter(false, r.value) <==> !HasLoad(sqls) && IndexMap(sqls) != IndexMap(other.sqls)
                                                 && NewColumns(sqls, other.sqls) != [])
      ensures other == null ==> (StaleAfter(false, r.value) <==> !sqls[|sqls| - 1].LoadDictionary?)
      ensures other != null ==> other.fetched >= Touched(sqls, other.sqls)
    {
      if other == null {
        var script := CreateAll();
        CopiesRun(sqls, true);
        CopiesRun(sqls, false);
        CopiesStale(sqls);
        return Ok(script), [];
      }
      r, extra := UpgradeFrom(other);
    }
  }
}
