/** The scripts between two releases: which per-version files an upgrade and a degrade of an object
    include, in which order, and when the degrade undoes the upgrade (sql_process.py). */
module VersionScripts {

  import opened Basics

  datatype Direction = Up | Down

  /** A statement file of an object: the generated step between versions 0 and 1, or a shipped step. */
  datatype File = Generated(dir: Direction) | Shipped(dir: Direction, version: nat)

  datatype Line = Reload | Include(file: File)

  /** An object of the higher release. `low` is its version in the lower release, None when it is not
      there; `in01` tells whether the version 1 baseline has it; `files` are the files that exist. */
  datatype Item = Item(name: string, isTable: bool, low: Option<nat>, high: nat, in01: bool, files: set<File>)

  function Turn(f: File): File {
    var d := if f.dir == Up then Down else Up;
    match f
    case Generated(_) => Generated(d)
    case Shipped(_, v) => Shipped(d, v)
  }

  /** Where the step between versions 0 and 1 is looked for. */
  function FirstStep(it: Item, dir: Direction): File {
    if it.low.None? && !it.in01 then Shipped(dir, 1) else Generated(dir)
  }

  /** The version the lower release has; an object it does not have counts as version 0. */
  function LowVersion(it: Item): nat {
    if it.low.None? then 0 else it.low.value
  }

  function StartVersion(it: Item): nat {
    if LowVersion(it) + 1 < 2 then 2 else LowVersion(it) + 1
  }

  function Shippeds(dir: Direction, from: nat, to: nat): seq<File> {
    if to <= from then [] else Shippeds(dir, from, to - 1) + [Shipped(dir, to - 1)]
  }

  /** The step to or from version 1, if its file exists. */
  function Head(it: Item, dir: Direction): seq<File> {
    if FirstStep(it, dir) in it.files then [FirstStep(it, dir)] else []
  }

  /** The steps of an object, lowest version first. */
  function Steps(it: Item, dir: Direction): seq<File> {
    Head(it, dir) + Shippeds(dir, StartVersion(it), it.high + 1)
  }

  ghost predicate BothShipped(it: Item, to: nat) {
    forall v :: 2 <= v < to && v > LowVersion(it) ==> Shipped(Up, v) in it.files && Shipped(Down, v) in it.files
  }

  ghost predicate UpReady(it: Item) {
    && (it.low.None? ==> FirstStep(it, Up) in it.files)
    && (it.low.None? && !it.in01 ==> Shipped(Down, 1) in it.files)
    && BothShipped(it, it.high + 1)
  }

  ghost predicate DownReady(it: Item) {
    && (it.low.None? ==> FirstStep(it, Down) in it.files)
    && BothShipped(it, it.high + 1)
  }

  /** generateFileName with checkFileExist. */
  method UpgradeFiles(it: Item) returns (r: Result<seq<File>, File>)
    ensures r.Ok? <==> UpReady(it)
    ensures r.Ok? ==> r.value == Steps(it, Up)
    ensures r.Err? ==> r.error !in it.files
  {
    var first := FirstStep(it, Up);
    if it.low.None? {
      if first !in it.files { return Err(first); }
      if !it.in01 && Shipped(Down, 1) !in it.files { return Err(Shipped(Down, 1)); }
    }
    var found := if first in it.files then [first] else [];
    ghost var head := found;
    var v := StartVersion(it);
    while v < it.high + 1
      invariant v == StartVersion(it) || v <= it.high + 1
      invariant StartVersion(it) <= v && BothShipped(it, v)
      invariant found == head + Shippeds(Up, StartVersion(it), v)
    {
      if Shipped(Up, v) !in it.files { return Err(Shipped(Up, v)); }
      if Shipped(Down, v) !in it.files { return Err(Shipped(Down, v)); }
      found := found + [Shipped(Up, v)];
      v := v + 1;
    }
    return Ok(found);
  }

  /** generateDegreFiles up to the list of files, with checkDegredFile: for an object without a version 1
      baseline it looks for the same degrade file twice and never for the upgrade file. */
  method DegradeFiles(it: Item) returns (r: Result<seq<File>, File>)
    ensures r.Ok? <==> DownReady(it)
    ensures r.Ok? ==> r.value == Steps(it, Down)
    ensures r.Err? ==> r.error !in it.files
  {
    var first := FirstStep(it, Down);
    if it.low.None? && first !in it.files {
      return Err(first);
    }
    var found := if first in it.files then [first] else [];
    ghost var head := found;
    var v := StartVersion(it);
    while v < it.high + 1
      invariant v == StartVersion(it) || v <= it.high + 1
      invariant StartVersion(it) <= v && BothShipped(it, v)
      invariant found == head + Shippeds(Down, StartVersion(it), v)
    {
      if Shipped(Down, v) !in it.files { return Err(Shipped(Down, v)); }
      if Shipped(Up, v) !in it.files { return Err(Shipped(Up, v)); }
      found := found + [Shipped(Down, v)];
      v := v + 1;
    }
    return Ok(found);
  }

  /** The two file checks differ only in the first step of an object the lower release does not have. */
  lemma ChecksDiffer(it: Item)
    ensures DownReady(it) && !UpReady(it) <==> DownReady(it) && it.low.None? && FirstStep(it, Up) !in it.files
    ensures UpReady(it) && !DownReady(it) <==> UpReady(it) && it.low.None? && it.in01 && Generated(Down) !in it.files
  {
  }

  /** A new object without a version 1 baseline, shipped with its degrade file only. */
  lemma MissingUpgradeAccepted()
    ensures var it := Item("T", true, None, 1, false, {Shipped(Down, 1)}); DownReady(it) && !UpReady(it)
  {
    var it := Item("T", true, None, 1, false, {Shipped(Down, 1)});
    assert FirstStep(it, Up) !in it.files;
  }

  // ---- the order of the steps ----

  function TurnAll(fs: seq<File>): seq<File> {
    if fs == [] then [] else [Turn(fs[0])] + TurnAll(fs[1..])
  }

  function Reverse(fs: seq<File>): seq<File> {
    if fs == [] then [] else Reverse(fs[1..]) + [fs[0]]
  }

  lemma {:induction false} TurnAllConcat(a: seq<File>, b: seq<File>)
    ensures TurnAll(a + b) == TurnAll(a) + TurnAll(b)
  {
    if a == [] {
      assert a + b == b;
    } else {
      assert (a + b)[1..] == a[1..] + b;
      TurnAllConcat(a[1..], b);
    }
  }

  lemma {:induction false} TurnShippeds(from: nat, to: nat)
    ensures TurnAll(Shippeds(Up, from, to)) == Shippeds(Down, from, to)
  {
    if to > from {
      TurnShippeds(from, to - 1);
      TurnAllConcat(Shippeds(Up, from, to - 1), [Shipped(Up, to - 1)]);
      assert [Shipped(Up, to - 1)][1..] == [];
    }
  }

  lemma {:induction false} ShippedsLength(dir: Direction, from: nat, to: nat)
    ensures |Shippeds(dir, from, to)| == if to <= from then 0 else to - from
  {
    if to > from { ShippedsLength(dir, from, to - 1); }
  }

  lemma {:induction false} TurnLength(fs: seq<File>)
    ensures |TurnAll(fs)| == |fs|
  {
    if fs != [] { TurnLength(fs[1..]); }
  }

  /** The degrade takes the steps of the upgrade, turned round, exactly when the step between versions
      0 and 1 exists in both directions or in neither. */
  lemma StepsMirror(it: Item)
    ensures Steps(it, Down) == TurnAll(Steps(it, Up)) <==> FirstStepPaired(it)
  {
    var from, to, up := StartVersion(it), it.high + 1, FirstStep(it, Up);
    TurnShippeds(from, to);
    ShippedsLength(Up, from, to);
    ShippedsLength(Down, from, to);
    TurnLength(Steps(it, Up));
    if up in it.files {
      TurnAllConcat([up], Shippeds(Up, from, to));
      assert [up][1..] == [];
    } else {
      assert Steps(it, Up) == Shippeds(Up, from, to);
    }
  }

  // ---- the scripts ----

  function UpLines(isTable: bool, fs: seq<File>): seq<Line> {
    if fs == [] then []
    else UpLines(isTable, fs[..|fs| - 1]) + [Include(fs[|fs| - 1])] + (if isTable then [Reload] else [])
  }

  lemma UpLinesNone(isTable: bool)
    ensures UpLines(isTable, []) == []
  {
  }

  lemma UpLinesStep(isTable: bool, fs: seq<File>, i: nat)
    requires i < |fs|
    ensures UpLines(isTable, fs[..i + 1])
         == UpLines(isTable, fs[..i]) + [Include(fs[i])] + (if isTable then [Reload] else [])
  {
    assert fs[..i + 1][..i] == fs[..i];
  }

  function Includes(fs: seq<File>): seq<Line> {
    if fs == [] then [] else Includes(fs[..|fs| - 1]) + [Include(fs[|fs| - 1])]
  }

  lemma IncludesStart(fs: seq<File>)
    ensures Includes(fs[..0]) == []
  {
  }

  lemma IncludesStep(fs: seq<File>, i: nat)
    requires i < |fs|
    ensures Includes(fs[..i + 1]) == Includes(fs[..i]) + [Include(fs[i])]
  {
    assert fs[..i + 1][..i] == fs[..i];
  }

  function UpgradeScript(it: Item): seq<Line> {
    (if it.low.Some? && it.isTable then [Reload] else []) + UpLines(it.isTable, Steps(it, Up))
  }

  function DegradeScript(it: Item): seq<Line> {
    var fs := Steps(it, Down);
    (if it.isTable then [Reload] else []) + Includes(Reverse(fs)) +
    (if it.low.Some? && fs != [] && it.isTable then [Reload] else [])
  }

  /** generate_upgrade's step for one object, with readDiffFiles. */
  method Upgrade(it: Item) returns (r: Result<seq<Line>, File>)
    ensures r.Ok? <==> UpReady(it)
    ensures r.Ok? ==> r.value == UpgradeScript(it)
  {
    hide Steps, UpReady, UpLines;
    var fs := UpgradeFiles(it);
    if fs.Err? { return Err(fs.error); }
    var files := fs.value;
    ghost var head := if it.low.Some? && it.isTable then [Reload] else [];
    var lines := if it.low.Some? && it.isTable then [Reload] else [];
    UpLinesNone(it.isTable);
    assert files[..0] == [];
    for i := 0 to |files|
      invariant lines == head + UpLines(it.isTable, files[..i])
    {
      UpLinesStep(it.isTable, files, i);
      lines := lines + [Include(files[i])];
      if it.isTable { lines := lines + [Reload]; }
    }
    assert files[..|files|] == files;
    return Ok(lines);
  }

  lemma {:induction false} ReverseAt(fs: seq<File>, k: nat)
    requires k < |fs|
    ensures |Reverse(fs)| == |fs| && Reverse(fs)[|fs| - 1 - k] == fs[k]
  {
    if |fs| > 1 { ReverseAt(fs[1..], if k > 0 then k - 1 else 0); }
  }

  lemma {:induction false} ReverseLength(fs: seq<File>)
    ensures |Reverse(fs)| == |fs|
  {
    if fs != [] { ReverseLength(fs[1..]); }
  }

  /** generateDegreFiles from the list of files on: the files are written highest version first. */
  method Degrade(it: Item) returns (r: Result<seq<Line>, File>)
    ensures r.Ok? <==> DownReady(it)
    ensures r.Ok? ==> r.value == DegradeScript(it)
  {
    hide Steps, DownReady, Reverse, Includes;
    var fs := DegradeFiles(it);
    if fs.Err? { return Err(fs.error); }
    var files := fs.value;
    ghost var head := if it.isTable then [Reload] else [];
    var lines := if it.isTable then [Reload] else [];
    ReverseLength(files);
    IncludesStart(Reverse(files));
    var i := |files|;
    while i > 0
      invariant 0 <= i <= |files| == |Reverse(files)|
      invariant lines == head + Includes(Reverse(files)[..|files| - i])
    {
      i := i - 1;
      ReverseAt(files, i);
      IncludesStep(Reverse(files), |files| - i - 1);
      lines := lines + [Include(files[i])];
    }
    assert Reverse(files)[..|files|] == Reverse(files);
    if it.low.Some? && files != [] && it.isTable { lines := lines + [Reload]; }
    return Ok(lines);
  }

  // ---- what the scripts do ----

  type Effect<!S> = (File, S) -> Option<S>

  /** Runs a script on the state of its object; reloading the dictionary changes nothing. */
  ghost function RunLines<S>(run: Effect<S>, lines: seq<Line>, s: S): Option<S>
    decreases lines
  {
    if lines == [] then Some(s)
    else if lines[0].Reload? then RunLines(run, lines[1..], s)
    else
      var t := run(lines[0].file, s);
      if t.None? then None else RunLines(run, lines[1..], t.value)
  }

  ghost function RunFiles<S>(run: Effect<S>, fs: seq<File>, s: S): Option<S>
    decreases fs
  {
    if fs == [] then Some(s)
    else
      var t := run(fs[0], s);
      if t.None? then None else RunFiles(run, fs[1..], t.value)
  }

  lemma {:induction false} RunLinesConcat<S>(run: Effect<S>, a: seq<Line>, b: seq<Line>, s: S)
    ensures RunLines(run, a + b, s)
         == (var t := RunLines(run, a, s); if t.None? then None else RunLines(run, b, t.value))
    decreases a
  {
    if a == [] {
      assert a + b == b;
    } else {
      assert (a + b)[1..] == a[1..] + b;
      if a[0].Reload? {
        RunLinesConcat(run, a[1..], b, s);
      } else if run(a[0].file, s).Some? {
        RunLinesConcat(run, a[1..], b, run(a[0].file, s).value);
      }
    }
  }

  lemma {:induction false} RunFilesConcat<S>(run: Effect<S>, a: seq<File>, b: seq<File>, s: S)
    ensures RunFiles(run, a + b, s)
         == (var t := RunFiles(run, a, s); if t.None? then None else RunFiles(run, b, t.value))
    decreases a
  {
    if a == [] {
      assert a + b == b;
    } else {
      assert (a + b)[1..] == a[1..] + b;
      if run(a[0], s).Some? { RunFilesConcat(run, a[1..], b, run(a[0], s).value); }
    }
  }

  lemma LineRuns<S>(run: Effect<S>, f: File, s: S)
    ensures RunLines(run, [Include(f)], s) == run(f, s) == RunFiles(run, [f], s)
    ensures RunLines(run, [Reload], s) == Some(s)
    ensures RunLines(run, [Include(f)] + [Reload], s) == run(f, s)
  {
    assert [Include(f)][1..] == [] && [f][1..] == [] && [Reload][1..] == [];
    RunLinesConcat(run, [Include(f)], [Reload], s);
    if run(f, s).Some? { assert RunLines(run, [Reload], run(f, s).value) == run(f, s); }
  }

  /** The reloads between the files do not matter. */
  lemma {:induction false} LinesAreFiles<S>(run: Effect<S>, isTable: bool, fs: seq<File>, s: S)
    ensures RunLines(run, UpLines(isTable, fs), s) == RunFiles(run, fs, s) == RunLines(run, Includes(fs), s)
  {
    if fs != [] {
      var front, f := fs[..|fs| - 1], fs[|fs| - 1];
      LinesAreFiles(run, isTable, front, s);
      assert fs == front + [f];
      RunFilesConcat(run, front, [f], s);
      RunLinesConcat(run, Includes(front), [Include(f)], s);
      var tail := if isTable then [Include(f)] + [Reload] else [Include(f)];
      assert UpLines(isTable, fs) == UpLines(isTable, front) + tail;
      RunLinesConcat(run, UpLines(isTable, front), tail, s);
      var t := RunFiles(run, front, s);
      if t.Some? { LineRuns(run, f, t.value); }
    }
  }

  lemma UpgradeRuns<S>(run: Effect<S>, it: Item, s: S)
    ensures RunLines(run, UpgradeScript(it), s) == RunFiles(run, Steps(it, Up), s)
  {
    var head := if it.low.Some? && it.isTable then [Reload] else [];
    RunLinesConcat(run, head, UpLines(it.isTable, Steps(it, Up)), s);
    LineRuns(run, Generated(Up), s);
    LinesAreFiles(run, it.isTable, Steps(it, Up), s);
  }

  lemma DegradeRuns<S>(run: Effect<S>, it: Item, s: S)
    ensures RunLines(run, DegradeScript(it), s) == RunFiles(run, Reverse(Steps(it, Down)), s)
  {
    var fs := Steps(it, Down);
    var head := if it.isTable then [Reload] else [];
    var tail := if it.low.Some? && fs != [] && it.isTable then [Reload] else [];
    RunLinesConcat(run, head + Includes(Reverse(fs)), tail, s);
    RunLinesConcat(run, head, Includes(Reverse(fs)), s);
    LineRuns(run, Generated(Up), s);
    LinesAreFiles(run, it.isTable, Reverse(fs), s);
    var t := RunFiles(run, Reverse(fs), s);
    if t.Some? { LineRuns(run, Generated(Up), t.value); }
  }

  /** The step in the other direction takes back whatever this step does. */
  ghost predicate Undoes<S(!new)>(run: Effect<S>, f: File) {
    forall s, t :: run(f, s) == Some(t) ==> run(Turn(f), t) == Some(s)
  }

  lemma {:induction false} FilesUndone<S(!new)>(run: Effect<S>, fs: seq<File>, s: S, t: S)
    requires forall f :: f in fs ==> Undoes(run, f)
    requires RunFiles(run, fs, s) == Some(t)
    ensures RunFiles(run, Reverse(TurnAll(fs)), t) == Some(s)
    decreases fs
  {
    if fs != [] {
      var mid := run(fs[0], s).value;
      FilesUndone(run, fs[1..], mid, t);
      assert Undoes(run, fs[0]);
      assert TurnAll(fs)[1..] == TurnAll(fs[1..]);
      RunFilesConcat(run, Reverse(TurnAll(fs[1..])), [Turn(fs[0])], t);
      LineRuns(run, Turn(fs[0]), mid);
    }
  }

  /** The step between versions 0 and 1 exists in both directions or in neither. */
  ghost predicate FirstStepPaired(it: Item) {
    FirstStep(it, Up) in it.files <==> FirstStep(it, Down) in it.files
  }

  ghost predicate AllUndone<S(!new)>(run: Effect<S>, it: Item) {
    forall f :: f in Steps(it, Up) ==> Undoes(run, f)
  }

  /** What is asked of an object's files: each step has its inverse, and the first step comes in both
      directions or in neither. */
  ghost predicate Reversible<S(!new)>(run: Effect<S>, it: Item) {
    FirstStepPaired(it) && AllUndone(run, it)
  }

  /** The degrade script takes an object back to where its upgrade script started. */
  lemma DegradeUndoes<S(!new)>(run: Effect<S>, it: Item, s: S, t: S)
    requires Reversible(run, it)
    requires RunLines(run, UpgradeScript(it), s) == Some(t)
    ensures RunLines(run, DegradeScript(it), t) == Some(s)
  {
    UpgradeRuns(run, it, s);
    DegradeRuns(run, it, t);
    StepsMirror(it);
    FilesUndone(run, Steps(it, Up), s, t);
  }

  /** Without the generated degrade step the degrade stops short: the first upgrade step stays. */
  lemma OneSidedFirstStep<S(!new)>(run: Effect<S>, it: Item, s: S, mid: S, t: S)
    requires FirstStep(it, Up) in it.files && FirstStep(it, Down) !in it.files
    requires AllUndone(run, it)
    requires run(FirstStep(it, Up), s) == Some(mid)
    requires RunLines(run, UpgradeScript(it), s) == Some(t)
    ensures RunLines(run, DegradeScript(it), t) == Some(mid)
  {
    var first, rest := FirstStep(it, Up), Shippeds(Up, StartVersion(it), it.high + 1);
    UpgradeRuns(run, it, s);
    DegradeRuns(run, it, t);
    TurnShippeds(StartVersion(it), it.high + 1);
    assert Steps(it, Up)[1..] == rest;
    assert Steps(it, Down) == TurnAll(rest);
    FilesUndone(run, rest, mid, t);
  }

  /** With the first step present only for the degrade, the degrade goes one step too far. */
  lemma OneSidedDegrade<S(!new)>(run: Effect<S>, it: Item, s: S, t: S)
    requires FirstStep(it, Up) !in it.files && FirstStep(it, Down) in it.files
    requires AllUndone(run, it)
    requires RunLines(run, UpgradeScript(it), s) == Some(t)
    ensures RunLines(run, DegradeScript(it), t) == run(FirstStep(it, Down), s)
  {
    var first, ups := FirstStep(it, Down), Shippeds(Up, StartVersion(it), it.high + 1);
    UpgradeRuns(run, it, s);
    DegradeRuns(run, it, t);
    TurnShippeds(StartVersion(it), it.high + 1);
    assert Steps(it, Up) == ups;
    assert Steps(it, Down) == [first] + TurnAll(ups);
    assert Steps(it, Down)[1..] == TurnAll(ups);
    FilesUndone(run, ups, s, t);
    RunFilesConcat(run, Reverse(TurnAll(ups)), [first], t);
    LineRuns(run, first, s);
  }

  /** An effect that counts the steps, up and down. */
  function Counting(): Effect<int> { (f: File, s: int) => Some(if f.dir == Up then s + 1 else s - 1) }

  lemma CountingUndoes(f: File)
    requires f.dir == Up
    ensures Undoes(Counting(), f)
  {
  }

  ghost predicate AllFacing(fs: seq<File>, dir: Direction) { forall f :: f in fs ==> f.dir == dir }

  lemma {:induction false} CountingRuns(fs: seq<File>, dir: Direction, s: int)
    requires AllFacing(fs, dir)
    ensures RunFiles(Counting(), fs, s) == Some(if dir == Up then s + |fs| else s - |fs|)
    decreases fs
  {
    if fs != [] { CountingRuns(fs[1..], dir, if dir == Up then s + 1 else s - 1); }
  }

  lemma {:induction false} ShippedsFacing(dir: Direction, from: nat, to: nat)
    ensures AllFacing(Shippeds(dir, from, to), dir)
  {
    if to > from { ShippedsFacing(dir, from, to - 1); }
  }

  lemma StepsFacing(it: Item, dir: Direction)
    ensures AllFacing(Steps(it, dir), dir)
  {
    ShippedsFacing(dir, StartVersion(it), it.high + 1);
    hide Shippeds;
  }

  lemma {:induction false} ReverseFacing(fs: seq<File>, dir: Direction)
    requires AllFacing(fs, dir)
    ensures AllFacing(Reverse(fs), dir)
  {
    if fs != [] { ReverseFacing(fs[1..], dir); }
  }

  /** Counting shows the difference between the number of steps up and down. */
  lemma CountingScripts(it: Item)
    ensures AllUndone(Counting(), it)
    ensures RunLines(Counting(), UpgradeScript(it), 0) == Some(|Steps(it, Up)|)
    ensures RunLines(Counting(), DegradeScript(it), |Steps(it, Up)|) == Some(|Steps(it, Up)| - |Steps(it, Down)|)
  {
    var up, down := Steps(it, Up), Steps(it, Down);
    StepsFacing(it, Up);
    StepsFacing(it, Down);
    ReverseFacing(down, Down);
    ReverseLength(down);
    UpgradeRuns(Counting(), it, 0);
    DegradeRuns(Counting(), it, |up|);
    CountingRuns(up, Up, 0);
    CountingRuns(Reverse(down), Down, |up|);
    hide RunLines, RunFiles, UpgradeScript, DegradeScript, Steps, Reverse, Undoes, Counting;
    forall f | f in up ensures Undoes(Counting(), f) { CountingUndoes(f); }
  }

  lemma StepCounts(it: Item)
    ensures |Steps(it, Up)| == |Steps(it, Down)| <==> FirstStepPaired(it)
  {
    ShippedsLength(Up, StartVersion(it), it.high + 1);
    ShippedsLength(Down, StartVersion(it), it.high + 1);
  }

  /** The degrade script takes back the upgrade script, for all effects whose upgrade steps are undone and from
      every state, exactly when the first step exists in both directions or in neither. */
  lemma DegradeExact(it: Item)
    ensures FirstStepPaired(it) <==> AlwaysTakesBack(it)
  {
    hide AllUndone, FirstStepPaired, RunLines, UpgradeScript, DegradeScript, Steps, Counting;
    if FirstStepPaired(it) {
      forall run: Effect<int>, s, t | TakesUp(run, it, s, t) ensures RunLines(run, DegradeScript(it), t) == Some(s) {
        PairedReverses(run, it);
        DegradeUndoes(run, it, s, t);
      }
    } else {
      CountingScripts(it);
      StepCounts(it);
      assert TakesUp(Counting(), it, 0, |Steps(it, Up)|);
    }
  }

  ghost predicate TakesUp(run: Effect<int>, it: Item, s: int, t: int) {
    AllUndone(run, it) && RunLines(run, UpgradeScript(it), s) == Some(t)
  }

  ghost predicate AlwaysTakesBack(it: Item) {
    forall run: Effect<int>, s, t :: TakesUp(run, it, s, t) ==> RunLines(run, DegradeScript(it), t) == Some(s)
  }

  lemma PairedReverses(run: Effect<int>, it: Item)
    requires FirstStepPaired(it) && AllUndone(run, it)
    ensures Reversible(run, it)
  {
  }

  // ---- which steps there are ----

  function VersionOf(f: File): nat {
    if f.Generated? then 1 else f.version
  }

  lemma {:induction false} ShippedsAt(dir: Direction, from: nat, to: nat, k: nat)
    requires k < |Shippeds(dir, from, to)|
    ensures Shippeds(dir, from, to)[k] == Shipped(dir, from + k)
  {
    if to > from && k < |Shippeds(dir, from, to - 1)| {
      ShippedsAt(dir, from, to - 1, k);
    } else {
      ShippedsLength(dir, from, to - 1);
    }
  }

  ghost predicate Ascending(fs: seq<File>) {
    forall i, j :: 0 <= i < j < |fs| ==> VersionOf(fs[i]) < VersionOf(fs[j])
  }

  lemma ShippedsAre(dir: Direction, from: nat, to: nat)
    ensures forall f :: f in Shippeds(dir, from, to) <==> f.Shipped? && f.dir == dir && from <= f.version < to
    ensures Ascending(Shippeds(dir, from, to))
  {
    var fs := Shippeds(dir, from, to);
    ShippedsLength(dir, from, to);
    forall k | 0 <= k < |fs| ensures fs[k] == Shipped(dir, from + k) { ShippedsAt(dir, from, to, k); }
    hide Shippeds;
    forall v | from <= v < to ensures Shipped(dir, v) in fs { assert fs[v - from] == Shipped(dir, v); }
  }

  /** The file of a version from 2 that the higher release has and the lower has not, or of the step to version 1
      if it exists: the shipped one for an object that neither the lower release nor the baseline has. */
  predicate IsStep(it: Item, dir: Direction, f: File) {
    var first := if it.low.None? && !it.in01 then Shipped(dir, 1) else Generated(dir);
    && f.dir == dir
    && if f == first then f in it.files
       else f.Shipped? && 2 <= f.version <= it.high && (it.low.Some? ==> it.low.value < f.version)
  }

  lemma StepIs(it: Item, dir: Direction, f: File)
    ensures f in Steps(it, dir) <==> IsStep(it, dir, f)
  {
    ShippedsAre(dir, StartVersion(it), it.high + 1);
    hide Shippeds, Ascending;
  }

  lemma AscendingCons(f: File, fs: seq<File>)
    requires Ascending(fs) && forall g :: g in fs ==> VersionOf(f) < VersionOf(g)
    ensures Ascending([f] + fs)
  {
    forall i, j | 0 <= i < j < |fs| + 1 ensures VersionOf(([f] + fs)[i]) < VersionOf(([f] + fs)[j]) {
      assert fs[j - 1] in fs;
    }
  }

  lemma StepsAscend(it: Item, dir: Direction)
    ensures Ascending(Steps(it, dir))
  {
    var tail := Shippeds(dir, StartVersion(it), it.high + 1);
    ShippedsAre(dir, StartVersion(it), it.high + 1);
    hide Shippeds, Ascending;
    if Head(it, dir) == [] {
      assert Steps(it, dir) == tail;
    } else {
      AscendingCons(FirstStep(it, dir), tail);
    }
  }

  /** The steps of an object are all these files, each once, lowest version first. */
  lemma StepsAre(it: Item, dir: Direction)
    ensures forall f :: f in Steps(it, dir) <==> IsStep(it, dir, f)
    ensures Ascending(Steps(it, dir))
  {
    hide Steps, IsStep, Ascending;
    forall f ensures f in Steps(it, dir) <==> IsStep(it, dir, f) { StepIs(it, dir, f); }
    StepsAscend(it, dir);
  }

  lemma ShippedsNone(dir: Direction, from: nat, to: nat)
    requires to <= from
    ensures Shippeds(dir, from, to) == []
  {
  }

  lemma ShippedsMore(dir: Direction, from: nat, to: nat)
    requires from < to
    ensures Shippeds(dir, from, to) == Shippeds(dir, from, to - 1) + [Shipped(dir, to - 1)]
  {
  }

  lemma {:induction false} ShippedsSplit(dir: Direction, from: nat, mid: nat, to: nat)
    requires from <= mid <= to
    ensures Shippeds(dir, from, to) == Shippeds(dir, from, mid) + Shippeds(dir, mid, to)
  {
    hide Shippeds;
    if mid == to {
      ShippedsNone(dir, mid, to);
    } else {
      ShippedsMore(dir, from, to);
      ShippedsMore(dir, mid, to);
      ShippedsSplit(dir, from, mid, to - 1);
    }
  }

  /** The shipped steps of an object are those up to version mid and those of an object at mid. */
  lemma ShippedsCompose(it: Item, mid: nat, dir: Direction)
    requires LowVersion(it) <= mid <= it.high
    ensures Shippeds(dir, StartVersion(it), it.high + 1) ==
            Shippeds(dir, StartVersion(it), mid + 1) +
            Shippeds(dir, StartVersion(it.(low := Some(mid))), it.high + 1)
  {
    hide Shippeds;
    if mid == 0 {
      ShippedsNone(dir, 2, 1);
    } else {
      ShippedsSplit(dir, StartVersion(it), mid + 1, it.high + 1);
    }
  }

  lemma NothingBetween<T>(head: seq<T>, a: seq<T>, extra: seq<T>, b: seq<T>)
    ensures head + (a + b) == (head + a) + (extra + b) <==> extra == []
  {
    if extra == [] {
      assert extra + b == b;
      assert head + (a + b) == (head + a) + b;
    } else {
      assert |head + (a + b)| < |(head + a) + (extra + b)|;
    }
  }

  /** An object taken through a release in between, at version mid: the steps are those to mid and those from mid
      on, unless the generated step exists, which an object already there is given once more. */
  lemma StepsCompose(it: Item, mid: nat, dir: Direction)
    requires LowVersion(it) <= mid <= it.high
    ensures Steps(it, dir) == Steps(it.(high := mid), dir) + Steps(it.(low := Some(mid)), dir)
            <==> Generated(dir) !in it.files
  {
    var below, above := it.(high := mid), it.(low := Some(mid));
    var first, last := Shippeds(dir, StartVersion(it), mid + 1), Shippeds(dir, StartVersion(above), it.high + 1);
    ShippedsCompose(it, mid, dir);
    NothingBetween(Head(it, dir), first, Head(above, dir), last);
    assert Head(above, dir) == [] <==> Generated(dir) !in it.files;
    assert Head(below, dir) == Head(it, dir) && StartVersion(below) == StartVersion(it);
    hide Shippeds, Head, StartVersion;
  }

  /** An effect that keeps the version: a step works only on the version it starts from. */
  function Versioning(): Effect<nat> {
    (f: File, s: nat) =>
      var v := VersionOf(f);
      if f.dir == Up then (if s + 1 == v then Some(v) else None)
      else (if s == v && v > 0 then Some((v - 1) as nat) else None)
  }

  lemma {:induction false} VersionsUp(from: nat, to: nat, s: nat)
    requires 0 < from < to
    ensures RunFiles(Versioning(), Shippeds(Up, from, to), s) == if s + 1 == from then Some((to - 1) as nat) else None
  {
    var last := [Shipped(Up, to - 1)];
    assert last[1..] == [];
    RunFilesConcat(Versioning(), Shippeds(Up, from, to - 1), last, s);
    if from < to - 1 {
      VersionsUp(from, to - 1, s);
    } else {
      assert Shippeds(Up, from, to) == last;
    }
  }

  lemma {:induction false} ReverseLast(fs: seq<File>, f: File)
    ensures Reverse(fs + [f]) == [f] + Reverse(fs)
  {
    if fs == [] {
      assert [] + [f] == [f] && [f][1..] == [];
    } else {
      assert (fs + [f])[1..] == fs[1..] + [f];
      ReverseLast(fs[1..], f);
    }
  }

  lemma {:induction false} VersionsDown(from: nat, to: nat, s: nat)
    requires 0 < from < to
    ensures RunFiles(Versioning(), Reverse(Shippeds(Down, from, to)), s)
         == if s + 1 == to then Some((from - 1) as nat) else None
  {
    var f := Shipped(Down, to - 1);
    var rest := Reverse(Shippeds(Down, from, to - 1));
    ReverseLast(Shippeds(Down, from, to - 1), f);
    assert ([f] + rest)[1..] == rest;
    if from < to - 1 { VersionsDown(from, to - 1, (to - 2) as nat); }
  }

  /** The step to version 1 is there exactly when the way from the lower to the higher release begins with it. */
  ghost predicate FirstStepFits(it: Item, dir: Direction) {
    var first := if it.low.None? && !it.in01 then Shipped(dir, 1) else Generated(dir);
    if it.low.None? || it.low.value == 0 then first in it.files <==> it.high > 0
    else first !in it.files && it.low.value <= it.high
  }

  lemma HeadRuns(it: Item, dir: Direction, s: nat)
    ensures RunFiles(Versioning(), Head(it, dir), s) ==
            if Head(it, dir) == [] then Some(s)
            else if dir == Up then (if s == 0 then Some(1) else None)
            else if s == 1 then Some(0) else None
  {
    assert [FirstStep(it, dir)][1..] == [];
    LineRuns(Versioning(), FirstStep(it, dir), s);
  }

  /** Where the shipped upgrade steps lead. */
  lemma ShippedUp(it: Item, s: nat)
    ensures RunFiles(Versioning(), Shippeds(Up, StartVersion(it), it.high + 1), s) ==
            if StartVersion(it) > it.high then Some(s)
            else if s + 1 == StartVersion(it) then Some(it.high) else None
  {
    if StartVersion(it) <= it.high {
      VersionsUp(StartVersion(it), it.high + 1, s);
    } else {
      assert Shippeds(Up, StartVersion(it), it.high + 1) == [];
    }
  }

  /** The upgrade script brings the object from its version in the lower release to its version in the higher
      one, exactly when the step to version 1 fits. */
  lemma UpgradeReaches(it: Item)
    ensures RunLines(Versioning(), UpgradeScript(it), LowVersion(it)) == Some(it.high) <==> FirstStepFits(it, Up)
  {
    var low := LowVersion(it);
    UpgradeRuns(Versioning(), it, low);
    RunFilesConcat(Versioning(), Head(it, Up), Shippeds(Up, StartVersion(it), it.high + 1), low);
    HeadRuns(it, Up, low);
    ShippedUp(it, low);
    ShippedUp(it, 1);
    hide RunLines, RunFiles, UpgradeScript, Shippeds, Versioning;
  }

  lemma ReversedSteps(it: Item)
    ensures Reverse(Steps(it, Down)) ==
            Reverse(Shippeds(Down, StartVersion(it), it.high + 1)) + Head(it, Down)
  {
    var first, tail := FirstStep(it, Down), Shippeds(Down, StartVersion(it), it.high + 1);
    assert ([first] + tail)[1..] == tail && [] + tail == tail;
  }

  /** Where the shipped degrade steps lead from the higher version. */
  lemma ShippedDown(it: Item)
    ensures RunFiles(Versioning(), Reverse(Shippeds(Down, StartVersion(it), it.high + 1)), it.high) ==
            Some(if StartVersion(it) <= it.high then StartVersion(it) - 1 else it.high)
  {
    if StartVersion(it) <= it.high {
      VersionsDown(StartVersion(it), it.high + 1, it.high);
    } else {
      assert Reverse(Shippeds(Down, StartVersion(it), it.high + 1)) == [];
    }
  }

  /** The degrade script brings it back, exactly when the step from version 1 fits. */
  lemma DegradeReaches(it: Item)
    ensures RunLines(Versioning(), DegradeScript(it), it.high) == Some(LowVersion(it)) <==> FirstStepFits(it, Down)
  {
    var tail := Reverse(Shippeds(Down, StartVersion(it), it.high + 1));
    DegradeRuns(Versioning(), it, it.high);
    ReversedSteps(it);
    ShippedDown(it);
    RunFilesConcat(Versioning(), tail, Head(it, Down), it.high);
    HeadRuns(it, Down, RunFiles(Versioning(), tail, it.high).value);
    hide RunLines, RunFiles, DegradeScript, Steps, Reverse, Shippeds, Versioning;
  }

  // ---- where the dictionary is reloaded ----

  lemma {:induction false} UpLinesLength(isTable: bool, fs: seq<File>)
    ensures |UpLines(isTable, fs)| == if isTable then 2 * |fs| else |fs|
  {
    if fs != [] { UpLinesLength(isTable, fs[..|fs| - 1]); }
  }

  lemma {:induction false} UpLinesAt(isTable: bool, fs: seq<File>, k: nat)
    requires k < |UpLines(isTable, fs)|
    ensures UpLines(isTable, fs)[k].Include? <==> !isTable || k % 2 == 0
  {
    var front := fs[..|fs| - 1];
    UpLinesLength(isTable, front);
    if k < |UpLines(isTable, front)| { UpLinesAt(isTable, front, k); }
  }

  lemma {:induction false} IncludesLength(fs: seq<File>)
    ensures |Includes(fs)| == |fs|
  {
    if fs != [] { IncludesLength(fs[..|fs| - 1]); }
  }

  lemma {:induction false} IncludesAt(fs: seq<File>, k: nat)
    requires k < |fs|
    ensures |Includes(fs)| == |fs| && Includes(fs)[k].Include?
  {
    IncludesLength(fs);
    IncludesLength(fs[..|fs| - 1]);
    if k < |fs| - 1 { IncludesAt(fs[..|fs| - 1], k); }
  }

  /** A table's upgrade script reloads the dictionary after every file, and before the first one if the lower
      release has the table; the scripts of other objects never do. */
  lemma UpgradeReloads(it: Item)
    ensures var ls := UpgradeScript(it);
            if !it.isTable then AllIncludes(ls)
            else
              && (ls != [] ==> ls[|ls| - 1].Reload? && (ls[0].Reload? <==> it.low.Some?))
              && forall i :: 0 <= i < |ls| - 1 ==> (ls[i].Reload? <==> ls[i + 1].Include?)
  {
    var fs := Steps(it, Up);
    var body := UpLines(it.isTable, fs);
    hide Steps, UpLines;
    UpLinesLength(it.isTable, fs);
    forall k | 0 <= k < |body| ensures body[k].Include? <==> !it.isTable || k % 2 == 0 {
      UpLinesAt(it.isTable, fs, k);
    }
  }

  ghost predicate AllIncludes(lines: seq<Line>) { forall i :: 0 <= i < |lines| ==> lines[i].Include? }

  lemma OnlyIncludes(fs: seq<File>)
    ensures |Includes(fs)| == |fs| && AllIncludes(Includes(fs))
  {
    IncludesLength(fs);
    forall k | 0 <= k < |fs| ensures Includes(fs)[k].Include? { IncludesAt(fs, k); }
  }

  /** A reload first; a closing reload if there is one; files in between. */
  ghost predicate Framed(lines: seq<Line>, closed: bool) {
    && lines != [] && lines[0].Reload?
    && (|lines| > 1 ==> (lines[|lines| - 1].Reload? <==> closed))
    && forall i :: 0 < i < |lines| - 1 ==> lines[i].Include?
  }

  lemma FramedBody(body: seq<Line>, closed: bool)
    requires AllIncludes(body)
    ensures Framed([Reload] + body + (if closed && body != [] then [Reload] else []), closed)
  {
    var head := [Reload] + body;
    assert forall i :: 0 < i < |head| ==> head[i] == body[i - 1];
    if closed && body != [] {
      var all := head + [Reload];
      assert forall i :: 0 <= i < |head| ==> all[i] == head[i];
    } else {
      assert head + [] == head;
    }
  }

  /** A table's degrade script reloads the dictionary before the first file, and after the last one if the lower
      release keeps the table; the scripts of other objects never do. */
  lemma DegradeReloads(it: Item)
    ensures if it.isTable then Framed(DegradeScript(it), it.low.Some?) else AllIncludes(DegradeScript(it))
  {
    var fs := Reverse(Steps(it, Down));
    var body := Includes(fs);
    ReverseLength(Steps(it, Down));
    OnlyIncludes(fs);
    FramedBody(body, it.low.Some?);
    hide Steps, Reverse, Includes, Framed, AllIncludes;
    if !it.isTable {
      assert [] + body + [] == body;
    }
  }

  // ---- all objects of a release ----

  type Effects<!S> = string -> Effect<S>

  function ScriptOf(it: Item, dir: Direction): seq<Line> {
    if dir == Up then UpgradeScript(it) else DegradeScript(it)
  }

  /** Runs every object's script in turn; each works on its own object only. */
  ghost function RunAll<S>(run: Effects<S>, items: seq<Item>, dir: Direction, st: map<string, S>)
    : Option<map<string, S>>
    requires NamesIn(items, st)
  {
    if items == [] then Some(st)
    else
      var before, it := RunAll(run, items[..|items| - 1], dir, st), items[|items| - 1];
      if before.None? || it.name !in before.value then None
      else
        var t := RunLines(run(it.name), ScriptOf(it, dir), before.value[it.name]);
        if t.None? then None else Some(before.value[it.name := t.value])
  }

  ghost predicate DistinctNames(items: seq<Item>) {
    forall j, k :: 0 <= j < k < |items| ==> items[j].name != items[k].name
  }

  ghost predicate NamesIn<S>(items: seq<Item>, st: map<string, S>) {
    forall it :: it in items ==> it.name in st
  }

  ghost predicate Named(items: seq<Item>, n: string) { exists it :: it in items && it.name == n }

  /** `t` is `st` with every object's script applied to that object. */
  ghost predicate Applied<S(!new)>(run: Effects<S>, items: seq<Item>, dir: Direction,
                                   st: map<string, S>, t: map<string, S>) {
    && t.Keys == st.Keys && NamesIn(items, st)
    && (forall it :: it in items ==> RunLines(run(it.name), ScriptOf(it, dir), st[it.name]) == Some(t[it.name]))
    && (forall n :: n in st && !Named(items, n) ==> t[n] == st[n])
  }

  lemma LastIsNew(items: seq<Item>)
    requires items != [] && DistinctNames(items)
    ensures DistinctNames(items[..|items| - 1]) && !Named(items[..|items| - 1], items[|items| - 1].name)
    ensures forall n :: Named(items, n) <==> Named(items[..|items| - 1], n) || n == items[|items| - 1].name
  {
    var front, last := items[..|items| - 1], items[|items| - 1];
    assert items == front + [last];
  }

  lemma {:induction false} RunAllApplies<S(!new)>(
    run: Effects<S>, items: seq<Item>, dir: Direction, st: map<string, S>, t: map<string, S>)
    requires DistinctNames(items) && NamesIn(items, st)
    requires RunAll(run, items, dir, st) == Some(t)
    ensures Applied(run, items, dir, st, t)
    decreases items
  {
    hide RunLines, ScriptOf, DistinctNames;
    if items != [] {
      var front, it := items[..|items| - 1], items[|items| - 1];
      var mid := RunAll(run, front, dir, st).value;
      LastIsNew(items);
      RunAllApplies(run, front, dir, st, mid);
      assert mid[it.name] == st[it.name];
      forall o | o in items ensures RunLines(run(o.name), ScriptOf(o, dir), st[o.name]) == Some(t[o.name]) {
        if o in front { IsNamed(front, o); }
      }
    }
  }

  lemma AppliedToFront<S(!new)>(
    run: Effects<S>, items: seq<Item>, dir: Direction, st: map<string, S>, t: map<string, S>)
    requires items != [] && DistinctNames(items) && Applied(run, items, dir, st, t)
    ensures var name := items[|items| - 1].name; Applied(run, items[..|items| - 1], dir, st, t[name := st[name]])
  {
    hide RunLines, ScriptOf, DistinctNames, Named;
    LastIsNew(items);
    forall o | o in items[..|items| - 1] ensures o.name != items[|items| - 1].name { IsNamed(items[..|items| - 1], o); }
  }

  lemma IsNamed(items: seq<Item>, it: Item)
    requires it in items
    ensures Named(items, it.name)
  {
  }

  lemma {:induction false} AppliedIsRun<S(!new)>(
    run: Effects<S>, items: seq<Item>, dir: Direction, st: map<string, S>, t: map<string, S>)
    requires DistinctNames(items) && Applied(run, items, dir, st, t)
    ensures RunAll(run, items, dir, st) == Some(t)
    decreases items
  {
    hide RunLines, ScriptOf, DistinctNames;
    if items == [] {
      assert t == st;
    } else {
      var front, it := items[..|items| - 1], items[|items| - 1];
      var mid := t[it.name := st[it.name]];
      LastIsNew(items);
      AppliedToFront(run, items, dir, st, t);
      AppliedIsRun(run, front, dir, st, mid);
      assert mid[it.name := t[it.name]] == t;
    }
  }

  /** Degrading a whole release takes every object back to where the upgrade of the release started,
      in whatever order the objects are listed. */
  lemma ReleaseDegradeUndoes<S(!new)>(
    run: Effects<S>, items: seq<Item>, back: seq<Item>, st: map<string, S>, t: map<string, S>)
    requires DistinctNames(items) && DistinctNames(back) && (forall it :: it in items <==> it in back)
    requires NamesIn(items, st) && (forall it :: it in items ==> Reversible(run(it.name), it))
    requires RunAll(run, items, Up, st) == Some(t)
    ensures NamesIn(back, t) && RunAll(run, back, Down, t) == Some(st)
  {
    RunAllApplies(run, items, Up, st, t);
    forall it | it in back ensures RunLines(run(it.name), ScriptOf(it, Down), t[it.name]) == Some(st[it.name]) {
      DegradeUndoes(run(it.name), it, st[it.name], t[it.name]);
    }
    forall n | n in t && !Named(back, n) ensures st[n] == t[n] {
      assert !Named(items, n);
    }
    AppliedIsRun(run, back, Down, t, st);
  }
}
