/** Registering the archives that continue a restored backup set
    (dtc_rst_regist_archive_by_dbstor and the rst_* functions it calls). */
module RestoreChain {
  import opened Basics
  import opened OverlapTrim

  /** An archive of this node and resetlog id, covering (start, end]; `sameDb` says that its database
      id is the restored one's. */
  datatype Found = Found(start: nat, end: nat, sameDb: bool)

  /** A registered archive: the LSNs it covers in the restored log and the ASN it was given. */
  datatype Pick = Pick(start: nat, end: nat, asn: nat)

  /** Why the loop stopped. */
  datatype Stop = Exhausted | NoFile | IoError

  predicate Continues(f: Found, lsn: nat) { f.sameDb && f.start < lsn <= f.end }

  /** The first file listed that holds `lsn` and is of the restored database. */
  function FirstFound(listing: seq<Found>, lsn: nat): (f: Option<Found>)
    ensures f.Some? ==> f.value in listing && Continues(f.value, lsn)
    ensures f.None? ==> forall k :: 0 <= k < |listing| ==> !Continues(listing[k], lsn)
  {
    if listing == [] then None
    else if Continues(listing[0], lsn) then Some(listing[0])
    else FirstFound(listing[1..], lsn)
  }

  lemma {:induction false} FirstFoundAt(listing: seq<Found>, lsn: nat, i: nat)
    requires i < |listing| && Continues(listing[i], lsn)
    requires forall k :: 0 <= k < i ==> !Continues(listing[k], lsn)
    ensures FirstFound(listing, lsn) == Some(listing[i])
  {
    if i > 0 { FirstFoundAt(listing[1..], lsn, i - 1); }
  }

  /** rst_find_first_archfile_with_lsn: the first file listed that reaches past endLsn without a gap. */
  method FindFirst(listing: seq<Found>, endLsn: nat) returns (f: Option<Found>)
    ensures f == FirstFound(listing, endLsn + 1)
  {
    for i := 0 to |listing|
      invariant forall k :: 0 <= k < i ==> !Continues(listing[k], endLsn + 1)
    {
      var g := listing[i];
      if g.sameDb && g.end > endLsn && g.start <= endLsn {
        FirstFoundAt(listing, endLsn + 1, i);
        return Some(g);
      }
    }
    return None;
  }

  /** rst_find_archfile_name_with_lsn: the first file listed that holds `lsn` and passes the database
      check made when it is renamed. */
  method FindNext(listing: seq<Found>, lsn: nat) returns (f: Option<Found>)
    ensures f == FirstFound(listing, lsn)
  {
    for i := 0 to |listing|
      invariant forall k :: 0 <= k < i ==> !Continues(listing[k], lsn)
    {
      var g := listing[i];
      if lsn > g.start && lsn <= g.end {
        var dbidEqual := g.sameDb;
        if dbidEqual {
          FirstFoundAt(listing, lsn, i);
          return Some(g);
        }
      }
    }
    return None;
  }

  // ---- the chain ----

  function ChainEnd(picks: seq<Pick>, endLsn: nat): nat {
    if picks == [] then endLsn else picks[|picks| - 1].end
  }

  /** The picks continue the backup set without a gap: the first starts at its end LSN, each later one
      reaches past the previous one and starts no later than its end; ASNs are consecutive. */
  ghost predicate Gapless(picks: seq<Pick>, endLsn: nat, lastAsn: nat) {
    picks == [] ||
    var front, p := picks[..|picks| - 1], picks[|picks| - 1];
    && Gapless(front, endLsn, lastAsn)
    && p.start <= ChainEnd(front, endLsn) < p.end
    && (front == [] ==> p.start == endLsn)
    && p.asn == lastAsn + |picks|
  }

  /** Each pick starts exactly where the previous one ended. */
  ghost predicate NoOverlap(picks: seq<Pick>, endLsn: nat) {
    picks == [] ||
    var front, p := picks[..|picks| - 1], picks[|picks| - 1];
    NoOverlap(front, endLsn) && p.start == ChainEnd(front, endLsn) < p.end
  }

  /** No two archives of the database share an LSN. */
  ghost predicate Disjoint(files: set<Found>) {
    forall f, g :: f in files && g in files && f.sameDb && g.sameDb && f != g ==> f.end <= g.start || g.end <= f.start
  }

  /** Two archives of the database overlap so that the second goes on where the first ends. */
  ghost predicate Crossing(files: set<Found>) {
    exists f, g :: f in files && g in files && Crosses(f, g)
  }

  predicate Crosses(f: Found, g: Found) {
    f.sameDb && g.sameDb && f.start < f.end && g.start < f.end < g.end
  }

  lemma DisjointCrossNot(files: set<Found>)
    ensures Disjoint(files) ==> !Crossing(files)
  {
  }

  // ---- the run of the loop ----

  /** How the directory is listed in round k when it holds `files`: all of them, in any order. */
  type Order = (nat, set<Found>) -> seq<Found>

  ghost predicate Lists(listing: seq<Found>, files: set<Found>) {
    forall f :: f in listing <==> f in files
  }

  ghost predicate Orders(order: Order) { forall k, files :: Lists(order(k, files), files) }

  /** The directory after the picks: trimming leaves the first archive where it is and adds the trimmed
      copy. An archive that needs no trimming is its own copy. */
  ghost function DirAfter(files: set<Found>, endLsn: nat, picks: seq<Pick>): set<Found> {
    if picks == [] then files else files + {Found(endLsn, picks[0].end, true)}
  }

  /** The picks are those the loop makes: in each round the first file listed that holds the next LSN. */
  ghost predicate IsRun(picks: seq<Pick>, files: set<Found>, order: Order, endLsn: nat, lastAsn: nat) {
    picks == [] ||
    var front, p := picks[..|picks| - 1], picks[|picks| - 1];
    && IsRun(front, files, order, endLsn, lastAsn)
    && var f := FirstFound(order(|front|, DirAfter(files, endLsn, front)), ChainEnd(front, endLsn) + 1);
    f.Some? && p == PickOf(f.value, front, endLsn, lastAsn)
  }

  /** How a file found is registered. The first one is cut to start at endLsn. */
  function PickOf(f: Found, front: seq<Pick>, endLsn: nat, lastAsn: nat): Pick {
    Pick(if front == [] then endLsn else f.start, f.end, lastAsn + |front| + 1)
  }

  /** The last pick is (the rest of) a file of the original directory. */
  ghost predicate FromFiles(picks: seq<Pick>, files: set<Found>) {
    picks == [] || exists f :: f in files && f.sameDb && f.start < f.end
                               && f.end == picks[|picks| - 1].end && f.start <= picks[|picks| - 1].start
  }

  ghost predicate ChainState(picks: seq<Pick>, endLsn: nat, lastAsn: nat, files: set<Found>) {
    Gapless(picks, endLsn, lastAsn) && FromFiles(picks, files) && (!Crossing(files) ==> NoOverlap(picks, endLsn))
  }

  lemma {:induction false} FirstPickEnds(picks: seq<Pick>, endLsn: nat, lastAsn: nat)
    requires Gapless(picks, endLsn, lastAsn) && picks != []
    ensures picks[0].end <= ChainEnd(picks, endLsn)
  {
    if |picks| > 1 { FirstPickEnds(picks[..|picks| - 1], endLsn, lastAsn); }
  }

  /** The trimmed copy never continues the chain. */
  lemma ContinuesFromFiles(picks: seq<Pick>, endLsn: nat, lastAsn: nat, files: set<Found>, f: Found)
    requires Gapless(picks, endLsn, lastAsn)
    requires f in DirAfter(files, endLsn, picks) && Continues(f, ChainEnd(picks, endLsn) + 1)
    ensures f in files
  {
    if picks != [] { FirstPickEnds(picks, endLsn, lastAsn); }
  }

  /** Adding the archive found for the next LSN. */
  lemma OneMorePick(picks: seq<Pick>, endLsn: nat, lastAsn: nat, files: set<Found>, f: Found)
    requires ChainState(picks, endLsn, lastAsn, files)
    requires f in DirAfter(files, endLsn, picks) && Continues(f, ChainEnd(picks, endLsn) + 1)
    ensures f in files
    ensures ChainState(picks + [PickOf(f, picks, endLsn, lastAsn)], endLsn, lastAsn, files)
  {
    ContinuesFromFiles(picks, endLsn, lastAsn, files, f);
    var all := picks + [PickOf(f, picks, endLsn, lastAsn)];
    assert all[..|picks|] == picks;
    if !Crossing(files) && picks != [] {
      var g :| g in files && g.sameDb && g.start < g.end
               && g.end == picks[|picks| - 1].end && g.start <= picks[|picks| - 1].start;
      assert !Crosses(g, f);
    }
  }

  lemma NoPicks(files: set<Found>, order: Order, endLsn: nat, lastAsn: nat)
    ensures ChainState([], endLsn, lastAsn, files) && IsRun([], files, order, endLsn, lastAsn)
  {
  }

  /** Every run is a gapless chain, without overlap if no two archives cross. */
  lemma {:induction false} RunIsChain(picks: seq<Pick>, files: set<Found>, order: Order, endLsn: nat, lastAsn: nat)
    requires Orders(order) && IsRun(picks, files, order, endLsn, lastAsn)
    ensures ChainState(picks, endLsn, lastAsn, files)
  {
    if picks == [] {
      NoPicks(files, order, endLsn, lastAsn);
    } else {
      var front := picks[..|picks| - 1];
      RunIsChain(front, files, order, endLsn, lastAsn);
      var dir := DirAfter(files, endLsn, front);
      assert Lists(order(|front|, dir), dir);
      var f := FirstFound(order(|front|, dir), ChainEnd(front, endLsn) + 1);
      OneMorePick(front, endLsn, lastAsn, files, f.value);
      assert picks == front + [PickOf(f.value, front, endLsn, lastAsn)];
    }
  }

  function LargestEnd(listing: seq<Found>): nat {
    if listing == [] then 0
    else var m := LargestEnd(listing[1..]); if m < listing[0].end then listing[0].end else m
  }

  lemma {:induction false} LargestEndBounds(listing: seq<Found>, f: Found)
    requires f in listing
    ensures f.end <= LargestEnd(listing)
  {
    if f != listing[0] {
      assert f in listing[1..];
      LargestEndBounds(listing[1..], f);
    }
  }

  lemma OneMoreRound(picks: seq<Pick>, files: set<Found>, order: Order, endLsn: nat, lastAsn: nat, f: Found)
    requires IsRun(picks, files, order, endLsn, lastAsn)
    requires FirstFound(order(|picks|, DirAfter(files, endLsn, picks)), ChainEnd(picks, endLsn) + 1) == Some(f)
    ensures IsRun(picks + [PickOf(f, picks, endLsn, lastAsn)], files, order, endLsn, lastAsn)
  {
    assert (picks + [PickOf(f, picks, endLsn, lastAsn)])[..|picks|] == picks;
  }

  /** dtc_rst_regist_archive_by_dbstor, backup set preferred, on a directory that holds `files`. `fails(k)`
      is an I/O error while finding, trimming or renaming in round k, `isThere(k)` whether the file is then
      there to register, `registFails(k)` a failed registration. Returns the archives that got an ASN and
      the directory left behind. The loop ends: each round reaches a larger LSN. */
  method RegistArchives(endLsn: nat, lastAsn: nat, files: set<Found>, order: Order, isThere: nat -> bool,
                        fails: nat -> bool, registFails: nat -> bool)
    returns (stop: Stop, picks: seq<Pick>, newLastAsn: nat, dir: set<Found>)
    requires Orders(order)
    ensures IsRun(picks, files, order, endLsn, lastAsn)
    ensures Gapless(picks, endLsn, lastAsn)
    ensures !Crossing(files) ==> NoOverlap(picks, endLsn)
    ensures Disjoint(files) ==> NoOverlap(picks, endLsn)
    ensures newLastAsn == lastAsn + |picks| && dir == DirAfter(files, endLsn, picks)
    ensures stop.Exhausted? ==> forall f :: f in dir ==> !Continues(f, ChainEnd(picks, endLsn) + 1)
    ensures stop.NoFile? ==> picks != [] && !isThere(|picks| - 1)
    ensures stop.IoError? ==> fails(|picks|) || (picks != [] && registFails(|picks| - 1))
    ensures forall k :: 0 <= k < |picks| ==> !fails(k)
    ensures forall k :: 0 <= k < |picks| && (k < |picks| - 1 || stop.Exhausted?) ==> isThere(k) && !registFails(k)
    ensures stop.Exhausted? ==> !fails(|picks|)
  {
    hide *;
    picks, newLastAsn, dir := [], lastAsn, files;
    FirstRound(files, order, endLsn, lastAsn);
    var findLsn := endLsn + 1;
    while true
      invariant Registered(picks, files, order, endLsn, lastAsn)
      invariant findLsn == ChainEnd(picks, endLsn) + 1 && newLastAsn == lastAsn + |picks|
      invariant dir == DirAfter(files, endLsn, picks)
      invariant forall k :: 0 <= k < |picks| ==> !fails(k) && isThere(k) && !registFails(k)
      decreases LargestEnd(order(0, files)) + 1 - findLsn
    {
      RegisteredMeans(picks, files, order, endLsn, lastAsn);
      var round := |picks|;
      if fails(round) {
        return IoError, picks, newLastAsn, dir;
      }
      var f;
      if round == 0 {
        f := FindFirst(order(round, dir), endLsn);
      } else {
        f := FindNext(order(round, dir), findLsn);
      }
      if f.None? {
        LastRound(picks, files, order, endLsn, lastAsn);
        return Exhausted, picks, newLastAsn, dir;
      }
      NextRound(picks, files, order, endLsn, lastAsn, f.value);
      if round == 0 && f.value.start != endLsn {
        dir := dir + {Found(endLsn, f.value.end, true)};
      }
      newLastAsn := newLastAsn + 1;
      picks := picks + [Pick(if round == 0 then endLsn else f.value.start, f.value.end, newLastAsn)];
      findLsn := f.value.end + 1;
      RegisteredMeans(picks, files, order, endLsn, lastAsn);
      if !isThere(round) {
        return NoFile, picks, newLastAsn, dir;
      }
      if registFails(round) {
        return IoError, picks, newLastAsn, dir;
      }
    }
  }

  /** Where the loop stands. */
  ghost predicate Registered(picks: seq<Pick>, files: set<Found>, order: Order, endLsn: nat, lastAsn: nat) {
    ChainState(picks, endLsn, lastAsn, files) && IsRun(picks, files, order, endLsn, lastAsn)
  }

  lemma FirstRound(files: set<Found>, order: Order, endLsn: nat, lastAsn: nat)
    ensures Registered([], files, order, endLsn, lastAsn)
    ensures DirAfter(files, endLsn, []) == files && ChainEnd([], endLsn) == endLsn
  {
    NoPicks(files, order, endLsn, lastAsn);
  }

  lemma RegisteredMeans(picks: seq<Pick>, files: set<Found>, order: Order, endLsn: nat, lastAsn: nat)
    requires Registered(picks, files, order, endLsn, lastAsn)
    ensures IsRun(picks, files, order, endLsn, lastAsn) && Gapless(picks, endLsn, lastAsn)
    ensures !Crossing(files) ==> NoOverlap(picks, endLsn)
    ensures Disjoint(files) ==> NoOverlap(picks, endLsn)
    ensures picks == [] ==> ChainEnd(picks, endLsn) == endLsn
  {
    hide Gapless, NoOverlap, Disjoint, Crossing, IsRun, FromFiles;
    DisjointCrossNot(files);
  }

  lemma LastRound(picks: seq<Pick>, files: set<Found>, order: Order, endLsn: nat, lastAsn: nat)
    requires Orders(order)
    requires FirstFound(order(|picks|, DirAfter(files, endLsn, picks)), ChainEnd(picks, endLsn) + 1).None?
    ensures forall f :: f in DirAfter(files, endLsn, picks) ==> !Continues(f, ChainEnd(picks, endLsn) + 1)
  {
    var dir := DirAfter(files, endLsn, picks);
    assert Lists(order(|picks|, dir), dir);
    NothingContinues(order(|picks|, dir), dir, ChainEnd(picks, endLsn) + 1);
  }

  lemma NextRound(picks: seq<Pick>, files: set<Found>, order: Order, endLsn: nat, lastAsn: nat, f: Found)
    requires Orders(order) && Registered(picks, files, order, endLsn, lastAsn)
    requires FirstFound(order(|picks|, DirAfter(files, endLsn, picks)), ChainEnd(picks, endLsn) + 1) == Some(f)
    ensures var next := picks + [Pick(if picks == [] then endLsn else f.start, f.end, lastAsn + |picks| + 1)];
            && Registered(next, files, order, endLsn, lastAsn)
            && ChainEnd(picks, endLsn) < f.end == ChainEnd(next, endLsn)
            && f.end <= LargestEnd(order(0, files))
            && DirAfter(files, endLsn, next) == if picks == [] && f.start != endLsn
                                                then DirAfter(files, endLsn, picks) + {Found(endLsn, f.end, true)}
                                                else DirAfter(files, endLsn, picks)
  {
    hide Gapless, NoOverlap, Disjoint, Crossing, FromFiles, ChainState, LargestEnd, IsRun, FirstFound;
    var dir := DirAfter(files, endLsn, picks);
    assert Lists(order(|picks|, dir), dir) && Lists(order(0, files), files);
    OneMorePick(picks, endLsn, lastAsn, files, f);
    OneMoreRound(picks, files, order, endLsn, lastAsn, f);
    LargestEndBounds(order(0, files), f);
  }

  lemma StateParts(picks: seq<Pick>, endLsn: nat, lastAsn: nat, files: set<Found>)
    requires ChainState(picks, endLsn, lastAsn, files)
    ensures Gapless(picks, endLsn, lastAsn) && (!Crossing(files) ==> NoOverlap(picks, endLsn))
  {
  }

  lemma NothingContinues(listing: seq<Found>, files: set<Found>, lsn: nat)
    requires Lists(listing, files)
    requires forall k :: 0 <= k < |listing| ==> !Continues(listing[k], lsn)
    ensures forall f :: f in files ==> !Continues(f, lsn)
  {
    forall f | f in files ensures !Continues(f, lsn) {
      assert f in listing;
      var k :| 0 <= k < |listing| && listing[k] == f;
    }
  }

  // ---- what the chain restores ----

  /** The chain covers exactly the LSNs from the backup set's end to its own end. */
  lemma {:induction false} ChainCovers(picks: seq<Pick>, endLsn: nat, lastAsn: nat, lsn: nat)
    requires Gapless(picks, endLsn, lastAsn)
    ensures endLsn <= ChainEnd(picks, endLsn)
    ensures endLsn < lsn <= ChainEnd(picks, endLsn) ==>
              exists k :: 0 <= k < |picks| && picks[k].start < lsn <= picks[k].end
    ensures forall k :: 0 <= k < |picks| ==> picks[k].end <= ChainEnd(picks, endLsn)
  {
    if picks != [] {
      var front, p := picks[..|picks| - 1], picks[|picks| - 1];
      assert forall k :: 0 <= k < |front| ==> front[k] == picks[k];
      ChainCovers(front, endLsn, lastAsn, lsn);
      if endLsn < lsn <= p.end {
        if lsn <= ChainEnd(front, endLsn) {
          var k :| 0 <= k < |front| && front[k].start < lsn <= front[k].end;
          assert picks[k].start < lsn <= picks[k].end;
        } else {
          assert picks[|picks| - 1].start < lsn <= picks[|picks| - 1].end;
        }
      }
    }
  }

  ghost predicate Available(files: set<Found>, lsn: nat) { exists f :: f in files && Continues(f, lsn) }

  /** Nothing more could be restored: where the loop ends for want of an archive, no LSN beyond can be
      reached from the backup set through archives of the directory without a gap. */
  lemma ChainIsLongest(picks: seq<Pick>, endLsn: nat, lastAsn: nat, files: set<Found>, reach: nat)
    requires Gapless(picks, endLsn, lastAsn)
    requires forall f :: f in files ==> !Continues(f, ChainEnd(picks, endLsn) + 1)
    requires forall lsn :: endLsn < lsn <= reach ==> Available(files, lsn)
    ensures reach <= ChainEnd(picks, endLsn)
  {
    ChainCovers(picks, endLsn, lastAsn, 0);
    var next := ChainEnd(picks, endLsn) + 1;
    assert !Available(files, next);
  }

  /** The batches of the node's log with LSN in (from, to]. */
  function BatchesIn(log: seq<Batch>, from: nat, to: nat): seq<Batch> {
    if log == [] then []
    else (if from < log[0].lsn <= to then [log[0]] else []) + BatchesIn(log[1..], from, to)
  }

  lemma {:induction false} BatchesPast(log: seq<Batch>, from: nat, to: nat, lsn: nat)
    requires from <= lsn
    ensures PastLsn(BatchesIn(log, from, to), lsn) == BatchesIn(log, lsn, to)
  {
    if log != [] {
      BatchesPast(log[1..], from, to, lsn);
      var rest := BatchesIn(log[1..], from, to);
      if from < log[0].lsn <= to {
        assert BatchesIn(log, from, to) == [log[0]] + rest;
        assert ([log[0]] + rest)[1..] == rest;
      } else {
        assert BatchesIn(log, from, to) == rest;
      }
    }
  }

  lemma {:induction false} BatchesNone(log: seq<Batch>, from: nat, to: nat)
    requires forall k :: 0 <= k < |log| ==> !(from < log[k].lsn <= to)
    ensures BatchesIn(log, from, to) == []
  {
    if log != [] {
      assert forall k :: 0 <= k < |log[1..]| ==> log[1..][k] == log[k + 1];
      BatchesNone(log[1..], from, to);
    }
  }

  lemma BatchesCons(log: seq<Batch>, from: nat, to: nat)
    requires log != []
    ensures BatchesIn(log, from, to)
         == (if from < log[0].lsn <= to then [log[0]] else []) + BatchesIn(log[1..], from, to)
  {
  }

  lemma IncreasingTail(log: seq<Batch>, b: nat)
    requires Increasing(log) && log != []
    ensures Increasing(log[1..])
    ensures log[0].lsn > b ==> forall k :: 0 <= k < |log| ==> log[k].lsn > b
  {
    assert forall k :: 0 <= k < |log[1..]| ==> log[1..][k] == log[k + 1];
  }

  lemma {:induction false} BatchesJoin(log: seq<Batch>, a: nat, b: nat, c: nat)
    requires Increasing(log) && a <= b <= c
    ensures BatchesIn(log, a, b) + BatchesIn(log, b, c) == BatchesIn(log, a, c)
  {
    if log != [] {
      IncreasingTail(log, b);
      BatchesJoin(log[1..], a, b, c);
      BatchesCons(log, a, b);
      BatchesCons(log, b, c);
      BatchesCons(log, a, c);
      if log[0].lsn > b {
        BatchesNone(log, a, b);
        BatchesNone(log[1..], a, b) by { assert forall k :: 0 <= k < |log[1..]| ==> log[1..][k] == log[k + 1]; }
        hide BatchesIn, Increasing;
        assert [] + BatchesIn(log, b, c) == BatchesIn(log, b, c);
        assert [] + BatchesIn(log[1..], b, c) == BatchesIn(log[1..], b, c);
      } else {
        hide BatchesIn, Increasing;
        Regroup(if a < log[0].lsn <= b then [log[0]] else [], BatchesIn(log[1..], a, b), BatchesIn(log[1..], b, c));
        assert [] + BatchesIn(log[1..], b, c) == BatchesIn(log[1..], b, c);
      }
    }
  }

  lemma Regroup(x: seq<Batch>, y: seq<Batch>, z: seq<Batch>)
    ensures (x + y) + z == x + (y + z)
  {
  }

  /** The batches of the restored archives, in the order they are replayed. */
  function Replayed(log: seq<Batch>, picks: seq<Pick>): seq<Batch> {
    if picks == [] then []
    else
      var p := picks[|picks| - 1];
      Replayed(log, picks[..|picks| - 1]) + BatchesIn(log, p.start, p.end)
  }

  /** With disjoint archives the restored chain replays every batch after the backup set exactly once
      and in order. */
  lemma {:induction false} ReplaysOnce(log: seq<Batch>, picks: seq<Pick>, endLsn: nat)
    requires Increasing(log) && NoOverlap(picks, endLsn)
    ensures endLsn <= ChainEnd(picks, endLsn)
    ensures Replayed(log, picks) == BatchesIn(log, endLsn, ChainEnd(picks, endLsn))
  {
    hide BatchesIn, Increasing;
    if picks == [] {
      EmptyRange(log, endLsn);
    } else {
      var front, p := picks[..|picks| - 1], picks[|picks| - 1];
      ReplaysOnce(log, front, endLsn);
      BatchesJoin(log, endLsn, ChainEnd(front, endLsn), p.end);
    }
  }

  lemma EmptyRange(log: seq<Batch>, lsn: nat)
    ensures BatchesIn(log, lsn, lsn) == []
  {
    BatchesNone(log, lsn, lsn);
  }

  /** The first archive after trimming holds exactly the batches the chain's first pick stands for. */
  lemma FirstPickIsTrimmed(log: seq<Batch>, f: Found, endLsn: nat)
    requires f.start <= endLsn
    ensures PastLsn(BatchesIn(log, f.start, f.end), endLsn) == BatchesIn(log, endLsn, f.end)
  {
    BatchesPast(log, f.start, f.end, endLsn);
  }

  lemma OneBatch(b: Batch, from: nat, to: nat)
    ensures BatchesIn([b], from, to) == if from < b.lsn <= to then [b] else []
  {
    assert [b][1..] == [];
  }

  lemma {:induction false} ReplayedOnceAtLeast(picks: seq<Pick>, endLsn: nat, lastAsn: nat, b: Batch)
    requires Gapless(picks, endLsn, lastAsn) && endLsn < b.lsn <= ChainEnd(picks, endLsn)
    ensures |Replayed([b], picks)| >= 1
  {
    hide BatchesIn;
    if picks != [] {
      var front, p := picks[..|picks| - 1], picks[|picks| - 1];
      OneBatch(b, p.start, p.end);
      if b.lsn <= p.start { ReplayedOnceAtLeast(front, endLsn, lastAsn, b); }
    }
  }

  /** Where a pick starts before the previous one ended, some batch is replayed twice. */
  lemma {:induction false} OverlapReplaysTwice(picks: seq<Pick>, endLsn: nat, lastAsn: nat) returns (b: Batch)
    requires Gapless(picks, endLsn, lastAsn) && !NoOverlap(picks, endLsn)
    ensures endLsn < b.lsn <= ChainEnd(picks, endLsn) && |Replayed([b], picks)| >= 2
  {
    hide BatchesIn;
    var front, p := picks[..|picks| - 1], picks[|picks| - 1];
    if NoOverlap(front, endLsn) {
      b := Batch(ChainEnd(front, endLsn), 0, []);
      ChainCovers(front, endLsn, lastAsn, 0);
      assert front != [];
      ChainGrows(front, endLsn, lastAsn);
      ReplayedOnceAtLeast(front, endLsn, lastAsn, b);
      OneBatch(b, p.start, p.end);
    } else {
      b := OverlapReplaysTwice(front, endLsn, lastAsn);
    }
  }

  lemma ChainGrows(picks: seq<Pick>, endLsn: nat, lastAsn: nat)
    requires Gapless(picks, endLsn, lastAsn) && picks != []
    ensures endLsn < ChainEnd(picks, endLsn)
  {
    ChainCovers(picks[..|picks| - 1], endLsn, lastAsn, 0);
  }

  /** A gapless chain replays every batch exactly once, whatever the log holds, if and only if no two
      of its archives overlap. */
  lemma ReplayExact(picks: seq<Pick>, endLsn: nat, lastAsn: nat)
    requires Gapless(picks, endLsn, lastAsn)
    ensures NoOverlap(picks, endLsn) <==> ReplaysExactly(picks, endLsn)
  {
    if NoOverlap(picks, endLsn) {
      forall log | Increasing(log)
        ensures Replayed(log, picks) == BatchesIn(log, endLsn, ChainEnd(picks, endLsn))
      {
        ReplaysOnce(log, picks, endLsn);
      }
    } else {
      var b := OverlapReplaysTwice(picks, endLsn, lastAsn);
      OneBatch(b, endLsn, ChainEnd(picks, endLsn));
      assert Increasing([b]);
    }
  }

  // ---- which directories are restored exactly ----

  ghost function Listed(files: set<Found>): (s: seq<Found>)
    ensures Lists(s, files)
  {
    if files == {} then []
    else
      var f :| f in files;
      [f] + Listed(files - {f})
  }

  ghost function InFront(f: Found, files: set<Found>): (s: seq<Found>)
    ensures Lists(s, files)
    ensures f in files ==> s != [] && s[0] == f
  {
    if f in files then [f] + Listed(files - {f}) else Listed(files)
  }

  ghost function TwoFirst(f: Found, g: Found): Order {
    (k: nat, files) => if k == 0 then InFront(f, files) else InFront(g, files)
  }

  lemma TwoFirstFinds(f: Found, g: Found, k: nat, files: set<Found>, lsn: nat)
    ensures Lists(TwoFirst(f, g)(k, files), files)
    ensures var h := if k == 0 then f else g;
            h in files && Continues(h, lsn) ==> FirstFound(TwoFirst(f, g)(k, files), lsn) == Some(h)
  {
    var s := TwoFirst(f, g)(k, files);
    var h := if k == 0 then f else g;
    assert s == InFront(h, files);
    if h in files && Continues(h, lsn) { FirstFoundAt(s, lsn, 0); }
  }

  lemma TwoFirstOrders(f: Found, g: Found)
    ensures Orders(TwoFirst(f, g))
  {
    forall k: nat, files ensures Lists(TwoFirst(f, g)(k, files), files) { TwoFirstFinds(f, g, k, files, 0); }
  }

  /** Two crossing archives, listed first in turn, make an overlapping chain. */
  lemma CrossingOverlaps(files: set<Found>, f: Found, g: Found, endLsn: nat, lastAsn: nat)
    requires f in files && g in files && Crosses(f, g) && f.start <= endLsn < f.end
    ensures var picks := [Pick(endLsn, f.end, lastAsn + 1), Pick(g.start, g.end, lastAsn + 2)];
            IsRun(picks, files, TwoFirst(f, g), endLsn, lastAsn) && !NoOverlap(picks, endLsn)
  {
    hide IsRun, FirstFound, Orders, TwoFirst;
    var order, one, two := TwoFirst(f, g), Pick(endLsn, f.end, lastAsn + 1), Pick(g.start, g.end, lastAsn + 2);
    NoPicks(files, order, endLsn, lastAsn);
    TwoFirstFinds(f, g, 0, files, endLsn + 1);
    OneMoreRound([], files, order, endLsn, lastAsn, f);
    assert [] + [one] == [one];
    TwoFirstFinds(f, g, 1, DirAfter(files, endLsn, [one]), f.end + 1);
    OneMoreRound([one], files, order, endLsn, lastAsn, g);
    assert [one] + [two] == [one, two];
    assert [one, two][..1] == [one];
  }

  /** Archives (0, 10] and (5, 20] after a backup set that ends at 4: both are registered, the second from
      5 on although the first already holds the LSNs 6 to 10. The loop then ends. */
  lemma OverlapExample() returns (order: Order, picks: seq<Pick>)
    ensures var files := {Found(0, 10, true), Found(5, 20, true)};
            && Orders(order) && IsRun(picks, files, order, 4, 7)
            && picks == [Pick(4, 10, 8), Pick(5, 20, 9)] && !NoOverlap(picks, 4)
            && forall f :: f in DirAfter(files, 4, picks) ==> !Continues(f, ChainEnd(picks, 4) + 1)
  {
    hide IsRun, FirstFound, Orders, TwoFirst, NoOverlap;
    var f, g := Found(0, 10, true), Found(5, 20, true);
    order, picks := TwoFirst(f, g), [Pick(4, 10, 8), Pick(5, 20, 9)];
    TwoFirstOrders(f, g);
    CrossingOverlaps({f, g}, f, g, 4, 7);
  }

  /** Every run on this directory, whatever the backup set's end and the listing orders, replays every log
      exactly once and in order. */
  ghost predicate AlwaysExact(files: set<Found>) {
    forall picks, order, endLsn, lastAsn ::
      Orders(order) && IsRun(picks, files, order, endLsn, lastAsn) ==> ReplaysExactly(picks, endLsn)
  }

  ghost predicate ReplaysExactly(picks: seq<Pick>, endLsn: nat) {
    forall log :: Increasing(log) ==> Replayed(log, picks) == BatchesIn(log, endLsn, ChainEnd(picks, endLsn))
  }

  lemma UncrossedIsExact(files: set<Found>, picks: seq<Pick>, order: Order, endLsn: nat, lastAsn: nat)
    requires !Crossing(files) && Orders(order) && IsRun(picks, files, order, endLsn, lastAsn)
    ensures ReplaysExactly(picks, endLsn)
  {
    hide *;
    RunIsChain(picks, files, order, endLsn, lastAsn);
    StateParts(picks, endLsn, lastAsn, files);
    ReplayExact(picks, endLsn, lastAsn);
  }

  lemma CrossedIsInexact(files: set<Found>, f: Found, g: Found)
    requires f in files && g in files && Crosses(f, g)
    ensures Orders(TwoFirst(f, g)) && 0 < f.end
    ensures var picks := [Pick(f.end - 1, f.end, 1), Pick(g.start, g.end, 2)];
            IsRun(picks, files, TwoFirst(f, g), f.end - 1, 0) && !ReplaysExactly(picks, f.end - 1)
  {
    hide IsRun, Orders, TwoFirst, ReplaysExactly, ChainState, Gapless, NoOverlap;
    var picks := [Pick(f.end - 1, f.end, 1), Pick(g.start, g.end, 2)];
    CrossingOverlaps(files, f, g, f.end - 1, 0);
    TwoFirstOrders(f, g);
    RunIsChain(picks, files, TwoFirst(f, g), f.end - 1, 0);
    StateParts(picks, f.end - 1, 0, files);
    ReplayExact(picks, f.end - 1, 0);
  }

  /** Restore from a directory is always exact if and only if no two of its archives cross. */
  lemma RestoreExact(files: set<Found>)
    ensures AlwaysExact(files) <==> !Crossing(files)
  {
    hide IsRun, Orders, TwoFirst, ReplaysExactly, Crosses;
    if Crossing(files) {
      var f, g :| f in files && g in files && Crosses(f, g);
      CrossedIsInexact(files, f, g);
    } else {
      forall picks, order, endLsn, lastAsn: nat | Orders(order) && IsRun(picks, files, order, endLsn, lastAsn)
        ensures ReplaysExactly(picks, endLsn)
      {
        UncrossedIsExact(files, picks, order, endLsn, lastAsn);
      }
    }
  }
}
