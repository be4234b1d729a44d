/** Redo statistics kept by the checkpoint: the sizes of one window (dtc_cal_redo_size) and the ring
    they are recorded in (dtc_calculate_rcy_redo_size). */
module RedoStat {
  import opened Basics

  const CAL_REDO_TIMES: nat := 50
  const STAT_COUNT: nat := 500
  const SIZE_K: nat := 1024
  const SIZE_M: nat := 1048576

  datatype LogPoint = LogPoint(asn: nat, blockId: nat)

  /** The two points a window looks at: where redo was generated up to, where recovery would start. */
  datatype Points = Points(lrp: LogPoint, rcy: LogPoint)

  /** What is seen when a window is recorded: the points and, where the storage service keeps the redo, the
      kilobytes of backlog it reports. */
  datatype Sample = Sample(points: Points, reportedKb: Option<nat>)

  /** Size and block size of the log files. */
  datatype LogFile = LogFile(size: nat, blockSize: nat)

  /** One window's figures in whole megabytes. */
  datatype Window = Window(recovery: nat, generated: nat, recycled: nat)

  /** The distance between two log points as the code computes it: a 32-bit difference of the file
      numbers, the rest in 64-bit unsigned arithmetic. */
  function Distance(f: LogFile, from: LogPoint, to: LogPoint): nat {
    (f.size * ((to.asn - from.asn) % U32) + to.blockId * f.blockSize - from.blockId * f.blockSize) % U64
  }

  /** dtc_cal_redo_size. */
  function WindowOf(f: LogFile, pre: Points, sample: Sample): Window {
    var now := sample.points;
    Window(if sample.reportedKb.Some? then sample.reportedKb.value * SIZE_K / SIZE_M
           else Distance(f, now.rcy, now.lrp) / SIZE_M,
           Distance(f, pre.lrp, now.lrp) / SIZE_M,
           Distance(f, pre.rcy, now.rcy) / SIZE_M)
  }

  // ---- the balance ----

  /** A log point's byte position in the stream of all log files. */
  ghost function Position(f: LogFile, p: LogPoint): nat { f.size * p.asn + p.blockId * f.blockSize }

  ghost predicate Before(f: LogFile, a: LogPoint, b: LogPoint) {
    a.asn <= b.asn < U32 && Position(f, a) <= Position(f, b) && Position(f, b) - Position(f, a) < U64
  }

  /** For ordered points the wrap-around arithmetic gives the true distance. */
  lemma DistanceExact(f: LogFile, from: LogPoint, to: LogPoint)
    requires Before(f, from, to)
    ensures Distance(f, from, to) == Position(f, to) - Position(f, from)
  {
    assert (to.asn - from.asn) % U32 == to.asn - from.asn;
    Distribute(f.size, to.asn, from.asn);
  }

  lemma Distribute(s: nat, a: nat, b: nat)
    ensures s * (a - b) == s * a - s * b
  {
  }

  /** Points of one window after those of the previous one. */
  ghost predicate Ordered(f: LogFile, pre: Points, now: Points) {
    && Before(f, pre.rcy, pre.lrp) && Before(f, now.rcy, now.lrp)
    && Before(f, pre.lrp, now.lrp) && Before(f, pre.rcy, now.rcy)
  }

  /** In bytes: backlog = previous backlog + generated - recycled. */
  lemma BytesBalance(f: LogFile, pre: Points, now: Points)
    requires Ordered(f, pre, now)
    ensures Distance(f, now.rcy, now.lrp)
         == Distance(f, pre.rcy, pre.lrp) + Distance(f, pre.lrp, now.lrp) - Distance(f, pre.rcy, now.rcy)
  {
    DistanceExact(f, now.rcy, now.lrp);
    DistanceExact(f, pre.rcy, pre.lrp);
    DistanceExact(f, pre.lrp, now.lrp);
    DistanceExact(f, pre.rcy, now.rcy);
    hide Position, Distance;
  }

  /** Whole parts of a balanced sum are balanced to within one. */
  lemma WholeParts(r1: nat, r0: nat, g: nat, c: nat)
    requires r1 == r0 + g - c
    ensures -1 <= r1 / SIZE_M - (r0 / SIZE_M + g / SIZE_M - c / SIZE_M) <= 1
  {
  }

  /** In the recorded megabytes the same balance holds to within one megabyte, for file-based redo. */
  lemma MegabytesBalance(f: LogFile, pre2: Points, pre: Points, now: Points)
    requires Ordered(f, pre, now)
    ensures var w0, w := WindowOf(f, pre2, Sample(pre, None)), WindowOf(f, pre, Sample(now, None));
            -1 <= w.recovery - (w0.recovery + w.generated - w.recycled) <= 1
  {
    BytesBalance(f, pre, now);
    WholeParts(Distance(f, now.rcy, now.lrp), Distance(f, pre.rcy, pre.lrp),
               Distance(f, pre.lrp, now.lrp), Distance(f, pre.rcy, now.rcy));
    hide Distance;
  }

  /** A figure in whole megabytes: what is left of `bytes` beyond it is less than one megabyte. */
  ghost predicate WholeMegabytes(figure: nat, bytes: int) {
    figure * SIZE_M <= bytes < figure * SIZE_M + SIZE_M
  }

  /** The figures of a window: what was generated and recycled since the previous one, and the backlog, which is
      the kilobytes reported or else the distance from the recovery point to the end of the redo. */
  lemma FiguresMean(f: LogFile, pre: Points, sample: Sample)
    requires Ordered(f, pre, sample.points)
    ensures var w, now := WindowOf(f, pre, sample), sample.points;
            && WholeMegabytes(w.generated, Position(f, now.lrp) - Position(f, pre.lrp))
            && WholeMegabytes(w.recycled, Position(f, now.rcy) - Position(f, pre.rcy))
            && match sample.reportedKb
               case Some(kb) => w.recovery * SIZE_K <= kb < (w.recovery + 1) * SIZE_K
               case None => WholeMegabytes(w.recovery, Position(f, now.lrp) - Position(f, now.rcy))
  {
    var now := sample.points;
    DistanceExact(f, pre.lrp, now.lrp);
    DistanceExact(f, pre.rcy, now.rcy);
    DistanceExact(f, now.rcy, now.lrp);
    hide Distance, Position;
  }

  /** Totals over the windows after the first. */
  function Generated(f: LogFile, ps: seq<Points>): nat {
    if |ps| <= 1 then 0
    else Generated(f, ps[..|ps| - 1]) + Distance(f, ps[|ps| - 2].lrp, ps[|ps| - 1].lrp)
  }

  function Recycled(f: LogFile, ps: seq<Points>): nat {
    if |ps| <= 1 then 0
    else Recycled(f, ps[..|ps| - 1]) + Distance(f, ps[|ps| - 2].rcy, ps[|ps| - 1].rcy)
  }

  /** Conservation over any run of windows: what was generated is either recycled or still backlog. */
  lemma {:induction false} RunBalance(f: LogFile, ps: seq<Points>)
    requires |ps| >= 1
    requires forall k :: 0 <= k < |ps| - 1 ==> Ordered(f, ps[k], ps[k + 1])
    ensures var last := ps[|ps| - 1];
            Distance(f, last.rcy, last.lrp) + Recycled(f, ps) == Distance(f, ps[0].rcy, ps[0].lrp) + Generated(f, ps)
    decreases |ps|
  {
    hide Distance, Ordered;
    if |ps| > 1 {
      var front := ps[..|ps| - 1];
      forall k | 0 <= k < |front| - 1
        ensures Ordered(f, front[k], front[k + 1])
      {
        assert front[k] == ps[k] && front[k + 1] == ps[k + 1];
      }
      RunBalance(f, front);
      assert front[|front| - 1] == ps[|ps| - 2];
      assert ps[|ps| - 2 + 1] == ps[|ps| - 1];
      BytesBalance(f, ps[|ps| - 2], ps[|ps| - 1]);
    }
  }

  // ---- the ring ----

  const ZERO: LogPoint := LogPoint(0, 0)

  /** The windows recorded for what was seen at each recording. */
  function Windows(f: LogFile, ps: seq<Sample>): seq<Window> {
    if ps == [] then []
    else
      var front := ps[..|ps| - 1];
      var pre := if front == [] then Points(ZERO, ZERO) else front[|front| - 1].points;
      Windows(f, front) + [WindowOf(f, pre, ps[|ps| - 1])]
  }

  /** The points a window is measured from: those recorded before it. */
  function PointsBefore(ps: seq<Sample>, k: nat): Points
    requires k < |ps|
  {
    if k == 0 then Points(ZERO, ZERO) else ps[k - 1].points
  }

  lemma {:induction false} WindowsAt(f: LogFile, ps: seq<Sample>, k: nat)
    requires k < |ps|
    ensures |Windows(f, ps)| == |ps| && Windows(f, ps)[k] == WindowOf(f, PointsBefore(ps, k), ps[k])
  {
    hide WindowOf;
    var front := ps[..|ps| - 1];
    if front != [] {
      WindowsAt(f, front, if k < |front| then k else 0);
    }
  }

  /** In the recorded windows themselves: each backlog is the one before it plus what was generated and less what
      was recycled, to within one megabyte. */
  lemma RecordedBalance(f: LogFile, ps: seq<Sample>, k: nat)
    requires 0 < k < |ps| && ps[k - 1].reportedKb.None? && ps[k].reportedKb.None?
    requires Ordered(f, ps[k - 1].points, ps[k].points)
    ensures var ws := Windows(f, ps);
            && |ws| == |ps|
            && -1 <= ws[k].recovery - (ws[k - 1].recovery + ws[k].generated - ws[k].recycled) <= 1
  {
    hide WindowOf, Windows, Ordered;
    WindowsAt(f, ps, k - 1);
    WindowsAt(f, ps, k);
    MegabytesBalance(f, PointsBefore(ps, k - 1), ps[k - 1].points, ps[k].points);
    assert ps[k - 1] == Sample(ps[k - 1].points, None) && ps[k] == Sample(ps[k].points, None);
  }

  /** The slots hold the last min(k, 500) of the k windows recorded, window i at slot i mod 500. */
  ghost predicate RingHolds(slots: seq<Window>, cnt: nat, startInd: nat, ws: seq<Window>) {
    && |slots| == STAT_COUNT
    && cnt == Min(|ws|, STAT_COUNT)
    && startInd == |ws| % STAT_COUNT
    && forall i :: |ws| - cnt <= i < |ws| ==> slots[i % STAT_COUNT] == ws[i]
  }

  lemma RingInsert(slots: seq<Window>, cnt: nat, startInd: nat, ws: seq<Window>, w: Window)
    requires RingHolds(slots, cnt, startInd, ws)
    ensures var at := if cnt < STAT_COUNT then cnt else startInd;
            at < STAT_COUNT &&
            RingHolds(slots[at := w], if cnt < STAT_COUNT then cnt + 1 else cnt, (at + 1) % STAT_COUNT, ws + [w])
  {
    var at := if cnt < STAT_COUNT then cnt else startInd;
    Slots(|ws|);
    var now, all := slots[at := w], ws + [w];
    var cnt' := if cnt < STAT_COUNT then cnt + 1 else cnt;
    forall i | |all| - cnt' <= i < |all|
      ensures now[i % STAT_COUNT] == all[i]
    {
      if i < |ws| {
        SlotsDiffer(i, |ws|);
        assert slots[i % STAT_COUNT] == ws[i];
      }
    }
  }

  lemma Slots(k: nat)
    ensures (k % STAT_COUNT + 1) % STAT_COUNT == (k + 1) % STAT_COUNT
    ensures k < STAT_COUNT ==> k % STAT_COUNT == k
  {
  }

  lemma SlotsDiffer(i: nat, k: nat)
    requires i < k < i + STAT_COUNT
    ensures i % STAT_COUNT != k % STAT_COUNT
  {
  }

  /** Once the ring is full, reading on from the start index gives the last 500 windows, oldest first. */
  lemma OldestFirst(slots: seq<Window>, cnt: nat, startInd: nat, ws: seq<Window>, j: nat)
    requires RingHolds(slots, cnt, startInd, ws) && cnt == STAT_COUNT && j < STAT_COUNT
    ensures slots[(startInd + j) % STAT_COUNT] == ws[|ws| - STAT_COUNT + j]
  {
    var i := |ws| - STAT_COUNT + j;
    assert i % STAT_COUNT == (startInd + j) % STAT_COUNT;
    assert slots[i % STAT_COUNT] == ws[i];
  }

  class RedoStatistics {
    var ckptNum: nat
    const slots: array<Window>
    var cnt: nat
    var startInd: nat
    var pre: Points

    constructor ()
      ensures (forall f :: Holds(f, [])) && ckptNum == 0 && fresh(slots)
    {
      slots := new Window[STAT_COUNT](_ => Window(0, 0, 0));
      ckptNum, cnt, startInd := 0, 0, 0;
      pre := Points(ZERO, ZERO);
    }

    /** The state after the samples `ps` have been recorded, for log files f. */
    ghost predicate Holds(f: LogFile, ps: seq<Sample>) reads this, slots {
      && slots.Length == STAT_COUNT && ckptNum < CAL_REDO_TIMES
      && RingHolds(slots[..], cnt, startInd, Windows(f, ps))
      && pre == if ps == [] then Points(ZERO, ZERO) else ps[|ps| - 1].points
    }

    /** dtc_calculate_rcy_redo_size: every 50th checkpoint records one window in the ring. Where the storage
        service keeps the redo (`dbs`), `answer` is the backlog it reports, None if it cannot; nothing is then
        recorded and the next checkpoint tries again. */
    method Calculate(f: LogFile, now: Points, dbs: bool, answer: Option<nat>, ghost ps: seq<Sample>)
      returns (recorded: bool)
      requires Holds(f, ps)
      modifies this`ckptNum, this`cnt, this`startInd, this`pre, slots
      ensures recorded <==> old(ckptNum) == CAL_REDO_TIMES - 1 && !(dbs && answer.None?)
      ensures ckptNum == if recorded then 0 else Min(old(ckptNum) + 1, CAL_REDO_TIMES - 1)
      ensures Holds(f, if recorded then ps + [Sample(now, if dbs then answer else None)] else ps)
    {
      hide RingHolds, WindowOf;
      ckptNum := ckptNum + 1;
      recorded := ckptNum == CAL_REDO_TIMES;
      if recorded {
        if dbs && answer.None? {
          ckptNum := ckptNum - 1;
          return false;
        }
        var sample := Sample(now, if dbs then answer else None);
        var w := WindowOf(f, pre, sample);
        RingInsert(slots[..], cnt, startInd, Windows(f, ps), w);
        assert (ps + [sample])[..|ps|] == ps;
        assert Windows(f, ps + [sample]) == Windows(f, ps) + [w];
        var at := if cnt < STAT_COUNT then cnt else startInd;
        ghost var was := slots[..];
        slots[at] := w;
        assert slots[..] == was[at := w];
        cnt := if cnt < STAT_COUNT then cnt + 1 else cnt;
        startInd := (at + 1) % STAT_COUNT;
        pre := now;
        ckptNum := 0;
      }
    }
  }
}
