/** The backup coordinator's tour of the nodes: it sends each live node its LSN, the node raises its
    own clock and replies with it, and the coordinator raises its clock to the largest reply
    (dtc_bak_set_log_point, first run). Every node's clock may tick at any moment. */
module LogPointTour {

  /** What becomes of the trigger sent to a node: lost on the way, processed but refused or its reply
      lost, or answered. */
  datatype Answer = Lost | Refused | Replied

  datatype Reply = Reply(node: nat, lsn: nat)

  /** The clocks of all nodes, the largest reply so far, the time (indexing the ticks) and the replies. */
  datatype Tour = Tour(clocks: seq<nat>, maxRcyLsn: nat, time: nat, replies: seq<Reply>)

  /** How the cluster behaves during the tour: which nodes are alive, what becomes of each trigger, and
      by how much each node's clock ticks at each moment. */
  datatype World = World(alive: nat -> bool, answer: nat -> Answer, tick: (nat, nat) -> nat)

  function Ticked(w: World, clocks: seq<nat>, time: nat): (r: seq<nat>)
    ensures |r| == |clocks|
    ensures forall i :: 0 <= i < |clocks| ==> r[i] == clocks[i] + w.tick(time, i)
  {
    if clocks == [] then []
    else
      var last := |clocks| - 1;
      Ticked(w, clocks[..last], time) + [clocks[last] + w.tick(time, last)]
  }

  /** Time passes: every clock ticks by its own amount. */
  function Pass(w: World, t: Tour): (r: Tour)
    ensures |r.clocks| == |t.clocks| && r.maxRcyLsn == t.maxRcyLsn && r.replies == t.replies
    ensures forall i :: 0 <= i < |t.clocks| ==> t.clocks[i] <= r.clocks[i]
  {
    t.(clocks := Ticked(w, t.clocks, t.time), time := t.time + 1)
  }

  /** dtc_update_lsn on node i: an unlocked read, any number of ticks, then the add. */
  function UpdateLsn(w: World, t: Tour, i: nat, lsn: nat): (r: Tour)
    requires i < |t.clocks|
    ensures |r.clocks| == |t.clocks| && r.maxRcyLsn == t.maxRcyLsn && r.replies == t.replies
    ensures lsn <= r.clocks[i]
    ensures forall k :: 0 <= k < |t.clocks| ==> t.clocks[k] <= r.clocks[k]
  {
    var delta := lsn - t.clocks[i];
    var u := Pass(w, t);
    if delta <= 0 then u else u.(clocks := u.clocks[i := u.clocks[i] + delta])
  }

  /** dtc_bak_log_ckpt_trigger_by_instid for node i, with dtc_ckpt_trigger and dtc_process_ckpt_trigger. */
  function Visit(w: World, t: Tour, self: nat, i: nat): (r: Tour)
    requires self < |t.clocks| && i < |t.clocks|
    ensures |r.clocks| == |t.clocks|
  {
    var sent := t.clocks[self];
    var t1 := Pass(w, t);
    if w.answer(i).Lost? then t1
    else
      var t2 := Pass(w, UpdateLsn(w, t1, i, sent));
      var reply := t2.clocks[i];
      var t3 := Pass(w, t2);
      if w.answer(i).Refused? then t3
      else
        var t4 := t3.(replies := t3.replies + [Reply(i, reply)]);
        if t4.maxRcyLsn < reply then UpdateLsn(w, t4.(maxRcyLsn := reply), self, reply) else t4
  }

  /** One round of the loop of dtc_bak_set_log_point. */
  function Round(w: World, t: Tour, self: nat, i: nat): (r: Tour)
    requires self < |t.clocks| && i < |t.clocks|
    ensures |r.clocks| == |t.clocks|
  {
    if i == self then Pass(w, t)
    else if !w.alive(i) then t
    else Visit(w, t, self, i)
  }

  /** The tour after the first k nodes. */
  function TourOf(w: World, t: Tour, self: nat, k: nat): (r: Tour)
    requires self < |t.clocks| && k <= |t.clocks|
    ensures |r.clocks| == |t.clocks|
  {
    if k == 0 then t else Round(w, TourOf(w, t, self, k - 1), self, k - 1)
  }

  /** dtc_bak_set_log_point, first run (`update` false). */
  method SetLogPoint(w: World, start: Tour, self: nat) returns (t: Tour)
    requires self < |start.clocks|
    ensures t == TourOf(w, start, self, |start.clocks|)
  {
    t := start;
    for i := 0 to |start.clocks|
      invariant t == TourOf(w, start, self, i)
    {
      if i != self {
        if w.alive(i) {
          t := Visit(w, t, self, i);
        }
      } else {
        t := Pass(w, t);
      }
    }
  }

  /** Each reply is at least every earlier one, and the coordinator's clock at least every reply. */
  ghost predicate Ordered(t: Tour, self: nat)
    requires self < |t.clocks|
  {
    && (forall a, b :: 0 <= a < b < |t.replies| ==> t.replies[a].lsn <= t.replies[b].lsn)
    && (forall a :: 0 <= a < |t.replies| ==> t.replies[a].lsn <= t.clocks[self])
  }

  ghost predicate TourInv(t: Tour, self: nat)
    requires self < |t.clocks|
  {
    && t.maxRcyLsn <= t.clocks[self]
    && (forall a, b :: 0 <= a < b < |t.replies| ==> t.replies[a].lsn <= t.replies[b].lsn)
    && (forall a :: 0 <= a < |t.replies| ==> t.replies[a].lsn <= t.maxRcyLsn)
  }

  lemma PassKeeps(w: World, t: Tour, self: nat)
    requires self < |t.clocks| && TourInv(t, self)
    ensures TourInv(Pass(w, t), self)
  {
    hide Pass;
  }

  lemma VisitKeeps(w: World, t: Tour, self: nat, i: nat)
    requires self < |t.clocks| && i < |t.clocks| && TourInv(t, self)
    ensures TourInv(Visit(w, t, self, i), self)
  {
    hide Pass, UpdateLsn;
    var sent := t.clocks[self];
    var t1 := Pass(w, t);
    var t2 := Pass(w, UpdateLsn(w, t1, i, sent));
    assert sent <= t2.clocks[i];
  }

  lemma {:induction false} TourKeeps(w: World, t: Tour, self: nat, k: nat)
    requires self < |t.clocks| && k <= |t.clocks| && TourInv(t, self)
    ensures TourInv(TourOf(w, t, self, k), self)
  {
    hide TourInv, Visit, Pass;
    if k > 0 {
      TourKeeps(w, t, self, k - 1);
      var u := TourOf(w, t, self, k - 1);
      PassKeeps(w, u, self);
      VisitKeeps(w, u, self, k - 1);
    }
  }

  /** If the largest reply starts no higher than the coordinator's LSN, then over the whole tour, whatever
      ticks and failures happen, replies never decrease and the coordinator ends at least as high as every
      reply. */
  lemma TourOrdered(w: World, t: Tour, self: nat, k: nat)
    requires self < |t.clocks| && k <= |t.clocks|
    requires t.replies == [] && t.maxRcyLsn <= t.clocks[self]
    ensures Ordered(TourOf(w, t, self, k), self)
  {
    TourKeeps(w, t, self, k);
  }

  /** The tour of a backup: it reads its clock into the largest reply and starts the tour; whatever its clock
      has ticked in between, the tour is ordered. */
  lemma BackupTourOrdered(w: World, clocks: seq<nat>, self: nat, read: nat)
    requires self < |clocks| && read <= clocks[self]
    ensures Ordered(TourOf(w, Tour(clocks, read, 0, []), self, |clocks|), self)
  {
    TourOrdered(w, Tour(clocks, read, 0, []), self, |clocks|);
  }

  // ---- what a tour brings ----

  /** No clock goes back; the trigger, unless lost, brings the node to the coordinator's LSN; and an answering
      node's reply, no less than that and no more than its clock, is recorded and raises the largest reply. */
  ghost predicate VisitMeans(w: World, t: Tour, self: nat, i: nat, r: Tour)
    requires self < |t.clocks| && i < |t.clocks| == |r.clocks|
  {
    && (forall j :: 0 <= j < |t.clocks| ==> t.clocks[j] <= r.clocks[j])
    && (!w.answer(i).Lost? ==> t.clocks[self] <= r.clocks[i])
    && if !w.answer(i).Replied? then r.replies == t.replies && r.maxRcyLsn == t.maxRcyLsn
       else
         && |r.replies| == |t.replies| + 1 && t.replies <= r.replies
         && var reply := r.replies[|t.replies|];
            && reply.node == i && t.clocks[self] <= reply.lsn <= r.clocks[i]
            && r.maxRcyLsn == (if t.maxRcyLsn < reply.lsn then reply.lsn else t.maxRcyLsn)
  }

  lemma VisitIs(w: World, t: Tour, self: nat, i: nat)
    requires self < |t.clocks| && i < |t.clocks|
    ensures VisitMeans(w, t, self, i, Visit(w, t, self, i))
  {
    hide Pass, UpdateLsn;
    var t1 := Pass(w, t);
    var t2 := Pass(w, UpdateLsn(w, t1, i, t.clocks[self]));
    assert t.clocks[self] <= t2.clocks[i];
  }

  /** Node i's trigger is sent and arrives; its reply comes back too. */
  predicate Reached(w: World, self: nat, i: nat) { i != self && w.alive(i) && !w.answer(i).Lost? }

  predicate Replies(w: World, self: nat, i: nat) { i != self && w.alive(i) && w.answer(i).Replied? }

  /** No clock has gone back, and the nodes reached among the first k are where the coordinator started. */
  ghost predicate ClocksRise(w: World, t0: Tour, self: nat, k: nat, t: Tour)
    requires self < |t0.clocks| == |t.clocks| && k <= |t0.clocks|
  {
    && (forall j :: 0 <= j < |t.clocks| ==> t0.clocks[j] <= t.clocks[j])
    && (forall j :: 0 <= j < k && Reached(w, self, j) ==> t0.clocks[self] <= t.clocks[j])
  }

  /** The nodes among the first k whose reply comes back, in order. */
  function Repliers(w: World, self: nat, k: nat): seq<nat> {
    if k == 0 then [] else Repliers(w, self, k - 1) + (if Replies(w, self, k - 1) then [k - 1] else [])
  }

  function Nodes(replies: seq<Reply>): seq<nat> {
    if replies == [] then [] else Nodes(replies[..|replies| - 1]) + [replies[|replies| - 1].node]
  }

  function Lsns(replies: seq<Reply>): seq<nat> {
    if replies == [] then [] else Lsns(replies[..|replies| - 1]) + [replies[|replies| - 1].lsn]
  }

  /** The larger of `start` and every LSN. */
  function Top(start: nat, lsns: seq<nat>): nat {
    if lsns == [] then start
    else
      var top := Top(start, lsns[..|lsns| - 1]);
      if top < lsns[|lsns| - 1] then lsns[|lsns| - 1] else top
  }

  ghost predicate Within(replies: seq<Reply>, low: nat, clocks: seq<nat>) {
    forall a :: 0 <= a < |replies| ==> replies[a].node < |clocks| && low <= replies[a].lsn <= clocks[replies[a].node]
  }

  lemma RepliesOneMore(w: World, t: Tour, self: nat, i: nat, r: Tour, low: nat, start: nat)
    requires self < |t.clocks| && i < |t.clocks| == |r.clocks| && VisitMeans(w, t, self, i, r)
    requires low <= t.clocks[self] && Within(t.replies, low, t.clocks) && t.maxRcyLsn == Top(start, Lsns(t.replies))
    ensures Nodes(r.replies) == Nodes(t.replies) + (if w.answer(i).Replied? then [i] else [])
    ensures Within(r.replies, low, r.clocks) && r.maxRcyLsn == Top(start, Lsns(r.replies))
  {
    if w.answer(i).Replied? {
      assert r.replies[..|r.replies| - 1] == t.replies;
      assert Lsns(r.replies)[..|Lsns(r.replies)| - 1] == Lsns(t.replies);
    }
  }

  /** What the tour from t0 has brought after k nodes. */
  ghost predicate Brought(w: World, t0: Tour, self: nat, k: nat, t: Tour)
    requires self < |t0.clocks| == |t.clocks| && k <= |t0.clocks|
  {
    && ClocksRise(w, t0, self, k, t)
    && Nodes(t.replies) == Repliers(w, self, k)
    && Within(t.replies, t0.clocks[self], t.clocks)
    && t.maxRcyLsn == Top(t0.maxRcyLsn, Lsns(t.replies))
  }

  ghost predicate OnlyTime(t: Tour, r: Tour)
    requires |t.clocks| == |r.clocks|
  {
    && r.replies == t.replies && r.maxRcyLsn == t.maxRcyLsn
    && forall j :: 0 <= j < |t.clocks| ==> t.clocks[j] <= r.clocks[j]
  }

  lemma BroughtPast(w: World, t0: Tour, self: nat, k: nat, t: Tour, r: Tour)
    requires self < |t0.clocks| == |t.clocks| == |r.clocks| && k < |t0.clocks| && !Reached(w, self, k)
    requires Brought(w, t0, self, k, t) && OnlyTime(t, r)
    ensures Brought(w, t0, self, k + 1, r)
  {
    hide Nodes, Lsns, Top;
  }

  lemma ClocksOneMore(w: World, t0: Tour, self: nat, k: nat, t: Tour, r: Tour)
    requires self < |t0.clocks| == |t.clocks| == |r.clocks| && k < |t0.clocks|
    requires ClocksRise(w, t0, self, k, t) && VisitMeans(w, t, self, k, r) && Reached(w, self, k)
    ensures ClocksRise(w, t0, self, k + 1, r) && t0.clocks[self] <= t.clocks[self]
  {
  }

  lemma BroughtVisit(w: World, t0: Tour, self: nat, k: nat, t: Tour, r: Tour)
    requires self < |t0.clocks| == |t.clocks| == |r.clocks| && k < |t0.clocks| && Reached(w, self, k)
    requires Brought(w, t0, self, k, t) && VisitMeans(w, t, self, k, r)
    ensures Brought(w, t0, self, k + 1, r)
  {
    ClocksOneMore(w, t0, self, k, t, r);
    RepliesOneMore(w, t, self, k, r, t0.clocks[self], t0.maxRcyLsn);
    hide Nodes, Lsns, Top, Within, ClocksRise, VisitMeans;
  }

  lemma BroughtNothing(w: World, t0: Tour, self: nat)
    requires self < |t0.clocks| && t0.replies == []
    ensures Brought(w, t0, self, 0, t0)
  {
  }

  lemma BroughtRound(w: World, t0: Tour, self: nat, k: nat, t: Tour)
    requires self < |t0.clocks| == |t.clocks| && k < |t0.clocks| && Brought(w, t0, self, k, t)
    ensures Brought(w, t0, self, k + 1, Round(w, t, self, k))
  {
    hide Brought, Visit, Pass, VisitMeans;
    VisitIs(w, t, self, k);
    var r := Round(w, t, self, k);
    if Reached(w, self, k) {
      BroughtVisit(w, t0, self, k, t, r);
    } else {
      if k != self && w.alive(k) { LostVisit(w, t, self, k, r); }
      BroughtPast(w, t0, self, k, t, r);
    }
  }

  lemma LostVisit(w: World, t: Tour, self: nat, i: nat, r: Tour)
    requires self < |t.clocks| && i < |t.clocks| == |r.clocks| && VisitMeans(w, t, self, i, r) && w.answer(i).Lost?
    ensures OnlyTime(t, r)
  {
  }

  /** Over the whole tour: no clock goes back and every node reached ends at least where the coordinator started;
      the replies are exactly one from each live node that answers, in node order, none below that LSN nor above
      its node's clock; and the largest reply is the largest of its start value and all replies. */
  lemma {:induction false} TourBrings(w: World, t0: Tour, self: nat, k: nat)
    requires self < |t0.clocks| && k <= |t0.clocks| && t0.replies == []
    ensures Brought(w, t0, self, k, TourOf(w, t0, self, k))
  {
    hide Brought, Round;
    if k == 0 {
      BroughtNothing(w, t0, self);
    } else {
      TourBrings(w, t0, self, k - 1);
      BroughtRound(w, t0, self, k - 1, TourOf(w, t0, self, k - 1));
    }
  }

  // ---- the start value matters ----

  function Still(i: nat, j: nat): nat { 0 }

  /** The tour in a quiet cluster whose every clock stands at c, except node r's at m > c, while the
      largest reply is taken to be m already: nobody's clock moves. */
  ghost predicate Quiet(t: Tour, n: nat, self: nat, r: nat, c: nat, m: nat) {
    && |t.clocks| == n && t.maxRcyLsn == m
    && forall k :: 0 <= k < n ==> t.clocks[k] == if k == r then m else c
  }

  lemma QuietPass(w: World, t: Tour, n: nat, self: nat, r: nat, c: nat, m: nat)
    requires w.tick == Still && Quiet(t, n, self, r, c, m)
    ensures Quiet(Pass(w, t), n, self, r, c, m)
  {
  }

  lemma QuietUpdate(w: World, t: Tour, n: nat, self: nat, r: nat, c: nat, m: nat, i: nat)
    requires w.tick == Still && Quiet(t, n, self, r, c, m) && c < m && i < n
    ensures Quiet(UpdateLsn(w, t, i, c), n, self, r, c, m)
  {
    hide Pass;
    QuietPass(w, t, n, self, r, c, m);
  }

  lemma QuietVisit(w: World, t: Tour, n: nat, self: nat, r: nat, c: nat, m: nat, i: nat)
    requires w.tick == Still && Quiet(t, n, self, r, c, m) && c < m
    requires self < n && r < n && self != r && i < n
    ensures Quiet(Visit(w, t, self, i), n, self, r, c, m)
    ensures var v := Visit(w, t, self, i);
            if w.answer(i).Replied? then v.replies == t.replies + [Reply(i, if i == r then m else c)]
            else v.replies == t.replies
  {
    hide Pass, UpdateLsn;
    var t1 := Pass(w, t);
    QuietPass(w, t, n, self, r, c, m);
    QuietUpdate(w, t1, n, self, r, c, m, i);
    var u := UpdateLsn(w, t1, i, c);
    QuietPass(w, u, n, self, r, c, m);
    var t2 := Pass(w, u);
    QuietPass(w, t2, n, self, r, c, m);
  }

  lemma {:induction false} QuietTour(w: World, t: Tour, n: nat, self: nat, r: nat, c: nat, m: nat, k: nat)
    requires w.tick == Still && Quiet(t, n, self, r, c, m) && c < m
    requires self < n && r < n && self != r && k <= n
    requires w.alive(r) && w.answer(r).Replied?
    ensures Quiet(TourOf(w, t, self, k), n, self, r, c, m)
    ensures r < k ==> Reply(r, m) in TourOf(w, t, self, k).replies
  {
    hide Visit, Pass, Quiet;
    if k > 0 {
      assert |t.clocks| == n by { QuietLength(t, n, self, r, c, m); }
      QuietTour(w, t, n, self, r, c, m, k - 1);
      var u := TourOf(w, t, self, k - 1);
      QuietPass(w, u, n, self, r, c, m);
      QuietVisit(w, u, n, self, r, c, m, k - 1);
      assert Pass(w, u).replies == u.replies;
    } else {
      assert |t.clocks| == n by { QuietLength(t, n, self, r, c, m); }
    }
  }

  lemma QuietLength(t: Tour, n: nat, self: nat, r: nat, c: nat, m: nat)
    requires Quiet(t, n, self, r, c, m)
    ensures |t.clocks| == n
    ensures self < n && self != r ==> t.clocks[self] == c
  {
  }

  /** A stale, too large start value, which no backup uses, would break the order even in a quiet cluster. */
  lemma StaleStartBreaks(n: nat, self: nat, r: nat, alive: nat -> bool, answer: nat -> Answer, c: nat, m: nat)
    returns (clocks: seq<nat>)
    requires self < n && r < n && self != r && alive(r) && answer(r).Replied? && c < m
    ensures |clocks| == n && clocks[self] == c
    ensures !Ordered(TourOf(World(alive, answer, Still), Tour(clocks, m, 0, []), self, n), self)
  {
    clocks := seq<nat>(n, k requires 0 <= k < n => if k == r then m else c);
    var w, t := World(alive, answer, Still), Tour(clocks, m, 0, []);
    QuietTour(w, t, n, self, r, c, m, n);
    var end := TourOf(w, t, self, n);
    QuietLength(end, n, self, r, c, m);
    hide TourOf, Quiet;
    var a :| 0 <= a < |end.replies| && end.replies[a] == Reply(r, m);
  }

  /** Exactly when the tour is ordered whatever the clocks do: for a coordinator at LSN c in a cluster
      where some other node replies, the largest reply must not start above c. */
  lemma TourNeedsFreshStart(n: nat, self: nat, r: nat, alive: nat -> bool, answer: nat -> Answer, c: nat, m: nat)
    requires self < n && r < n && self != r && alive(r) && answer(r).Replied?
    ensures m <= c <==>
      forall clocks: seq<nat>, tick: (nat, nat) -> nat | |clocks| == n && clocks[self] == c ::
        Ordered(TourOf(World(alive, answer, tick), Tour(clocks, m, 0, []), self, n), self)
  {
    hide TourOf, Ordered;
    if m <= c {
      forall clocks: seq<nat>, tick: (nat, nat) -> nat | |clocks| == n && clocks[self] == c
        ensures Ordered(TourOf(World(alive, answer, tick), Tour(clocks, m, 0, []), self, n), self)
      {
        TourOrdered(World(alive, answer, tick), Tour(clocks, m, 0, []), self, n);
      }
    } else {
      var clocks := StaleStartBreaks(n, self, r, alive, answer, c, m);
    }
  }
}
