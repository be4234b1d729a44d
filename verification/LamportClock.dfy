/** The two Lamport clocks of a node under concurrent updates: the SCN, raised under a double-checked
    lock (dtc_update_scn), and the LSN, raised by an unlocked read and an atomic add (dtc_update_lsn). */
module LamportClock {

  // ---- SCN ----

  /** Where a call of dtc_update_scn stands. */
  datatype ScnPc = Entry | Waiting | Rechecking | Setting | Leaving | Finished

  datatype ScnCall = ScnCall(arg: nat, pc: ScnPc)

  datatype Lock = Free | Held(call: nat)

  datatype Scn = Scn(value: nat, lock: Lock, calls: seq<ScnCall>)

  predicate InCritical(pc: ScnPc) { pc.Rechecking? || pc.Setting? || pc.Leaving? }

  predicate CanMove(s: Scn, t: nat) {
    t < |s.calls| && !s.calls[t].pc.Finished? && (s.calls[t].pc.Waiting? ==> s.lock.Free?)
  }

  /** One atomic step of call t. */
  function Move(s: Scn, t: nat): Scn
    requires CanMove(s, t)
  {
    var c := s.calls[t];
    match c.pc
    case Entry => At(s, t, if s.value >= c.arg then Finished else Waiting)
    case Waiting => At(s, t, Rechecking).(lock := Held(t))
    case Rechecking => At(s, t, if s.value >= c.arg then Leaving else Setting)
    case Setting => At(s, t, Leaving).(value := c.arg)
    case Leaving => At(s, t, Finished).(lock := Free)
  }

  function At(s: Scn, t: nat, pc: ScnPc): Scn
    requires t < |s.calls|
  {
    s.(calls := s.calls[t := s.calls[t].(pc := pc)])
  }

  /** Another writer advances the SCN: commit and time-based writers do it inside the same lock. Redo
      replay, which sets the SCN without the lock, and database creation and start-up are not meant here. */
  ghost predicate Advances(s: Scn, s': Scn) {
    s.lock.Free? && s.value <= s'.value && s' == s.(value := s'.value)
  }

  ghost predicate ScnStep(s: Scn, s': Scn, onlyCalls: bool) {
    (exists t :: CanMove(s, t) && s' == Move(s, t)) || (!onlyCalls && Advances(s, s'))
  }

  ghost predicate ScnRun(run: seq<Scn>, onlyCalls: bool) {
    && |run| > 0 && run[0].lock == Free
    && (forall t :: 0 <= t < |run[0].calls| ==> run[0].calls[t].pc == Entry)
    && (forall k :: 0 <= k < |run| - 1 ==> ScnStep(run[k], run[k + 1], onlyCalls))
  }

  /** The lock belongs to the call in its critical section; a call about to set the clock still finds
      it too low; a call past its check finds it high enough. */
  ghost predicate ScnInv(s: Scn) {
    && (forall t :: 0 <= t < |s.calls| ==> (InCritical(s.calls[t].pc) <==> s.lock == Held(t)))
    && (forall t :: 0 <= t < |s.calls| && s.calls[t].pc.Setting? ==> s.value < s.calls[t].arg)
    && (forall t :: 0 <= t < |s.calls| && (s.calls[t].pc.Leaving? || s.calls[t].pc.Finished?) ==>
          s.calls[t].arg <= s.value)
  }

  ghost predicate SameArgs(a: Scn, b: Scn) {
    |a.calls| == |b.calls| && forall t :: 0 <= t < |a.calls| ==> a.calls[t].arg == b.calls[t].arg
  }

  lemma ScnStepKeeps(s: Scn, s': Scn, onlyCalls: bool)
    requires ScnInv(s) && ScnStep(s, s', onlyCalls)
    ensures ScnInv(s') && s.value <= s'.value && SameArgs(s, s')
  {
    if t :| CanMove(s, t) && s' == Move(s, t) {
      hide ScnInv;
      ScnMoveKeeps(s, t);
    }
  }

  lemma ScnMoveKeeps(s: Scn, t: nat)
    requires ScnInv(s) && CanMove(s, t)
    ensures ScnInv(Move(s, t)) && s.value <= Move(s, t).value && SameArgs(s, Move(s, t))
  {
    match s.calls[t].pc
    case Entry =>
    case Waiting =>
    case Rechecking =>
    case Setting =>
    case Leaving =>
  }

  /** The larger of `start` and every argument. */
  function Largest(start: int, args: seq<int>): int {
    if args == [] then start
    else
      var m := Largest(start, args[1..]);
      if m < args[0] then args[0] else m
  }

  lemma {:induction false} LargestBounds(start: int, args: seq<int>, bound: int)
    ensures start <= Largest(start, args)
    ensures forall t :: 0 <= t < |args| ==> args[t] <= Largest(start, args)
    ensures start <= bound && (forall t :: 0 <= t < |args| ==> args[t] <= bound) ==> Largest(start, args) <= bound
  {
    if args != [] {
      LargestBounds(start, args[1..], bound);
      assert forall t :: 1 <= t < |args| ==> args[t] == args[1..][t - 1];
    }
  }

  function ScnArgs(calls: seq<ScnCall>): seq<int> { seq<int>(|calls|, t requires 0 <= t < |calls| => calls[t].arg) }

  lemma {:induction false} ScnRunKeeps(run: seq<Scn>, onlyCalls: bool, n: nat)
    requires ScnRun(run, onlyCalls) && n < |run|
    ensures ScnInv(run[n]) && SameArgs(run[0], run[n]) && run[0].value <= run[n].value
    ensures onlyCalls ==> run[n].value <= Largest(run[0].value, ScnArgs(run[0].calls))
  {
    var start, most := run[0].value, Largest(run[0].value, ScnArgs(run[0].calls));
    LargestBounds(start, ScnArgs(run[0].calls), 0);
    if n > 0 {
      ScnRunKeeps(run, onlyCalls, n - 1);
      assert ScnStep(run[n - 1], run[n], onlyCalls);
      ScnStepKeeps(run[n - 1], run[n], onlyCalls);
      LargestBounds(start, ScnArgs(run[n - 1].calls), 0);
      assert ScnArgs(run[0].calls) == ScnArgs(run[n - 1].calls);
      var calls := run[n - 1].calls;
      forall t | 0 <= t < |calls| ensures calls[t].arg <= most {
        assert ScnArgs(calls)[t] == calls[t].arg;
      }
      hide ScnInv, Largest;
    }
  }

  /** For any number of calls, any interleaving and any other writers: the SCN never goes back. */
  lemma {:induction false} ScnNeverGoesBack(run: seq<Scn>, onlyCalls: bool, m: nat, n: nat)
    requires ScnRun(run, onlyCalls) && m <= n < |run|
    ensures run[m].value <= run[n].value
    decreases n - m
  {
    if m < n {
      ScnRunKeeps(run, onlyCalls, n - 1);
      assert ScnStep(run[n - 1], run[n], onlyCalls);
      ScnStepKeeps(run[n - 1], run[n], onlyCalls);
      hide ScnInv, Largest;
      ScnNeverGoesBack(run, onlyCalls, m, n - 1);
    }
  }

  /** A finished call leaves the SCN at or above its argument, then and ever after. */
  lemma ScnCallReaches(run: seq<Scn>, onlyCalls: bool, m: nat, n: nat, t: nat)
    requires ScnRun(run, onlyCalls) && m <= n < |run|
    requires t < |run[m].calls| && run[m].calls[t].pc.Finished?
    ensures run[m].calls[t].arg <= run[n].value
  {
    ScnRunKeeps(run, onlyCalls, m);
    ScnNeverGoesBack(run, onlyCalls, m, n);
  }

  /** With no other writer, once every call has finished the SCN is exactly the maximum. */
  lemma ScnIsMaximum(run: seq<Scn>, n: nat)
    requires ScnRun(run, true) && n < |run|
    requires forall t :: 0 <= t < |run[n].calls| ==> run[n].calls[t].pc.Finished?
    ensures run[n].value == Largest(run[0].value, ScnArgs(run[0].calls))
  {
    ScnRunKeeps(run, true, n);
    assert ScnArgs(run[0].calls) == ScnArgs(run[n].calls);
    LargestBounds(run[0].value, ScnArgs(run[n].calls), run[n].value);
  }

  // ---- SCN calls finish ----

  /** How many steps a call may still take. */
  function Ahead(pc: ScnPc): nat {
    match pc
    case Entry => 5
    case Waiting => 4
    case Rechecking => 3
    case Setting => 2
    case Leaving => 1
    case Finished => 0
  }

  function StepsLeft(calls: seq<ScnCall>): nat {
    if calls == [] then 0 else Ahead(calls[0].pc) + StepsLeft(calls[1..])
  }

  lemma {:induction false} StepsLeftUpdate(calls: seq<ScnCall>, t: nat, c: ScnCall)
    requires t < |calls|
    ensures StepsLeft(calls[t := c]) == StepsLeft(calls) - Ahead(calls[t].pc) + Ahead(c.pc)
  {
    if t == 0 {
      assert calls[0 := c][1..] == calls[1..];
    } else {
      assert calls[t := c][1..] == calls[1..][t - 1 := c];
      StepsLeftUpdate(calls[1..], t - 1, c);
    }
  }

  ghost predicate AllFinished(s: Scn) { forall t :: 0 <= t < |s.calls| ==> s.calls[t].pc.Finished? }

  lemma MoveShortens(s: Scn, t: nat)
    requires CanMove(s, t)
    ensures StepsLeft(Move(s, t).calls) < StepsLeft(s.calls)
  {
    StepsLeftUpdate(s.calls, t, Move(s, t).calls[t]);
  }

  /** No deadlock: while a call is unfinished some call can move, if not that one then the lock's holder. */
  lemma SomeCanMove(s: Scn) returns (t: nat)
    requires ScnInv(s) && !AllFinished(s) && (s.lock.Held? ==> s.lock.call < |s.calls|)
    ensures CanMove(s, t)
  {
    var u: nat :| u < |s.calls| && !s.calls[u].pc.Finished?;
    t := if s.lock.Held? then s.lock.call else u;
  }

  lemma {:induction false} LockHeldInside(run: seq<Scn>, onlyCalls: bool, n: nat)
    requires ScnRun(run, onlyCalls) && n < |run|
    ensures run[n].lock.Held? ==> run[n].lock.call < |run[n].calls|
  {
    if n > 0 {
      LockHeldInside(run, onlyCalls, n - 1);
      assert ScnStep(run[n - 1], run[n], onlyCalls);
    }
  }

  /** Without other writers the calls take at most five steps each. */
  lemma {:induction false} ScnRunIsShort(run: seq<Scn>, n: nat)
    requires ScnRun(run, true) && n < |run|
    ensures n + StepsLeft(run[n].calls) <= 5 * |run[0].calls|
  {
    if n == 0 {
      AllAtEntry(run[0].calls);
    } else {
      ScnRunIsShort(run, n - 1);
      assert ScnStep(run[n - 1], run[n], true);
      var t :| CanMove(run[n - 1], t) && run[n] == Move(run[n - 1], t);
      MoveShortens(run[n - 1], t);
    }
  }

  lemma {:induction false} AllAtEntry(calls: seq<ScnCall>)
    requires forall t :: 0 <= t < |calls| ==> calls[t].pc == Entry
    ensures StepsLeft(calls) == 5 * |calls|
  {
    if calls != [] {
      assert forall t :: 0 <= t < |calls[1..]| ==> calls[1..][t] == calls[t + 1];
      AllAtEntry(calls[1..]);
    }
  }

  lemma RunOn(run: seq<Scn>, onlyCalls: bool, s: Scn)
    requires ScnRun(run, onlyCalls) && ScnStep(run[|run| - 1], s, onlyCalls)
    ensures ScnRun(run + [s], onlyCalls)
  {
    var all := run + [s];
    forall k | 0 <= k < |all| - 1 ensures ScnStep(all[k], all[k + 1], onlyCalls) {
      if k < |run| - 1 { assert all[k] == run[k] && all[k + 1] == run[k + 1]; }
    }
  }

  /** Every run can be carried on until all calls have finished; no reachable state is stuck. */
  lemma {:induction false} ScnFinishes(run: seq<Scn>, onlyCalls: bool) returns (all: seq<Scn>)
    requires ScnRun(run, onlyCalls)
    ensures ScnRun(all, onlyCalls) && run <= all && AllFinished(all[|all| - 1])
    decreases StepsLeft(run[|run| - 1].calls)
  {
    var s := run[|run| - 1];
    if AllFinished(s) {
      all := run;
    } else {
      ScnRunKeeps(run, onlyCalls, |run| - 1);
      LockHeldInside(run, onlyCalls, |run| - 1);
      var t := SomeCanMove(s);
      MoveShortens(s, t);
      RunOn(run, onlyCalls, Move(s, t));
      all := ScnFinishes(run + [Move(s, t)], onlyCalls);
    }
  }

  // ---- LSN ----

  /** Where a call of dtc_update_lsn stands: before its read, between read and add, after. */
  datatype LsnPc = Start | Computed(delta: int) | Done

  /** `added` is what the call has added to the clock so far. */
  datatype LsnCall = LsnCall(arg: int, pc: LsnPc, added: int)

  /** `ticks` is what other writers (atomic increments) have added so far. */
  datatype Lsn = Lsn(value: int, calls: seq<LsnCall>, ticks: nat)

  function LsnMove(s: Lsn, t: nat): Lsn
    requires t < |s.calls| && !s.calls[t].pc.Done?
  {
    var c := s.calls[t];
    match c.pc
    case Start =>
      var delta := c.arg - s.value;
      s.(calls := s.calls[t := c.(pc := if delta <= 0 then Done else Computed(delta))])
    case Computed(delta) =>
      s.(value := s.value + delta, calls := s.calls[t := c.(pc := Done, added := delta)])
  }

  ghost predicate LsnStep(s: Lsn, s': Lsn) {
    || (exists t :: 0 <= t < |s.calls| && !s.calls[t].pc.Done? && s' == LsnMove(s, t))
    || (s.ticks <= s'.ticks && s' == s.(value := s.value + (s'.ticks - s.ticks), ticks := s'.ticks))
  }

  ghost predicate LsnRun(run: seq<Lsn>) {
    && |run| > 0 && run[0].ticks == 0
    && (forall t :: 0 <= t < |run[0].calls| ==> run[0].calls[t].pc == Start && run[0].calls[t].added == 0)
    && (forall k :: 0 <= k < |run| - 1 ==> LsnStep(run[k], run[k + 1]))
  }

  function Added(calls: seq<LsnCall>): int {
    if calls == [] then 0 else calls[0].added + Added(calls[1..])
  }

  /** What the calls could add at most, each having read the clock at `start` or later. */
  function Excess(start: int, calls: seq<LsnCall>): int {
    if calls == [] then 0
    else (if calls[0].arg > start then calls[0].arg - start else 0) + Excess(start, calls[1..])
  }

  lemma {:induction false} AddedUpdate(calls: seq<LsnCall>, t: nat, c: LsnCall)
    requires t < |calls|
    ensures Added(calls[t := c]) == Added(calls) - calls[t].added + c.added
  {
    if t == 0 {
      assert calls[0 := c][1..] == calls[1..];
    } else {
      assert calls[t := c][1..] == calls[1..][t - 1 := c];
      AddedUpdate(calls[1..], t - 1, c);
    }
  }

  lemma {:induction false} ExcessUpdate(start: int, calls: seq<LsnCall>, t: nat, c: LsnCall)
    requires t < |calls| && c.arg == calls[t].arg
    ensures Excess(start, calls[t := c]) == Excess(start, calls)
  {
    if t == 0 {
      assert calls[0 := c][1..] == calls[1..];
    } else {
      assert calls[t := c][1..] == calls[1..][t - 1 := c];
      ExcessUpdate(start, calls[1..], t - 1, c);
    }
  }

  ghost predicate LsnCallInv(c: LsnCall, start: int, value: int) {
    match c.pc
    case Start => c.added == 0
    case Computed(d) => c.added == 0 && 0 < d && c.arg - d <= value && start <= c.arg - d
    case Done => c.arg <= value && 0 <= c.added && (c.added > 0 ==> c.added <= c.arg - start)
  }

  ghost predicate LsnInv(s: Lsn, start: int) {
    && start <= s.value
    && s.value == start + Added(s.calls) + s.ticks
    && forall t :: 0 <= t < |s.calls| ==> LsnCallInv(s.calls[t], start, s.value)
  }

  ghost predicate SameLsnArgs(a: Lsn, b: Lsn) {
    |a.calls| == |b.calls| && forall t :: 0 <= t < |a.calls| ==> a.calls[t].arg == b.calls[t].arg
  }

  lemma LsnStepKeeps(s: Lsn, s': Lsn, start: int)
    requires LsnInv(s, start) && LsnStep(s, s')
    ensures LsnInv(s', start) && s.value <= s'.value
    ensures SameLsnArgs(s, s') && Excess(start, s'.calls) == Excess(start, s.calls)
  {
    if t :| 0 <= t < |s.calls| && !s.calls[t].pc.Done? && s' == LsnMove(s, t) {
      AddedUpdate(s.calls, t, s'.calls[t]);
      ExcessUpdate(start, s.calls, t, s'.calls[t]);
      LsnMoveKeeps(s, t, start);
      hide LsnCallInv, Added, Excess;
      forall k | 0 <= k < |s'.calls| ensures LsnCallInv(s'.calls[k], start, s'.value) {
        if k != t { LsnCallLater(s.calls[k], start, s.value, s'.value); }
      }
    } else {
      hide LsnCallInv, Added, Excess;
      forall k | 0 <= k < |s'.calls| ensures LsnCallInv(s'.calls[k], start, s'.value) {
        LsnCallLater(s.calls[k], start, s.value, s'.value);
      }
    }
  }

  lemma LsnMoveKeeps(s: Lsn, t: nat, start: int)
    requires t < |s.calls| && !s.calls[t].pc.Done? && LsnCallInv(s.calls[t], start, s.value) && start <= s.value
    ensures s.value <= LsnMove(s, t).value && LsnCallInv(LsnMove(s, t).calls[t], start, LsnMove(s, t).value)
    ensures LsnMove(s, t).value == s.value + LsnMove(s, t).calls[t].added - s.calls[t].added
  {
  }

  lemma LsnCallLater(c: LsnCall, start: int, value: int, later: int)
    requires LsnCallInv(c, start, value) && value <= later
    ensures LsnCallInv(c, start, later)
  {
  }

  lemma {:induction false} AddedBounded(start: int, value: int, calls: seq<LsnCall>)
    requires forall t :: 0 <= t < |calls| ==> LsnCallInv(calls[t], start, value)
    ensures 0 <= Added(calls) <= Excess(start, calls)
  {
    if calls != [] {
      assert LsnCallInv(calls[0], start, value);
      assert forall t :: 0 <= t < |calls[1..]| ==> calls[1..][t] == calls[t + 1];
      AddedBounded(start, value, calls[1..]);
    }
  }

  lemma {:induction false} AddedNothing(calls: seq<LsnCall>)
    requires forall t :: 0 <= t < |calls| ==> calls[t].added == 0
    ensures Added(calls) == 0
  {
    if calls != [] {
      assert forall t :: 0 <= t < |calls[1..]| ==> calls[1..][t] == calls[t + 1];
      AddedNothing(calls[1..]);
    }
  }

  lemma {:induction false} LsnRunKeeps(run: seq<Lsn>, n: nat)
    requires LsnRun(run) && n < |run|
    ensures LsnInv(run[n], run[0].value)
    ensures SameLsnArgs(run[0], run[n])
    ensures Excess(run[0].value, run[n].calls) == Excess(run[0].value, run[0].calls)
  {
    if n == 0 {
      AddedNothing(run[0].calls);
    } else {
      LsnRunKeeps(run, n - 1);
      assert LsnStep(run[n - 1], run[n]);
      LsnStepKeeps(run[n - 1], run[n], run[0].value);
      hide LsnInv;
    }
  }

  lemma {:induction false} LsnNeverGoesBack(run: seq<Lsn>, m: nat, n: nat)
    requires LsnRun(run) && m <= n < |run|
    ensures run[m].value <= run[n].value
    decreases n - m
  {
    if m < n {
      LsnRunKeeps(run, n - 1);
      assert LsnStep(run[n - 1], run[n]);
      LsnStepKeeps(run[n - 1], run[n], run[0].value);
      LsnNeverGoesBack(run, m, n - 1);
    }
  }

  /** A finished call leaves the LSN at or above its argument, then and ever after. */
  lemma LsnCallReaches(run: seq<Lsn>, m: nat, n: nat, t: nat)
    requires LsnRun(run) && m <= n < |run|
    requires t < |run[m].calls| && run[m].calls[t].pc.Done?
    ensures run[m].calls[t].arg <= run[n].value
  {
    LsnRunKeeps(run, m);
    assert LsnCallInv(run[m].calls[t], run[0].value, run[m].value);
    LsnNeverGoesBack(run, m, n);
  }

  /** At every point the LSN is its start value plus exactly what the calls and the other writers
      added, and the calls never add more than their arguments' excess over the start value. */
  lemma LsnIsSum(run: seq<Lsn>, n: nat)
    requires LsnRun(run) && n < |run|
    ensures run[n].value == run[0].value + Added(run[n].calls) + run[n].ticks
    ensures 0 <= Added(run[n].calls) <= Excess(run[0].value, run[0].calls)
  {
    LsnRunKeeps(run, n);
    AddedBounded(run[0].value, run[n].value, run[n].calls);
  }

  /** Unlike the SCN, the LSN may end above every argument: two calls that read before either adds. */
  lemma LsnOvershoots() returns (run: seq<Lsn>)
    ensures LsnRun(run) && |run| == 5 && run[0] == Lsn(0, [LsnCall(5, Start, 0), LsnCall(5, Start, 0)], 0)
    ensures run[4].calls == [LsnCall(5, Done, 5), LsnCall(5, Done, 5)] && run[4].value == 10
  {
    var s, c, d := LsnCall(5, Start, 0), LsnCall(5, Computed(5), 0), LsnCall(5, Done, 5);
    var r0, r1, r2 := Lsn(0, [s, s], 0), Lsn(0, [c, s], 0), Lsn(0, [c, c], 0);
    var r3, r4 := Lsn(5, [d, c], 0), Lsn(10, [d, d], 0);
    assert r1.calls == r0.calls[0 := c] && r2.calls == r1.calls[1 := c];
    assert r3.calls == r2.calls[0 := d] && r4.calls == r3.calls[1 := d];
    assert LsnStep(r0, r1) by { assert r1 == LsnMove(r0, 0); }
    assert LsnStep(r1, r2) by { assert r2 == LsnMove(r1, 1); }
    assert LsnStep(r2, r3) by { assert r3 == LsnMove(r2, 0); }
    assert LsnStep(r3, r4) by { assert r4 == LsnMove(r3, 1); }
    hide LsnStep, LsnMove;
    run := [r0, r1, r2, r3, r4];
  }

  // ---- when the LSN ends at the maximum ----

  function LsnArgs(calls: seq<LsnCall>): seq<int> { seq<int>(|calls|, t requires 0 <= t < |calls| => calls[t].arg) }

  /** The larger of `start` and every call's argument. */
  function Peak(start: int, calls: seq<LsnCall>): int { Largest(start, LsnArgs(calls)) }

  lemma PeakCons(start: int, calls: seq<LsnCall>)
    requires calls != []
    ensures Peak(start, calls) == var p := Peak(start, calls[1..]); if p < calls[0].arg then calls[0].arg else p
  {
    assert LsnArgs(calls)[1..] == LsnArgs(calls[1..]);
  }

  /** At most one call asks for more than the clock shows at the start. */
  ghost predicate AtMostOneAbove(start: int, calls: seq<LsnCall>) {
    forall j, k :: 0 <= j < k < |calls| ==> calls[j].arg <= start || calls[k].arg <= start
  }

  ghost predicate NoneAbove(start: int, calls: seq<LsnCall>) {
    forall t :: 0 <= t < |calls| ==> calls[t].arg <= start
  }

  lemma {:induction false} NoExcess(start: int, calls: seq<LsnCall>)
    ensures 0 <= Excess(start, calls)
    ensures Excess(start, calls) == 0 <==> NoneAbove(start, calls)
    ensures start <= Peak(start, calls)
    ensures NoneAbove(start, calls) ==> Peak(start, calls) == start
  {
    if calls != [] {
      AboveParts(start, calls);
      PeakCons(start, calls);
      NoExcess(start, calls[1..]);
    }
  }

  lemma AboveParts(start: int, calls: seq<LsnCall>)
    requires calls != []
    ensures NoneAbove(start, calls) <==> calls[0].arg <= start && NoneAbove(start, calls[1..])
    ensures AtMostOneAbove(start, calls) <==>
              AtMostOneAbove(start, calls[1..]) && (calls[0].arg <= start || NoneAbove(start, calls[1..]))
  {
    var rest := calls[1..];
    assert forall t :: 0 <= t < |rest| ==> rest[t] == calls[t + 1];
    assert forall t :: 1 <= t < |calls| ==> calls[t] == rest[t - 1];
  }

  /** The calls' excess is the peak's own excess exactly when at most one call exceeds the start. */
  lemma {:induction false} ExcessIsPeak(start: int, calls: seq<LsnCall>)
    ensures Peak(start, calls) <= start + Excess(start, calls)
    ensures Peak(start, calls) == start + Excess(start, calls) <==> AtMostOneAbove(start, calls)
  {
    if calls != [] {
      AboveParts(start, calls);
      PeakCons(start, calls);
      ExcessIsPeak(start, calls[1..]);
      NoExcess(start, calls[1..]);
      hide NoneAbove, AtMostOneAbove;
    }
  }

  ghost predicate AllDone(s: Lsn) { forall t :: 0 <= t < |s.calls| ==> s.calls[t].pc.Done? }

  ghost predicate Unstarted(calls: seq<LsnCall>) {
    forall t :: 0 <= t < |calls| ==> calls[t].pc == Start && calls[t].added == 0
  }

  /** A run of these calls from a clock at `start`, with no other writer, to where all have finished. */
  ghost predicate CompleteRun(run: seq<Lsn>, start: int, calls: seq<LsnCall>) {
    LsnRun(run) && run[0] == Lsn(start, calls, 0) && AllDone(run[|run| - 1]) && run[|run| - 1].ticks == 0
  }

  ghost predicate Steps(run: seq<Lsn>) {
    |run| > 0 && forall k :: 0 <= k < |run| - 1 ==> LsnStep(run[k], run[k + 1])
  }

  lemma StepsCons(s: Lsn, run: seq<Lsn>)
    requires Steps(run) && LsnStep(s, run[0])
    ensures Steps([s] + run)
  {
    var all := [s] + run;
    forall k | 0 <= k < |all| - 1 ensures LsnStep(all[k], all[k + 1]) {
      if k > 0 { assert all[k] == run[k - 1] && all[k + 1] == run[k - 1 + 1]; }
    }
  }

  lemma {:induction false} StepsConcat(a: seq<Lsn>, b: seq<Lsn>)
    requires Steps(a) && Steps(b) && a[|a| - 1] == b[0]
    ensures Steps(a + b[1..])
  {
    if |a| == 1 {
      assert a + b[1..] == b;
    } else {
      var rest := a[1..];
      forall k | 0 <= k < |rest| - 1 ensures LsnStep(rest[k], rest[k + 1]) {
        assert rest[k] == a[k + 1] && rest[k + 1] == a[k + 1 + 1];
      }
      StepsConcat(rest, b);
      assert LsnStep(a[0], a[0 + 1]);
      StepsCons(a[0], rest + b[1..]);
      assert [a[0]] + (rest + b[1..]) == a + b[1..];
    }
  }

  /** What the calls between read and add are about to add. */
  function Pending(calls: seq<LsnCall>): int {
    if calls == [] then 0
    else (if calls[0].pc.Computed? then calls[0].pc.delta else 0) + Pending(calls[1..])
  }

  lemma {:induction false} PendingUpdate(calls: seq<LsnCall>, t: nat, c: LsnCall)
    requires t < |calls|
    ensures Pending(calls[t := c]) == Pending(calls)
              - (if calls[t].pc.Computed? then calls[t].pc.delta else 0) + (if c.pc.Computed? then c.pc.delta else 0)
  {
    if t == 0 {
      assert calls[0 := c][1..] == calls[1..];
    } else {
      assert calls[t := c][1..] == calls[1..][t - 1 := c];
      PendingUpdate(calls[1..], t - 1, c);
    }
  }

  lemma {:induction false} NothingPending(calls: seq<LsnCall>)
    requires forall t :: 0 <= t < |calls| ==> !calls[t].pc.Computed?
    ensures Pending(calls) == 0
  {
    if calls != [] {
      assert forall t :: 0 <= t < |calls[1..]| ==> calls[1..][t] == calls[t + 1];
      NothingPending(calls[1..]);
    }
  }

  /** The calls from k on read the clock one after the other. */
  lemma {:induction false} ReadRun(s: Lsn, k: nat) returns (run: seq<Lsn>)
    requires k <= |s.calls| && forall t :: 0 <= t < |s.calls| ==> (s.calls[t].pc.Start? <==> k <= t)
    ensures Steps(run) && run[0] == s
    ensures var e := run[|run| - 1];
            && e.value == s.value && e.ticks == s.ticks && |e.calls| == |s.calls|
            && (forall t :: 0 <= t < |e.calls| ==> !e.calls[t].pc.Start?)
            && Pending(e.calls) == Pending(s.calls) + Excess(s.value, s.calls[k..])
    decreases |s.calls| - k
  {
    hide Steps;
    if k == |s.calls| {
      run := [s];
      OneStep(s);
    } else {
      var next := LsnMove(s, k);
      PendingUpdate(s.calls, k, next.calls[k]);
      assert next.calls[k + 1..] == s.calls[k + 1..] == s.calls[k..][1..];
      assert LsnStep(s, next);
      var rest := ReadRun(next, k + 1);
      StepsCons(s, rest);
      StepsSome(rest);
      run := [s] + rest;
    }
  }

  lemma OneStep(s: Lsn)
    ensures Steps([s])
  {
  }

  lemma StepsSome(run: seq<Lsn>)
    requires Steps(run)
    ensures |run| > 0
  {
  }

  /** The calls from k on add what they have computed, one after the other. */
  lemma {:induction false} AddRun(s: Lsn, k: nat) returns (run: seq<Lsn>)
    requires k <= |s.calls|
    requires forall t :: 0 <= t < |s.calls| ==> !s.calls[t].pc.Start? && (t < k ==> s.calls[t].pc.Done?)
    ensures Steps(run) && run[0] == s
    ensures AllDone(run[|run| - 1]) && run[|run| - 1].ticks == s.ticks
    ensures run[|run| - 1].value == s.value + Pending(s.calls)
    decreases |s.calls| - k
  {
    hide Steps;
    if k == |s.calls| {
      run := [s];
      OneStep(s);
      NothingPending(s.calls);
    } else if s.calls[k].pc.Done? {
      run := AddRun(s, k + 1);
      StepsSome(run);
    } else {
      var next := LsnMove(s, k);
      PendingUpdate(s.calls, k, next.calls[k]);
      assert LsnStep(s, next);
      var rest := AddRun(next, k + 1);
      StepsCons(s, rest);
      StepsSome(rest);
      run := [s] + rest;
    }
  }

  /** All reads before all adds: the clock ends at its start value plus everything the calls ask for above
      it, so the bound of LsnIsSum is reached. */
  lemma LsnBoundReached(start: int, calls: seq<LsnCall>) returns (run: seq<Lsn>)
    requires Unstarted(calls)
    ensures CompleteRun(run, start, calls) && run[|run| - 1].value == start + Excess(start, calls)
  {
    var s := Lsn(start, calls, 0);
    var looks := ReadRun(s, 0);
    NothingPending(calls);
    assert calls[0..] == calls;
    var adds := AddRun(looks[|looks| - 1], 0);
    StepsConcat(looks, adds);
    run := looks + adds[1..];
    assert run[|run| - 1] == adds[|adds| - 1];
  }

  lemma LsnEndsAtPeak(run: seq<Lsn>, start: int, calls: seq<LsnCall>)
    requires AtMostOneAbove(start, calls) && CompleteRun(run, start, calls)
    ensures run[|run| - 1].value == Peak(start, calls)
  {
    var n := |run| - 1;
    LsnIsSum(run, n);
    ExcessIsPeak(start, calls);
    LsnRunKeeps(run, n);
    forall t | 0 <= t < |calls| ensures calls[t].arg <= run[n].value {
      LsnCallReaches(run, n, n, t);
    }
    LargestBounds(start, LsnArgs(calls), run[n].value);
  }

  /** With no other writer, the LSN ends at the maximum of its start value and the arguments in every
      interleaving, exactly when at most one argument exceeds the start value. */
  lemma LsnMaximumExact(start: int, calls: seq<LsnCall>)
    requires Unstarted(calls)
    ensures AtMostOneAbove(start, calls) <==>
              forall run: seq<Lsn> :: CompleteRun(run, start, calls) ==> run[|run| - 1].value == Peak(start, calls)
  {
    if AtMostOneAbove(start, calls) {
      forall run: seq<Lsn> | CompleteRun(run, start, calls) ensures run[|run| - 1].value == Peak(start, calls) {
        LsnEndsAtPeak(run, start, calls);
      }
    } else {
      var run := LsnBoundReached(start, calls);
      ExcessIsPeak(start, calls);
    }
  }
}
