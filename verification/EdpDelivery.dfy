/** From a request to the owner's group: the message protocol and the intake together. */
module EdpDelivery {
  import opened EdpPages
  import opened EdpIntake
  import H = EdpHandover
  import R = EdpRouting

  /** One intake of a batch: what the group held before, what the intake met, the batch as it sorted it, its
      merges and why it ended. */
  datatype Intake = Intake(first: seq<EdpPage>, at: Setting, sorted: seq<EdpPage>, calls: seq<MergeCall>, stop: Stop)

  ghost predicate TakesIn(batch: seq<EdpPage>, cap: nat, t: Intake) {
    IntakeOf(batch, cap, t.first, t.at, t.sorted, t.calls, t.stop)
  }

  /** The owner's handler of a batch that was handed over. */
  method TakeIn(batch: seq<EdpPage>, group: CleanEdpGroup, at: Setting) returns (ghost t: Intake)
    requires group.Valid() && forall k, s :: |at.others(k, s)| <= group.capacity
    modifies group, group.pages
    ensures group.Valid() && TakesIn(batch, group.capacity, t) && t.first == old(group.Contents()) && t.at == at
  {
    hide IntakeOf;
    var request := new EdpPage[|batch|](k requires 0 <= k < |batch| => batch[k]);
    assert request[..|batch|] == batch;
    ghost var calls, stop := ProcessLocal(request, |batch|, group, at);
    t := Intake(old(group.Contents()), at, request[..|batch|], calls, stop);
  }

  /** What became of an entry of the batch: a merge put its page into the owner's group or, having met an
      invalid id, gave it up; or the intake ended before it, for the reason it names, which is the true one. */
  ghost predicate Settled(e: EdpPage, t: Intake) {
    exists j :: 0 <= j < |t.sorted| && t.sorted[j] == e && SettledAt(t, j)
  }

  ghost predicate SettledAt(t: Intake, j: nat)
    requires j < |t.sorted|
  {
    if j < Reached(t.calls) then exists k :: 0 <= k < |t.calls| && TookIn(t.sorted, t.calls[k], j)
    else !t.stop.Finished? && StopSound(t.calls, |t.sorted|, t.stop, t.at)
  }

  lemma BatchSettled(batch: seq<EdpPage>, cap: nat, t: Intake, e: EdpPage)
    requires TakesIn(batch, cap, t) && e in batch
    ensures Settled(e, t)
  {
    assert e in multiset(t.sorted);
    var j :| 0 <= j < |t.sorted| && t.sorted[j] == e;
    if j < Reached(t.calls) { NoPageSkipped(t.sorted, cap, t.calls, j); }
    assert SettledAt(t, j);
  }

  lemma {:induction false} HandedIn(msgs: seq<R.Msg>, i: nat, e: EdpPage) returns (k: nat)
    requires e in R.HandedTo(msgs, i)
    ensures k < |msgs| && msgs[k].Handed? && msgs[k].dest == i && e in msgs[k].pages
  {
    if msgs[0].Handed? && msgs[0].dest == i && e in msgs[0].pages {
      k := 0;
    } else {
      k := HandedIn(msgs[1..], i, e);
      k := k + 1;
    }
  }

  /** Message k of the run's state is a batch for node i that holds e, and its intake settled e. */
  ghost predicate SettledBy(msgs: seq<R.Msg>, i: nat, intake: nat -> Intake, e: EdpPage, k: nat) {
    k < |msgs| && msgs[k].Handed? && msgs[k].dest == i && e in msgs[k].pages && Settled(e, intake(k))
  }

  lemma {:induction false} DueIn(v: R.View, issued: seq<EdpPage>, i: nat, x: EdpPage)
    requires x in issued && H.IsDue(v, x, i)
    ensures x in H.Due(v, issued, i)
  {
    if x != issued[0] { DueIn(v, issued[1..], i, x); }
  }

  lemma {:induction false} KeyIn(s: seq<EdpPage>, x: EdpPage)
    requires x in s
    ensures (x.page, x.lsn) in R.Keys(s)
  {
    if x != s[0] { KeyIn(s[1..], x); }
  }

  lemma {:induction false} KeyFrom(s: seq<EdpPage>, key: (PageId, nat)) returns (e: EdpPage)
    requires key in R.Keys(s)
    ensures e in s && (e.page, e.lsn) == key
  {
    if (s[0].page, s[0].lsn) == key {
      e := s[0];
    } else {
      e := KeyFrom(s[1..], key);
    }
  }

  lemma InHanded(msgs: seq<R.Msg>, i: nat, e: EdpPage)
    requires e in H.HandedSeq(msgs, i)
    ensures e in R.HandedTo(msgs, i)
  {
    H.HandedIsSeq(msgs, i);
  }

  /** Once nothing is in flight, every requested entry whose page a live node masters and whose owner lookup names
      node i has been handed to i, with its page and LSN, in some batch; and that batch's intake put the page into
      the group, gave it up because of an invalid id, or ended before it because the checkpoint closed, is
      disabled or made the request itself, or because the retries ran out. The same holds for every live node i
      if the lookup fails. */
  lemma RequestedIsSettled(v: R.View, run: seq<R.Cluster>, n: nat, i: nat, cap: nat, intake: nat -> Intake,
                           x: EdpPage) returns (e: EdpPage)
    requires 1 <= v.groupSize && R.IsRun(v, run) && n < |run| && R.Quiescent(run[n])
    requires forall k :: 0 <= k < |run[n].msgs| && run[n].msgs[k].dest == i ==>
               TakesIn(run[n].msgs[k].pages, cap, intake(k))
    requires x in run[n].issued && H.IsDue(v, x, i)
    ensures e.page == x.page && e.lsn == x.lsn && exists k :: SettledBy(run[n].msgs, i, intake, e, k)
  {
    var handed, due := H.HandedSeq(run[n].msgs, i), H.Due(v, run[n].issued, i);
    H.HandedAreDue(v, run, n, i);
    DueIn(v, run[n].issued, i, x);
    KeyIn(due, x);
    assert (x.page, x.lsn) in multiset(R.Keys(due));
    e := KeyFrom(handed, (x.page, x.lsn));
    InHanded(run[n].msgs, i, e);
    var k := HandedIn(run[n].msgs, i, e);
    BatchSettled(run[n].msgs[k].pages, cap, intake(k), e);
    assert SettledBy(run[n].msgs, i, intake, e, k);
  }
}
