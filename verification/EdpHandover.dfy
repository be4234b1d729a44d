/** What the message protocol hands to each node, in terms of the requested entries and the owner lookup. */
module EdpHandover {
  import opened EdpPages
  import opened EdpRouting

  /** Everything handed to node i so far, batch by batch. */
  function HandedSeq(msgs: seq<Msg>, i: nat): seq<EdpPage> {
    if msgs == [] then []
    else (if msgs[0].Handed? && msgs[0].dest == i then msgs[0].pages else []) + HandedSeq(msgs[1..], i)
  }

  /** The requested entries node i must get, as requested: a live node masters the page, and its owner
      lookup names i or fails. */
  predicate IsDue(v: View, e: EdpPage, i: nat) {
    var m, a := v.master(e.page), v.owner(e.page);
    && m < v.nodes && v.alive(m) && i < v.nodes && v.alive(i)
    && (a == LookupFailed || (a.OwnedBy? && a.node == i))
  }

  function Due(v: View, issued: seq<EdpPage>, i: nat): seq<EdpPage> {
    if issued == [] then []
    else (if IsDue(v, issued[0], i) then [issued[0]] else []) + Due(v, issued[1..], i)
  }

  function Stamped(v: View, s: seq<EdpPage>): seq<EdpPage> {
    if s == [] then [] else [Stamp(v, s[0])] + Stamped(v, s[1..])
  }

  lemma {:induction false} HandedIsSeq(msgs: seq<Msg>, i: nat)
    ensures HandedTo(msgs, i) == multiset(HandedSeq(msgs, i))
  {
    if msgs != [] {
      HandedIsSeq(msgs[1..], i);
      var first := if msgs[0].Handed? && msgs[0].dest == i then msgs[0].pages else [];
      assert HandedSeq(msgs, i) == first + HandedSeq(msgs[1..], i);
    }
  }

  lemma OwedOneMore(v: View, issued: seq<EdpPage>, i: nat)
    requires issued != []
    ensures Owed(v, issued, i, LiveNodes(v))
         == (if IsDue(v, issued[0], i) then multiset{Stamp(v, issued[0])} else multiset{})
            + Owed(v, issued[1..], i, LiveNodes(v))
  {
    hide Stamp;
  }

  lemma StampedOneMore(v: View, e: EdpPage, s: seq<EdpPage>)
    ensures multiset(Stamped(v, [e] + s)) == multiset{Stamp(v, e)} + multiset(Stamped(v, s))
  {
    hide Stamp;
    assert ([e] + s)[1..] == s;
  }

  lemma DueOneMore(v: View, issued: seq<EdpPage>, i: nat)
    requires issued != []
    ensures Due(v, issued, i) == if IsDue(v, issued[0], i) then [issued[0]] + Due(v, issued[1..], i)
                                 else Due(v, issued[1..], i)
  {
    hide IsDue;
  }

  lemma {:induction false} OwedIsStampedDue(v: View, issued: seq<EdpPage>, i: nat)
    ensures Owed(v, issued, i, LiveNodes(v)) == multiset(Stamped(v, Due(v, issued, i)))
  {
    if issued != [] {
      hide *;
      OwedIsStampedDue(v, issued[1..], i);
      OwedOneMore(v, issued, i);
      DueOneMore(v, issued, i);
      StampedOneMore(v, issued[0], Due(v, issued[1..], i));
    }
  }

  lemma {:induction false} StampedKeys(v: View, s: seq<EdpPage>)
    ensures Keys(Stamped(v, s)) == Keys(s)
  {
    if s != [] {
      StampedKeys(v, s[1..]);
      KeysCons(Stamp(v, s[0]), Stamped(v, s[1..]));
    }
  }

  lemma {:induction false} KeysConcat(a: seq<EdpPage>, b: seq<EdpPage>)
    ensures Keys(a + b) == Keys(a) + Keys(b)
  {
    if a == [] {
      assert a + b == b;
    } else {
      assert (a + b)[1..] == a[1..] + b;
      KeysConcat(a[1..], b);
    }
  }

  lemma {:induction false} KeysWithin(a: seq<EdpPage>, b: seq<EdpPage>)
    requires multiset(a) <= multiset(b)
    ensures multiset(Keys(a)) <= multiset(Keys(b))
  {
    if a != [] {
      var e, rest := a[0], a[1..];
      assert a == [e] + rest;
      assert e in multiset(b);
      var k :| 0 <= k < |b| && b[k] == e;
      var l, r := b[..k], b[k + 1..];
      assert b == l + [e] + r;
      TakeAway(e, rest, l, r);
      KeysWithin(rest, l + r);
      KeysConcat(l, r);
      KeysConcat(l + [e], r);
      KeysConcat(l, [e]);
      assert [e][1..] == [];
      assert Keys([e]) == [(e.page, e.lsn)];
    }
  }

  lemma TakeAway(e: EdpPage, rest: seq<EdpPage>, l: seq<EdpPage>, r: seq<EdpPage>)
    requires multiset([e] + rest) <= multiset(l + [e] + r)
    ensures multiset(rest) <= multiset(l + r)
  {
    hide *;
    assert multiset([e] + rest) == multiset{e} + multiset(rest);
    assert multiset(l + [e] + r) == multiset(l) + multiset{e} + multiset(r);
    assert multiset(l + r) == multiset(l) + multiset(r);
    forall x ensures multiset(rest)[x] <= multiset(l + r)[x] {
      assert multiset([e] + rest)[x] <= multiset(l + [e] + r)[x];
    }
  }

  lemma {:induction false} StampedFrom(v: View, s: seq<EdpPage>, e: EdpPage) returns (x: EdpPage)
    requires e in Stamped(v, s)
    ensures x in s && e == Stamp(v, x)
  {
    if e == Stamp(v, s[0]) {
      x := s[0];
    } else {
      x := StampedFrom(v, s[1..], e);
    }
  }

  lemma {:induction false} DueIsDue(v: View, issued: seq<EdpPage>, i: nat, x: EdpPage)
    requires x in Due(v, issued, i)
    ensures x in issued && IsDue(v, x, i)
  {
    if !(x == issued[0] && IsDue(v, x, i)) { DueIsDue(v, issued[1..], i, x); }
  }

  /** Over every run: what node i has been handed are, page for page and LSN for LSN, entries due to it,
      none more often than requested; once nothing is in flight, all of them. */
  lemma HandedAreDue(v: View, run: seq<Cluster>, n: nat, i: nat)
    requires 1 <= v.groupSize && IsRun(v, run) && n < |run|
    ensures multiset(Keys(HandedSeq(run[n].msgs, i))) <= multiset(Keys(Due(v, run[n].issued, i)))
    ensures Quiescent(run[n]) ==>
              multiset(Keys(HandedSeq(run[n].msgs, i))) == multiset(Keys(Due(v, run[n].issued, i)))
  {
    var handed, due := HandedSeq(run[n].msgs, i), Due(v, run[n].issued, i);
    Routed(v, run, n, i);
    HandedIsSeq(run[n].msgs, i);
    OwedIsStampedDue(v, run[n].issued, i);
    StampedKeys(v, due);
    hide *;
    KeysWithin(handed, Stamped(v, due));
    if Quiescent(run[n]) { KeysWithin(Stamped(v, due), handed); }
  }

  /** Each entry handed to node i is a requested one, with its page and LSN, and carries the action the owner
      lookup gave. */
  lemma HandedIsRequested(v: View, run: seq<Cluster>, n: nat, i: nat, e: EdpPage) returns (x: EdpPage)
    requires 1 <= v.groupSize && IsRun(v, run) && n < |run| && e in HandedSeq(run[n].msgs, i)
    ensures x in run[n].issued && IsDue(v, x, i) && x.page == e.page && x.lsn == e.lsn
    ensures AnswersWith(v, e.page, i, e.action)
  {
    Routed(v, run, n, i);
    HandedIsSeq(run[n].msgs, i);
    OwedIsStampedDue(v, run[n].issued, i);
    assert e in multiset(HandedSeq(run[n].msgs, i));
    assert e in Stamped(v, Due(v, run[n].issued, i));
    x := StampedFrom(v, Due(v, run[n].issued, i), e);
    DueIsDue(v, run[n].issued, i, x);
  }

  // ---- who is asked ----

  /** What the messages carry to node j as a master, in order. */
  function SentTo(msgs: seq<Msg>, j: nat): seq<EdpPage> {
    if msgs == [] then []
    else (if msgs[0].ToMaster? && msgs[0].dest == j then msgs[0].pages else []) + SentTo(msgs[1..], j)
  }

  lemma {:induction false} SentConcat(a: seq<Msg>, b: seq<Msg>, j: nat)
    ensures SentTo(a + b, j) == SentTo(a, j) + SentTo(b, j)
  {
    if a == [] {
      assert a + b == b;
    } else {
      assert (a + b)[1..] == a[1..] + b;
      SentConcat(a[1..], b, j);
      assert SentTo(a + b, j)
          == (if a[0].ToMaster? && a[0].dest == j then a[0].pages else []) + (SentTo(a[1..], j) + SentTo(b, j));
    }
  }

  lemma NothingSent(j: nat)
    ensures SentTo([], j) == []
  {
  }

  lemma {:induction false} FanOutReaches(v: View, self: nat, chunk: seq<EdpPage>, k: nat, j: nat)
    ensures SentTo(FanOut(v, self, chunk, k), j) == if j < k && j != self && v.alive(j) then chunk else []
  {
    if k > 0 {
      FanOutReaches(v, self, chunk, k - 1, j);
      var more := if k - 1 != self && v.alive(k - 1)
                  then [ToMaster(k - 1, chunk, |chunk|, SendSize(v, |chunk|))] else [];
      SentConcat(FanOut(v, self, chunk, k - 1), more, j);
      hide SendSize;
      if more != [] { assert more[1..] == []; }
    }
  }

  /** The broadcast carries every page mastered elsewhere, in order, to each other live node and no other. */
  lemma {:induction false} BroadcastReaches(v: View, self: nat, remote: seq<EdpPage>, j: nat)
    requires 1 <= v.groupSize
    ensures SentTo(Broadcast(v, self, remote), j) == if j < v.nodes && j != self && v.alive(j) then remote else []
    decreases |remote|
  {
    hide FanOut, SentTo;
    if remote == [] {
      NothingSent(j);
    } else {
      var c := if |remote| < v.groupSize then |remote| else v.groupSize;
      BroadcastReaches(v, self, remote[c..], j);
      FanOutReaches(v, self, remote[..c], v.nodes, j);
      SentConcat(FanOut(v, self, remote[..c], v.nodes), Broadcast(v, self, remote[c..]), j);
      assert remote == remote[..c] + remote[c..];
    }
  }
}
