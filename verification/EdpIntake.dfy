/** An owner takes a request into its EDP group, retrying while the checkpoint drains the group
    (dcs_process_ckpt_edp_local). */
module EdpIntake {
  import opened EdpPages
  import opened EdpMerge

  const TRY_ADD_TO_GROUP_TIMES: nat := 3

  /** The owner's remote EDP group: entries pages[..count], guarded by a spin lock. */
  class CleanEdpGroup {
    const pages: array<EdpPage>
    const capacity: nat
    var count: nat

    constructor (capacity: nat)
      requires 1 <= capacity
      ensures Valid() && fresh(pages) && this.capacity == capacity && Contents() == []
    {
      this.capacity := capacity;
      count := 0;
      pages := new EdpPage[capacity + 1](_ => EdpPage(PageId(0, 0), 0, 0));
    }

    ghost predicate Valid() reads this {
      1 <= capacity && pages.Length == capacity + 1 && count <= capacity
    }

    ghost function Contents(): seq<EdpPage> reads this, pages requires Valid() { pages[..count] }

    /** What the other users of the group (the draining checkpoint, other requests) leave behind
        while this request does not hold the lock. */
    method SetContents(s: seq<EdpPage>)
      requires Valid() && |s| <= capacity
      modifies this, pages
      ensures Valid() && Contents() == s
    {
      forall k | 0 <= k < |s| {
        pages[k] := s[k];
      }
      count := |s|;
    }
  }

  /** Why an intake ended: the request is in, or the checkpoint closed, is disabled or is the caller itself, or
      the retries ran out. */
  datatype Stop = Finished | Closed | Disabled | OwnSession | RetriesOut

  /** One merge made while holding the lock: the request index before and after, the group before
      and after, and whether an invalid id stopped it. */
  datatype MergeCall = MergeCall(start: nat, next: nat, before: seq<EdpPage>, after: seq<EdpPage>, rejected: bool)

  /** Unless an invalid id stops it, the merge loses no group entry, keeps it sorted and within capacity,
      adds exactly the pages request[start..next], and stops short only when at most one place is left. */
  ghost predicate CallSound(request: seq<EdpPage>, cap: nat, c: MergeCall) {
    && c.start <= c.next <= |request|
    && Ordered(c.after)
    && |c.before| <= |c.after| <= cap
    && if c.rejected then CallStopped(request, c) else CallMerges(request, cap, c)
  }

  /** A stopped merge gives up the rest of the request and leaves no more entries than before. */
  ghost predicate CallStopped(request: seq<EdpPage>, c: MergeCall)
    requires c.start <= |request|
  {
    c.next == |request| && |c.after| == |c.before| && !AllValid(request[c.start..])
  }

  ghost predicate CallMerges(request: seq<EdpPage>, cap: nat, c: MergeCall)
    requires c.start <= c.next <= |request|
  {
    && |c.after| <= |c.before| + (c.next - c.start)
    && multiset(c.before) <= multiset(c.after)
    && Pages(c.after) == Pages(c.before) + Pages(request[c.start..c.next])
    && (c.next == |request| || |c.after| + 1 >= cap)
    && (c.start < |request| && |c.before| + 2 <= cap ==> c.start < c.next)
  }

  function Reached(calls: seq<MergeCall>): nat {
    if calls == [] then 0 else calls[|calls| - 1].next
  }

  /** Every call is sound and resumes exactly where the previous one stopped. */
  ghost predicate CallsChain(request: seq<EdpPage>, cap: nat, calls: seq<MergeCall>) {
    calls == [] ||
    var front, c := calls[..|calls| - 1], calls[|calls| - 1];
    CallSound(request, cap, c) && c.start == Reached(front) && CallsChain(request, cap, front)
  }

  /** Each merge starts from the group as it stood when the lock was taken: `first` at the start,
      later whatever the other users made of the previous merge's result. */
  ghost predicate CallsLinked(calls: seq<MergeCall>, first: seq<EdpPage>,
                              others: (nat, seq<EdpPage>) -> seq<EdpPage>) {
    calls == [] ||
    var front, c := calls[..|calls| - 1], calls[|calls| - 1];
    c.before == (if front == [] then first else others(|front| - 1, front[|front| - 1].after))
    && CallsLinked(front, first, others)
  }

  lemma MergeIsCall(request: seq<EdpPage>, start: nat, before: seq<EdpPage>, sorted: seq<EdpPage>, cap: nat)
    requires start < |request| && Ordered(request[start..])
    requires Ordered(sorted) && multiset(sorted) == multiset(before) && |sorted| == |before| <= cap
    ensures var src, room := request[start..], cap - |sorted|;
            && Claimed(src, sorted, room) <= |src|
            && |Seen(src, sorted, room)| <= cap
            && CallSound(request, cap, MergeCall(start, start + Claimed(src, sorted, room), before,
                                                 Seen(src, sorted, room), Weave(src, sorted, room).rejected))
  {
    hide Ordered, AllValid, Weave, Pages;
    var src, room := request[start..], cap - |sorted|;
    BoundedMergeSound(src, sorted, room);
    PagesOfPermutation(sorted, before);
    var n := Claimed(src, sorted, room);
    MergeCounts(src, sorted, room);
    if Weave(src, sorted, room).rejected {
      MergeOrdered(src, sorted, room);
      PrefixOrdered(Weave(src, sorted, room).group, |sorted|);
    } else {
      assert src[..n] == request[start..start + n];
    }
  }

  /** ckpt_merge_to_array on the group, the lock being held. */
  method MergeIntoGroup(request: array<EdpPage>, start: nat, n: nat, group: CleanEdpGroup)
    returns (next: nat, ghost call: MergeCall)
    requires group.Valid() && request != group.pages
    requires start < n <= request.Length
    requires Ordered(request[start..n])
    modifies group, group.pages
    ensures group.Valid()
    ensures call == MergeCall(start, next, old(group.Contents()), group.Contents(), call.rejected)
    ensures CallSound(request[..n], group.capacity, call)
  {
    hide Ordered, AllValid, Weave, Pages, CallSound;
    ghost var before := group.pages[..group.count];
    ghost var sorted;
    var newCount;
    next, newCount, sorted := MergeToArray(request, start, n - start, group.pages, group.count, group.capacity);
    assert request[start..start + (n - start)] == request[..n][start..] == request[start..n];
    MergeIsCall(request[..n], start, before, sorted, group.capacity);
    MergeCounts(request[start..n], sorted, group.capacity - |sorted|);
    ghost var w := Weave(request[start..n], sorted, group.capacity - |sorted|);
    assert w.rejected ==> group.pages[..newCount] == w.group[..newCount];
    call := MergeCall(start, next, before, group.pages[..newCount], w.rejected);
    group.count := newCount;
  }

  lemma {:induction false} SuffixOrdered(s: seq<EdpPage>, i: nat)
    requires i <= |s|
    ensures Ordered(s) ==> Ordered(s[i..])
  {
    if i == 0 {
      assert s[0..] == s;
    } else {
      assert s[1..][i - 1..] == s[i..];
      SuffixOrdered(s[1..], i - 1);
    }
  }

  /** One round of the retry loop: the next merge, added to those made so far. */
  method MergeOnce(request: array<EdpPage>, i: nat, n: nat, group: CleanEdpGroup, ghost calls: seq<MergeCall>,
                   ghost first: seq<EdpPage>, ghost others: (nat, seq<EdpPage>) -> seq<EdpPage>)
    returns (next: nat, ghost now: seq<MergeCall>)
    requires group.Valid() && request != group.pages && i < n <= request.Length && Ordered(request[..n])
    requires CallsChain(request[..n], group.capacity, calls) && CallsLinked(calls, first, others) && i == Reached(calls)
    requires group.Contents() == if calls == [] then first else others(|calls| - 1, calls[|calls| - 1].after)
    modifies group, group.pages
    ensures group.Valid()
    ensures |now| == |calls| + 1 && calls < now && next == Reached(now) <= n
    ensures group.Contents() == now[|now| - 1].after
    ensures CallsChain(request[..n], group.capacity, now) && CallsLinked(now, first, others)
  {
    hide Ordered, Pages, CallSound, CallsChain, CallsLinked;
    ghost var pages := request[..n];
    assert pages[i..] == request[i..n];
    SuffixOrdered(pages, i);
    ghost var call;
    next, call := MergeIntoGroup(request, i, n, group);
    SoundNext(pages, group.capacity, call);
    OneMoreCall(pages, group.capacity, calls, call, first, others);
    now := calls + [call];
  }

  /** What an intake meets: `closed` and `enabled` answer the thread state, `isCkptSession` whether the
      caller is the checkpoint itself, and `others(k, s)` is what the group holds when the lock is taken
      again after the k-th retry. */
  datatype Setting = Setting(closed: nat -> bool, enabled: nat -> bool, isCkptSession: bool,
                             others: (nat, seq<EdpPage>) -> seq<EdpPage>)

  /** The reason named is the true one. */
  ghost predicate StopSound(calls: seq<MergeCall>, n: nat, stop: Stop, at: Setting) {
    match stop
    case Finished => Reached(calls) == n
    case Closed => Reached(calls) < n && at.closed(|calls|)
    case Disabled => Reached(calls) < n && |calls| > 0 && !at.enabled(|calls| - 1)
    case OwnSession => Reached(calls) < n && at.isCkptSession
    case RetriesOut => Reached(calls) < n && |calls| == TRY_ADD_TO_GROUP_TIMES + 2
  }

  /** It stops as soon as it has to: no merge is made while the checkpoint is closed, none after the request is in,
      after the checkpoint was found disabled, or after the first in the checkpoint's own session. */
  ghost predicate StopsAtOnce(calls: seq<MergeCall>, n: nat, stop: Stop, at: Setting) {
    && (forall k :: 0 <= k < |calls| ==> !at.closed(k))
    && (forall k :: 0 <= k < (if stop.Closed? then |calls| else |calls| - 1) ==> at.enabled(k) && calls[k].next < n)
    && (at.isCkptSession ==> |calls| <= 1)
  }

  /** What an intake makes of a batch, the group holding `first` before: the batch is sorted, the merges chain
      and each starts from what the others left of the one before, the reason for the end is true, and the intake
      did not go on after it. */
  ghost predicate IntakeOf(batch: seq<EdpPage>, cap: nat, first: seq<EdpPage>, at: Setting,
                           sorted: seq<EdpPage>, calls: seq<MergeCall>, stop: Stop) {
    && Ordered(sorted) && multiset(sorted) == multiset(batch)
    && CallsChain(sorted, cap, calls) && CallsLinked(calls, first, at.others)
    && |calls| <= TRY_ADD_TO_GROUP_TIMES + 2 && Reached(calls) <= |sorted|
    && StopSound(calls, |sorted|, stop, at) && StopsAtOnce(calls, |sorted|, stop, at)
  }

  /** dcs_process_ckpt_edp_local. Returns the merges made and why it ended. */
  method ProcessLocal(request: array<EdpPage>, n: nat, group: CleanEdpGroup, at: Setting)
    returns (ghost calls: seq<MergeCall>, ghost stop: Stop)
    requires group.Valid() && request != group.pages && n <= request.Length
    requires forall k, s :: |at.others(k, s)| <= group.capacity
    modifies request, group, group.pages
    ensures group.Valid()
    ensures IntakeOf(old(request[..n]), group.capacity, old(group.Contents()), at, request[..n], calls, stop)
    ensures calls == [] ==> group.Contents() == old(group.Contents())
    ensures calls != [] ==> group.Contents() == if stop.Closed? then at.others(|calls| - 1, calls[|calls| - 1].after)
                                                else calls[|calls| - 1].after
  {
    hide Ordered, Pages, CallSound, CallsChain, CallsLinked, StopsAtOnce;
    calls, stop := [], Finished;
    NoCalls(request[..n], group.capacity, group.Contents(), at.others);
    NoStop(n, at);
    if n == 0 {
      assert Ordered(request[..0]) by { EmptyOrdered(request[..0]); }
      return;
    }
    SortPrefix(request, n);
    NoCalls(request[..n], group.capacity, group.Contents(), at.others);
    var i, times := 0, 0;
    ghost var pages := request[..n];
    while i < n && !at.closed(times)
      invariant group.Valid()
      invariant request[..n] == pages
      invariant i == Reached(calls) <= n && times == |calls| <= TRY_ADD_TO_GROUP_TIMES + 1
      invariant CallsChain(pages, group.capacity, calls)
      invariant CallsLinked(calls, old(group.Contents()), at.others)
      invariant calls != [] ==> i < n
      invariant StopsAtOnce(calls, n, Closed, at) && (at.isCkptSession ==> calls == [])
      invariant group.Contents() == if calls == [] then old(group.Contents())
                                    else at.others(|calls| - 1, calls[|calls| - 1].after)
      decreases TRY_ADD_TO_GROUP_TIMES + 2 - times
    {
      ghost var earlier := calls;
      i, calls := MergeOnce(request, i, n, group, calls, old(group.Contents()), at.others);
      OneMoreStop(earlier, calls, n, at);
      if i == n || at.isCkptSession {
        stop := if i == n then Finished else OwnSession;
        return;
      }
      // the lock is released and a checkpoint is triggered
      if times > TRY_ADD_TO_GROUP_TIMES || !at.enabled(times) {
        stop := if times > TRY_ADD_TO_GROUP_TIMES then RetriesOut else Disabled;
        return;
      }
      group.SetContents(at.others(times, group.pages[..group.count]));
      times := times + 1;
    }
    stop := if i < n then Closed else Finished;
  }

  lemma NoCalls(request: seq<EdpPage>, cap: nat, first: seq<EdpPage>,
                others: (nat, seq<EdpPage>) -> seq<EdpPage>)
    ensures CallsChain(request, cap, []) && CallsLinked([], first, others)
  {
  }

  lemma OneMoreCall(request: seq<EdpPage>, cap: nat, calls: seq<MergeCall>, c: MergeCall,
                    first: seq<EdpPage>, others: (nat, seq<EdpPage>) -> seq<EdpPage>)
    requires CallsChain(request, cap, calls) && CallsLinked(calls, first, others)
    requires CallSound(request, cap, c) && c.start == Reached(calls)
    requires c.before == if calls == [] then first else others(|calls| - 1, calls[|calls| - 1].after)
    ensures CallsChain(request, cap, calls + [c]) && CallsLinked(calls + [c], first, others)
  {
    hide CallSound;
    assert (calls + [c])[..|calls|] == calls;
  }

  lemma NoStop(n: nat, at: Setting)
    ensures forall stop: Stop :: StopsAtOnce([], n, stop, at)
  {
  }

  lemma OneMoreStop(calls: seq<MergeCall>, now: seq<MergeCall>, n: nat, at: Setting)
    requires StopsAtOnce(calls, n, Closed, at) && calls < now && |now| == |calls| + 1
    requires !at.closed(|calls|) && (at.isCkptSession ==> calls == [])
    ensures forall stop: Stop :: !stop.Closed? ==> StopsAtOnce(now, n, stop, at)
    ensures at.enabled(|calls|) && Reached(now) < n ==> StopsAtOnce(now, n, Closed, at)
  {
  }

  lemma SoundNext(request: seq<EdpPage>, cap: nat, c: MergeCall)
    requires CallSound(request, cap, c)
    ensures c.next <= |request| && |c.after| <= cap
  {
  }

  lemma EmptyOrdered(s: seq<EdpPage>)
    requires s == []
    ensures Ordered(s)
  {
  }

  // ---- what the retries achieve ----

  lemma {:induction false} PagesOfSlice(s: seq<EdpPage>, lo: nat, k: nat, hi: nat)
    requires lo <= k < hi <= |s|
    ensures s[k].page in Pages(s[lo..hi])
  {
    PageAt(s[lo..hi], k - lo);
    assert s[lo..hi][k - lo] == s[k];
  }

  /** The call put request page i into the group, or gave it up because of an invalid id from `start` on. */
  ghost predicate TookIn(request: seq<EdpPage>, c: MergeCall, i: nat)
    requires i < |request|
  {
    if c.rejected then c.start <= i && !AllValid(request[c.start..]) else request[i].page in Pages(c.after)
  }

  /** No request page is skipped: every page before the point reached was put into the group by one
      of the merges, or given up by a merge that met an invalid id. */
  lemma {:induction false} NoPageSkipped(request: seq<EdpPage>, cap: nat, calls: seq<MergeCall>, i: nat)
    requires CallsChain(request, cap, calls)
    requires i < Reached(calls) && Reached(calls) <= |request|
    ensures exists k :: 0 <= k < |calls| && TookIn(request, calls[k], i)
    decreases |calls|
  {
    hide Pages, Ordered, AllValid;
    var front, c := calls[..|calls| - 1], calls[|calls| - 1];
    if c.start <= i {
      if !c.rejected { PagesOfSlice(request, c.start, i, c.next); }
      assert TookIn(request, calls[|calls| - 1], i);
    } else {
      NoPageSkipped(request, cap, front, i);
      var k :| 0 <= k < |front| && TookIn(request, front[k], i);
      assert calls[k] == front[k];
    }
  }

  /** If the drainer leaves at most `kept` entries each time, m merges take in at least
      m * (capacity - 1 - kept) pages, or the whole request. */
  lemma {:induction false} RetriesAdvance(request: seq<EdpPage>, cap: nat, calls: seq<MergeCall>, kept: nat)
    requires CallsChain(request, cap, calls) && kept < cap
    requires forall k :: 0 <= k < |calls| ==> |calls[k].before| <= kept
    ensures Reached(calls) >= |request| || Reached(calls) >= |calls| * (cap - 1 - kept)
    decreases |calls|
  {
    hide CallSound;
    if calls != [] {
      var front, c := calls[..|calls| - 1], calls[|calls| - 1];
      assert forall k :: 0 <= k < |front| ==> front[k] == calls[k];
      RetriesAdvance(request, cap, front, kept);
      CallAdvance(request, cap, c, kept);
      OneMore(|front|, cap - 1 - kept);
    }
  }

  lemma CallAdvance(request: seq<EdpPage>, cap: nat, c: MergeCall, kept: nat)
    requires CallSound(request, cap, c) && |c.before| <= kept < cap
    ensures c.next >= |request| || c.next >= c.start + (cap - 1 - kept)
  {
  }

  lemma OneMore(m: nat, k: nat)
    ensures (m + 1) * k == m * k + k
  {
  }
}
