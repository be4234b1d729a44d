/** How a request to write earlier-dirty pages travels: requester, masters, owners.
    (dcs_master_process_ckpt_request, dcs_notify_owner_for_ckpt_l and the two broadcast handlers.) */
module EdpRouting {
  import opened Basics
  import opened EdpPages

  const CLEAN_EDP_ACTION: nat := 4

  /** What the page directory answers when a master asks for a page's owner. */
  datatype OwnerAnswer = OwnedBy(node: nat, action: nat) | NoOwner | LookupFailed

  /** The cluster as one request sees it: node count, liveness, the master and owner maps, the
      largest number of entries a message carries, and the sizes a message is made of. */
  datatype View = View(nodes: nat, alive: nat -> bool, known: PageId -> bool, master: PageId -> nat,
                       owner: PageId -> OwnerAnswer, groupSize: nat, headSize: nat, entrySize: nat)

  /** `ToMaster` and `ToOwner` are in flight; `Handed` is a batch given to the owner's intake. */
  datatype Msg = ToMaster(dest: nat, pages: seq<EdpPage>, count: nat, size: nat)
               | ToOwner(dest: nat, pages: seq<EdpPage>, count: nat, size: nat)
               | Handed(dest: nat, pages: seq<EdpPage>)

  predicate Live(v: View, i: nat) { i < v.nodes && v.alive(i) }

  /** Page p goes to node i: i owns it, or the owner lookup failed and everyone is told. */
  predicate Goes(v: View, p: PageId, i: nat) {
    Live(v, i) &&
    match v.owner(p)
    case OwnedBy(n, _) => n == i
    case NoOwner => false
    case LookupFailed => true
  }

  /** The entry as sent: the action comes from the owner lookup. */
  function Stamp(v: View, e: EdpPage): EdpPage {
    match v.owner(e.page)
    case OwnedBy(_, a) => e.(action := a)
    case NoOwner => e
    case LookupFailed => e.(action := CLEAN_EDP_ACTION)
  }

  function SendSize(v: View, count: nat): nat { v.headSize + count * v.entrySize }

  /** dcs_check_ckpt_edp_broadcast_msg and the count check of both handlers. */
  predicate Accepts(v: View, count: nat, size: nat) {
    v.headSize <= size && SendSize(v, count) == size && count <= v.groupSize
  }

  // ---- what each node sends, on values ----

  function ForOwner(v: View, s: seq<EdpPage>, i: nat): seq<EdpPage> {
    if s == [] then []
    else (if Goes(v, s[0].page, i) then [Stamp(v, s[0])] else []) + ForOwner(v, s[1..], i)
  }

  function OwnerChunks(v: View, d: nat, s: seq<EdpPage>): seq<Msg>
    requires 1 <= v.groupSize
  {
    if s == [] then []
    else
      var c := Min(v.groupSize, |s|);
      [ToOwner(d, s[..c], c, SendSize(v, c))] + OwnerChunks(v, d, s[c..])
  }

  function NodeMsgs(v: View, self: nat, local: seq<EdpPage>, i: nat): seq<Msg>
    requires 1 <= v.groupSize
  {
    if !v.alive(i) then []
    else
      var g := ForOwner(v, local, i);
      if i == self then (if g == [] then [] else [Handed(self, g)])
      else OwnerChunks(v, i, g)
  }

  /** dcs_notify_owner_for_ckpt_l for the first k nodes. */
  function Notify(v: View, self: nat, local: seq<EdpPage>, k: nat): seq<Msg>
    requires 1 <= v.groupSize
  {
    if k == 0 then [] else Notify(v, self, local, k - 1) + NodeMsgs(v, self, local, k - 1)
  }

  /** One broadcast of a chunk: a copy for every other live node below k. */
  function FanOut(v: View, self: nat, chunk: seq<EdpPage>, k: nat): seq<Msg> {
    if k == 0 then []
    else FanOut(v, self, chunk, k - 1) +
         (if k - 1 != self && v.alive(k - 1)
          then [ToMaster(k - 1, chunk, |chunk|, SendSize(v, |chunk|))] else [])
  }

  function Broadcast(v: View, self: nat, remote: seq<EdpPage>): seq<Msg>
    requires 1 <= v.groupSize
  {
    if remote == [] then []
    else
      var c := Min(v.groupSize, |remote|);
      FanOut(v, self, remote[..c], v.nodes) + Broadcast(v, self, remote[c..])
  }

  ghost predicate MasteredBy(v: View, s: seq<EdpPage>, d: nat) {
    forall k :: 0 <= k < |s| ==> v.master(s[k].page) == d
  }

  ghost predicate NoneMasteredBy(v: View, s: seq<EdpPage>, d: nat) {
    forall k :: 0 <= k < |s| ==> v.master(s[k].page) != d
  }

  ghost predicate AllKnown(v: View, s: seq<EdpPage>) {
    forall k :: 0 <= k < |s| ==> v.known(s[k].page)
  }

  /** `out` is what node `self` sends for the request, for some split of the request into the pages
      it masters and the rest. */
  ghost predicate Handles(v: View, self: nat, request: seq<EdpPage>, broadcast: bool, out: seq<Msg>)
    requires 1 <= v.groupSize
  {
    exists remote, local :: Splits(v, self, request, remote, local) &&
      out == Notify(v, self, local, v.nodes) + (if broadcast then Broadcast(v, self, remote) else [])
  }

  ghost predicate Splits(v: View, self: nat, request: seq<EdpPage>, remote: seq<EdpPage>, local: seq<EdpPage>) {
    multiset(remote + local) == multiset(request) && NoneMasteredBy(v, remote, self) && MasteredBy(v, local, self)
  }

  // ---- the imperative handlers ----

  /** Chunked sends of one owner's batch. */
  method SendChunks(v: View, d: nat, batch: seq<EdpPage>) returns (out: seq<Msg>)
    requires 1 <= v.groupSize
    ensures out == OwnerChunks(v, d, batch)
  {
    hide OwnerChunks, SendSize;
    out := [];
    ChunksNone(v, d);
    assert batch[0..] == batch;
    var sent, left := 0, |batch|;
    while left > 0
      invariant 0 <= sent && 0 <= left && sent + left == |batch|
      invariant out + OwnerChunks(v, d, batch[sent..]) == OwnerChunks(v, d, batch)
    {
      var c := Min(v.groupSize, left);
      assert batch[sent..][..c] == batch[sent..sent + c] && batch[sent..][c..] == batch[sent + c..];
      ChunksMore(v, d, batch[sent..]);
      out := out + [ToOwner(d, batch[sent..sent + c], c, SendSize(v, c))];
      sent, left := sent + c, left - c;
    }
    assert batch[sent..] == [];
  }

  /** Chunked broadcast of the pages mastered elsewhere. */
  method BroadcastChunks(v: View, self: nat, remote: seq<EdpPage>) returns (out: seq<Msg>)
    requires 1 <= v.groupSize
    ensures out == Broadcast(v, self, remote)
  {
    hide Broadcast, FanOut;
    out := [];
    EmptyBroadcast(v, self);
    assert remote[0..] == remote;
    var sent, left := 0, |remote|;
    while left > 0
      invariant 0 <= sent && 0 <= left && sent + left == |remote|
      invariant out + Broadcast(v, self, remote[sent..]) == Broadcast(v, self, remote)
    {
      var c := Min(v.groupSize, left);
      assert remote[sent..][..c] == remote[sent..sent + c] && remote[sent..][c..] == remote[sent + c..];
      BroadcastMore(v, self, remote[sent..]);
      out := out + FanOut(v, self, remote[sent..sent + c], v.nodes);
      sent, left := sent + c, left - c;
    }
    assert remote[sent..] == [];
  }

  /** Same pages and LSNs, whatever the action fields hold. */
  ghost predicate SamePages(a: seq<EdpPage>, b: seq<EdpPage>) {
    |a| == |b| && forall k :: 0 <= k < |a| ==> a[k].page == b[k].page && a[k].lsn == b[k].lsn
  }

  lemma {:induction false} ForOwnerIgnoresAction(v: View, a: seq<EdpPage>, b: seq<EdpPage>, i: nat)
    requires SamePages(a, b)
    ensures ForOwner(v, a, i) == ForOwner(v, b, i)
  {
    if a != [] {
      ForOwnerIgnoresAction(v, a[1..], b[1..], i);
    }
  }

  lemma {:induction false} ForOwnerLast(v: View, s: seq<EdpPage>, e: EdpPage, i: nat)
    ensures ForOwner(v, s + [e], i) == ForOwner(v, s, i) + (if Goes(v, e.page, i) then [Stamp(v, e)] else [])
  {
    if s == [] {
      assert s + [e] == [e] && [e][1..] == [];
    } else {
      assert (s + [e])[1..] == s[1..] + [e];
      ForOwnerLast(v, s[1..], e, i);
    }
  }

  // What a batch must be, from the owner lookup and the request alone.

  /** Pages and LSNs, in order. */
  function Keys(s: seq<EdpPage>): seq<(PageId, nat)> {
    if s == [] then [] else [(s[0].page, s[0].lsn)] + Keys(s[1..])
  }

  /** The lookup of p sends it to node i with this action. */
  predicate AnswersWith(v: View, p: PageId, i: nat, action: nat) {
    v.owner(p) == OwnedBy(i, action) || (v.owner(p) == LookupFailed && action == CLEAN_EDP_ACTION)
  }

  /** The entries, as requested, whose lookup names node i or fails. */
  function MeantFor(v: View, s: seq<EdpPage>, i: nat): seq<EdpPage> {
    if s == [] then []
    else
      var a := v.owner(s[0].page);
      (if a == LookupFailed || (a.OwnedBy? && a.node == i) then [s[0]] else []) + MeantFor(v, s[1..], i)
  }

  ghost predicate AllAnswered(v: View, s: seq<EdpPage>, i: nat) {
    forall e :: e in s ==> AnswersWith(v, e.page, i, e.action)
  }

  lemma {:induction false} ForOwnerMeans(v: View, s: seq<EdpPage>, i: nat)
    requires Live(v, i)
    ensures Keys(ForOwner(v, s, i)) == Keys(MeantFor(v, s, i)) && AllAnswered(v, ForOwner(v, s, i), i)
  {
    if s != [] {
      ForOwnerMeans(v, s[1..], i);
      KeysCons(s[0], MeantFor(v, s[1..], i));
      KeysCons(Stamp(v, s[0]), ForOwner(v, s[1..], i));
      assert [] + ForOwner(v, s[1..], i) == ForOwner(v, s[1..], i);
      assert [] + MeantFor(v, s[1..], i) == MeantFor(v, s[1..], i);
    }
  }

  lemma KeysCons(e: EdpPage, s: seq<EdpPage>)
    ensures Keys([e] + s) == [(e.page, e.lsn)] + Keys(s)
  {
    assert ([e] + s)[1..] == s;
  }

  /** The inner loop of dcs_notify_owner_for_ckpt_l: picks node i's batch, writing the looked-up
      action into the request's own entries. */
  method PickForOwner(v: View, pages: array<EdpPage>, start: nat, end: nat, i: nat)
    returns (batch: seq<EdpPage>)
    requires start <= end <= pages.Length && Live(v, i)
    modifies pages
    ensures batch == ForOwner(v, old(pages[start..end]), i)
    ensures Keys(batch) == Keys(MeantFor(v, old(pages[start..end]), i)) && AllAnswered(v, batch, i)
    ensures SamePages(pages[..], old(pages[..]))
  {
    hide Keys, MeantFor, AllAnswered;
    ForOwnerMeans(v, pages[start..end], i);
    batch := [];
    ghost var was := pages[start..end];
    var j := start;
    while j < end
      invariant start <= j <= end
      invariant batch == ForOwner(v, was[..j - start], i)
      invariant SamePages(pages[..], old(pages[..]))
    {
      ForOwnerLast(v, was[..j - start], was[j - start], i);
      assert was[..j - start] + [was[j - start]] == was[..j + 1 - start];
      assert pages[..][j].page == was[j - start].page && pages[..][j].lsn == was[j - start].lsn;
      var curOwner, action := i, CLEAN_EDP_ACTION;
      match v.owner(pages[j].page) {
        case OwnedBy(n, a) => curOwner, action := n, a;
        case NoOwner => curOwner := v.nodes;
        case LookupFailed =>
      }
      if curOwner == i {
        pages[j] := pages[j].(action := action);
        batch := batch + [pages[j]];
      }
      j := j + 1;
    }
    assert was[..end - start] == was;
  }

  lemma SameSlice(a: seq<EdpPage>, b: seq<EdpPage>, lo: nat, hi: nat)
    requires SamePages(a, b) && lo <= hi <= |a|
    ensures SamePages(a[lo..hi], b[lo..hi])
  {
  }

  lemma SameTrans(a: seq<EdpPage>, b: seq<EdpPage>, c: seq<EdpPage>)
    requires SamePages(a, b) && SamePages(b, c)
    ensures SamePages(a, c)
  {
  }

  lemma NotifyStep(v: View, self: nat, local: seq<EdpPage>, i: nat)
    requires 1 <= v.groupSize
    ensures Notify(v, self, local, 0) == []
    ensures Notify(v, self, local, i + 1) == Notify(v, self, local, i) + NodeMsgs(v, self, local, i)
  {
  }

  /** dcs_notify_owner_for_ckpt_l. */
  method NotifyOwners(v: View, self: nat, pages: array<EdpPage>, start: nat, end: nat)
    returns (out: seq<Msg>)
    requires start <= end <= pages.Length && 1 <= v.groupSize
    modifies pages
    ensures out == Notify(v, self, old(pages[start..end]), v.nodes)
    ensures SamePages(pages[..], old(pages[..]))
  {
    out := [];
    ghost var all, was := pages[..], pages[start..end];
    assert SamePages(pages[..], all);
    hide Notify, SamePages, ForOwner, OwnerChunks;
    if start >= end {
      assert was == [];
      EmptyNotify(v, self, v.nodes);
      return;
    }
    NotifyStep(v, self, was, 0);
    for i := 0 to v.nodes
      invariant out == Notify(v, self, was, i)
      invariant SamePages(pages[..], all)
    {
      NotifyStep(v, self, was, i);
      if v.alive(i) {
        SameSlice(pages[..], all, start, end);
        assert pages[..][start..end] == pages[start..end] && all[start..end] == was;
        ForOwnerIgnoresAction(v, pages[start..end], was, i);
        ghost var mid := pages[..];
        var batch := PickForOwner(v, pages, start, end, i);
        SameTrans(pages[..], mid, all);
        if i == self {
          if |batch| > 0 {
            out := out + [Handed(self, batch)];
          }
        } else {
          var msgs := SendChunks(v, i, batch);
          out := out + msgs;
        }
      }
    }
  }

  lemma {:induction false} EmptyNotify(v: View, self: nat, k: nat)
    requires 1 <= v.groupSize
    ensures Notify(v, self, [], k) == []
  {
    if k > 0 { EmptyNotify(v, self, k - 1); }
  }

  /** The partition stands at i with `idx` pages mastered elsewhere at the front. */
  ghost predicate Parted(v: View, self: nat, request: seq<EdpPage>, cur: seq<EdpPage>, idx: nat, i: nat) {
    && idx <= i <= |cur| == |request|
    && multiset(cur) == multiset(request)
    && cur[i..] == request[i..]
    && AllKnown(v, request[..i])
    && NoneMasteredBy(v, cur[..idx], self)
    && MasteredBy(v, cur[idx..i], self)
  }

  lemma PartedStep(v: View, self: nat, request: seq<EdpPage>, cur: seq<EdpPage>, idx: nat, i: nat)
    requires Parted(v, self, request, cur, idx, i) && i < |cur|
    ensures cur[i] == request[i]
    ensures v.known(cur[i].page) && v.master(cur[i].page) == self ==> Parted(v, self, request, cur, idx, i + 1)
    ensures v.known(cur[i].page) && v.master(cur[i].page) != self ==>
              Parted(v, self, request, cur[i := cur[idx]][idx := cur[i]], idx + 1, i + 1)
    ensures !v.known(cur[i].page) ==> !AllKnown(v, request)
  {
    hide *;
    PartedHead(v, self, request, cur, idx, i);
    if v.known(cur[i].page) {
      if v.master(cur[i].page) == self {
        PartedStay(v, self, request, cur, idx, i);
      } else {
        PartedSwap(v, self, request, cur, idx, i);
      }
    }
  }

  lemma PartedHead(v: View, self: nat, request: seq<EdpPage>, cur: seq<EdpPage>, idx: nat, i: nat)
    requires Parted(v, self, request, cur, idx, i) && i < |cur|
    ensures cur[i] == request[i] && cur[i + 1..] == request[i + 1..]
    ensures !v.known(cur[i].page) ==> !AllKnown(v, request)
  {
    hide MasteredBy, NoneMasteredBy;
    assert cur[i..][0] == request[i..][0];
    assert cur[i..][1..] == cur[i + 1..] && request[i..][1..] == request[i + 1..];
  }

  lemma PartedStay(v: View, self: nat, request: seq<EdpPage>, cur: seq<EdpPage>, idx: nat, i: nat)
    requires Parted(v, self, request, cur, idx, i) && i < |cur|
    requires v.known(cur[i].page) && v.master(cur[i].page) == self
    ensures Parted(v, self, request, cur, idx, i + 1)
  {
    PartedHead(v, self, request, cur, idx, i);
    hide NoneMasteredBy, MasteredBy, AllKnown;
    KnownSteps(v, request, i);
    assert cur[idx..i + 1] == cur[idx..i] + [cur[i]];
    MasteredMore(v, self, cur[idx..i], cur[i]);
  }

  lemma PartedSwap(v: View, self: nat, request: seq<EdpPage>, cur: seq<EdpPage>, idx: nat, i: nat)
    requires Parted(v, self, request, cur, idx, i) && i < |cur|
    requires v.known(cur[i].page) && v.master(cur[i].page) != self
    ensures Parted(v, self, request, cur[i := cur[idx]][idx := cur[i]], idx + 1, i + 1)
  {
    PartedHead(v, self, request, cur, idx, i);
    hide NoneMasteredBy, MasteredBy, AllKnown;
    KnownSteps(v, request, i);
    SwapSound(v, self, cur, idx, i);
    SwapPermutes(cur, i, idx);
    assert cur[i := cur[idx]][idx := cur[i]][i + 1..] == cur[i + 1..];
  }

  lemma PartedStart(v: View, self: nat, request: seq<EdpPage>)
    ensures Parted(v, self, request, request, 0, 0)
  {
  }

  lemma PartedEnd(v: View, self: nat, request: seq<EdpPage>, cur: seq<EdpPage>, idx: nat)
    requires Parted(v, self, request, cur, idx, |cur|)
    ensures AllKnown(v, request) && Splits(v, self, request, cur[..idx], cur[idx..])
  {
    assert request[..|cur|] == request;
    assert cur[..idx] + cur[idx..] == cur && cur[idx..|cur|] == cur[idx..];
  }

  /** The partition of dcs_master_process_ckpt_request: swaps the pages mastered elsewhere to the
      front; gives up at the first failed master lookup. */
  method Partition(v: View, self: nat, pages: array<EdpPage>, count: nat) returns (ok: bool, idx: nat)
    requires count <= pages.Length
    modifies pages
    ensures ok <==> AllKnown(v, old(pages[..count]))
    ensures idx <= count
    ensures ok ==> Splits(v, self, old(pages[..count]), pages[..idx], pages[idx..count])
  {
    hide *;
    idx := 0;
    ghost var request, cur := pages[..count], pages[..count];
    PartedStart(v, self, request);
    for i := 0 to count
      invariant idx <= i
      invariant pages[..count] == cur && |cur| == count
      invariant Parted(v, self, request, cur, idx, i)
    {
      PartedStep(v, self, request, cur, idx, i);
      if !v.known(pages[i].page) {
        return false, 0;
      }
      if v.master(pages[i].page) != self {
        pages[i], pages[idx] := pages[idx], pages[i];
        cur := cur[i := cur[idx]][idx := cur[i]];
        idx := idx + 1;
      }
    }
    PartedEnd(v, self, request, cur, idx);
    assert cur[..idx] == pages[..idx] && cur[idx..] == pages[idx..count];
    return true, idx;
  }

  lemma KnownSteps(v: View, s: seq<EdpPage>, i: nat)
    requires i <= |s|
    ensures AllKnown(v, s[..0])
    ensures i < |s| && AllKnown(v, s[..i]) && v.known(s[i].page) ==> AllKnown(v, s[..i + 1])
    ensures i < |s| && !v.known(s[i].page) ==> !AllKnown(v, s)
  {
  }

  lemma MasteredMore(v: View, self: nat, s: seq<EdpPage>, e: EdpPage)
    requires MasteredBy(v, s, self) && v.master(e.page) == self
    ensures MasteredBy(v, s + [e], self)
  {
  }

  lemma SwapSound(v: View, self: nat, was: seq<EdpPage>, idx: nat, i: nat)
    requires idx <= i < |was|
    requires NoneMasteredBy(v, was[..idx], self) && MasteredBy(v, was[idx..i], self)
    requires v.master(was[i].page) != self
    ensures var now := was[i := was[idx]][idx := was[i]];
            NoneMasteredBy(v, now[..idx + 1], self) && MasteredBy(v, now[idx + 1..i + 1], self)
  {
    var now := was[i := was[idx]][idx := was[i]];
    assert now[..idx + 1] == was[..idx] + [was[i]];
    if idx < i {
      var mid := was[idx..i];
      assert now[idx + 1..i + 1] == mid[1..] + [mid[0]];
    }
  }

  /** dcs_master_process_ckpt_request: partitions the request, notifies the owners of the pages
      mastered here and, for the requester, broadcasts the others. */
  method MasterProcess(v: View, self: nat, pages: array<EdpPage>, count: nat, broadcast: bool)
    returns (ok: bool, out: seq<Msg>)
    requires count <= pages.Length && 1 <= v.groupSize
    modifies pages
    ensures ok <==> AllKnown(v, old(pages[..count]))
    ensures !ok ==> out == []
    ensures ok ==> Handles(v, self, old(pages[..count]), broadcast, out)
  {
    hide Notify, Broadcast, Splits, AllKnown;
    var idx;
    ok, idx := Partition(v, self, pages, count);
    if !ok {
      return false, [];
    }
    var remote := pages[..idx];
    ghost var local := pages[idx..count];
    out := NotifyOwners(v, self, pages, idx, count);
    if !broadcast || idx == 0 {
      EmptyBroadcast(v, self);
      assert idx == 0 ==> remote == [];
      assert out == Notify(v, self, local, v.nodes) + (if broadcast then Broadcast(v, self, remote) else []);
      return true, out;
    }
    var msgs := BroadcastChunks(v, self, remote);
    out := out + msgs;
    assert out == Notify(v, self, local, v.nodes) + (if broadcast then Broadcast(v, self, remote) else []);
  }

  lemma BroadcastMore(v: View, self: nat, remote: seq<EdpPage>)
    requires 1 <= v.groupSize && remote != []
    ensures var c := Min(v.groupSize, |remote|);
            Broadcast(v, self, remote) == FanOut(v, self, remote[..c], v.nodes) + Broadcast(v, self, remote[c..])
  {
    hide FanOut;
  }

  lemma EmptyBroadcast(v: View, self: nat)
    requires 1 <= v.groupSize
    ensures Broadcast(v, self, []) == []
  {
  }

  /** The two broadcast handlers: check, then process as master or take in as owner. */
  method Receive(v: View, m: Msg) returns (out: seq<Msg>)
    requires 1 <= v.groupSize && !m.Handed?
    ensures Receives(v, m, out)
  {
    if !Accepts(v, m.count, m.size) {
      return [];
    }
    if m.ToOwner? {
      return [Handed(m.dest, m.pages)];
    }
    var pages := new EdpPage[|m.pages|](k requires 0 <= k < |m.pages| => m.pages[k]);
    assert pages[..|m.pages|] == m.pages;
    var ok;
    ok, out := MasterProcess(v, m.dest, pages, |m.pages|, false);
  }

  /** What the receiver of m puts in its place. */
  ghost predicate Receives(v: View, m: Msg, out: seq<Msg>)
    requires 1 <= v.groupSize && !m.Handed?
  {
    if !Accepts(v, m.count, m.size) then out == []
    else if m.ToOwner? then out == [Handed(m.dest, m.pages)]
    else if !AllKnown(v, m.pages) then out == []
    else Handles(v, m.dest, m.pages, false, out)
  }

  // ---- accounting: what a batch, a message or a network still owes node i ----

  /** The stamped entries of s that go to node i and whose master is in ms. */
  ghost function Owed(v: View, s: seq<EdpPage>, i: nat, ms: set<nat>): multiset<EdpPage> {
    if s == [] then multiset{}
    else (if v.master(s[0].page) in ms && Goes(v, s[0].page, i) then multiset{Stamp(v, s[0])} else multiset{})
         + Owed(v, s[1..], i, ms)
  }

  ghost function Weight(v: View, m: Msg, i: nat): multiset<EdpPage> {
    match m
    case ToMaster(d, p, _, _) => Owed(v, p, i, {d})
    case ToOwner(d, p, _, _) => if d == i then multiset(p) else multiset{}
    case Handed(d, p) => if d == i then multiset(p) else multiset{}
  }

  ghost function Total(v: View, msgs: seq<Msg>, i: nat): multiset<EdpPage> {
    if msgs == [] then multiset{} else Weight(v, msgs[0], i) + Total(v, msgs[1..], i)
  }

  ghost function LiveBelow(v: View, k: nat): set<nat> { set m | 0 <= m < k && v.alive(m) }

  ghost function LiveNodes(v: View): set<nat> { LiveBelow(v, v.nodes) }

  lemma {:induction false} TotalConcat(v: View, a: seq<Msg>, b: seq<Msg>, i: nat)
    ensures Total(v, a + b, i) == Total(v, a, i) + Total(v, b, i)
  {
    hide Weight;
    if a == [] {
      assert a + b == b;
    } else {
      assert (a + b)[1..] == a[1..] + b;
      TotalConcat(v, a[1..], b, i);
    }
  }

  lemma TotalNone(v: View, i: nat)
    ensures Total(v, [], i) == multiset{}
  {
  }

  lemma TotalOne(v: View, m: Msg, i: nat)
    ensures Total(v, [m], i) == Weight(v, m, i)
  {
    hide Weight;
    assert [m][1..] == [];
  }

  lemma {:induction false} OwedConcat(v: View, a: seq<EdpPage>, b: seq<EdpPage>, i: nat, ms: set<nat>)
    ensures Owed(v, a + b, i, ms) == Owed(v, a, i, ms) + Owed(v, b, i, ms)
  {
    hide Goes, Stamp;
    if a == [] {
      assert a + b == b;
    } else {
      assert (a + b)[1..] == a[1..] + b;
      OwedConcat(v, a[1..], b, i, ms);
    }
  }

  lemma {:induction false} OwedPermuted(v: View, a: seq<EdpPage>, b: seq<EdpPage>, i: nat, ms: set<nat>)
    requires multiset(a) == multiset(b)
    ensures Owed(v, a, i, ms) == Owed(v, b, i, ms)
  {
    hide Owed;
    if a == [] {
      assert |b| == |multiset(b)| == 0;
    } else {
      var x := a[0];
      assert x in multiset(b);
      var k :| 0 <= k < |b| && b[k] == x;
      var rest := b[..k] + b[k + 1..];
      assert a == [x] + a[1..] && b == b[..k] + [x] + b[k + 1..];
      RemoveOne(b[..k], x, b[k + 1..], a[1..]);
      OwedPermuted(v, a[1..], rest, i, ms);
      OwedConcat(v, [x], a[1..], i, ms);
      OwedConcat(v, b[..k] + [x], b[k + 1..], i, ms);
      OwedConcat(v, b[..k], [x], i, ms);
      OwedConcat(v, b[..k], b[k + 1..], i, ms);
    }
  }

  lemma RemoveOne(l: seq<EdpPage>, x: EdpPage, r: seq<EdpPage>, tail: seq<EdpPage>)
    requires multiset([x] + tail) == multiset(l + [x] + r)
    ensures multiset(tail) == multiset(l + r)
  {
    hide *;
    assert multiset([x] + tail) == multiset{x} + multiset(tail);
    assert multiset(l + [x] + r) == multiset(l) + multiset{x} + multiset(r);
    assert multiset(l + r) == multiset(l) + multiset(r);
    assert multiset(tail) == multiset([x] + tail) - multiset{x};
    assert multiset(l + r) == multiset(l + [x] + r) - multiset{x};
  }

  /** Two master sets that agree on the masters of s. */
  lemma {:induction false} OwedAgree(v: View, s: seq<EdpPage>, i: nat, a: set<nat>, b: set<nat>)
    requires forall k :: 0 <= k < |s| ==> (v.master(s[k].page) in a <==> v.master(s[k].page) in b)
    ensures Owed(v, s, i, a) == Owed(v, s, i, b)
  {
    hide Goes, Stamp;
    if s != [] {
      assert forall k :: 0 <= k < |s[1..]| ==> s[1..][k] == s[k + 1];
      OwedAgree(v, s[1..], i, a, b);
    }
  }

  lemma {:induction false} OwedSplit(v: View, s: seq<EdpPage>, i: nat, a: set<nat>, b: set<nat>)
    requires a !! b
    ensures Owed(v, s, i, a + b) == Owed(v, s, i, a) + Owed(v, s, i, b)
  {
    hide Goes, Stamp;
    if s != [] {
      OwedSplit(v, s[1..], i, a, b);
    }
  }

  lemma {:induction false} OwedNothing(v: View, s: seq<EdpPage>, i: nat, ms: set<nat>)
    requires ms == {} || !Live(v, i)
    ensures Owed(v, s, i, ms) == multiset{}
  {
    if s != [] { OwedNothing(v, s[1..], i, ms); }
  }

  lemma {:induction false} ForOwnerIsOwed(v: View, s: seq<EdpPage>, i: nat, d: nat)
    requires MasteredBy(v, s, d)
    ensures multiset(ForOwner(v, s, i)) == Owed(v, s, i, {d})
  {
    hide Goes, Stamp;
    if s != [] {
      assert v.master(s[0].page) == d;
      assert forall k :: 0 <= k < |s[1..]| ==> s[1..][k] == s[k + 1];
      ForOwnerIsOwed(v, s[1..], i, d);
    }
  }

  // ---- what each kind of send adds ----

  lemma SplitAt(s: seq<EdpPage>, c: nat)
    requires c <= |s|
    ensures multiset(s[..c]) + multiset(s[c..]) == multiset(s)
  {
    hide *;
    assert s == s[..c] + s[c..];
  }

  lemma ChunksNone(v: View, d: nat)
    requires 1 <= v.groupSize
    ensures OwnerChunks(v, d, []) == []
  {
  }

  lemma ChunksMore(v: View, d: nat, s: seq<EdpPage>)
    requires 1 <= v.groupSize && s != []
    ensures var c := Min(v.groupSize, |s|);
            OwnerChunks(v, d, s) == [ToOwner(d, s[..c], c, SendSize(v, c))] + OwnerChunks(v, d, s[c..])
  {
  }

  lemma {:induction false} ChunksTotal(v: View, d: nat, s: seq<EdpPage>, i: nat)
    requires 1 <= v.groupSize
    ensures Total(v, OwnerChunks(v, d, s), i) == if d == i then multiset(s) else multiset{}
    decreases |s|
  {
    hide Total, OwnerChunks, SendSize;
    if s == [] {
      ChunksNone(v, d);
      TotalNone(v, i);
    } else {
      var c := Min(v.groupSize, |s|);
      var m := ToOwner(d, s[..c], c, SendSize(v, c));
      ChunksMore(v, d, s);
      ChunksTotal(v, d, s[c..], i);
      TotalConcat(v, [m], OwnerChunks(v, d, s[c..]), i);
      TotalOne(v, m, i);
      SplitAt(s, c);
    }
  }

  lemma NodeMsgsTotal(v: View, self: nat, local: seq<EdpPage>, n: nat, i: nat)
    requires 1 <= v.groupSize && n < v.nodes && MasteredBy(v, local, self)
    ensures Total(v, NodeMsgs(v, self, local, n), i) == if n == i then Owed(v, local, i, {self}) else multiset{}
  {
    var g := ForOwner(v, local, n);
    if !v.alive(n) {
      OwedNothing(v, local, n, {self});
    } else {
      ForOwnerIsOwed(v, local, n, self);
      hide Owed, ForOwner, OwnerChunks;
      if n == self {
        if g != [] { TotalOne(v, Handed(self, g), i); }
      } else {
        ChunksTotal(v, n, g, i);
      }
    }
  }

  lemma {:induction false} NotifyTotal(v: View, self: nat, local: seq<EdpPage>, k: nat, i: nat)
    requires 1 <= v.groupSize && k <= v.nodes && MasteredBy(v, local, self)
    ensures Total(v, Notify(v, self, local, k), i) == if i < k then Owed(v, local, i, {self}) else multiset{}
  {
    hide Owed, NodeMsgs, MasteredBy, Total;
    if k == 0 {
      TotalNone(v, i);
    } else {
      NotifyTotal(v, self, local, k - 1, i);
      NodeMsgsTotal(v, self, local, k - 1, i);
      TotalConcat(v, Notify(v, self, local, k - 1), NodeMsgs(v, self, local, k - 1), i);
    }
  }

  lemma {:induction false} FanOutTotal(v: View, self: nat, chunk: seq<EdpPage>, k: nat, i: nat)
    ensures Total(v, FanOut(v, self, chunk, k), i) == Owed(v, chunk, i, LiveBelow(v, k) - {self})
  {
    hide Owed, Total, SendSize;
    if k == 0 {
      OwedNothing(v, chunk, i, LiveBelow(v, 0) - {self});
      TotalNone(v, i);
    } else {
      FanOutTotal(v, self, chunk, k - 1, i);
      var front := FanOut(v, self, chunk, k - 1);
      if k - 1 != self && v.alive(k - 1) {
        var m := ToMaster(k - 1, chunk, |chunk|, SendSize(v, |chunk|));
        TotalConcat(v, front, [m], i);
        TotalOne(v, m, i);
        OwedSplit(v, chunk, i, LiveBelow(v, k - 1) - {self}, {k - 1});
        assert LiveBelow(v, k) - {self} == LiveBelow(v, k - 1) - {self} + {k - 1};
      } else {
        assert front + [] == front;
        assert LiveBelow(v, k) - {self} == LiveBelow(v, k - 1) - {self};
      }
    }
  }

  lemma {:induction false} BroadcastTotal(v: View, self: nat, remote: seq<EdpPage>, i: nat)
    requires 1 <= v.groupSize
    ensures Total(v, Broadcast(v, self, remote), i) == Owed(v, remote, i, LiveNodes(v) - {self})
    decreases |remote|
  {
    hide Total, Owed, FanOut, LiveBelow;
    if remote == [] {
      TotalNone(v, i);
      OwedNone(v, i, LiveNodes(v) - {self});
    } else {
      var c := Min(v.groupSize, |remote|);
      BroadcastTotal(v, self, remote[c..], i);
      FanOutTotal(v, self, remote[..c], v.nodes, i);
      TotalConcat(v, FanOut(v, self, remote[..c], v.nodes), Broadcast(v, self, remote[c..]), i);
      OwedConcat(v, remote[..c], remote[c..], i, LiveNodes(v) - {self});
      assert remote == remote[..c] + remote[c..];
    }
  }

  lemma OwedNone(v: View, i: nat, ms: set<nat>)
    ensures Owed(v, [], i, ms) == multiset{}
  {
  }

  /** A live requester's sends owe each node exactly the request's pages with a live master. */
  lemma RequestTotal(v: View, self: nat, request: seq<EdpPage>, out: seq<Msg>, i: nat)
    requires 1 <= v.groupSize && Live(v, self)
    requires Handles(v, self, request, true, out)
    ensures Total(v, out, i) == Owed(v, request, i, LiveNodes(v))
  {
    hide Owed, Total, Notify, Broadcast, Goes;
    var remote, local :| Splits(v, self, request, remote, local)
      && out == Notify(v, self, local, v.nodes) + Broadcast(v, self, remote);
    NotifyTotal(v, self, local, v.nodes, i);
    BroadcastTotal(v, self, remote, i);
    TotalConcat(v, Notify(v, self, local, v.nodes), Broadcast(v, self, remote), i);
    OwedAgree(v, remote, i, LiveNodes(v) - {self}, LiveNodes(v));
    OwedAgree(v, local, i, {self}, LiveNodes(v));
    OwedConcat(v, remote, local, i, LiveNodes(v));
    OwedPermuted(v, remote + local, request, i, LiveNodes(v));
    if i >= v.nodes { OwedNothing(v, local, i, {self}); }
  }

  /** A master's sends owe each node exactly the pages it masters. */
  lemma MasterTotal(v: View, d: nat, pages: seq<EdpPage>, out: seq<Msg>, i: nat)
    requires 1 <= v.groupSize
    requires Handles(v, d, pages, false, out)
    ensures Total(v, out, i) == Owed(v, pages, i, {d})
  {
    hide Owed, Total, Notify, Goes;
    var remote, local :| Splits(v, d, pages, remote, local)
      && out == Notify(v, d, local, v.nodes) + [];
    assert out == Notify(v, d, local, v.nodes);
    NotifyTotal(v, d, local, v.nodes, i);
    OwedAgree(v, remote, i, {d}, {});
    OwedNothing(v, remote, i, {});
    OwedConcat(v, remote, local, i, {d});
    OwedPermuted(v, remote + local, pages, i, {d});
    if i >= v.nodes { OwedNothing(v, local, i, {d}); }
  }

  // ---- the protocol: requests, messages in flight, deliveries in any order ----

  /** All messages so far (delivered ones as `Handed`) and all entries requested so far. */
  datatype Cluster = Cluster(msgs: seq<Msg>, issued: seq<EdpPage>)

  /** A live node issues a request. */
  ghost predicate Requests(v: View, s: Cluster, t: Cluster, self: nat, request: seq<EdpPage>, out: seq<Msg>)
    requires 1 <= v.groupSize
  {
    && Live(v, self) && AllKnown(v, request)
    && Handles(v, self, request, true, out)
    && t == Cluster(s.msgs + out, s.issued + request)
  }

  /** Message k arrives. */
  ghost predicate Delivers(v: View, s: Cluster, t: Cluster, k: nat, out: seq<Msg>)
    requires 1 <= v.groupSize
  {
    && k < |s.msgs| && !s.msgs[k].Handed?
    && Receives(v, s.msgs[k], out)
    && t == Cluster(s.msgs[..k] + out + s.msgs[k + 1..], s.issued)
  }

  ghost predicate Step(v: View, s: Cluster, t: Cluster)
    requires 1 <= v.groupSize
  {
    || (exists self, request, out :: Requests(v, s, t, self, request, out))
    || (exists k, out :: Delivers(v, s, t, k, out))
  }

  /** A message as its sender built it. */
  ghost predicate WellFormed(v: View, m: Msg) {
    m.Handed? || (m.count == |m.pages| && m.size == SendSize(v, m.count) && 1 <= m.count <= v.groupSize
                  && AllKnown(v, m.pages))
  }

  ghost predicate AllWellFormed(v: View, msgs: seq<Msg>) {
    forall k :: 0 <= k < |msgs| ==> WellFormed(v, msgs[k])
  }

  /** What is in flight and what was handed over add up to what was requested. */
  ghost predicate Invariant(v: View, s: Cluster) {
    && AllWellFormed(v, s.msgs)
    && forall i :: Total(v, s.msgs, i) == Owed(v, s.issued, i, LiveNodes(v))
  }

  lemma KnownConcat(v: View, a: seq<EdpPage>, b: seq<EdpPage>)
    ensures AllKnown(v, a + b) <==> AllKnown(v, a) && AllKnown(v, b)
  {
    if AllKnown(v, a + b) {
      assert forall k :: 0 <= k < |a| ==> a[k] == (a + b)[k];
      assert forall k :: 0 <= k < |b| ==> b[k] == (a + b)[|a| + k];
    }
  }

  lemma KnownPermuted(v: View, a: seq<EdpPage>, b: seq<EdpPage>)
    requires multiset(a) == multiset(b) && AllKnown(v, a)
    ensures AllKnown(v, b)
  {
    forall k | 0 <= k < |b|
      ensures v.known(b[k].page)
    {
      assert b[k] in multiset(a);
      var j :| 0 <= j < |a| && a[j] == b[k];
    }
  }

  lemma {:induction false} KnownForOwner(v: View, s: seq<EdpPage>, i: nat)
    requires AllKnown(v, s)
    ensures AllKnown(v, ForOwner(v, s, i))
  {
    if s != [] {
      assert forall k :: 0 <= k < |s[1..]| ==> s[1..][k] == s[k + 1];
      KnownForOwner(v, s[1..], i);
      assert v.known(s[0].page);
    }
  }

  lemma FormedConcat(v: View, a: seq<Msg>, b: seq<Msg>)
    requires AllWellFormed(v, a) && AllWellFormed(v, b)
    ensures AllWellFormed(v, a + b)
  {
  }

  lemma {:induction false} FormedChunks(v: View, d: nat, s: seq<EdpPage>)
    requires 1 <= v.groupSize && AllKnown(v, s)
    ensures AllWellFormed(v, OwnerChunks(v, d, s))
    decreases |s|
  {
    if s != [] {
      var c := Min(v.groupSize, |s|);
      assert s == s[..c] + s[c..];
      KnownConcat(v, s[..c], s[c..]);
      FormedChunks(v, d, s[c..]);
      assert WellFormed(v, ToOwner(d, s[..c], c, SendSize(v, c)));
      hide WellFormed, AllKnown, SendSize;
      FormedConcat(v, [ToOwner(d, s[..c], c, SendSize(v, c))], OwnerChunks(v, d, s[c..]));
    }
  }

  lemma {:induction false} FormedNotify(v: View, self: nat, local: seq<EdpPage>, k: nat)
    requires 1 <= v.groupSize && AllKnown(v, local)
    ensures AllWellFormed(v, Notify(v, self, local, k))
  {
    hide AllKnown, AllWellFormed;
    if k == 0 {
      FormedNone(v);
    } else {
      FormedNotify(v, self, local, k - 1);
      FormedNode(v, self, local, k - 1);
      FormedConcat(v, Notify(v, self, local, k - 1), NodeMsgs(v, self, local, k - 1));
    }
  }

  lemma FormedNone(v: View)
    ensures AllWellFormed(v, [])
  {
  }

  lemma FormedNode(v: View, self: nat, local: seq<EdpPage>, i: nat)
    requires 1 <= v.groupSize && AllKnown(v, local)
    ensures AllWellFormed(v, NodeMsgs(v, self, local, i))
  {
    KnownForOwner(v, local, i);
    FormedChunks(v, i, ForOwner(v, local, i));
  }

  lemma {:induction false} FormedFanOut(v: View, self: nat, chunk: seq<EdpPage>, k: nat)
    requires 1 <= |chunk| <= v.groupSize && AllKnown(v, chunk)
    ensures AllWellFormed(v, FanOut(v, self, chunk, k))
  {
    if k > 0 {
      FormedFanOut(v, self, chunk, k - 1);
      assert WellFormed(v, ToMaster(k - 1, chunk, |chunk|, SendSize(v, |chunk|)));
    }
  }

  lemma {:induction false} FormedBroadcast(v: View, self: nat, remote: seq<EdpPage>)
    requires 1 <= v.groupSize && AllKnown(v, remote)
    ensures AllWellFormed(v, Broadcast(v, self, remote))
    decreases |remote|
  {
    hide AllKnown, AllWellFormed;
    if remote == [] {
      FormedNone(v);
    } else {
      var c := Min(v.groupSize, |remote|);
      assert remote == remote[..c] + remote[c..];
      KnownConcat(v, remote[..c], remote[c..]);
      FormedBroadcast(v, self, remote[c..]);
      FormedFanOut(v, self, remote[..c], v.nodes);
      FormedConcat(v, FanOut(v, self, remote[..c], v.nodes), Broadcast(v, self, remote[c..]));
    }
  }

  lemma FormedHandles(v: View, self: nat, request: seq<EdpPage>, broadcast: bool, out: seq<Msg>)
    requires 1 <= v.groupSize && AllKnown(v, request) && Handles(v, self, request, broadcast, out)
    ensures AllWellFormed(v, out)
  {
    hide AllKnown, AllWellFormed, Notify, Broadcast;
    var remote, local :| Splits(v, self, request, remote, local)
      && out == Notify(v, self, local, v.nodes) + (if broadcast then Broadcast(v, self, remote) else []);
    KnownPermuted(v, request, remote + local);
    KnownConcat(v, remote, local);
    FormedNotify(v, self, local, v.nodes);
    FormedBroadcast(v, self, remote);
    FormedNone(v);
    FormedConcat(v, Notify(v, self, local, v.nodes), if broadcast then Broadcast(v, self, remote) else []);
  }

  /** A message as its sender built it passes its receiver's checks. */
  lemma FormedAccepted(v: View, m: Msg)
    requires WellFormed(v, m) && !m.Handed?
    ensures Accepts(v, m.count, m.size) && AllKnown(v, m.pages)
  {
    assert m.count * v.entrySize >= 0;
  }

  /** Whatever replaces a delivered message owes every node exactly what the message owed. */
  lemma DeliveryTotal(v: View, m: Msg, out: seq<Msg>, i: nat)
    requires 1 <= v.groupSize && WellFormed(v, m) && !m.Handed? && Receives(v, m, out)
    ensures Total(v, out, i) == Weight(v, m, i)
    ensures AllWellFormed(v, out)
  {
    FormedAccepted(v, m);
    hide Total, Owed, Handles, AllKnown, SendSize;
    if m.ToOwner? {
      TotalOne(v, Handed(m.dest, m.pages), i);
    } else {
      MasterTotal(v, m.dest, m.pages, out, i);
      FormedHandles(v, m.dest, m.pages, false, out);
    }
  }

  lemma RequestKeeps(v: View, s: Cluster, t: Cluster, self: nat, request: seq<EdpPage>, out: seq<Msg>)
    requires 1 <= v.groupSize && Invariant(v, s) && Requests(v, s, t, self, request, out)
    ensures Invariant(v, t)
  {
    hide Total, Owed, Handles, AllKnown, AllWellFormed, Live;
    FormedHandles(v, self, request, true, out);
    FormedConcat(v, s.msgs, out);
    forall i
      ensures Total(v, t.msgs, i) == Owed(v, t.issued, i, LiveNodes(v))
    {
      RequestTotal(v, self, request, out, i);
      TotalConcat(v, s.msgs, out, i);
      OwedConcat(v, s.issued, request, i, LiveNodes(v));
    }
  }

  lemma DeliveryKeeps(v: View, s: Cluster, t: Cluster, k: nat, out: seq<Msg>)
    requires 1 <= v.groupSize && Invariant(v, s) && Delivers(v, s, t, k, out)
    ensures Invariant(v, t)
  {
    var m, l, r := s.msgs[k], s.msgs[..k], s.msgs[k + 1..];
    assert s.msgs == l + [m] + r;
    assert WellFormed(v, m) && AllWellFormed(v, l) && AllWellFormed(v, r);
    hide Total, Owed, Receives, WellFormed, AllWellFormed;
    DeliveryTotal(v, m, out, 0);
    FormedConcat(v, l, out);
    FormedConcat(v, l + out, r);
    forall i
      ensures Total(v, t.msgs, i) == Owed(v, t.issued, i, LiveNodes(v))
    {
      DeliveryTotal(v, m, out, i);
      TotalConcat(v, l + [m], r, i);
      TotalConcat(v, l, [m], i);
      TotalOne(v, m, i);
      TotalConcat(v, l + out, r, i);
      TotalConcat(v, l, out, i);
    }
  }

  ghost predicate IsRun(v: View, run: seq<Cluster>)
    requires 1 <= v.groupSize
  {
    && |run| > 0 && run[0] == Cluster([], [])
    && forall k :: 0 <= k < |run| - 1 ==> Step(v, run[k], run[k + 1])
  }

  /** Conservation over every run: requests and deliveries in any order. */
  lemma {:induction false} RunsConserve(v: View, run: seq<Cluster>, n: nat)
    requires 1 <= v.groupSize && IsRun(v, run) && n < |run|
    ensures Invariant(v, run[n])
  {
    hide Invariant, Requests, Delivers;
    if n == 0 {
      InvariantStarts(v);
    } else {
      RunsConserve(v, run, n - 1);
      var s, t := run[n - 1], run[n];
      assert Step(v, s, t);
      if self, request, out :| Requests(v, s, t, self, request, out) {
        RequestKeeps(v, s, t, self, request, out);
      } else {
        var k, out :| Delivers(v, s, t, k, out);
        DeliveryKeeps(v, s, t, k, out);
      }
    }
  }

  /** In no run is a message ever turned away by its receiver's checks. */
  lemma NeverRejected(v: View, run: seq<Cluster>, n: nat, k: nat)
    requires 1 <= v.groupSize && IsRun(v, run) && n < |run|
    requires k < |run[n].msgs| && !run[n].msgs[k].Handed?
    ensures Accepts(v, run[n].msgs[k].count, run[n].msgs[k].size) && AllKnown(v, run[n].msgs[k].pages)
    ensures var m := run[n].msgs[k];
            m.size == v.headSize + |m.pages| * v.entrySize && m.count == |m.pages| && 1 <= m.count <= v.groupSize
  {
    RunsConserve(v, run, n);
    assert WellFormed(v, run[n].msgs[k]);
    FormedAccepted(v, run[n].msgs[k]);
  }

  lemma InvariantStarts(v: View)
    ensures Invariant(v, Cluster([], []))
  {
  }

  /** Everything handed to node i so far. */
  ghost function HandedTo(msgs: seq<Msg>, i: nat): multiset<EdpPage> {
    if msgs == [] then multiset{}
    else (if msgs[0].Handed? && msgs[0].dest == i then multiset(msgs[0].pages) else multiset{}) + HandedTo(msgs[1..], i)
  }

  ghost predicate Quiescent(s: Cluster) {
    forall k :: 0 <= k < |s.msgs| ==> s.msgs[k].Handed?
  }

  lemma {:induction false} QuiescentTotal(v: View, msgs: seq<Msg>, i: nat)
    ensures HandedTo(msgs, i) <= Total(v, msgs, i)
    ensures (forall k :: 0 <= k < |msgs| ==> msgs[k].Handed?) ==> HandedTo(msgs, i) == Total(v, msgs, i)
  {
    if msgs != [] {
      assert forall k :: 0 <= k < |msgs[1..]| ==> msgs[1..][k] == msgs[k + 1];
      QuiescentTotal(v, msgs[1..], i);
      hide Owed;
    }
  }

  /** Routing: at every point of every run a node has been handed only pages that go to it, never
      more often than requested; once nothing is in flight it has been handed each exactly once. */
  lemma Routed(v: View, run: seq<Cluster>, n: nat, i: nat)
    requires 1 <= v.groupSize && IsRun(v, run) && n < |run|
    ensures HandedTo(run[n].msgs, i) <= Owed(v, run[n].issued, i, LiveNodes(v))
    ensures Quiescent(run[n]) ==> HandedTo(run[n].msgs, i) == Owed(v, run[n].issued, i, LiveNodes(v))
  {
    RunsConserve(v, run, n);
    QuiescentTotal(v, run[n].msgs, i);
    hide Total, Owed, HandedTo;
  }

  // ---- the in-flight messages run out ----

  ghost function Cost(v: View, m: Msg): nat {
    match m
    case ToMaster(_, p, _, _) => 1 + v.nodes * |p|
    case ToOwner(_, _, _, _) => 1
    case Handed(_, _) => 0
  }

  ghost function TotalCost(v: View, msgs: seq<Msg>): nat {
    if msgs == [] then 0 else Cost(v, msgs[0]) + TotalCost(v, msgs[1..])
  }

  lemma {:induction false} CostConcat(v: View, a: seq<Msg>, b: seq<Msg>)
    ensures TotalCost(v, a + b) == TotalCost(v, a) + TotalCost(v, b)
  {
    hide Cost;
    if a == [] {
      assert a + b == b;
    } else {
      assert (a + b)[1..] == a[1..] + b;
      CostConcat(v, a[1..], b);
    }
  }

  lemma {:induction false} ForOwnerShorter(v: View, s: seq<EdpPage>, i: nat)
    ensures |ForOwner(v, s, i)| <= |s|
  {
    if s != [] { ForOwnerShorter(v, s[1..], i); }
  }

  lemma {:induction false} ChunksCost(v: View, d: nat, s: seq<EdpPage>)
    requires 1 <= v.groupSize
    ensures TotalCost(v, OwnerChunks(v, d, s)) <= |s|
    decreases |s|
  {
    if s != [] {
      var c := Min(v.groupSize, |s|);
      ChunksCost(v, d, s[c..]);
      hide SendSize;
      var m := ToOwner(d, s[..c], c, SendSize(v, c));
      assert ([m] + OwnerChunks(v, d, s[c..]))[1..] == OwnerChunks(v, d, s[c..]);
    }
  }

  lemma NodeCost(v: View, self: nat, local: seq<EdpPage>, i: nat)
    requires 1 <= v.groupSize
    ensures TotalCost(v, NodeMsgs(v, self, local, i)) <= |local|
  {
    hide OwnerChunks, ForOwner;
    ForOwnerShorter(v, local, i);
    ChunksCost(v, i, ForOwner(v, local, i));
    var m := Handed(self, ForOwner(v, local, i));
    assert [m][1..] == [];
  }

  lemma NotifyNone(v: View, self: nat, local: seq<EdpPage>)
    requires 1 <= v.groupSize
    ensures TotalCost(v, Notify(v, self, local, 0)) == 0
  {
  }

  lemma NotifyMore(v: View, self: nat, local: seq<EdpPage>, k: nat)
    requires 1 <= v.groupSize
    ensures TotalCost(v, Notify(v, self, local, k + 1)) <= TotalCost(v, Notify(v, self, local, k)) + |local|
  {
    hide TotalCost, NodeMsgs;
    NotifyStep(v, self, local, k);
    NodeCost(v, self, local, k);
    hide Notify;
    CostConcat(v, Notify(v, self, local, k), NodeMsgs(v, self, local, k));
  }

  lemma {:induction false} NotifyCost(v: View, self: nat, local: seq<EdpPage>, k: nat)
    requires 1 <= v.groupSize
    ensures TotalCost(v, Notify(v, self, local, k)) <= k * |local|
  {
    hide *;
    if k == 0 {
      NotifyNone(v, self, local);
    } else {
      NotifyCost(v, self, local, k - 1);
      NotifyMore(v, self, local, k - 1);
      OneMoreNode(k - 1, |local|);
    }
  }

  lemma OneMoreNode(k: nat, n: nat)
    ensures (k + 1) * n == k * n + n
  {
  }

  /** Every delivery lowers the total cost. */
  lemma DeliveryLowersCost(v: View, s: Cluster, t: Cluster, k: nat, out: seq<Msg>)
    requires 1 <= v.groupSize && AllWellFormed(v, s.msgs) && Delivers(v, s, t, k, out)
    ensures TotalCost(v, t.msgs) < TotalCost(v, s.msgs)
  {
    var m, l, r := s.msgs[k], s.msgs[..k], s.msgs[k + 1..];
    assert s.msgs == l + [m] + r;
    assert WellFormed(v, m);
    CostConcat(v, l + [m], r);
    CostConcat(v, l, [m]);
    CostConcat(v, l + out, r);
    CostConcat(v, l, out);
    assert TotalCost(v, [m]) == Cost(v, m) by { assert [m][1..] == []; }
    ReplacementCost(v, m, out);
  }

  lemma {:induction false} SplitExists(v: View, d: nat, pages: seq<EdpPage>)
    returns (remote: seq<EdpPage>, local: seq<EdpPage>)
    ensures Splits(v, d, pages, remote, local)
  {
    if pages == [] {
      remote, local := [], [];
    } else {
      var e, rest := pages[0], pages[1..];
      remote, local := SplitExists(v, d, rest);
      assert pages == [e] + rest;
      assert multiset(remote + local) == multiset(remote) + multiset(local);
      if v.master(e.page) == d {
        assert multiset(remote + ([e] + local)) == multiset(pages);
        local := [e] + local;
      } else {
        assert multiset([e] + remote + local) == multiset(pages);
        remote := [e] + remote;
      }
    }
  }

  /** As long as something is in flight, it can be delivered. */
  lemma CanDeliver(v: View, s: Cluster) returns (t: Cluster, k: nat, out: seq<Msg>)
    requires 1 <= v.groupSize && !Quiescent(s)
    ensures Delivers(v, s, t, k, out)
  {
    k :| 0 <= k < |s.msgs| && !s.msgs[k].Handed?;
    var m := s.msgs[k];
    var remote, local := SplitExists(v, m.dest, m.pages);
    out := if !Accepts(v, m.count, m.size) || (m.ToMaster? && !AllKnown(v, m.pages)) then []
           else if m.ToOwner? then [Handed(m.dest, m.pages)]
           else Notify(v, m.dest, local, v.nodes) + [];
    t := Cluster(s.msgs[..k] + out + s.msgs[k + 1..], s.issued);
  }

  /** A run of deliveries alone. */
  ghost predicate Deliveries(v: View, run: seq<Cluster>)
    requires 1 <= v.groupSize
  {
    |run| > 0 && forall n :: 0 <= n < |run| - 1 ==> DeliversOne(v, run[n], run[n + 1])
  }

  ghost predicate DeliversOne(v: View, s: Cluster, t: Cluster)
    requires 1 <= v.groupSize
  {
    exists k, out :: Delivers(v, s, t, k, out)
  }

  /** Without new requests there are at most as many deliveries as the messages in flight cost. */
  lemma {:induction false} DeliveriesRunOut(v: View, run: seq<Cluster>, n: nat)
    requires 1 <= v.groupSize && Deliveries(v, run) && Invariant(v, run[0]) && n < |run|
    ensures Invariant(v, run[n]) && TotalCost(v, run[n].msgs) + n <= TotalCost(v, run[0].msgs)
  {
    if n > 0 {
      DeliveriesRunOut(v, run, n - 1);
      assert DeliversOne(v, run[n - 1], run[n - 1 + 1]);
      var k, out :| Delivers(v, run[n - 1], run[n], k, out);
      DeliveryLowersCost(v, run[n - 1], run[n], k, out);
      DeliveryKeeps(v, run[n - 1], run[n], k, out);
    }
  }

  /** From every reachable state some deliveries lead to where nothing is in flight. */
  lemma {:induction false} ReachesQuiescence(v: View, s: Cluster) returns (run: seq<Cluster>)
    requires 1 <= v.groupSize && Invariant(v, s)
    ensures Deliveries(v, run) && run[0] == s && Quiescent(run[|run| - 1])
    decreases TotalCost(v, s.msgs)
  {
    hide Invariant, Delivers, TotalCost;
    if Quiescent(s) {
      run := [s];
    } else {
      var t, k, out := CanDeliver(v, s);
      InvariantFormed(v, s);
      DeliveryLowersCost(v, s, t, k, out);
      DeliveryKeeps(v, s, t, k, out);
      var rest := ReachesQuiescence(v, t);
      run := [s] + rest;
      forall n | 0 <= n < |run| - 1 ensures DeliversOne(v, run[n], run[n + 1]) {
        if n > 0 { assert run[n] == rest[n - 1] && run[n + 1] == rest[n - 1 + 1]; }
      }
    }
  }

  lemma InvariantFormed(v: View, s: Cluster)
    requires Invariant(v, s)
    ensures AllWellFormed(v, s.msgs)
  {
  }

  lemma ReplacementCost(v: View, m: Msg, out: seq<Msg>)
    requires 1 <= v.groupSize && WellFormed(v, m) && !m.Handed? && Receives(v, m, out)
    ensures TotalCost(v, out) < Cost(v, m)
  {
    FormedAccepted(v, m);
    if m.ToOwner? {
      assert out[1..] == [];
    } else {
      var remote, local :| Splits(v, m.dest, m.pages, remote, local)
        && out == Notify(v, m.dest, local, v.nodes) + [];
      assert out == Notify(v, m.dest, local, v.nodes);
      NotifyCost(v, m.dest, local, v.nodes);
      assert |remote + local| == |multiset(remote + local)| == |multiset(m.pages)| == |m.pages|;
      Monotone(v.nodes, |local|, |m.pages|);
    }
  }

  lemma Monotone(k: nat, a: nat, b: nat)
    requires a <= b
    ensures k * a <= k * b
  {
  }

  // ---- the chunk loop ----

  /** Pages left to send after k rounds of the chunk loop. */
  function LeftAfter(left: nat, groupSize: nat, k: nat): nat {
    if k == 0 then left
    else var l := LeftAfter(left, groupSize, k - 1); l - Min(groupSize, l)
  }

  /** The chunk loop ends exactly when messages may carry at least one entry. The largest entry count
      is a third of the checkpoint group size, so for a group size of 1 or 2 (the parameter's minimum
      is 1) it never ends. */
  lemma ChunkLoopEnds(left: nat, ckptGroupSize: nat)
    ensures (exists k :: LeftAfter(left, ckptGroupSize / 3, k) == 0) <==> left == 0 || ckptGroupSize >= 3
  {
    var g := ckptGroupSize / 3;
    if left == 0 {
      assert LeftAfter(left, g, 0) == 0;
    } else if g == 0 {
      forall k ensures LeftAfter(left, g, k) == left { StuckLoop(left, k); }
    } else {
      LoopShrinks(left, g, left);
      assert LeftAfter(left, g, left) == 0;
    }
  }

  lemma {:induction false} StuckLoop(left: nat, k: nat)
    ensures LeftAfter(left, 0, k) == left
  {
    if k > 0 { StuckLoop(left, k - 1); }
  }

  lemma {:induction false} LoopShrinks(left: nat, g: nat, k: nat)
    requires 1 <= g
    ensures LeftAfter(left, g, k) <= (if left > k then left - k else 0)
  {
    if k > 0 { LoopShrinks(left, g, k - 1); }
  }
}
