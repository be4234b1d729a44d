/** The two passes a checkpoint makes over its EDP groups: taking the pages remote nodes asked for
    into the flush group (dcs_ckpt_remote_edp_prepare), and cleaning local earlier-dirty pages
    (dcs_ckpt_clean_local_edp). Both keep the entries they could not deal with by swapping them to
    the end. */
module CkptPass {
  import opened Basics
  import opened EdpPages

  const INVALID_ACTION: nat := 0

  type CtrlId = nat

  /** The part of a buffer control block the pass reads and writes. */
  datatype BufCtrl = BufCtrl(pageId: PageId, marked: bool, readonly: bool, edp: bool, locked: bool,
                             pageLsn: nat, latestLfn: nat, inQueue: bool, dirty: bool, remoteDirty: bool)

  predicate IsOwner(c: BufCtrl) { c.locked && !c.edp }

  datatype CleanEntry = CleanEntry(page: PageId, lsn: nat)

  /** What the pass did with one entry: its page was not in memory, it was passed over, or its
      buffer `ctrl` (as seen then) was taken into the flush group. */
  datatype Event = Missing(entry: EdpPage) | Passed(entry: EdpPage) | Took(entry: EdpPage, id: CtrlId, ctrl: BufCtrl)

  // ---- retention by swapping to the end ----

  /** Of the entries tried (the k-th at attempt k), those that stay, last tried first. */
  function KeptOf(tried: seq<EdpPage>, stays: (nat, EdpPage) -> bool): seq<EdpPage> {
    if tried == [] then []
    else
      var front, e := tried[..|tried| - 1], tried[|tried| - 1];
      (if stays(|front|, e) then [e] else []) + KeptOf(front, stays)
  }

  /** Of the entries tried, those dealt with, in order. */
  function DoneOf(tried: seq<EdpPage>, stays: (nat, EdpPage) -> bool): seq<EdpPage> {
    if tried == [] then []
    else
      var front, e := tried[..|tried| - 1], tried[|tried| - 1];
      DoneOf(front, stays) + (if stays(|front|, e) then [] else [e])
  }

  /** Where a pass over `group` stands: `cur` is the array, [..i] dealt with, [count..] kept. */
  ghost predicate Retains(group: seq<EdpPage>, cur: seq<EdpPage>, tried: seq<EdpPage>,
                          stays: (nat, EdpPage) -> bool, i: nat, count: nat) {
    && i <= count <= |cur|
    && multiset(cur) == multiset(group)
    && cur[..i] == DoneOf(tried, stays)
    && cur[count..] == KeptOf(tried, stays)
    && |tried| == i + |cur| - count
    && multiset(tried) == multiset(cur[..i]) + multiset(cur[count..])
    && (count == |cur| ==> cur == group && tried == cur[..i])
  }

  lemma RetainsStart(group: seq<EdpPage>, stays: (nat, EdpPage) -> bool)
    ensures Retains(group, group, [], stays, 0, |group|)
  {
    assert group[|group|..] == [];
  }

  lemma OneMoreTried(tried: seq<EdpPage>, e: EdpPage, stays: (nat, EdpPage) -> bool)
    ensures KeptOf(tried + [e], stays) == (if stays(|tried|, e) then [e] else []) + KeptOf(tried, stays)
    ensures DoneOf(tried + [e], stays) == DoneOf(tried, stays) + (if stays(|tried|, e) then [] else [e])
    ensures multiset(tried + [e]) == multiset(tried) + multiset{e}
  {
    assert (tried + [e])[..|tried|] == tried;
  }

  lemma RetainsDone(group: seq<EdpPage>, cur: seq<EdpPage>, tried: seq<EdpPage>,
                    stays: (nat, EdpPage) -> bool, i: nat, count: nat)
    requires Retains(group, cur, tried, stays, i, count) && i < count
    requires !stays(|tried|, cur[i])
    ensures Retains(group, cur, tried + [cur[i]], stays, i + 1, count)
  {
    hide KeptOf, DoneOf;
    OneMoreTried(tried, cur[i], stays);
    assert cur[..i + 1] == cur[..i] + [cur[i]];
    assert [] + KeptOf(tried, stays) == KeptOf(tried, stays);
  }

  lemma RetainsKept(group: seq<EdpPage>, cur: seq<EdpPage>, tried: seq<EdpPage>,
                    stays: (nat, EdpPage) -> bool, i: nat, count: nat)
    requires Retains(group, cur, tried, stays, i, count) && i < count
    requires stays(|tried|, cur[i])
    ensures Retains(group, cur[i := cur[count - 1]][count - 1 := cur[i]], tried + [cur[i]], stays, i, count - 1)
  {
    hide KeptOf, DoneOf;
    OneMoreTried(tried, cur[i], stays);
    SwapPermutes(cur, i, count - 1);
    var now := cur[i := cur[count - 1]][count - 1 := cur[i]];
    assert now[..i] == cur[..i];
    assert now[count - 1..] == [cur[i]] + cur[count..];
    assert DoneOf(tried, stays) + [] == DoneOf(tried, stays);
  }

  lemma RetainsEnd(group: seq<EdpPage>, cur: seq<EdpPage>, tried: seq<EdpPage>,
                   stays: (nat, EdpPage) -> bool, i: nat, count: nat)
    requires Retains(group, cur, tried, stays, i, count)
    ensures multiset(group) == multiset(tried) + multiset(cur[i..count])
  {
    hide KeptOf, DoneOf;
    assert cur == cur[..i] + cur[i..count] + cur[count..];
  }

  // ---- what the events of a pass amount to ----

  function Entries(events: seq<Event>): seq<EdpPage> {
    if events == [] then [] else Entries(events[..|events| - 1]) + [events[|events| - 1].entry]
  }

  function TakenIds(events: seq<Event>): seq<CtrlId> {
    if events == [] then []
    else
      var e := events[|events| - 1];
      TakenIds(events[..|events| - 1]) + (if e.Took? then [e.id] else [])
  }

  /** The clean notice an event gives rise to. */
  function NoticeOf(e: Event): seq<CleanEntry> {
    match e
    case Missing(p) => [CleanEntry(p.page, p.lsn)]
    case Passed(_) => []
    case Took(_, _, c) => [CleanEntry(c.pageId, c.pageLsn)]
  }

  /** The clean notices the pass tries to queue, in order. */
  function Notices(events: seq<Event>): seq<CleanEntry> {
    if events == [] then [] else Notices(events[..|events| - 1]) + NoticeOf(events[|events| - 1])
  }

  function Raise(lfn: nat, e: Event): nat {
    if e.Took? && lfn < e.ctrl.latestLfn then e.ctrl.latestLfn else lfn
  }

  function MaxLfn(start: nat, events: seq<Event>): nat {
    if events == [] then start else Raise(MaxLfn(start, events[..|events| - 1]), events[|events| - 1])
  }

  /** The condition under which a buffer may enter the flush group. */
  ghost predicate EventSound(e: Event, recovered: bool) {
    e.Took? ==> && !e.ctrl.marked && !e.ctrl.readonly && !e.ctrl.edp && IsOwner(e.ctrl)
                && e.ctrl.pageId == e.entry.page
                && (recovered ==> e.entry.lsn <= e.ctrl.pageLsn)
  }

  ghost predicate EventsSound(events: seq<Event>, recovered: bool) {
    forall k :: 0 <= k < |events| ==> EventSound(events[k], recovered)
  }

  ghost predicate NoRepeats(s: seq<CtrlId>) {
    forall i, j :: 0 <= i < j < |s| ==> s[i] != s[j]
  }

  ghost predicate AllMarked(items: seq<CtrlId>, bufs: map<CtrlId, BufCtrl>) {
    forall k :: 0 <= k < |items| ==> items[k] in bufs && bufs[items[k]].marked
  }

  /** Other threads may change any buffer between two attempts, but only the flush clears marks. */
  ghost predicate Rely(a: map<CtrlId, BufCtrl>, b: map<CtrlId, BufCtrl>) {
    forall id :: id in a ==> id in b && (a[id].marked ==> b[id].marked)
  }

  /** The flush group, clean group and consistent LFN that the events of a pass leave. */
  ghost predicate Amounts(items: seq<CtrlId>, clean: seq<CleanEntry>, lfn: nat, events: seq<Event>,
                          items0: seq<CtrlId>, lfn0: nat, size: nat) {
    && items == items0 + TakenIds(events)
    && clean == Notices(events)[..Min(|Notices(events)|, size)]
    && lfn == MaxLfn(lfn0, events)
  }

  /** The fields a pass updates under the group's lock. */
  datatype Pass = Pass(items: seq<CtrlId>, clean: seq<CleanEntry>, lfn: nat, bufs: map<CtrlId, BufCtrl>)

  /** dtc_add_to_edp_group on the clean group. */
  function AddNotice(clean: seq<CleanEntry>, size: nat, page: PageId, lsn: nat): seq<CleanEntry> {
    if |clean| >= size then clean else clean + [CleanEntry(page, lsn)]
  }

  /** What a pass meets. `stays(k, e)` says that at attempt k the page of e was found but could not be latched;
      `found` otherwise gives the buffer latched (None: not in memory); `world` is what other threads made of
      the buffers before attempt k; `cleaned` the result of dcs_clean_local_ctrl; `recovered` whether reform
      recovery is over; `size` the size of the flush group. */
  datatype Env = Env(size: nat, recovered: bool, stays: (nat, EdpPage) -> bool,
                     found: (nat, EdpPage) -> Option<CtrlId>,
                     world: (nat, map<CtrlId, BufCtrl>) -> map<CtrlId, BufCtrl>, cleaned: (BufCtrl, EdpPage) -> BufCtrl)

  ghost predicate EnvOk(env: Env, ids: set<CtrlId>) {
    && (forall k, e :: env.found(k, e).Some? ==> env.found(k, e).value in ids)
    && (forall k, b :: Rely(b, env.world(k, b)))
    && (forall c, e :: env.cleaned(c, e).marked == c.marked)
  }

  /** The buffer may be taken for the entry. */
  predicate Takeable(c: BufCtrl, e: EdpPage, recovered: bool) {
    && !c.marked && !c.readonly && !c.edp && IsOwner(c) && e.page == c.pageId
    && (recovered ==> e.lsn <= c.pageLsn)
  }

  /** The pass on values: one latched buffer. */
  function Handle(p: Pass, env: Env, entry: EdpPage, id: CtrlId): (Pass, Event)
    requires id in p.bufs
  {
    var c0 := p.bufs[id];
    var c := if entry.action != INVALID_ACTION && c0.edp && env.recovered then env.cleaned(c0, entry) else c0;
    if !Takeable(c, entry, env.recovered) then (p.(bufs := p.bufs[id := c]), Passed(entry))
    else
      var flushed := c.(marked := true, dirty := false, remoteDirty := false, inQueue := false);
      (Pass(p.items + [id], AddNotice(p.clean, env.size, c.pageId, c.pageLsn), Max(p.lfn, c.latestLfn),
            p.bufs[id := flushed]),
       Took(entry, id, c))
  }

  /** The pass on values: one entry that does not stay. */
  function Deal(p: Pass, env: Env, entry: EdpPage, found: Option<CtrlId>): (Pass, Event) {
    if found.None? || found.value !in p.bufs then
      (p.(clean := AddNotice(p.clean, env.size, entry.page, entry.lsn)), Missing(entry))
    else Handle(p, env, entry, found.value)
  }

  /** What happens to a latched buffer: passed over, or taken. `failed` reports a failed encryption
      or checksum, which leaves the buffer marked although it never entered the flush group. */
  method HandleLatched(p: Pass, env: Env, entry: EdpPage, id: CtrlId, codecFails: bool)
    returns (q: Pass, event: Event, failed: bool)
    requires id in p.bufs && env.cleaned(p.bufs[id], entry).marked == p.bufs[id].marked
    ensures event.entry == entry && EventSound(event, env.recovered) && !event.Missing?
    ensures failed ==> event.Took? && codecFails
    ensures q.items == p.items + (if event.Took? && !failed then [event.id] else [])
    ensures q.clean == p.clean + (if |p.clean| < env.size then NoticeOf(event) else [])
    ensures q.lfn == Raise(p.lfn, event)
    ensures Rely(p.bufs, q.bufs)
    ensures event.Took? ==> event.id == id && q.bufs[id].marked && !p.bufs[id].marked
    ensures !failed ==> (q, event) == Handle(p, env, entry, id)
    ensures event == Handle(p, env, entry, id).1 && q.bufs == Handle(p, env, entry, id).0.bufs
  {
    q, event, failed := p, Passed(entry), false;
    assert p.bufs[id := p.bufs[id]] == p.bufs;
    if entry.action != INVALID_ACTION && q.bufs[id].edp && env.recovered {
      q := q.(bufs := q.bufs[id := env.cleaned(q.bufs[id], entry)]);
    }
    var c := q.bufs[id];
    if c.marked || c.readonly || c.edp || !IsOwner(c) || entry.page != c.pageId {
      return;
    }
    if entry.lsn > c.pageLsn && env.recovered {
      return;
    }
    event := Took(entry, id, c);
    q := q.(clean := AddNotice(q.clean, env.size, c.pageId, c.pageLsn));
    if q.lfn < c.latestLfn {
      q := q.(lfn := c.latestLfn);
    }
    ghost var flushed := c.(marked := true, dirty := false, remoteDirty := false, inQueue := false);
    assert q.bufs[id := flushed] == p.bufs[id := flushed];
    q := q.(bufs := q.bufs[id := c.(marked := true, dirty := false, remoteDirty := false, inQueue := false)]);
    if codecFails {
      failed := true;
      return;
    }
    q := q.(items := q.items + [id]);
  }

  ghost predicate PassValid(p: Pass, ids: set<CtrlId>) {
    NoRepeats(p.items) && AllMarked(p.items, p.bufs) && ids <= p.bufs.Keys
  }

  /** A failed encryption or checksum: a marked buffer that is not in the flush group. */
  ghost predicate Orphaned(p: Pass, e: Event) {
    e.Took? && e.id in p.bufs && p.bufs[e.id].marked && e.id !in p.items
  }

  /** One entry whose page is either not in memory or latched. */
  method DealWith(p: Pass, env: Env, entry: EdpPage, found: Option<CtrlId>, codecFails: bool, ghost ids: set<CtrlId>)
    returns (q: Pass, event: Event, failed: bool)
    requires PassValid(p, ids) && EnvOk(env, ids)
    requires found.Some? ==> found.value in ids
    ensures event.entry == entry && EventSound(event, env.recovered)
    ensures PassValid(q, ids)
    ensures !failed ==> q.items == p.items + (if event.Took? then [event.id] else [])
                        && q.clean == p.clean + (if |p.clean| < env.size then NoticeOf(event) else [])
                        && q.lfn == Raise(p.lfn, event)
    ensures !failed ==> (q, event) == Deal(p, env, entry, found)
    ensures failed ==> Orphaned(q, event) && codecFails
  {
    event, failed := Missing(entry), false;
    if found.None? {
      q := p.(clean := AddNotice(p.clean, env.size, entry.page, entry.lsn));
    } else {
      q, event, failed := HandleLatched(p, env, entry, found.value, codecFails);
      hide NoRepeats, AllMarked, Rely, EventSound, NoticeOf, Raise, Handle;
      MarksKept(p.items, p.bufs, q.bufs);
      if event.Took? {
        FreshlyMarked(p.items, found.value, p.bufs, q.bufs);
      }
    }
  }

  // ---- a whole pass on values ----

  datatype State = State(pass: Pass, events: seq<Event>)

  /** Where the pass stands after the entries tried, as long as no encryption or checksum fails. */
  function After(env: Env, tried: seq<EdpPage>, p0: Pass): State {
    if tried == [] then State(p0, [])
    else
      var front, e := tried[..|tried| - 1], tried[|tried| - 1];
      var s := After(env, front, p0);
      var p := s.pass.(bufs := env.world(|front|, s.pass.bufs));
      if env.stays(|front|, e) then State(p, s.events)
      else
        var d := Deal(p, env, e, env.found(|front|, e));
        State(d.0, s.events + [d.1])
  }

  lemma AfterStep(env: Env, tried: seq<EdpPage>, e: EdpPage, p0: Pass)
    ensures var s, k := After(env, tried, p0), |tried|;
            var p := s.pass.(bufs := env.world(k, s.pass.bufs));
            After(env, tried + [e], p0) ==
            if env.stays(k, e) then State(p, s.events)
            else
              var d := Deal(p, env, e, env.found(k, e));
              State(d.0, s.events + [d.1])
  {
    assert (tried + [e])[..|tried|] == tried;
  }

  /** Nothing stands in the way of taking every entry of the group: each can be latched, in a quiet cluster,
      and has a buffer of its own that may be taken. */
  ghost predicate Unhindered(env: Env, group: seq<EdpPage>, bufs: map<CtrlId, BufCtrl>) {
    && (forall k, e :: !env.stays(k, e)) && (forall k, b :: env.world(k, b) == b)
    && (forall k, e :: env.found(k, e) == env.found(0, e))
    && (forall j :: 0 <= j < |group| ==> HasBuffer(env, group[j], bufs))
    && (forall j, k :: 0 <= j < k < |group| ==> env.found(0, group[j]) != env.found(0, group[k]))
  }

  ghost predicate HasBuffer(env: Env, e: EdpPage, bufs: map<CtrlId, BufCtrl>) {
    var f := env.found(0, e);
    f.Some? && f.value in bufs && Takeable(bufs[f.value], e, env.recovered)
  }

  /** Every one of the first i entries was taken and the buffers of the others are as they were. */
  ghost predicate TookFirst(env: Env, group: seq<EdpPage>, p0: Pass, i: nat)
    requires i <= |group|
  {
    var s := After(env, group[..i], p0);
    && |s.pass.items| == |p0.items| + i
    && forall j :: i <= j < |group| ==> HasBuffer(env, group[j], s.pass.bufs)
  }

  lemma TakeOne(env: Env, p: Pass, e: EdpPage, others: seq<EdpPage>)
    requires HasBuffer(env, e, p.bufs)
    requires forall j :: 0 <= j < |others| ==>
               HasBuffer(env, others[j], p.bufs) && env.found(0, others[j]) != env.found(0, e)
    ensures var q := Deal(p, env, e, env.found(0, e)).0;
            && |q.items| == |p.items| + 1
            && forall j :: 0 <= j < |others| ==> HasBuffer(env, others[j], q.bufs)
  {
  }

  lemma {:induction false} UnhinderedTakes(env: Env, group: seq<EdpPage>, p0: Pass, i: nat)
    requires i <= |group| && Unhindered(env, group, p0.bufs)
    ensures TookFirst(env, group, p0, i)
  {
    if i == 0 {
      assert group[..0] == [];
    } else {
      UnhinderedTakes(env, group, p0, i - 1);
      var s, e := After(env, group[..i - 1], p0), group[i - 1];
      assert group[..i] == group[..i - 1] + [e];
      AfterStep(env, group[..i - 1], e, p0);
      hide After, Deal, HasBuffer;
      var others := group[i..];
      forall j | 0 <= j < |others|
        ensures HasBuffer(env, others[j], s.pass.bufs) && env.found(0, others[j]) != env.found(0, e)
      {
        assert others[j] == group[i + j];
      }
      assert env.world(i - 1, s.pass.bufs) == s.pass.bufs;
      assert env.found(i - 1, e) == env.found(0, e);
      TakeOne(env, s.pass, e, others);
      forall j | i <= j < |group| ensures HasBuffer(env, group[j], After(env, group[..i], p0).pass.bufs) {
        assert group[j] == others[j - i];
      }
    }
  }

  /** The pass so far, as its events account for it. */
  ghost predicate Accounts(p: Pass, events: seq<Event>, p0: Pass, size: nat, recovered: bool) {
    && EventsSound(events, recovered)
    && PassValid(p, p0.bufs.Keys)
    && Amounts(p.items, p.clean, p.lfn, events, p0.items, p0.lfn, size)
  }

  lemma AccountsWorld(p: Pass, bufs: map<CtrlId, BufCtrl>, events: seq<Event>, p0: Pass, size: nat, recovered: bool)
    requires Accounts(p, events, p0, size, recovered) && Rely(p.bufs, bufs)
    ensures Accounts(p.(bufs := bufs), events, p0, size, recovered)
  {
    hide EventsSound, NoRepeats, AllMarked, Rely, Amounts;
    MarksKept(p.items, p.bufs, bufs);
  }

  lemma AccountsStep(p: Pass, q: Pass, events: seq<Event>, e: Event, p0: Pass, size: nat, recovered: bool)
    requires Accounts(p, events, p0, size, recovered)
    requires EventSound(e, recovered) && PassValid(q, p0.bufs.Keys)
    requires q.items == p.items + (if e.Took? then [e.id] else [])
    requires q.clean == p.clean + (if |p.clean| < size then NoticeOf(e) else [])
    requires q.lfn == Raise(p.lfn, e)
    ensures Accounts(q, events + [e], p0, size, recovered)
    ensures |q.items| <= |p.items| + 1
  {
    hide EventsSound, EventSound, PassValid, Amounts, NoticeOf, Raise;
    OneMoreEvent(events, e, recovered);
    AmountsStep(p.items, p.clean, p.lfn, events, e, p0.items, p0.lfn, size);
  }

  lemma AccountsStart(p0: Pass, size: nat, recovered: bool)
    requires PassValid(p0, p0.bufs.Keys) && p0.clean == []
    ensures Accounts(p0, [], p0, size, recovered)
  {
    NoEvents(p0.items, p0.lfn, size, recovered);
  }

  /** SWAP of two of the first n entries. */
  method Swap(pages: array<EdpPage>, n: nat, i: nat, j: nat)
    requires i < n <= pages.Length && j < n
    modifies pages
    ensures pages[..n] == old(pages[..n])[i := old(pages[..n])[j]][j := old(pages[..n])[i]]
  {
    pages[i], pages[j] := pages[j], pages[i];
  }

  /** The state of the loop apart from the pass itself: the group at the start, the array now, the entries
      tried and what happened, the pass at the start, and the two indices. */
  datatype Standing = Standing(group: seq<EdpPage>, cur: seq<EdpPage>, tried: seq<EdpPage>, events: seq<Event>,
                               p0: Pass, i: nat, count: nat)

  /** Where the loop stands with pass p: at.cur[..i] dealt with, at.cur[count..] kept. */
  ghost predicate Midway(at: Standing, p: Pass, env: Env) {
    && Retains(at.group, at.cur, at.tried, env.stays, at.i, at.count)
    && Entries(at.events) == DoneOf(at.tried, env.stays)
    && Accounts(p, at.events, at.p0, env.size, env.recovered)
    && After(env, at.tried, at.p0) == State(p, at.events)
    && |p.items| <= |at.p0.items| + at.i
  }

  ghost predicate MoreToTry(at: Standing) { at.i < at.count <= |at.cur| }

  /** The next entry is swapped to the end. */
  ghost function KeptNext(at: Standing): Standing
    requires MoreToTry(at)
  {
    var e, last := at.cur[at.i], at.count - 1;
    at.(cur := at.cur[at.i := at.cur[last]][last := e], tried := at.tried + [e], count := last)
  }

  /** The next entry is dealt with. */
  ghost function DoneNext(at: Standing, event: Event): Standing
    requires MoreToTry(at)
  {
    at.(tried := at.tried + [at.cur[at.i]], events := at.events + [event], i := at.i + 1)
  }

  /** An entry that stays is swapped to the end. */
  method KeepBack(pages: array<EdpPage>, n: nat, p: Pass, env: Env, attempt: nat, i: nat, count: nat,
                  ghost at: Standing)
    returns (q: Pass)
    requires i < count <= n <= pages.Length && attempt == |at.tried| && env.stays(attempt, pages[i])
    requires at.cur == pages[..n] && at.i == i && at.count == count
    requires Midway(at, p, env) && EnvOk(env, at.p0.bufs.Keys)
    modifies pages
    ensures q.items == p.items && KeptNext(at).cur == pages[..n] && Midway(KeptNext(at), q, env)
  {
    hide Midway, EnvOk, Rely;
    WorldRelies(env, at.p0.bufs.Keys, attempt, p.bufs, pages[i]);
    MidwayKept(at, p, env);
    Swap(pages, n, i, count - 1);
    q := p.(bufs := env.world(attempt, p.bufs));
  }

  /** The last entry dealt with took the last place of the flush group. */
  ghost predicate JustFilled(s: State, size: nat) {
    |s.pass.items| == size && s.events != [] && s.events[|s.events| - 1].Took?
  }

  /** A pass broken off by a failed encryption or checksum: one marked buffer is outside the flush group. */
  ghost predicate FailedPass(s: State, env: Env, p0: Pass) {
    && EventsSound(s.events, env.recovered) && PassValid(s.pass, p0.bufs.Keys)
    && s.events != [] && Orphaned(s.pass, s.events[|s.events| - 1])
  }

  lemma Ends(q: Pass, events: seq<Event>, event: Event, env: Env, p0: Pass)
    ensures |q.items| == env.size && event.Took? ==> JustFilled(State(q, events + [event]), env.size)
    ensures EventsSound(events + [event], env.recovered) && PassValid(q, p0.bufs.Keys) && Orphaned(q, event) ==>
              FailedPass(State(q, events + [event]), env, p0)
  {
  }

  /** One attempt at an entry that does not stay: the body of the loop. */
  method Attempt(p: Pass, env: Env, e: EdpPage, attempt: nat, codecFails: bool, ghost at: Standing)
    returns (q: Pass, event: Event, failed: bool)
    requires MoreToTry(at) && e == at.cur[at.i] && attempt == |at.tried| && !env.stays(attempt, e)
    requires Midway(at, p, env) && EnvOk(env, at.p0.bufs.Keys)
    ensures !failed ==> Midway(DoneNext(at, event), q, env)
    ensures !failed ==> |q.items| == |p.items| + if event.Took? then 1 else 0
    ensures !failed && |q.items| >= env.size > |p.items| ==> JustFilled(State(q, at.events + [event]), env.size)
    ensures failed ==> codecFails && FailedPass(State(q, at.events + [event]), env, at.p0)
  {
    hide *;
    WorldRelies(env, at.p0.bufs.Keys, attempt, p.bufs, e);
    MidwayParts(at, p, env);
    AccountsWorld(p, env.world(attempt, p.bufs), at.events, at.p0, env.size, env.recovered);
    var seen := p.(bufs := env.world(attempt, p.bufs));
    AccountsParts(seen, at.events, at.p0, env.size, env.recovered);
    q, event, failed := DealWith(seen, env, e, env.found(attempt, e), codecFails, at.p0.bufs.Keys);
    Ends(q, at.events, event, env, at.p0);
    if failed {
      OneMoreEvent(at.events, event, env.recovered);
    } else {
      MidwayDone(at, p, env, q, event);
    }
  }

  /** The loop of dcs_ckpt_remote_edp_prepare over pages[..n]: [..i] dealt with, [count..] kept. */
  method Scan(pages: array<EdpPage>, n: nat, p0: Pass, env: Env, codecFails: nat -> bool)
    returns (ok: bool, p: Pass, tried: seq<EdpPage>, events: seq<Event>, i: nat, count: nat)
    requires n <= pages.Length && |p0.items| < env.size && p0.clean == [] && PassValid(p0, p0.bufs.Keys)
    requires EnvOk(env, p0.bufs.Keys)
    modifies pages
    ensures multiset(pages[..n]) == multiset(old(pages[..n])) && i <= count <= n
    ensures ok ==> Midway(Standing(old(pages[..n]), pages[..n], tried, events, p0, i, count), p, env)
    ensures ok ==> |p.items| <= env.size && (i < count ==> JustFilled(State(p, events), env.size))
    ensures !ok ==> FailedPass(State(p, events), env, p0) && tried != [] && codecFails(|tried| - 1)
  {
    hide Midway, EnvOk, PassValid, FailedPass, JustFilled;
    p, tried, events := p0, [], [];
    i, count := 0, n;
    ghost var at := Standing(pages[..n], pages[..n], [], [], p0, 0, n);
    MidwayStart(pages[..n], env, p0);
    while i < count
      invariant i <= count <= n && |p.items| < env.size
      invariant at == Standing(old(pages[..n]), pages[..n], tried, events, p0, i, count)
      invariant Midway(at, p, env)
    {
      var e, attempt := pages[i], |tried|;
      MidwayParts(at, p, env);
      if env.stays(attempt, e) {
        p := KeepBack(pages, n, p, env, attempt, i, count, at);
        at := KeptNext(at);
        count, tried := count - 1, tried + [e];
      } else {
        var event, failed;
        p, event, failed := Attempt(p, env, e, attempt, codecFails(attempt), at);
        at := DoneNext(at, event);
        tried, events, i := tried + [e], events + [event], i + 1;
        if failed {
          return false, p, tried, events, i, count;
        }
        if |p.items| >= env.size {
          break;
        }
      }
    }
    MidwayParts(at, p, env);
    return true, p, tried, events, i, count;
  }

  lemma MidwayStart(group: seq<EdpPage>, env: Env, p0: Pass)
    requires PassValid(p0, p0.bufs.Keys) && p0.clean == []
    ensures Midway(Standing(group, group, [], [], p0, 0, |group|), p0, env)
  {
    hide Retains, Accounts, PassValid;
    RetainsStart(group, env.stays);
    AccountsStart(p0, env.size, env.recovered);
  }

  lemma MidwayParts(at: Standing, p: Pass, env: Env)
    requires Midway(at, p, env)
    ensures Accounts(p, at.events, at.p0, env.size, env.recovered)
    ensures multiset(at.cur) == multiset(at.group)
  {
  }

  lemma MidwayKept(at: Standing, p: Pass, env: Env)
    requires Midway(at, p, env) && MoreToTry(at)
    requires env.stays(|at.tried|, at.cur[at.i]) && Rely(p.bufs, env.world(|at.tried|, p.bufs))
    ensures Midway(KeptNext(at), p.(bufs := env.world(|at.tried|, p.bufs)), env)
  {
    hide Retains, Accounts, Rely, After, DoneOf, KeptOf, Entries;
    RetainsKept(at.group, at.cur, at.tried, env.stays, at.i, at.count);
    OneMoreTried(at.tried, at.cur[at.i], env.stays);
    AccountsWorld(p, env.world(|at.tried|, p.bufs), at.events, at.p0, env.size, env.recovered);
    AfterStep(env, at.tried, at.cur[at.i], at.p0);
    assert DoneOf(at.tried, env.stays) + [] == DoneOf(at.tried, env.stays);
  }

  lemma MidwayDone(at: Standing, p: Pass, env: Env, q: Pass, event: Event)
    requires Midway(at, p, env) && MoreToTry(at) && !env.stays(|at.tried|, at.cur[at.i])
    requires Rely(p.bufs, env.world(|at.tried|, p.bufs)) && PassValid(q, at.p0.bufs.Keys)
    requires (q, event) == Deal(p.(bufs := env.world(|at.tried|, p.bufs)), env, at.cur[at.i],
                                env.found(|at.tried|, at.cur[at.i]))
    requires event.entry == at.cur[at.i] && EventSound(event, env.recovered)
    requires q.items == p.items + (if event.Took? then [event.id] else [])
    requires q.clean == p.clean + (if |p.clean| < env.size then NoticeOf(event) else [])
    requires q.lfn == Raise(p.lfn, event)
    ensures Midway(DoneNext(at, event), q, env)
  {
    hide Retains, Accounts, Rely, After, Deal, DoneOf, KeptOf, Entries, PassValid, EventSound, NoticeOf, Raise;
    var seen := p.(bufs := env.world(|at.tried|, p.bufs));
    RetainsDone(at.group, at.cur, at.tried, env.stays, at.i, at.count);
    OneMoreTried(at.tried, at.cur[at.i], env.stays);
    AccountsWorld(p, env.world(|at.tried|, p.bufs), at.events, at.p0, env.size, env.recovered);
    AccountsStep(seen, q, at.events, event, at.p0, env.size, env.recovered);
    AccountsParts(p, at.events, at.p0, env.size, env.recovered);
    OneMoreEvent(at.events, event, env.recovered);
    AfterStep(env, at.tried, at.cur[at.i], at.p0);
  }

  lemma WorldRelies(env: Env, ids: set<CtrlId>, k: nat, bufs: map<CtrlId, BufCtrl>, e: EdpPage)
    requires EnvOk(env, ids)
    ensures Rely(bufs, env.world(k, bufs))
    ensures env.found(k, e).Some? ==> env.found(k, e).value in ids
  {
  }

  lemma AccountsParts(p: Pass, events: seq<Event>, p0: Pass, size: nat, recovered: bool)
    requires Accounts(p, events, p0, size, recovered)
    ensures EventsSound(events, recovered) && PassValid(p, p0.bufs.Keys)
    ensures Amounts(p.items, p.clean, p.lfn, events, p0.items, p0.lfn, size)
  {
  }

  /** What a pass over `group` comes to. On success `kept`, the group left behind, holds exactly the entries
      that stayed; every other entry was dealt with or, the flush group being full, dropped; and pass and
      events are those the entries tried lead to. A failed pass leaves the group a permutation of itself. */
  ghost predicate PassOutcome(group: seq<EdpPage>, p0: Pass, env: Env, codecFails: nat -> bool, ok: bool,
                              tried: seq<EdpPage>, s: State, dropped: seq<EdpPage>, kept: seq<EdpPage>) {
    if ok then
      && Accounts(s.pass, s.events, p0, env.size, env.recovered)
      && After(env, tried, p0) == s
      && Entries(s.events) == DoneOf(tried, env.stays)
      && kept == KeptOf(tried, env.stays)
      && multiset(group) == multiset(tried) + multiset(dropped)
      && (kept == [] ==> group == tried + dropped)
      && |s.pass.items| <= env.size
      && (dropped != [] ==> JustFilled(s, env.size))
      && (|p0.items| + |group| <= env.size ==> dropped == [])
    else
      && multiset(kept) == multiset(group)
      && FailedPass(s, env, p0)
      && tried != [] && codecFails(|tried| - 1)
  }

  lemma FailedOutcome(group: seq<EdpPage>, p0: Pass, env: Env, codecFails: nat -> bool, tried: seq<EdpPage>, s: State,
                      kept: seq<EdpPage>)
    requires multiset(kept) == multiset(group) && FailedPass(s, env, p0) && tried != [] && codecFails(|tried| - 1)
    ensures PassOutcome(group, p0, env, codecFails, false, tried, s, [], kept)
  {
  }

  lemma MidwayOutcome(at: Standing, p: Pass, env: Env, codecFails: nat -> bool)
    requires Midway(at, p, env) && at.i <= at.count <= |at.cur| == |at.group|
    requires |p.items| <= env.size && |at.p0.items| < env.size
    requires at.i < at.count ==> JustFilled(State(p, at.events), env.size)
    ensures PassOutcome(at.group, at.p0, env, codecFails, true, at.tried, State(p, at.events),
                        at.cur[at.i..at.count], at.cur[at.count..])
  {
    hide Accounts, After, Entries, DoneOf, KeptOf, Retains, JustFilled;
    RetainsOutcome(at.group, at.cur, at.tried, env.stays, at.i, at.count);
    FilledSize(State(p, at.events), env.size);
    if at.count == |at.cur| { assert at.cur == at.cur[..at.i] + at.cur[at.i..at.count]; }
  }

  lemma FilledSize(s: State, size: nat)
    ensures JustFilled(s, size) ==> |s.pass.items| == size
  {
  }

  class CkptContext {
    const groupSize: nat
    const remote: array<EdpPage>
    var remoteCount: nat
    var pass: Pass
    const local: array<EdpPage>
    var localCount: nat
    var cleanEdpCount: nat

    constructor (groupSize: nat, capacity: nat)
      ensures Valid() && remoteCount == 0 && localCount == 0 && cleanEdpCount == 0
      ensures this.groupSize == groupSize && pass == Pass([], [], 0, map[])
      ensures remote.Length == local.Length == capacity && fresh(remote) && fresh(local)
    {
      this.groupSize := groupSize;
      remote := new EdpPage[capacity](_ => EdpPage(PageId(0, 0), 0, 0));
      local := new EdpPage[capacity](_ => EdpPage(PageId(0, 0), 0, 0));
      remoteCount, localCount, cleanEdpCount := 0, 0, 0;
      pass := Pass([], [], 0, map[]);
    }

    ghost predicate Valid() reads this {
      remoteCount <= remote.Length && localCount <= local.Length && remote != local
    }

    /** dcs_ckpt_remote_edp_prepare. `codecFails(k)` is a failed encryption or checksum at attempt k. Returns
        the entries tried, what happened to those dealt with, and the entries dropped because the flush
        group filled up. */
    method RemoteEdpPrepare(env: Env, codecFails: nat -> bool)
      returns (ok: bool, tried: seq<EdpPage>, events: seq<Event>, dropped: seq<EdpPage>)
      requires Valid() && env.size == groupSize && |pass.items| < groupSize
      requires PassValid(pass, pass.bufs.Keys) && EnvOk(env, pass.bufs.Keys)
      modifies this`remoteCount, this`pass, remote
      ensures Valid()
      ensures PassOutcome(old(remote[..remoteCount]), old(pass).(clean := []), env, codecFails,
                          ok, tried, State(pass, events), dropped, remote[..remoteCount])
    {
      hide PassOutcome, Midway, FailedPass, JustFilled, EnvOk, PassValid, After, Accounts, Orphaned, Surplus;
      var n := remoteCount;
      PassValidClean(pass);
      var i, count, p;
      ok, p, tried, events, i, count := Scan(remote, n, pass.(clean := []), env, codecFails);
      pass := p;
      if !ok {
        dropped := [];
        FailedOutcome(old(remote[..n]), old(pass).(clean := []), env, codecFails, tried, State(p, events), remote[..n]);
        return;
      }
      dropped := remote[..n][i..count];
      MidwayOutcome(Standing(old(remote[..n]), remote[..n], tried, events, old(pass).(clean := []), i, count),
                    p, env, codecFails);
      ghost var kept := remote[..n][count..];
      Compact(remote, n, count);
      assert remote[..n - count] == kept;
      remoteCount := n - count;
    }

    /** dcs_ckpt_clean_local_edp. `stays(k, e)` says that at attempt k the entry could not be cleaned.
        One pass tries every entry exactly once, keeps exactly those that stay and counts the rest. */
    method CleanLocalEdp(stays: (nat, EdpPage) -> bool) returns (tried: seq<EdpPage>)
      requires Valid()
      modifies this`localCount, this`cleanEdpCount, local
      ensures Valid()
      ensures multiset(tried) == multiset(old(local[..localCount]))
      ensures local[..localCount] == KeptOf(tried, stays)
      ensures cleanEdpCount == old(cleanEdpCount) + |DoneOf(tried, stays)|
      ensures localCount + |DoneOf(tried, stays)| == old(localCount)
    {
      hide KeptOf, DoneOf;
      var n := localCount;
      var count;
      tried, count := CleanScan(local, n, stays);
      cleanEdpCount := cleanEdpCount + count;
      Compact(local, n, count);
      localCount := n - count;
    }
  }

  /** The loop of dcs_ckpt_clean_local_edp. */
  method CleanScan(pages: array<EdpPage>, n: nat, stays: (nat, EdpPage) -> bool)
    returns (tried: seq<EdpPage>, count: nat)
    requires n <= pages.Length
    modifies pages
    ensures count <= n && |DoneOf(tried, stays)| == count
    ensures multiset(tried) == multiset(old(pages[..n]))
    ensures pages[count..n] == KeptOf(tried, stays)
  {
    hide *;
    tried := [];
    var i := 0;
    count := n;
    ghost var group := pages[..n];
    RetainsStart(group, stays);
    while i < count
      invariant i <= count <= n
      invariant Retains(group, pages[..n], tried, stays, i, count)
    {
      var e, attempt := pages[i], |tried|;
      if stays(attempt, e) {
        RetainsKept(group, pages[..n], tried, stays, i, count);
        Swap(pages, n, i, count - 1);
        count := count - 1;
      } else {
        RetainsDone(group, pages[..n], tried, stays, i, count);
        i := i + 1;
      }
      tried := tried + [e];
    }
    RetainsAll(group, pages[..n], tried, stays, count);
    assert pages[..n][count..] == pages[count..n];
  }

  lemma RetainsAll(group: seq<EdpPage>, cur: seq<EdpPage>, tried: seq<EdpPage>,
                   stays: (nat, EdpPage) -> bool, count: nat)
    requires Retains(group, cur, tried, stays, count, count)
    ensures multiset(tried) == multiset(group)
    ensures count <= |cur| && |DoneOf(tried, stays)| == count && cur[count..] == KeptOf(tried, stays)
  {
    RetainsEnd(group, cur, tried, stays, count, count);
  }

  /** memmove of the kept entries to the front. */
  method Compact(pages: array<EdpPage>, n: nat, count: nat)
    requires count <= n <= pages.Length
    modifies pages
    ensures pages[..n - count] == old(pages[count..n])
  {
    forall k | 0 <= k < n - count {
      pages[k] := pages[count + k];
    }
  }

  lemma RetainsOutcome(group: seq<EdpPage>, cur: seq<EdpPage>, tried: seq<EdpPage>,
                       stays: (nat, EdpPage) -> bool, i: nat, count: nat)
    requires Retains(group, cur, tried, stays, i, count)
    ensures i <= count <= |cur|
    ensures multiset(group) == multiset(tried) + multiset(cur[i..count])
    ensures cur[count..] == KeptOf(tried, stays)
    ensures count == |cur| ==> cur == group && tried == group[..i]
  {
    hide KeptOf, DoneOf;
    RetainsEnd(group, cur, tried, stays, i, count);
  }

  /** What is left of the group when only `room` entries fit. */
  function Surplus(group: seq<EdpPage>, room: nat): seq<EdpPage> {
    if |group| <= room then [] else group[room..]
  }

  lemma {:induction false} NothingKept(tried: seq<EdpPage>, stays: (nat, EdpPage) -> bool)
    requires forall k, e :: !stays(k, e)
    ensures KeptOf(tried, stays) == []
  {
    if tried != [] { NothingKept(tried[..|tried| - 1], stays); }
  }

  /** When nothing stands in the way, a pass drops exactly the entries beyond the room of the flush group:
      they are neither flushed nor kept for the next pass. */
  lemma SurplusDropped(group: seq<EdpPage>, p0: Pass, env: Env, codecFails: nat -> bool, ok: bool,
                       tried: seq<EdpPage>, s: State, dropped: seq<EdpPage>, kept: seq<EdpPage>)
    requires Unhindered(env, group, p0.bufs) && (forall k :: !codecFails(k)) && |p0.items| <= env.size
    requires PassOutcome(group, p0, env, codecFails, ok, tried, s, dropped, kept)
    ensures ok && kept == [] && dropped == Surplus(group, env.size - |p0.items|)
    ensures dropped == [] <==> |p0.items| + |group| <= env.size
  {
    hide Accounts, After, Entries, DoneOf, KeptOf, FailedPass;
    NothingKept(tried, env.stays);
    var i := |tried|;
    assert group == tried + dropped && tried == group[..i] && dropped == group[i..];
    UnhinderedTakes(env, group, p0, i);
    hide Unhindered;
  }

  // ---- an input that loses an entry ----

  const ONE: EdpPage := EdpPage(PageId(1, 1), 0, 0)
  const TWO: EdpPage := EdpPage(PageId(1, 2), 0, 0)

  function TwoBuffers(): map<CtrlId, BufCtrl> { map[1 := BufferOf(ONE), 2 := BufferOf(TWO)] }

  /** A quiet cluster and a flush group with one place. */
  function OnePlace(): Env {
    Env(1, true, (k: nat, e: EdpPage) => false, (k: nat, e: EdpPage) => if e == ONE then Some(1) else Some(2),
        (k: nat, bufs: map<CtrlId, BufCtrl>) => bufs, (c: BufCtrl, e: EdpPage) => c)
  }

  lemma OnePlaceUnhindered()
    ensures EnvOk(OnePlace(), TwoBuffers().Keys) && Unhindered(OnePlace(), [ONE, TWO], TwoBuffers())
    ensures PassValid(Pass([], [], 0, TwoBuffers()), TwoBuffers().Keys)
  {
    assert HasBuffer(OnePlace(), ONE, TwoBuffers()) && HasBuffer(OnePlace(), TWO, TwoBuffers());
  }

  /** A flush group with one place and two entries that may both be taken: the second is lost. */
  method DropExample() returns (ctx: CkptContext, dropped: seq<EdpPage>)
    ensures fresh(ctx) && dropped == [TWO] && ctx.remoteCount == 0 && |ctx.pass.items| == 1
  {
    hide PassOutcome, Midway, FailedPass, JustFilled, EnvOk, PassValid, After, Accounts, Orphaned, Surplus;
    hide Unhindered, OnePlace, TwoBuffers;
    OnePlaceUnhindered();
    OnePlaceSize();
    ctx := new CkptContext(1, 2);
    ctx.remote[0], ctx.remote[1] := ONE, TWO;
    ctx.remoteCount := 2;
    ctx.pass := Pass([], [], 0, TwoBuffers());
    assert ctx.remote[..2] == [ONE, TWO];
    var ok, tried, events;
    ok, tried, events, dropped := ctx.RemoteEdpPrepare(OnePlace(), (k: nat) => false);
    ghost var p0 := Pass([], [], 0, TwoBuffers());
    SurplusDropped([ONE, TWO], p0, OnePlace(), (k: nat) => false, ok, tried, State(ctx.pass, events), dropped,
                   ctx.remote[..ctx.remoteCount]);
    TwoMinusOne();
    OutcomeSize([ONE, TWO], p0, OnePlace(), (k: nat) => false, tried, State(ctx.pass, events), dropped,
                ctx.remote[..ctx.remoteCount]);
  }

  lemma TwoMinusOne()
    ensures Surplus([ONE, TWO], 1) == [TWO]
  {
  }

  lemma OutcomeSize(group: seq<EdpPage>, p0: Pass, env: Env, codecFails: nat -> bool, tried: seq<EdpPage>, s: State,
                    dropped: seq<EdpPage>, kept: seq<EdpPage>)
    requires PassOutcome(group, p0, env, codecFails, true, tried, s, dropped, kept)
    ensures dropped != [] ==> |s.pass.items| == env.size
  {
  }

  lemma OnePlaceSize()
    ensures OnePlace().size == 1
  {
  }

  /** An unmarked, clean buffer of the entry's page, owned by this node. */
  function BufferOf(e: EdpPage): BufCtrl {
    BufCtrl(e.page, false, false, false, true, e.lsn, 0, false, false, false)
  }

  lemma PassValidClean(p: Pass)
    requires PassValid(p, p.bufs.Keys)
    ensures PassValid(p.(clean := []), p.bufs.Keys)
  {
  }

  lemma NoEvents(items0: seq<CtrlId>, lfn0: nat, size: nat, recovered: bool)
    ensures Amounts(items0, [], lfn0, [], items0, lfn0, size)
    ensures Entries([]) == [] && EventsSound([], recovered)
  {
    assert items0 + [] == items0;
  }

  lemma MarksKept(items: seq<CtrlId>, a: map<CtrlId, BufCtrl>, b: map<CtrlId, BufCtrl>)
    requires Rely(a, b)
    ensures a.Keys <= b.Keys
    ensures AllMarked(items, a) ==> AllMarked(items, b)
  {
  }

  /** A buffer that was not marked is not in the flush group; once marked it may join it. */
  lemma FreshlyMarked(items: seq<CtrlId>, id: CtrlId, a: map<CtrlId, BufCtrl>, b: map<CtrlId, BufCtrl>)
    requires AllMarked(items, a) && Rely(a, b) && id in a && !a[id].marked && id in b && b[id].marked
    ensures id !in items
    ensures AllMarked(items + [id], b)
    ensures NoRepeats(items) ==> NoRepeats(items + [id])
  {
  }

  lemma OneMoreEvent(events: seq<Event>, e: Event, recovered: bool)
    requires EventsSound(events, recovered) && EventSound(e, recovered)
    ensures EventsSound(events + [e], recovered)
    ensures Entries(events + [e]) == Entries(events) + [e.entry]
  {
    hide EventSound;
    assert (events + [e])[..|events|] == events;
  }

  lemma AmountsStep(items: seq<CtrlId>, clean: seq<CleanEntry>, lfn: nat, events: seq<Event>, e: Event,
                    items0: seq<CtrlId>, lfn0: nat, size: nat)
    requires Amounts(items, clean, lfn, events, items0, lfn0, size)
    ensures Amounts(items + (if e.Took? then [e.id] else []),
                    clean + (if |clean| < size then NoticeOf(e) else []),
                    Raise(lfn, e), events + [e], items0, lfn0, size)
  {
    assert (events + [e])[..|events|] == events;
    var all := Notices(events);
    if |all| < size {
      assert all[..|all|] == all;
      assert (all + NoticeOf(e))[..|all + NoticeOf(e)|] == all + NoticeOf(e);
    }
  }

  // ---- what the accounts imply ----

  /** The consistent LFN ends at the largest LFN among the old value and the buffers taken. */
  lemma {:induction false} LfnIsLargest(start: nat, events: seq<Event>, k: nat)
    requires k < |events|
    ensures start <= MaxLfn(start, events)
    ensures events[k].Took? ==> events[k].ctrl.latestLfn <= MaxLfn(start, events)
    ensures MaxLfn(start, events) == start
            || exists j :: 0 <= j < |events| && events[j].Took? && events[j].ctrl.latestLfn == MaxLfn(start, events)
    decreases |events|
  {
    var front, last := events[..|events| - 1], events[|events| - 1];
    if front != [] {
      LfnIsLargest(start, front, if k < |front| then k else 0);
      if MaxLfn(start, front) != start {
        var j :| 0 <= j < |front| && front[j].Took? && front[j].ctrl.latestLfn == MaxLfn(start, front);
        assert events[j] == front[j];
      }
    }
    assert events[|events| - 1] == last;
  }

  lemma {:induction false} NoticesPrefix(events: seq<Event>, k: nat)
    requires k < |events|
    ensures Notices(events[..k]) + NoticeOf(events[k]) <= Notices(events)
    decreases |events|
  {
    var front := events[..|events| - 1];
    if k < |front| {
      NoticesPrefix(front, k);
      assert front[..k] == events[..k];
    }
  }

  /** While there is room, a taken buffer's clean notice carries the copied page's LSN; after reform
      recovery that LSN is not below the requested one. */
  lemma TakenNotice(p: Pass, events: seq<Event>, p0: Pass, size: nat, recovered: bool, k: nat)
    requires Accounts(p, events, p0, size, recovered)
    requires k < |events| && events[k].Took? && |Notices(events[..k])| < size
    ensures var at := |Notices(events[..k])|;
            && at < |p.clean| && p.clean[at] == CleanEntry(events[k].entry.page, events[k].ctrl.pageLsn)
            && (recovered ==> events[k].entry.lsn <= p.clean[at].lsn)
  {
    NoticesPrefix(events, k);
    assert EventSound(events[k], recovered);
    hide Notices, PassValid;
  }

  // ---- what a pass does to the buffers ----

  /** The buffer as the pass judges it: an EDP copy is cleaned first, once recovery is over and the request
      names an action. */
  function Judged(env: Env, c: BufCtrl, e: EdpPage): BufCtrl {
    if c.edp && env.recovered && e.action != INVALID_ACTION then env.cleaned(c, e) else c
  }

  /** An unmarked, writable buffer of the page, locked and no EDP, not older than asked for after recovery. */
  predicate MayTake(env: Env, c: BufCtrl, e: EdpPage) {
    && !c.marked && !c.readonly && !c.edp && IsOwner(c)
    && c.pageId == e.page && (env.recovered ==> c.pageLsn >= e.lsn)
  }

  /** The buffer after it was taken: marked, clean and out of the checkpoint queue, otherwise as it was. */
  predicate TakenFrom(b: BufCtrl, c: BufCtrl) {
    && b.marked && !b.dirty && !b.remoteDirty && !b.inQueue
    && b == c.(marked := b.marked, dirty := b.dirty, remoteDirty := b.remoteDirty, inQueue := b.inQueue)
  }

  /** One visit of a buffer: whether it is taken, and what becomes of it. */
  ghost predicate Visited(env: Env, c: BufCtrl, e: EdpPage, b: BufCtrl, taken: bool) {
    var seen := Judged(env, c, e);
    && (taken <==> MayTake(env, seen, e))
    && (if taken then TakenFrom(b, seen) else b == seen)
  }

  ghost predicate SameElsewhere(a: map<CtrlId, BufCtrl>, b: map<CtrlId, BufCtrl>, id: CtrlId) {
    a.Keys == b.Keys && forall k :: k in a && k != id ==> b[k] == a[k]
  }

  /** The clean group takes the notice if it has room. */
  predicate Noticed(clean: seq<CleanEntry>, now: seq<CleanEntry>, size: nat, page: PageId, lsn: nat) {
    if |clean| < size then |now| == |clean| + 1 && clean <= now && now[|clean|] == CleanEntry(page, lsn)
    else now == clean
  }

  /** One entry dealt with: a page not in memory changes no buffer and is noticed with the LSN asked for; otherwise
      only the latched buffer changes and a taken one is noticed with its own LSN. */
  lemma DealMeans(p: Pass, env: Env, e: EdpPage, found: Option<CtrlId>)
    requires found.Some? ==> found.value in p.bufs
    ensures var r := Deal(p, env, e, found);
            if found.None? then
              && r.1 == Missing(e) && r.0.bufs == p.bufs && r.0.items == p.items && r.0.lfn == p.lfn
              && Noticed(p.clean, r.0.clean, env.size, e.page, e.lsn)
            else
              var id, c := found.value, p.bufs[found.value];
              && SameElsewhere(p.bufs, r.0.bufs, id)
              && r.1 == (if r.1.Took? then Took(e, id, Judged(env, c, e)) else Passed(e))
              && Visited(env, c, e, r.0.bufs[id], r.1.Took?)
              && if r.1.Took? then
                   && r.0.items == p.items + [id]
                   && r.0.lfn >= p.lfn && r.0.lfn >= r.0.bufs[id].latestLfn
                   && (r.0.lfn == p.lfn || r.0.lfn == r.0.bufs[id].latestLfn)
                   && Noticed(p.clean, r.0.clean, env.size, e.page, Judged(env, c, e).pageLsn)
                 else r.0.(bufs := p.bufs) == p
  {
  }

  ghost predicate QuietWorld(env: Env) { forall k, b :: env.world(k, b) == b }

  ghost predicate FindsKnown(env: Env, ids: set<CtrlId>) {
    forall k, e :: env.found(k, e).Some? ==> env.found(k, e).value in ids
  }

  /** The entries dealt with for which the pass latched buffer id, in order. */
  function Visits(env: Env, tried: seq<EdpPage>, id: CtrlId): seq<EdpPage> {
    if tried == [] then []
    else
      var front, e := tried[..|tried| - 1], tried[|tried| - 1];
      Visits(env, front, id) +
      (if !env.stays(|front|, e) && env.found(|front|, e) == Some(id) then [e] else [])
  }

  lemma TakenMore(events: seq<Event>, e: Event)
    ensures TakenIds(events + [e]) == TakenIds(events) + (if e.Took? then [e.id] else [])
  {
    assert (events + [e])[..|events|] == events;
  }

  /** Buffer id before and after one more entry, in a quiet world. */
  lemma OneMoreVisit(env: Env, s: State, k: nat, e: EdpPage, id: CtrlId)
    requires FindsKnown(env, s.pass.bufs.Keys) && id in s.pass.bufs
    ensures var r := Deal(s.pass, env, e, env.found(k, e));
            var was, now := id in TakenIds(s.events), id in TakenIds(s.events + [r.1]);
            && r.0.bufs.Keys == s.pass.bufs.Keys
            && if env.found(k, e) == Some(id)
               then Visited(env, s.pass.bufs[id], e, r.0.bufs[id], r.1.Took?) && (now <==> was || r.1.Took?)
               else r.0.bufs[id] == s.pass.bufs[id] && (now <==> was)
  {
    DealMeans(s.pass, env, e, env.found(k, e));
    TakenMore(s.events, Deal(s.pass, env, e, env.found(k, e)).1);
    hide Deal, Visited, TakenIds;
  }

  lemma QuietStep(env: Env, tried: seq<EdpPage>, p0: Pass)
    requires tried != [] && QuietWorld(env)
    ensures var front, e := tried[..|tried| - 1], tried[|tried| - 1];
            var s := After(env, front, p0);
            After(env, tried, p0) ==
            if env.stays(|front|, e) then s
            else
              var d := Deal(s.pass, env, e, env.found(|front|, e));
              State(d.0, s.events + [d.1])
  {
    var front := tried[..|tried| - 1];
    var s := After(env, front, p0);
    assert env.world(|front|, s.pass.bufs) == s.pass.bufs;
    hide Deal;
  }

  /** What buffer id, c at first, has come to after the visits. Without cleaning, any number of visits takes it
      if one of them may; with it, one visit decides. */
  ghost predicate CameTo(env: Env, visits: seq<EdpPage>, c: BufCtrl, b: BufCtrl, taken: bool) {
    && (visits == [] ==> b == c && !taken)
    && (|visits| == 1 ==> Visited(env, c, visits[0], b, taken))
    && (!(c.edp && env.recovered) ==>
          && (taken <==> exists e :: e in visits && MayTake(env, c, e))
          && (if taken then TakenFrom(b, c) else b == c))
  }

  lemma CameOn(env: Env, visits: seq<EdpPage>, e: EdpPage, c: BufCtrl, b: BufCtrl, taken: bool, b': BufCtrl, took: bool)
    requires CameTo(env, visits, c, b, taken) && Visited(env, b, e, b', took)
    ensures CameTo(env, visits + [e], c, b', taken || took)
  {
    var all := visits + [e];
    assert forall x :: x in all <==> x in visits || x == e;
    if !(c.edp && env.recovered) {
      assert b.edp == c.edp && Judged(env, b, e) == b;
    }
  }

  /** After the entries tried, in a quiet world, every buffer is what its visits make of it. */
  lemma {:induction false} BuffersAfter(env: Env, tried: seq<EdpPage>, p0: Pass, id: CtrlId)
    requires QuietWorld(env) && FindsKnown(env, p0.bufs.Keys) && id in p0.bufs
    ensures var s := After(env, tried, p0);
            && s.pass.bufs.Keys == p0.bufs.Keys
            && CameTo(env, Visits(env, tried, id), p0.bufs[id], s.pass.bufs[id], id in TakenIds(s.events))
  {
    if tried == [] {
      assert Visits(env, tried, id) == [];
    } else {
      hide QuietWorld, FindsKnown, Deal, Visited, TakenIds, CameTo, Judged, MayTake, TakenFrom;
      var front, e := tried[..|tried| - 1], tried[|tried| - 1];
      BuffersAfter(env, front, p0, id);
      QuietStep(env, tried, p0);
      var s, k := After(env, front, p0), |front|;
      var seen := Visits(env, front, id);
      hide After;
      if !env.stays(k, e) {
        OneMoreVisit(env, s, k, e, id);
        if env.found(k, e) == Some(id) {
          var r := Deal(s.pass, env, e, env.found(k, e));
          CameOn(env, seen, e, p0.bufs[id], s.pass.bufs[id], id in TakenIds(s.events), r.0.bufs[id], r.1.Took?);
        } else {
          assert seen + [] == seen;
        }
      } else {
        assert seen + [] == seen;
      }
    }
  }

  /** A successful pass over the group in a quiet world: every buffer is what the visits to it make of it. */
  lemma PassBuffers(group: seq<EdpPage>, p0: Pass, env: Env, codecFails: nat -> bool, tried: seq<EdpPage>, s: State,
                    dropped: seq<EdpPage>, kept: seq<EdpPage>, id: CtrlId)
    requires PassOutcome(group, p0, env, codecFails, true, tried, s, dropped, kept)
    requires QuietWorld(env) && EnvOk(env, p0.bufs.Keys) && id in p0.bufs
    ensures s.pass.bufs.Keys == p0.bufs.Keys
    ensures CameTo(env, Visits(env, tried, id), p0.bufs[id], s.pass.bufs[id], id in s.pass.items[|p0.items|..])
  {
    BuffersAfter(env, tried, p0, id);
    assert s.pass.items[|p0.items|..] == TakenIds(s.events);
  }
}
