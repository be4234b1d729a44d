/** The bounded merge of a sorted request into an owner's EDP group (ckpt_merge_to_array). */
module EdpMerge {
  import opened Basics
  import opened EdpPages

  /** Result of a merge: the group's entries, how many request entries were consumed, and whether
      an invalid id stopped it (the group's count is then not written back). */
  datatype Woven = Woven(group: seq<EdpPage>, consumed: nat, rejected: bool)

  /** The merge on values: `rest` is the part of the group the cursor has not passed, `room` the
      number of free places. A cursor that runs off the group copies what fits, unless only one
      place is left. */
  function Weave(src: seq<EdpPage>, rest: seq<EdpPage>, room: nat): Woven
    decreases |src| + |rest|
  {
    if src == [] || room == 0 then Woven(rest, 0, false)
    else if rest == [] then
      var left := if room <= 1 then 0 else Min(room, |src|);
      Woven(src[..left], left, false)
    else if !ValidId(src[0].page) then Woven(rest, 0, true)
    else
      var c := Compare(src[0].page, rest[0].page);
      if c == 0 then Glue([rest[0]], 1, Weave(src[1..], rest[1..], room))
      else if c < 0 then Glue([src[0]], 1, Weave(src[1..], rest, room - 1))
      else Glue([rest[0]], 0, Weave(src, rest[1..], room))
  }

  function Glue(done: seq<EdpPage>, used: nat, w: Woven): Woven {
    Woven(done + w.group, used + w.consumed, w.rejected)
  }

  // ---- the array form ----

  /** memmove of dst[j..count] one place up, then the new entry at j. */
  method InsertAt(dst: array<EdpPage>, j: nat, count: nat, x: EdpPage)
    requires j <= count < dst.Length
    modifies dst
    ensures dst[..j] == old(dst[..j])
    ensures dst[j] == x
    ensures dst[j + 1..count + 1] == old(dst[j..count])
  {
    forall k | j <= k < count {
      dst[k + 1] := dst[k];
    }
    dst[j] := x;
  }

  lemma GlueStep(done: seq<EdpPage>, used: nat, e: EdpPage, more: nat, w: Woven)
    ensures Glue(done, used, Glue([e], more, w)) == Glue(done + [e], used + more, w)
  {
    assert done + ([e] + w.group) == done + [e] + w.group;
  }

  /** The merge stands with `done` merged, `s` unconsumed, `rest` ahead of the cursor. */
  ghost predicate Stands(done: seq<EdpPage>, used: nat, s: seq<EdpPage>, rest: seq<EdpPage>, room: nat, whole: Woven) {
    Glue(done, used, Weave(s, rest, room)) == whole
  }

  lemma StandsSame(done: seq<EdpPage>, used: nat, s: seq<EdpPage>, rest: seq<EdpPage>, room: nat, whole: Woven)
    requires s != [] && rest != [] && room > 0 && ValidId(s[0].page) && s[0].page == rest[0].page
    requires Stands(done, used, s, rest, room, whole)
    ensures Stands(done + [rest[0]], used + 1, s[1..], rest[1..], room, whole)
  {
    GlueStep(done, used, rest[0], 1, Weave(s[1..], rest[1..], room));
  }

  lemma StandsInsert(done: seq<EdpPage>, used: nat, s: seq<EdpPage>, rest: seq<EdpPage>, room: nat, whole: Woven)
    requires s != [] && rest != [] && room > 0 && ValidId(s[0].page) && Before(s[0].page, rest[0].page)
    requires Stands(done, used, s, rest, room, whole)
    ensures Stands(done + [s[0]], used + 1, s[1..], rest, room - 1, whole)
  {
    GlueStep(done, used, s[0], 1, Weave(s[1..], rest, room - 1));
  }

  lemma StandsAdvance(done: seq<EdpPage>, used: nat, s: seq<EdpPage>, rest: seq<EdpPage>, room: nat, whole: Woven)
    requires s != [] && rest != [] && room > 0 && ValidId(s[0].page) && Before(rest[0].page, s[0].page)
    requires Stands(done, used, s, rest, room, whole)
    ensures Stands(done + [rest[0]], used, s, rest[1..], room, whole)
  {
    GlueStep(done, used, rest[0], 0, Weave(s, rest[1..], room));
  }

  lemma StandsBad(done: seq<EdpPage>, used: nat, s: seq<EdpPage>, rest: seq<EdpPage>, room: nat, whole: Woven)
    requires s != [] && rest != [] && room > 0 && !ValidId(s[0].page)
    requires Stands(done, used, s, rest, room, whole)
    ensures whole.rejected && whole.group == done + rest
  {
  }

  /** The loop of ckpt_merge_to_array and what follows it, on a sorted group. */
  method MergeSorted(src: array<EdpPage>, start: nat, end: nat, dst: array<EdpPage>, count: nat, cap: nat)
    returns (next: nat, newCount: nat)
    requires src != dst
    requires start <= end <= src.Length
    requires count <= cap <= dst.Length
    modifies dst
    ensures start <= next <= end && newCount <= dst.Length
    ensures var w := Weave(src[start..end], old(dst[..count]), cap - count);
            if w.rejected then
              |w.group| <= dst.Length && dst[..|w.group|] == w.group && newCount == count && next == end
            else
              dst[..newCount] == w.group && next == start + w.consumed
  {
    hide *;
    var i, j, tmp := start, 0, count;
    ghost var whole := Weave(src[start..end], dst[..count], cap - count);
    assert Stands(dst[..0], 0, src[start..end], dst[0..count], cap - count, whole) by {
      assert dst[0..count] == dst[..count];
      StandsStart(src[start..end], dst[..count], cap - count);
    }
    while i < end && j < tmp && tmp < cap
      invariant start <= i <= end
      invariant j <= tmp <= cap
      invariant Stands(dst[..j], i - start, src[i..end], dst[j..tmp], cap - tmp, whole)
      decreases end - i + tmp - j, tmp - j
    {
      ghost var done, s, rest := dst[..j], src[i..end], dst[j..tmp];
      assert s[0] == src[i] && rest[0] == dst[j] && s[1..] == src[i + 1..end];
      if !ValidId(src[i].page) {
        StandsBad(done, i - start, s, rest, cap - tmp, whole);
        assert dst[..tmp] == done + rest;
        return end, count;
      }
      var result := Compare(src[i].page, dst[j].page);
      if result == 0 {
        StandsSame(done, i - start, s, rest, cap - tmp, whole);
        i, j := i + 1, j + 1;
        assert dst[..j] == done + [rest[0]] && dst[j..tmp] == rest[1..];
      } else if result < 0 {
        StandsInsert(done, i - start, s, rest, cap - tmp, whole);
        InsertAt(dst, j, tmp, src[i]);
        i, j, tmp := i + 1, j + 1, tmp + 1;
        assert dst[..j] == done + [s[0]] && dst[j..tmp] == rest;
      } else {
        StandsAdvance(done, i - start, s, rest, cap - tmp, whole);
        j := j + 1;
        assert dst[..j] == done + [rest[0]] && dst[j..tmp] == rest[1..];
      }
    }
    StandsEnd(dst[..j], i - start, src[i..end], dst[j..tmp], cap - tmp, whole);
    next, newCount := CopyTail(src, i, end, dst, j, tmp, cap);
  }

  lemma StandsStart(s: seq<EdpPage>, rest: seq<EdpPage>, room: nat)
    ensures Stands([], 0, s, rest, room, Weave(s, rest, room))
  {
  }

  lemma StandsEnd(done: seq<EdpPage>, used: nat, s: seq<EdpPage>, rest: seq<EdpPage>, room: nat, whole: Woven)
    requires Stands(done, used, s, rest, room, whole)
    ensures var w := Weave(s, rest, room);
            whole.group == done + w.group && whole.consumed == used + w.consumed && whole.rejected == w.rejected
  {
  }

  /** ckpt_merge_to_array. Sorts the group, merges src[start..start + srcCount] into it in place
      and returns the index to resume from and the group's count. `sorted` is the group as qsort
      left it. */
  method MergeToArray(src: array<EdpPage>, start: nat, srcCount: nat,
                      dst: array<EdpPage>, count: nat, cap: nat)
    returns (next: nat, newCount: nat, ghost sorted: seq<EdpPage>)
    requires src != dst
    requires start + srcCount <= src.Length
    requires count <= cap <= dst.Length
    requires 1 <= cap
    modifies dst
    ensures Ordered(sorted) && multiset(sorted) == multiset(old(dst[..count])) && |sorted| == count
    ensures start <= next <= start + srcCount && newCount <= dst.Length
    ensures var w := Weave(src[start..start + srcCount], sorted, cap - count);
            if w.rejected then
              |w.group| <= dst.Length && dst[..|w.group|] == w.group
              && newCount == count && next == start + srcCount
            else
              dst[..newCount] == w.group && next == start + w.consumed
  {
    hide *;
    SortPrefix(dst, count);
    sorted := dst[..count];
    next, newCount := MergeSorted(src, start, start + srcCount, dst, count, cap);
  }

  /** The end of ckpt_merge_to_array, after its loop. */
  method CopyTail(src: array<EdpPage>, i: nat, end: nat, dst: array<EdpPage>, j: nat, tmp: nat, cap: nat)
    returns (next: nat, newCount: nat)
    requires src != dst && i <= end <= src.Length
    requires j <= tmp <= cap <= dst.Length
    requires i == end || j == tmp || tmp == cap
    modifies dst
    ensures i <= next <= end && newCount <= dst.Length
    ensures var w := Weave(src[i..end], old(dst[j..tmp]), cap - tmp);
            !w.rejected && next == i + w.consumed && dst[..newCount] == old(dst[..j]) + w.group
  {
    ghost var w := Weave(src[i..end], dst[j..tmp], cap - tmp);
    if i >= end || j >= cap - 1 || tmp >= cap {
      assert dst[..tmp] == dst[..j] + dst[j..tmp];
      return i, tmp;
    }
    var left := Min(cap - j, end - i);
    left := Min(left, cap - tmp);
    forall k | 0 <= k < left {
      dst[j + k] := src[i + k];
    }
    assert forall k :: j <= k < j + left ==> dst[k] == src[i + (k - j)];
    assert dst[..tmp + left] == old(dst[..j]) + src[i..end][..left];
    return i + left, tmp + left;
  }

  // ---- what the merge means ----

  lemma ConsMultiset(x: EdpPage, s: seq<EdpPage>)
    ensures multiset([x] + s) == multiset{x} + multiset(s)
  {
  }

  lemma ConsPages(x: EdpPage, s: seq<EdpPage>)
    ensures Pages([x] + s) == {x.page} + Pages(s)
  {
    assert ([x] + s)[1..] == s;
  }

  lemma TakeCons(s: seq<EdpPage>, n: nat)
    requires s != [] && n < |s|
    ensures s[..n + 1] == [s[0]] + s[1..][..n]
  {
  }

  lemma {:induction false} PrefixOrdered(s: seq<EdpPage>, n: nat)
    requires n <= |s|
    ensures Pages(s[..n]) <= Pages(s)
    ensures Ordered(s) ==> Ordered(s[..n])
    ensures StrictlyOrdered(s) ==> StrictlyOrdered(s[..n])
  {
    if n > 0 {
      PrefixOrdered(s[1..], n - 1);
      assert s[..n][1..] == s[1..][..n - 1];
    }
  }

  // Weave, one case at a time.

  lemma WeaveStops(src: seq<EdpPage>, group: seq<EdpPage>, room: nat)
    requires src == [] || room == 0
    ensures Weave(src, group, room) == Woven(group, 0, false)
  {
  }

  lemma WeaveTail(src: seq<EdpPage>, room: nat)
    requires src != [] && room > 0
    ensures var left := if room <= 1 then 0 else Min(room, |src|);
            Weave(src, [], room) == Woven(src[..left], left, false)
  {
  }

  lemma WeaveSame(src: seq<EdpPage>, group: seq<EdpPage>, room: nat)
    requires src != [] && group != [] && room > 0 && ValidId(src[0].page) && src[0].page == group[0].page
    ensures Weave(src, group, room) == Glue([group[0]], 1, Weave(src[1..], group[1..], room))
  {
  }

  lemma WeaveLess(src: seq<EdpPage>, group: seq<EdpPage>, room: nat)
    requires src != [] && group != [] && room > 0 && ValidId(src[0].page) && Before(src[0].page, group[0].page)
    ensures Weave(src, group, room) == Glue([src[0]], 1, Weave(src[1..], group, room - 1))
  {
  }

  lemma WeaveMore(src: seq<EdpPage>, group: seq<EdpPage>, room: nat)
    requires src != [] && group != [] && room > 0 && ValidId(src[0].page) && Before(group[0].page, src[0].page)
    ensures Weave(src, group, room) == Glue([group[0]], 0, Weave(src, group[1..], room))
  {
  }

  lemma WeaveBad(src: seq<EdpPage>, group: seq<EdpPage>, room: nat)
    requires src != [] && group != [] && room > 0 && !ValidId(src[0].page)
    ensures Weave(src, group, room) == Woven(group, 0, true)
  {
  }

  lemma SomeInvalid(src: seq<EdpPage>)
    requires src != []
    ensures !ValidId(src[0].page) || !AllValid(src[1..]) ==> !AllValid(src)
  {
  }

  /** Counting: what a call consumes, adds and leaves free. */
  lemma {:induction false} MergeCounts(src: seq<EdpPage>, group: seq<EdpPage>, room: nat)
    ensures var w := Weave(src, group, room);
            && w.consumed <= |src|
            && |group| <= |w.group| <= |group| + room
            && |w.group| <= |group| + w.consumed
            && (w.rejected || w.consumed == |src| || |w.group| + 1 >= |group| + room)
            && (!w.rejected && src != [] && 2 <= room ==> 1 <= w.consumed)
            && (w.rejected ==> !AllValid(src))
    decreases |src| + |group|
  {
    hide Weave, Pages, AllValid;
    if src == [] || room == 0 {
      WeaveStops(src, group, room);
    } else if group == [] {
      WeaveTail(src, room);
    } else if !ValidId(src[0].page) {
      WeaveBad(src, group, room);
      SomeInvalid(src);
    } else {
      SomeInvalid(src);
      if src[0].page == group[0].page {
        WeaveSame(src, group, room);
        MergeCounts(src[1..], group[1..], room);
      } else if Before(src[0].page, group[0].page) {
        WeaveLess(src, group, room);
        MergeCounts(src[1..], group, room - 1);
      } else {
        WeaveMore(src, group, room);
        MergeCounts(src, group[1..], room);
      }
    }
  }

  lemma KeepsCons(e: EdpPage, tail: seq<EdpPage>, out: seq<EdpPage>)
    requires multiset(tail) <= multiset(out)
    ensures multiset([e] + tail) <= multiset([e] + out)
    ensures multiset(tail) <= multiset([e] + out)
  {
    hide *;
    assert multiset([e] + tail) == multiset{e} + multiset(tail);
    assert multiset([e] + out) == multiset{e} + multiset(out);
  }

  /** No group entry is dropped or altered. */
  lemma {:induction false} MergeKeeps(src: seq<EdpPage>, group: seq<EdpPage>, room: nat)
    ensures multiset(group) <= multiset(Weave(src, group, room).group)
    decreases |src| + |group|
  {
    hide Weave, Pages, AllValid;
    if src == [] || room == 0 {
      WeaveStops(src, group, room);
    } else if group == [] {
    } else if !ValidId(src[0].page) {
      WeaveBad(src, group, room);
    } else {
      assert group == [group[0]] + group[1..];
      if src[0].page == group[0].page {
        WeaveSame(src, group, room);
        MergeKeeps(src[1..], group[1..], room);
        KeepsCons(group[0], group[1..], Weave(src[1..], group[1..], room).group);
      } else if Before(src[0].page, group[0].page) {
        WeaveLess(src, group, room);
        MergeKeeps(src[1..], group, room - 1);
        KeepsCons(src[0], group, Weave(src[1..], group, room - 1).group);
      } else {
        WeaveMore(src, group, room);
        MergeKeeps(src, group[1..], room);
        KeepsCons(group[0], group[1..], Weave(src, group[1..], room).group);
      }
    }
  }

  lemma PagesTake(src: seq<EdpPage>, n: nat)
    requires src != [] && n < |src|
    ensures Pages(src[..n + 1]) == {src[0].page} + Pages(src[1..][..n])
  {
    TakeCons(src, n);
    ConsPages(src[0], src[1..][..n]);
  }

  lemma PagesCons(s: seq<EdpPage>)
    requires s != []
    ensures Pages(s) == {s[0].page} + Pages(s[1..])
  {
  }

  /** `w` gains exactly the pages it consumed. */
  ghost predicate Gains(src: seq<EdpPage>, group: seq<EdpPage>, w: Woven) {
    w.consumed <= |src| && Pages(w.group) == Pages(group) + Pages(src[..w.consumed])
  }

  lemma GainsSame(src: seq<EdpPage>, group: seq<EdpPage>, v: Woven)
    requires src != [] && group != [] && src[0].page == group[0].page
    requires Gains(src[1..], group[1..], v)
    ensures Gains(src, group, Glue([group[0]], 1, v))
  {
    hide Pages;
    PagesCons(group);
    ConsPages(group[0], v.group);
    PagesTake(src, v.consumed);
  }

  lemma GainsLess(src: seq<EdpPage>, group: seq<EdpPage>, v: Woven)
    requires src != [] && Gains(src[1..], group, v)
    ensures Gains(src, group, Glue([src[0]], 1, v))
  {
    hide Pages;
    ConsPages(src[0], v.group);
    PagesTake(src, v.consumed);
  }

  lemma GainsMore(src: seq<EdpPage>, group: seq<EdpPage>, v: Woven)
    requires group != [] && Gains(src, group[1..], v)
    ensures Gains(src, group, Glue([group[0]], 0, v))
  {
    hide Pages;
    PagesCons(group);
    ConsPages(group[0], v.group);
  }

  lemma GainsNothing(src: seq<EdpPage>, group: seq<EdpPage>)
    ensures Gains(src, group, Woven(group, 0, false))
  {
  }

  lemma GainsBad(src: seq<EdpPage>, group: seq<EdpPage>)
    ensures Gains(src, group, Woven(group, 0, true))
  {
  }

  lemma GainsAll(src: seq<EdpPage>, n: nat)
    requires n <= |src|
    ensures Gains(src, [], Woven(src[..n], n, false))
  {
  }

  /** The page set grows by exactly the pages consumed. */
  lemma {:induction false} MergePages(src: seq<EdpPage>, group: seq<EdpPage>, room: nat)
    ensures Gains(src, group, Weave(src, group, room))
    decreases |src| + |group|
  {
    hide *;
    if src == [] || room == 0 {
      WeaveStops(src, group, room);
      GainsNothing(src, group);
    } else if group == [] {
      MergeCounts(src, group, room);
      WeaveTail(src, room);
      GainsAll(src, Weave(src, [], room).consumed);
    } else if !ValidId(src[0].page) {
      WeaveBad(src, group, room);
      GainsBad(src, group);
    } else {
      Total(src[0].page, group[0].page);
      if src[0].page == group[0].page {
        WeaveSame(src, group, room);
        MergePages(src[1..], group[1..], room);
        GainsSame(src, group, Weave(src[1..], group[1..], room));
      } else if Before(src[0].page, group[0].page) {
        WeaveLess(src, group, room);
        MergePages(src[1..], group, room - 1);
        GainsLess(src, group, Weave(src[1..], group, room - 1));
      } else {
        WeaveMore(src, group, room);
        MergePages(src, group[1..], room);
        GainsMore(src, group, Weave(src, group[1..], room));
      }
    }
  }

  /** Prefixing an entry that no page of either input precedes. */
  lemma OrderedCons(e: EdpPage, src: seq<EdpPage>, group: seq<EdpPage>, room: nat)
    requires forall p :: p in Pages(src) || p in Pages(group) ==> !Before(p, e.page)
    ensures Ordered(Weave(src, group, room).group) ==> Ordered([e] + Weave(src, group, room).group)
  {
    MergePages(src, group, room);
    hide Weave, Pages;
    var w := Weave(src, group, room);
    PrefixOrdered(src, w.consumed);
    assert ([e] + w.group)[1..] == w.group;
  }

  lemma OrderedParts(s: seq<EdpPage>)
    requires Ordered(s) && s != []
    ensures Ordered(s[1..])
    ensures forall p :: p in Pages(s) ==> !Before(p, s[0].page)
  {
  }

  lemma {:induction false} MergeOrdered(src: seq<EdpPage>, group: seq<EdpPage>, room: nat)
    requires Ordered(src) && Ordered(group)
    ensures Ordered(Weave(src, group, room).group)
    decreases |src| + |group|
  {
    hide Weave, Ordered, AllValid, Pages;
    if src == [] || room == 0 {
      WeaveStops(src, group, room);
    } else if group == [] {
      WeaveTail(src, room);
      PrefixOrdered(src, Weave(src, group, room).consumed);
    } else if !ValidId(src[0].page) {
      WeaveBad(src, group, room);
    } else {
      OrderedParts(src);
      OrderedParts(group);
      PagesCons(src);
      PagesCons(group);
      if src[0].page == group[0].page {
        WeaveSame(src, group, room);
        MergeOrdered(src[1..], group[1..], room);
        OrderedCons(group[0], src[1..], group[1..], room);
      } else if Before(src[0].page, group[0].page) {
        WeaveLess(src, group, room);
        MergeOrdered(src[1..], group, room - 1);
        OrderedCons(src[0], src[1..], group, room - 1);
      } else {
        WeaveMore(src, group, room);
        MergeOrdered(src, group[1..], room);
        OrderedCons(group[0], src, group[1..], room);
      }
    }
  }

  /** What the caller finds: a merge stopped by an invalid id reports the whole request as consumed and
      leaves the group's count as it was. */
  function Seen(src: seq<EdpPage>, group: seq<EdpPage>, room: nat): seq<EdpPage> {
    var w := Weave(src, group, room);
    if w.rejected && |group| <= |w.group| then w.group[..|group|] else w.group
  }

  function Claimed(src: seq<EdpPage>, group: seq<EdpPage>, room: nat): nat {
    var w := Weave(src, group, room);
    if w.rejected then |src| else w.consumed
  }

  /** The group the caller finds is sorted and within capacity, has lost no entry, and has gained exactly
      the pages reported as consumed. A call that does not consume the whole request leaves at most one
      free place; a call that starts with two or more free places makes progress. */
  ghost predicate MergeSound(src: seq<EdpPage>, group: seq<EdpPage>, room: nat) {
    var seen, n := Seen(src, group, room), Claimed(src, group, room);
    && n <= |src|
    && Ordered(seen)
    && Pages(seen) == Pages(group) + Pages(src[..n])
    && multiset(group) <= multiset(seen)
    && |group| <= |seen| <= |group| + room
    && |seen| <= |group| + n
    && (n == |src| || |seen| + 1 >= |group| + room)
    && (src != [] && 2 <= room ==> 1 <= n)
  }

  /** One call, on any sorted request and group: sound unless an invalid id stops it. */
  lemma BoundedMergeSound(src: seq<EdpPage>, group: seq<EdpPage>, room: nat)
    requires Ordered(src) && Ordered(group)
    ensures !Weave(src, group, room).rejected ==> MergeSound(src, group, room)
    ensures Weave(src, group, room).rejected ==> !AllValid(src)
  {
    hide Weave, Ordered, Pages, AllValid;
    MergeCounts(src, group, room);
    MergeKeeps(src, group, room);
    MergePages(src, group, room);
    MergeOrdered(src, group, room);
  }

  // ---- the duplicate-free case: exactly which entries are added ----

  /** The request entries whose page is not among `known`, in order. */
  function Fresh(src: seq<EdpPage>, known: set<PageId>): seq<EdpPage> {
    if src == [] then []
    else (if src[0].page in known then [] else [src[0]]) + Fresh(src[1..], known)
  }

  lemma {:induction false} FreshIgnores(src: seq<EdpPage>, known: set<PageId>, p: PageId)
    requires p !in Pages(src)
    ensures Fresh(src, known + {p}) == Fresh(src, known)
  {
    if src != [] { FreshIgnores(src[1..], known, p); }
  }

  lemma {:induction false} FreshAll(src: seq<EdpPage>)
    ensures Fresh(src, {}) == src
  {
    if src != [] {
      FreshAll(src[1..]);
      assert src == [src[0]] + src[1..];
    }
  }

  lemma StrictCons(e: EdpPage, src: seq<EdpPage>, group: seq<EdpPage>, room: nat)
    requires forall p :: p in Pages(src) || p in Pages(group) ==> Before(e.page, p)
    ensures StrictlyOrdered(Weave(src, group, room).group) ==> StrictlyOrdered([e] + Weave(src, group, room).group)
  {
    MergePages(src, group, room);
    hide Weave, Pages;
    var w := Weave(src, group, room);
    PrefixOrdered(src, w.consumed);
    assert ([e] + w.group)[1..] == w.group;
  }

  lemma StrictParts(s: seq<EdpPage>)
    requires StrictlyOrdered(s) && s != []
    ensures StrictlyOrdered(s[1..])
    ensures forall p :: p in Pages(s[1..]) ==> Before(s[0].page, p)
    ensures Pages(s) == {s[0].page} + Pages(s[1..])
  {
  }

  lemma {:induction false} MergeStrict(src: seq<EdpPage>, group: seq<EdpPage>, room: nat)
    requires StrictlyOrdered(src) && StrictlyOrdered(group)
    ensures StrictlyOrdered(Weave(src, group, room).group)
    decreases |src| + |group|
  {
    hide Weave, StrictlyOrdered, AllValid, Pages;
    if src == [] || room == 0 {
      WeaveStops(src, group, room);
    } else if group == [] {
      WeaveTail(src, room);
      PrefixOrdered(src, Weave(src, group, room).consumed);
    } else if !ValidId(src[0].page) {
      WeaveBad(src, group, room);
    } else {
      StrictParts(src);
      StrictParts(group);
      if src[0].page == group[0].page {
        WeaveSame(src, group, room);
        MergeStrict(src[1..], group[1..], room);
        StrictCons(group[0], src[1..], group[1..], room);
      } else if Before(src[0].page, group[0].page) {
        WeaveLess(src, group, room);
        MergeStrict(src[1..], group, room - 1);
        StrictCons(src[0], src[1..], group, room - 1);
      } else {
        WeaveMore(src, group, room);
        MergeStrict(src, group[1..], room);
        StrictCons(group[0], src, group[1..], room);
      }
    }
  }

  lemma FreshTake(src: seq<EdpPage>, known: set<PageId>, n: nat)
    requires src != [] && n < |src|
    ensures Fresh(src[..n + 1], known) ==
            (if src[0].page in known then [] else [src[0]]) + Fresh(src[1..][..n], known)
  {
    TakeCons(src, n);
    assert src[..n + 1][1..] == src[1..][..n];
  }

  ghost function Added(src: seq<EdpPage>, group: seq<EdpPage>, n: nat): multiset<EdpPage>
    requires n <= |src|
  {
    multiset(Fresh(src[..n], Pages(group)))
  }

  lemma AddedSame(src: seq<EdpPage>, group: seq<EdpPage>, n: nat)
    requires StrictlyOrdered(src) && src != [] && group != [] && n < |src|
    requires src[0].page == group[0].page
    ensures Added(src, group, n + 1) == Added(src[1..], group[1..], n)
  {
    hide Fresh, Pages, StrictlyOrdered;
    PagesCons(group);
    StrictParts(src);
    FreshTake(src, Pages(group), n);
    PrefixOrdered(src[1..], n);
    FreshIgnores(src[1..][..n], Pages(group[1..]), group[0].page);
    assert Pages(group) == Pages(group[1..]) + {group[0].page};
  }

  lemma AddedLess(src: seq<EdpPage>, group: seq<EdpPage>, n: nat)
    requires src != [] && n < |src| && src[0].page !in Pages(group)
    ensures Added(src, group, n + 1) == multiset{src[0]} + Added(src[1..], group, n)
  {
    hide Fresh, Pages;
    FreshTake(src, Pages(group), n);
    ConsMultiset(src[0], Fresh(src[1..][..n], Pages(group)));
  }

  lemma AddedMore(src: seq<EdpPage>, group: seq<EdpPage>, n: nat)
    requires src != [] && StrictlyOrdered(src) && group != [] && n <= |src|
    requires Before(group[0].page, src[0].page)
    ensures Added(src, group, n) == Added(src, group[1..], n)
  {
    hide Fresh, Pages, StrictlyOrdered;
    PagesCons(group);
    StrictParts(src);
    PrefixOrdered(src, n);
    FreshIgnores(src[..n], Pages(group[1..]), group[0].page);
    assert Pages(group) == Pages(group[1..]) + {group[0].page};
  }

  lemma SameTail(e: EdpPage, g: seq<EdpPage>, out: seq<EdpPage>, add: multiset<EdpPage>)
    requires g != [] && e == g[0] && multiset(out) == multiset(g[1..]) + add
    ensures multiset([e] + out) == multiset(g) + add
  {
    hide *;
    assert g == [e] + g[1..];
  }

  /** `n` consumed entries added to `group` give `out`. */
  ghost predicate Adds(src: seq<EdpPage>, group: seq<EdpPage>, w: Woven) {
    w.consumed <= |src| && multiset(w.group) == multiset(group) + Added(src, group, w.consumed)
  }

  lemma MergeAddsSame(src: seq<EdpPage>, group: seq<EdpPage>, v: Woven)
    requires src != [] && group != [] && StrictlyOrdered(src) && src[0].page == group[0].page
    requires Adds(src[1..], group[1..], v)
    ensures Adds(src, group, Glue([group[0]], 1, v))
  {
    AddedSame(src, group, v.consumed);
    SameTail(group[0], group, v.group, Added(src[1..], group[1..], v.consumed));
    hide Added, StrictlyOrdered;
  }

  lemma MergeAddsLess(src: seq<EdpPage>, group: seq<EdpPage>, v: Woven)
    requires src != [] && src[0].page !in Pages(group)
    requires Adds(src[1..], group, v)
    ensures Adds(src, group, Glue([src[0]], 1, v))
  {
    hide Added, Pages, Fresh;
    AddedLess(src, group, v.consumed);
    ConsMultiset(src[0], v.group);
  }

  lemma MergeAddsMore(src: seq<EdpPage>, group: seq<EdpPage>, v: Woven)
    requires src != [] && group != [] && StrictlyOrdered(src) && Before(group[0].page, src[0].page)
    requires Adds(src, group[1..], v)
    ensures Adds(src, group, Glue([group[0]], 0, v))
  {
    AddedMore(src, group, v.consumed);
    SameTail(group[0], group, v.group, Added(src, group[1..], v.consumed));
    hide Added, StrictlyOrdered;
  }

  lemma {:induction false} MergeAdds(src: seq<EdpPage>, group: seq<EdpPage>, room: nat)
    requires StrictlyOrdered(src) && StrictlyOrdered(group)
    ensures Adds(src, group, Weave(src, group, room))
    decreases |src| + |group|
  {
    hide *;
    if src == [] || room == 0 {
      WeaveStops(src, group, room);
      AddsNone(src, group);
    } else if group == [] {
      MergeCounts(src, group, room);
      WeaveTail(src, room);
      AddsAll(src, Weave(src, [], room).consumed);
    } else if !ValidId(src[0].page) {
      WeaveBad(src, group, room);
      AddsBad(src, group);
    } else {
      StrictParts(src);
      StrictParts(group);
      if src[0].page == group[0].page {
        WeaveSame(src, group, room);
        MergeAdds(src[1..], group[1..], room);
        MergeAddsSame(src, group, Weave(src[1..], group[1..], room));
      } else if Before(src[0].page, group[0].page) {
        WeaveLess(src, group, room);
        MergeAdds(src[1..], group, room - 1);
        HeadAbsent(src[0].page, group);
        MergeAddsLess(src, group, Weave(src[1..], group, room - 1));
      } else {
        Total(src[0].page, group[0].page);
        WeaveMore(src, group, room);
        MergeAdds(src, group[1..], room);
        MergeAddsMore(src, group, Weave(src, group[1..], room));
      }
    }
  }

  lemma Total(a: PageId, b: PageId)
    ensures a == b || Before(a, b) || Before(b, a)
  {
  }

  lemma HeadAbsent(p: PageId, group: seq<EdpPage>)
    requires StrictlyOrdered(group) && group != [] && Before(p, group[0].page)
    ensures p !in Pages(group)
  {
  }

  lemma AddsNone(src: seq<EdpPage>, group: seq<EdpPage>)
    ensures Adds(src, group, Woven(group, 0, false))
  {
  }

  lemma AddsBad(src: seq<EdpPage>, group: seq<EdpPage>)
    ensures Adds(src, group, Woven(group, 0, true))
  {
  }

  lemma AddsAll(src: seq<EdpPage>, n: nat)
    requires n <= |src|
    ensures Adds(src, [], Woven(src[..n], n, false))
  {
    FreshAll(src[..n]);
  }

  /** For a strictly sorted request and a duplicate-free group the result is strictly sorted and is
      the old group, entry for entry, plus the consumed entries whose page was not yet there. */
  lemma BoundedMergeExact(src: seq<EdpPage>, group: seq<EdpPage>, room: nat)
    requires StrictlyOrdered(src) && StrictlyOrdered(group)
    ensures var w := Weave(src, group, room);
            && w.consumed <= |src|
            && StrictlyOrdered(w.group)
            && multiset(w.group) == multiset(group) + multiset(Fresh(src[..w.consumed], Pages(group)))
  {
    MergeStrict(src, group, room);
    MergeAdds(src, group, room);
    hide Fresh, Weave, StrictlyOrdered, Pages;
  }

  // ---- invalid ids ----

  /** A request that lies wholly after the group is appended as far as it fits, except that the last free place
      is never used for it. */
  lemma {:induction false} MergeAppends(src: seq<EdpPage>, group: seq<EdpPage>, room: nat)
    requires src != [] && (group == [] || ValidId(src[0].page))
    requires forall p :: p in Pages(group) ==> Before(p, src[0].page)
    ensures var n := if room == 1 then 0 else if room < |src| then room else |src|;
            Weave(src, group, room) == Woven(group + src[..n], n, false)
    decreases group
  {
    if room == 0 {
      assert group + src[..0] == group;
    } else if group != [] {
      PageAt(group, 0);
      PagesCons(group);
      MergeAppends(src, group[1..], room);
    }
  }

  /** An invalid id met mid-way reports "all consumed" without writing the count back, so the group
      found afterwards (its first old-count entries) has lost an entry it held before. */
  lemma RejectedMergeLosesEntry()
    ensures var kept := EdpPage(PageId(2, 0), 7, 0);
            var src := [EdpPage(PageId(1, 0), 5, 0), EdpPage(PageId(INVALID_FILE_ID, 0), 6, 0)];
            Claimed(src, [kept], 7) == 2 && kept !in Seen(src, [kept], 7)
  {
    var kept := EdpPage(PageId(2, 0), 7, 0);
    var a, b := EdpPage(PageId(1, 0), 5, 0), EdpPage(PageId(INVALID_FILE_ID, 0), 6, 0);
    assert [a, b][1..] == [b];
    assert Weave([b], [kept], 6) == Woven([kept], 0, true);
    assert Weave([a, b], [kept], 7) == Glue([a], 1, Weave([b], [kept], 6));
  }

  /** Ahead of an entry past all its valid pages, a request is merged up to its first invalid id. */
  lemma {:induction false} StoppedBeforeLast(src: seq<EdpPage>, last: EdpPage, room: nat)
    requires !AllValid(src) && |src| < room
    requires forall p :: p in Pages(src) && ValidId(p) ==> Before(p, last.page)
    ensures Weave(src, [last], room).rejected
    decreases src
  {
    PagesCons(src);
    if ValidId(src[0].page) {
      WeaveLess(src, [last], room);
      StoppedBeforeLast(src[1..], last, room - 1);
    }
  }

  /** A valid page past every valid page of the request. */
  lemma {:induction false} PageBeyond(src: seq<EdpPage>) returns (p: PageId)
    ensures p.file == INVALID_FILE_ID - 1 && forall q :: q in Pages(src) && ValidId(q) ==> Before(q, p)
  {
    if src == [] {
      p := PageId(INVALID_FILE_ID - 1, 0);
    } else {
      var q := PageBeyond(src[1..]);
      p := PageId(q.file, q.page + src[0].page.page + 1);
    }
  }

  /** A sorted request is merged soundly into every sorted group, whatever the room, exactly when it holds
      no invalid id; groups that hold none themselves are enough to tell. */
  lemma SoundForEveryGroup(src: seq<EdpPage>)
    requires Ordered(src)
    ensures AllValid(src) <==> forall group, room :: Ordered(group) ==> MergeSound(src, group, room)
    ensures AllValid(src) <==>
              forall group, room :: Ordered(group) && AllValid(group) ==> MergeSound(src, group, room)
  {
    hide MergeSound, AllValid, Ordered;
    forall group, room: nat | AllValid(src) && Ordered(group)
      ensures MergeSound(src, group, room)
    {
      BoundedMergeSound(src, group, room);
    }
    if !AllValid(src) {
      var group, room := UnsoundSomewhere(src);
    }
  }

  lemma UnsoundSomewhere(src: seq<EdpPage>) returns (group: seq<EdpPage>, room: nat)
    requires !AllValid(src)
    ensures Ordered(group) && AllValid(group) && !MergeSound(src, group, room)
  {
    var p := PageBeyond(src);
    var last := EdpPage(p, 0, 0);
    group, room := [last], |src| + 1;
    StoppedBeforeLast(src, last, room);
    MergeCounts(src, group, room);
    hide Weave;
    PageAt(src, 0);
    assert group[1..] == [];
    assert src[..|src|] == src;
    var seen := Seen(src, group, room);
    assert |seen| == 1 && seen[1..] == [];
    assert Pages(seen) == {seen[0].page};
    assert src[0].page != p;
  }
}
