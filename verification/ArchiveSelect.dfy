/** Which archived redo files a log backup of one node takes: the scan of the archive directory, the
    growing buffer, the count check and the lookup by archive sequence number (ASN). */
module ArchiveSelect {
  import opened Basics

  const INIT_NUM: nat := 50
  const INC_NUM: nat := 10
  const MAX_NUM: nat := 2000

  /** An archive file covers the LSNs in (startLsn, endLsn]. */
  datatype Archive = Archive(asn: nat, startLsn: nat, endLsn: nat)

  /** What the scan finds under one name of the archive directory. */
  datatype DirEntry =
    | OtherFile                 // not an archive name
    | Foreign                   // an archive of another node, resetlog id or database
    | Unreadable                // its database id cannot be read
    | Mine(archive: Archive)

  function MineOf(listing: seq<DirEntry>): seq<Archive> {
    if listing == [] then []
    else
      var e := listing[|listing| - 1];
      MineOf(listing[..|listing| - 1]) + (if e.Mine? then [e.archive] else [])
  }

  /** The ASN range found so far and the largest ASN seen at all. */
  datatype Selection = Selection(startAsn: nat, endAsn: nat, maxAsn: nat)

  predicate Contains(a: Archive, lsn: nat) { a.startLsn < lsn <= a.endLsn }

  predicate Inside(a: Archive, lo: nat, hi: nat) { a.startLsn >= lo && a.endLsn < hi }

  /** The file is needed to cover the LSNs from `lo` (the recovery point) to `hi` (the largest lrp). */
  predicate Needed(a: Archive, lo: nat, hi: nat) {
    Contains(a, lo) || Inside(a, lo, hi) || Contains(a, hi)
  }

  /** The archive holds some LSN from lo to hi. */
  predicate Overlaps(a: Archive, lo: nat, hi: nat) { a.startLsn < hi && lo <= a.endLsn }

  /** The three cases of the code are one: a file is needed exactly when it holds an LSN of the range. */
  lemma NeededMeans(a: Archive, lo: nat, hi: nat)
    requires a.startLsn < a.endLsn && lo <= hi
    ensures Needed(a, lo, hi) <==> Overlaps(a, lo, hi)
    ensures Needed(a, lo, hi) <==> exists lsn :: lo <= lsn <= hi && Contains(a, lsn)
  {
    if Overlaps(a, lo, hi) {
      assert Contains(a, Max(lo, a.startLsn + 1));
    }
  }

  /** bak_set_archfile_info with the maximum kept by its caller. */
  function Note(s: Selection, a: Archive, lo: nat, hi: nat): Selection {
    var t := s.(maxAsn := Max(s.maxAsn, a.asn));
    if Contains(a, lo) then t.(startAsn := a.asn, endAsn := Max(t.endAsn, a.asn))
    else if Inside(a, lo, hi) then t.(endAsn := Max(t.endAsn, a.asn))
    else if Contains(a, hi) then t.(endAsn := a.asn)
    else t
  }

  function Selected(mine: seq<Archive>, lo: nat, hi: nat): Selection {
    if mine == [] then Selection(0, 0, 0)
    else Note(Selected(mine[..|mine| - 1], lo, hi), mine[|mine| - 1], lo, hi)
  }

  function Picked(mine: seq<Archive>, lo: nat, hi: nat): seq<Archive> {
    if mine == [] then []
    else
      var a := mine[|mine| - 1];
      Picked(mine[..|mine| - 1], lo, hi) + (if Needed(a, lo, hi) then [a] else [])
  }

  // ---- the scan ----

  /** The archive with the largest ASN. */
  function Latest(p: seq<Archive>): (a: Archive)
    requires p != []
    ensures a in p && forall b :: b in p ==> b.asn <= a.asn
  {
    var last := p[|p| - 1];
    if |p| == 1 then last
    else
      assert p == p[..|p| - 1] + [last];
      var a := Latest(p[..|p| - 1]);
      if last.asn > a.asn then last else a
  }

  class ArchiveBuffer {
    var files: array<Archive>
    var num: nat

    constructor ()
      ensures Valid() && Contents() == [] && fresh(files) && files.Length == INIT_NUM
    {
      files := new Archive[INIT_NUM](_ => Archive(0, 0, 0));
      num := 0;
    }

    ghost predicate Valid() reads this { num <= files.Length && INIT_NUM <= files.Length <= MAX_NUM }

    ghost function Contents(): seq<Archive> reads this, files requires Valid() { files[..num] }

    /** bak_check_arch_file_num and bak_remalloc_arch_file_buf: keeps every entry, grows by ten up to
        the limit, and fails exactly when the buffer is full at the limit. */
    method EnsureRoom() returns (ok: bool)
      requires Valid()
      modifies this`files
      ensures Valid() && Contents() == old(Contents())
      ensures ok <==> old(num) < MAX_NUM
      ensures ok ==> num < files.Length
      ensures files == old(files) || (fresh(files) && files.Length == old(files.Length) + INC_NUM)
              || (fresh(files) && files.Length == MAX_NUM)
    {
      if num >= files.Length {
        if files.Length >= MAX_NUM {
          return false;
        }
        var newCap := if files.Length + INC_NUM >= MAX_NUM then MAX_NUM else files.Length + INC_NUM;
        var bigger := new Archive[newCap](_ => Archive(0, 0, 0));
        forall k | 0 <= k < files.Length {
          bigger[k] := files[k];
        }
        files := bigger;
      }
      return true;
    }

    method Append(a: Archive)
      requires Valid() && num < files.Length
      modifies this`num, files
      ensures Valid() && Contents() == old(Contents()) + [a]
    {
      files[num] := a;
      num := num + 1;
    }
  }

  /** The scan gets past name k: another file, or readable while fewer than 2000 archives were needed so far. */
  ghost predicate CanScan(listing: seq<DirEntry>, k: nat, lo: nat, hi: nat)
    requires k < |listing|
  {
    listing[k].OtherFile? || (!listing[k].Unreadable? && |Picked(MineOf(listing[..k]), lo, hi)| < MAX_NUM)
  }

  ghost predicate Scannable(listing: seq<DirEntry>, lo: nat, hi: nat) {
    forall k :: 0 <= k < |listing| ==> CanScan(listing, k, lo, hi)
  }

  lemma OneMoreEntry(listing: seq<DirEntry>, i: nat, lo: nat, hi: nat)
    requires i < |listing|
    ensures var front, e := MineOf(listing[..i]), listing[i];
            if e.Mine? then MineOf(listing[..i + 1]) == front + [e.archive]
                         && Selected(MineOf(listing[..i + 1]), lo, hi)
                             == Note(Selected(front, lo, hi), e.archive, lo, hi)
                         && Picked(MineOf(listing[..i + 1]), lo, hi)
                            == Picked(front, lo, hi) + (if Needed(e.archive, lo, hi) then [e.archive] else [])
            else MineOf(listing[..i + 1]) == front
  {
    assert listing[..i + 1][..i] == listing[..i];
    if listing[i].Mine? {
      var front := MineOf(listing[..i]);
      assert (front + [listing[i].archive])[..|front|] == front;
    }
  }

  /** bak_get_arch_info: scans the directory in the order listed. On success the buffer holds exactly
      the needed archives in that order. It fails exactly on an unreadable file or a full buffer. */
  method GetArchInfo(listing: seq<DirEntry>, lo: nat, hi: nat, buf: ArchiveBuffer)
    returns (ok: bool, sel: Selection)
    requires buf.Valid() && buf.Contents() == []
    modifies buf, buf.files
    ensures buf.Valid()
    ensures ok ==> sel == Selected(MineOf(listing), lo, hi)
    ensures ok ==> buf.Contents() == Picked(MineOf(listing), lo, hi)
    ensures ok <==> Scannable(listing, lo, hi)
  {
    hide MineOf, Selected, Picked, Note;
    sel := Selection(0, 0, 0);
    ScanStart(listing, lo, hi);
    ghost var files0 := buf.files;
    var i := 0;
    while i < |listing|
      invariant i <= |listing| && buf.Valid()
      invariant buf.files == files0 || fresh(buf.files)
      invariant sel == Selected(MineOf(listing[..i]), lo, hi)
      invariant buf.Contents() == Picked(MineOf(listing[..i]), lo, hi)
      invariant forall k :: 0 <= k < i ==> CanScan(listing, k, lo, hi)
    {
      OneMoreEntry(listing, i, lo, hi);
      var e := listing[i];
      if !e.OtherFile? {
        ghost var had := buf.Contents();
        var room := buf.EnsureRoom();
        if !room || e.Unreadable? {
          assert !CanScan(listing, i, lo, hi);
          return false, sel;
        }
        if e.Mine? {
          sel := Note(sel, e.archive, lo, hi);
          if Needed(e.archive, lo, hi) {
            buf.Append(e.archive);
          }
        }
      }
      i := i + 1;
    }
    assert listing[..i] == listing;
    return true, sel;
  }

  lemma ScanStart(listing: seq<DirEntry>, lo: nat, hi: nat)
    ensures Selected(MineOf(listing[..0]), lo, hi) == Selection(0, 0, 0)
    ensures Picked(MineOf(listing[..0]), lo, hi) == []
  {
  }

  /** bak_get_arch_by_index: the first of the first `end - start + 1` entries with the ASN wanted, or
      the last of them when there is none. */
  method GetByAsn(files: seq<Archive>, asn: nat, start: nat, end: nat) returns (a: Archive)
    requires start <= end && end - start + 1 <= |files|
    ensures a in files[..end - start + 1]
    ensures (exists k :: 0 <= k < end - start + 1 && files[k].asn == asn) ==> a.asn == asn
    ensures (forall k :: 0 <= k < end - start + 1 ==> files[k].asn != asn) ==> a == files[end - start]
  {
    a := files[0];
    for i := 0 to end - start + 1
      invariant i > 0 ==> a == files[i - 1]
      invariant forall k :: 0 <= k < i ==> files[k].asn != asn
    {
      a := files[i];
      if a.asn == asn {
        break;
      }
    }
  }

  // ---- archives that form a chain ----

  /** A node's archive history: consecutive ASNs, each range starting where the last one ended. */
  ghost predicate IsChain(h: seq<Archive>) {
    && (forall k :: 0 <= k < |h| ==> 1 <= h[k].asn < U32 && h[k].startLsn < h[k].endLsn)
    && (forall k :: 0 <= k < |h| - 1 ==> h[k + 1].asn == h[k].asn + 1 && h[k + 1].startLsn == h[k].endLsn)
  }

  /** The files present: any part of the history, in any order, each once. */
  ghost predicate Present(mine: seq<Archive>, h: seq<Archive>) {
    && (forall k :: 0 <= k < |mine| ==> mine[k] in h)
    && (forall j, k :: 0 <= j < k < |mine| ==> mine[j] != mine[k])
  }

  lemma {:induction false} ChainOrder(h: seq<Archive>, i: nat, j: nat)
    requires IsChain(h) && i < j < |h|
    ensures h[j].asn == h[i].asn + (j - i) && h[i].endLsn <= h[j].startLsn
    decreases j - i
  {
    assert h[j - 1 + 1] == h[j];
    if i < j - 1 { ChainOrder(h, i, j - 1); }
  }

  /** Two archives of a chain: the ASN order is the LSN order. */
  lemma InOrder(h: seq<Archive>, a: Archive, b: Archive)
    requires IsChain(h) && a in h && b in h
    ensures a.asn < b.asn ==> a.endLsn <= b.startLsn
    ensures a.asn == b.asn ==> a == b
    ensures b.asn == a.asn + 1 ==> b.startLsn == a.endLsn
  {
    var i :| 0 <= i < |h| && h[i] == a;
    var j :| 0 <= j < |h| && h[j] == b;
    if i < j {
      ChainOrder(h, i, j);
      if j == i + 1 { assert h[i + 1].startLsn == h[i].endLsn; }
    } else if j < i {
      ChainOrder(h, j, i);
    }
  }

  lemma {:induction false} PickedFacts(mine: seq<Archive>, h: seq<Archive>, lo: nat, hi: nat)
    requires Present(mine, h)
    ensures Present(Picked(mine, lo, hi), h)
    ensures forall a :: a in Picked(mine, lo, hi) <==> a in mine && Needed(a, lo, hi)
  {
    if mine != [] {
      var front := mine[..|mine| - 1];
      assert mine == front + [mine[|mine| - 1]];
      assert forall k :: 0 <= k < |front| ==> front[k] == mine[k];
      PickedFacts(front, h, lo, hi);
      assert mine[|mine| - 1] !in front;
      hide Needed;
    }
  }

  /** What the scan has found does not depend on the listing order: the start is the archive that
      contains the recovery point (0 if none is present), the end the largest needed ASN. */
  ghost predicate FoundRange(s: Selection, mine: seq<Archive>, lo: nat, hi: nat) {
    && (forall a :: a in mine && Contains(a, lo) ==> s.startAsn == a.asn)
    && (s.startAsn != 0 ==> exists a :: a in mine && Contains(a, lo) && a.asn == s.startAsn)
    && (forall a :: a in mine && Needed(a, lo, hi) ==> a.asn <= s.endAsn)
    && (s.endAsn != 0 ==> exists a :: a in mine && Needed(a, lo, hi) && a.asn == s.endAsn)
  }

  lemma {:induction false} SelectionFindsRange(mine: seq<Archive>, h: seq<Archive>, lo: nat, hi: nat)
    requires IsChain(h) && Present(mine, h) && lo <= hi
    ensures FoundRange(Selected(mine, lo, hi), mine, lo, hi)
  {
    if mine != [] {
      var front, b := mine[..|mine| - 1], mine[|mine| - 1];
      assert mine == front + [b];
      assert forall k :: 0 <= k < |front| ==> front[k] == mine[k];
      SelectionFindsRange(front, h, lo, hi);
      assert b in h;
      NoteFindsRange(Selected(front, lo, hi), front, b, h, lo, hi);
    }
  }

  lemma NoteFindsRange(s: Selection, front: seq<Archive>, b: Archive, h: seq<Archive>, lo: nat, hi: nat)
    requires IsChain(h) && b in h && (forall a :: a in front ==> a in h) && lo <= hi
    requires FoundRange(s, front, lo, hi)
    ensures FoundRange(Note(s, b, lo, hi), front + [b], lo, hi)
  {
    forall a | a in front
      ensures Contains(a, lo) && Contains(b, lo) ==> a == b
      ensures Needed(a, lo, hi) && Contains(b, hi) ==> a.asn <= b.asn
    {
      Neighbours(h, a, b, lo, hi);
    }
    hide IsChain;
    NoteStart(s, front, b, lo, hi);
    NoteEnd(s, front, b, lo, hi);
  }

  lemma Neighbours(h: seq<Archive>, a: Archive, b: Archive, lo: nat, hi: nat)
    requires IsChain(h) && a in h && b in h && lo <= hi
    ensures Contains(a, lo) && Contains(b, lo) ==> a == b
    ensures Needed(a, lo, hi) && Contains(b, hi) ==> a.asn <= b.asn
  {
    InOrder(h, a, b);
    InOrder(h, b, a);
    if Needed(a, lo, hi) { NeededStart(h, a, lo, hi); }
  }

  lemma NoteStart(s: Selection, front: seq<Archive>, b: Archive, lo: nat, hi: nat)
    requires FoundRange(s, front, lo, hi)
    requires forall a :: a in front && Contains(a, lo) && Contains(b, lo) ==> a == b
    ensures var t := Note(s, b, lo, hi);
            && (forall a :: a in front + [b] && Contains(a, lo) ==> t.startAsn == a.asn)
            && (t.startAsn != 0 ==> exists a :: a in front + [b] && Contains(a, lo) && a.asn == t.startAsn)
  {
    hide Needed, Inside;
    assert b in front + [b];
    if s.startAsn != 0 {
      var a :| a in front && Contains(a, lo) && a.asn == s.startAsn;
      assert a in front + [b];
    }
  }

  lemma NoteEnd(s: Selection, front: seq<Archive>, b: Archive, lo: nat, hi: nat)
    requires FoundRange(s, front, lo, hi)
    requires forall a :: a in front && Needed(a, lo, hi) && Contains(b, hi) ==> a.asn <= b.asn
    ensures var t := Note(s, b, lo, hi);
            && (forall a :: a in front + [b] && Needed(a, lo, hi) ==> a.asn <= t.endAsn)
            && (t.endAsn != 0 ==> exists a :: a in front + [b] && Needed(a, lo, hi) && a.asn == t.endAsn)
  {
    var t := Note(s, b, lo, hi);
    var needed := Needed(b, lo, hi);
    assert needed ==> t.endAsn == Max(s.endAsn, b.asn) || (t.endAsn == b.asn && Contains(b, hi));
    assert !needed ==> t.endAsn == s.endAsn;
    hide Contains, Inside, Needed, Note;
    assert b in front + [b];
    if s.endAsn != 0 {
      var a :| a in front && Needed(a, lo, hi) && a.asn == s.endAsn;
      assert a in front + [b];
    }
  }

  lemma NeededStart(h: seq<Archive>, a: Archive, lo: nat, hi: nat)
    requires IsChain(h) && a in h && lo <= hi && Needed(a, lo, hi)
    ensures a.startLsn < hi && lo <= a.endLsn && 1 <= a.asn < U32
  {
    var i :| 0 <= i < |h| && h[i] == a;
  }

  /** Any two listings of the same files give the same range. */
  lemma OrderDoesNotMatter(m1: seq<Archive>, m2: seq<Archive>, h: seq<Archive>, lo: nat, hi: nat)
    requires IsChain(h) && Present(m1, h) && Present(m2, h) && lo <= hi
    requires multiset(m1) == multiset(m2)
    ensures Selected(m1, lo, hi).startAsn == Selected(m2, lo, hi).startAsn
    ensures Selected(m1, lo, hi).endAsn == Selected(m2, lo, hi).endAsn
  {
    SelectionFindsRange(m1, h, lo, hi);
    SelectionFindsRange(m2, h, lo, hi);
    forall a ensures a in m1 <==> a in m2 {
      assert a in m1 <==> a in multiset(m1);
      assert a in m2 <==> a in multiset(m2);
    }
    hide IsChain, Selected, Present;
  }

  // ---- the count check, by pigeonhole ----

  function Asns(s: seq<Archive>): seq<nat> { seq(|s|, k requires 0 <= k < |s| => s[k].asn) }

  ghost function Interval(lo: nat, hi: nat): set<nat>
    decreases hi + 1 - lo
  {
    if lo > hi then {} else {lo} + Interval(lo + 1, hi)
  }

  ghost function Elements(s: seq<nat>): set<nat> { set x | x in s }

  lemma {:induction false} IntervalSize(lo: nat, hi: nat)
    requires lo <= hi + 1
    ensures |Interval(lo, hi)| == hi + 1 - lo
    ensures forall x: nat :: x in Interval(lo, hi) <==> lo <= x <= hi
    decreases hi + 1 - lo
  {
    if lo <= hi { IntervalSize(lo + 1, hi); }
  }

  lemma {:induction false} DistinctSize(s: seq<nat>)
    requires forall j, k :: 0 <= j < k < |s| ==> s[j] != s[k]
    ensures |Elements(s)| == |s|
  {
    if s == [] {
      assert Elements(s) == {};
    } else {
      var front, last := s[..|s| - 1], s[|s| - 1];
      DistinctSize(front);
      assert s == front + [last];
      assert last !in front;
      assert Elements(s) == Elements(front) + {last};
    }
  }

  lemma {:induction false} FullSubset(a: set<nat>, b: set<nat>)
    requires a <= b && |a| == |b|
    ensures a == b
  {
    assert b == a + (b - a) && a !! (b - a);
    assert |b| == |a| + |b - a|;
  }

  lemma Pigeonhole(s: seq<nat>, lo: nat, hi: nat)
    requires lo <= hi && |s| == hi - lo + 1
    requires forall j, k :: 0 <= j < k < |s| ==> s[j] != s[k]
    requires forall k :: 0 <= k < |s| ==> lo <= s[k] <= hi
    ensures forall x: nat :: lo <= x <= hi ==> x in s
  {
    DistinctSize(s);
    IntervalSize(lo, hi);
    FullSubset(Elements(s), Interval(lo, hi));
    forall x: nat | lo <= x <= hi ensures x in s { assert x in Interval(lo, hi); }
  }

  /** The check of bak_get_arch_start_and_end_point_dbstor, in 32-bit arithmetic. */
  predicate CountOk(s: Selection, num: nat) {
    num == 0 || (s.startAsn != 0 && s.endAsn != 0 && num == (s.endAsn - s.startAsn + 1) % U32)
  }

  predicate HasAsn(p: seq<Archive>, asn: nat) { exists k :: 0 <= k < |p| && p[k].asn == asn }

  /** No ASN from lo to hi is missing. */
  ghost predicate Complete(p: seq<Archive>, lo: nat, hi: nat) { forall x :: lo <= x <= hi ==> HasAsn(p, x) }

  ghost predicate Within(p: seq<Archive>, lo: nat, hi: nat) { forall a :: a in p ==> lo <= a.asn <= hi }

  ghost predicate DistinctAsns(p: seq<Archive>) { forall j, k :: 0 <= j < k < |p| ==> p[j].asn != p[k].asn }

  /** The archives `p` are the run lo..hi of the chain h, none missing, the first containing `lsn`. */
  ghost predicate IsRun(p: seq<Archive>, h: seq<Archive>, lo: nat, hi: nat, lsn: nat) {
    && 1 <= lo <= hi < U32 && |p| == hi - lo + 1
    && Complete(p, lo, hi) && Within(p, lo, hi)
    && (forall a :: a in p ==> a in h)
    && (exists a :: a in p && Contains(a, lsn) && a.asn == lo)
  }

  lemma RunBounds(mine: seq<Archive>, h: seq<Archive>, lo: nat, hi: nat) returns (first: Archive)
    requires IsChain(h) && Present(mine, h) && lo <= hi
    requires var s := Selected(mine, lo, hi); s.startAsn != 0 && s.endAsn != 0
    ensures var s, p := Selected(mine, lo, hi), Picked(mine, lo, hi);
            && 1 <= s.startAsn <= s.endAsn < U32
            && Within(p, s.startAsn, s.endAsn)
            && first in p && Contains(first, lo) && first.asn == s.startAsn
  {
    hide IsChain, Present, Selected, Picked, Needed, Contains, FoundRange;
    var s, p := Selected(mine, lo, hi), Picked(mine, lo, hi);
    SelectionFindsRange(mine, h, lo, hi);
    PickedFacts(mine, h, lo, hi);
    var last;
    first, last := FoundEnds(s, mine, lo, hi);
    PresentIn(mine, h, first);
    PresentIn(mine, h, last);
    NeededStart(h, first, lo, hi);
    NeededStart(h, last, lo, hi);
    forall a | a in p ensures s.startAsn <= a.asn {
      PresentIn(mine, h, a);
      NotBeforeFirst(h, a, first, lo, hi);
    }
  }

  lemma FoundEnds(s: Selection, mine: seq<Archive>, lo: nat, hi: nat) returns (first: Archive, last: Archive)
    requires FoundRange(s, mine, lo, hi) && s.startAsn != 0 && s.endAsn != 0
    ensures first in mine && Contains(first, lo) && Needed(first, lo, hi) && first.asn == s.startAsn
    ensures last in mine && Needed(last, lo, hi) && last.asn == s.endAsn
    ensures forall a :: a in mine && Needed(a, lo, hi) ==> a.asn <= s.endAsn
  {
    first :| first in mine && Contains(first, lo) && first.asn == s.startAsn;
    last :| last in mine && Needed(last, lo, hi) && last.asn == s.endAsn;
  }

  lemma NotBeforeFirst(h: seq<Archive>, a: Archive, first: Archive, lo: nat, hi: nat)
    requires IsChain(h) && a in h && first in h && lo <= hi && Needed(a, lo, hi) && Contains(first, lo)
    ensures first.asn <= a.asn
  {
    NeededStart(h, a, lo, hi);
    InOrder(h, a, first);
  }

  lemma PresentIn(mine: seq<Archive>, h: seq<Archive>, a: Archive)
    requires Present(mine, h) && a in mine
    ensures a in h
  {
  }

  /** When the count check passes, the archives taken are exactly the run of the chain from the one that
      contains the recovery point to the last one needed: none of them is missing. */
  lemma CountCheckSound(mine: seq<Archive>, h: seq<Archive>, lo: nat, hi: nat)
    requires IsChain(h) && Present(mine, h) && lo <= hi
    requires CountOk(Selected(mine, lo, hi), |Picked(mine, lo, hi)|) && |Picked(mine, lo, hi)| != 0
    ensures var s := Selected(mine, lo, hi); IsRun(Picked(mine, lo, hi), h, s.startAsn, s.endAsn, lo)
  {
    var s, p := Selected(mine, lo, hi), Picked(mine, lo, hi);
    var first := RunBounds(mine, h, lo, hi);
    PickedFacts(mine, h, lo, hi);
    AsnsDistinct(p, h);
    CountIs(s, |p|);
    hide IsChain, Selected, Picked, Needed, Complete, Within, DistinctAsns, CountOk;
    assert forall a :: a in p ==> a in h;
    hide Present;
    PickedCover(p, s.startAsn, s.endAsn);
  }

  /** Without wrap-around the checked count is the length of the range. */
  lemma CountIs(s: Selection, num: nat)
    requires CountOk(s, num) && num != 0 && 1 <= s.startAsn <= s.endAsn < U32
    ensures num == s.endAsn - s.startAsn + 1
  {
  }

  lemma AsnsDistinct(p: seq<Archive>, h: seq<Archive>)
    requires IsChain(h) && Present(p, h)
    ensures DistinctAsns(p)
  {
    forall j, k | 0 <= j < k < |p|
      ensures p[j].asn != p[k].asn
    {
      InOrder(h, p[j], p[k]);
    }
  }

  lemma PickedCover(p: seq<Archive>, lo: nat, hi: nat)
    requires lo <= hi && |p| == hi - lo + 1
    requires DistinctAsns(p)
    requires Within(p, lo, hi)
    ensures Complete(p, lo, hi)
  {
    var s := Asns(p);
    assert forall k :: 0 <= k < |p| ==> p[k] in p;
    Pigeonhole(s, lo, hi);
    forall x | lo <= x <= hi
      ensures HasAsn(p, x)
    {
      assert (x as nat) in s;
      var k :| 0 <= k < |s| && s[k] == x;
      assert p[k].asn == x;
    }
  }

  /** The count check is exact: it passes just when no archive between the start and the end found is
      missing. */
  lemma CountCheckExact(mine: seq<Archive>, h: seq<Archive>, lo: nat, hi: nat)
    requires IsChain(h) && Present(mine, h) && lo <= hi && |Picked(mine, lo, hi)| != 0
    ensures var s, p := Selected(mine, lo, hi), Picked(mine, lo, hi);
            CountOk(s, |p|) <==>
            s.startAsn != 0 && s.endAsn != 0 && Complete(p, s.startAsn, s.endAsn)
  {
    var s, p := Selected(mine, lo, hi), Picked(mine, lo, hi);
    if CountOk(s, |p|) {
      CountCheckSound(mine, h, lo, hi);
      hide Selected, Picked, Complete, Within;
    } else if s.startAsn != 0 && s.endAsn != 0 {
      var first := RunBounds(mine, h, lo, hi);
      PickedFacts(mine, h, lo, hi);
      AsnsDistinct(p, h);
      hide IsChain, Selected, Picked, Needed, Present, Complete, Within, DistinctAsns;
      if Complete(p, s.startAsn, s.endAsn) {
        FullRun(p, s.startAsn, s.endAsn);
      }
    }
  }

  lemma AsnsWithin(p: seq<Archive>, lo: nat, hi: nat)
    requires lo <= hi && Within(p, lo, hi)
    ensures Elements(Asns(p)) <= Interval(lo, hi)
  {
    IntervalSize(lo, hi);
    hide Interval;
    var s := Asns(p);
    forall x | x in Elements(s) ensures x in Interval(lo, hi) {
      var k :| 0 <= k < |s| && s[k] == x;
      assert p[k] in p;
    }
  }

  lemma AllAsnsThere(p: seq<Archive>, lo: nat, hi: nat)
    requires lo <= hi && Complete(p, lo, hi)
    ensures Interval(lo, hi) <= Elements(Asns(p))
  {
    IntervalSize(lo, hi);
    hide Interval;
    forall x | x in Interval(lo, hi) ensures x in Elements(Asns(p)) {
      assert HasAsn(p, x);
      var k :| 0 <= k < |p| && p[k].asn == x;
      assert Asns(p)[k] == x;
    }
  }

  lemma FullRun(p: seq<Archive>, lo: nat, hi: nat)
    requires lo <= hi
    requires DistinctAsns(p)
    requires Within(p, lo, hi)
    requires Complete(p, lo, hi)
    ensures |p| == hi - lo + 1
  {
    AsnsWithin(p, lo, hi);
    AllAsnsThere(p, lo, hi);
    IntervalSize(lo, hi);
    AsnsSize(p);
    hide *;
    assert Elements(Asns(p)) == Interval(lo, hi);
  }

  lemma AsnsSize(p: seq<Archive>)
    requires DistinctAsns(p)
    ensures |Elements(Asns(p))| == |p|
  {
    hide Elements;
    DistinctSize(Asns(p));
  }

  // ---- the count check in terms of the directory ----

  /** An archive with the recovery point is there, and none is missing from the history before a needed one. */
  ghost predicate NoneMissing(mine: seq<Archive>, h: seq<Archive>, lo: nat, hi: nat) {
    && (exists a :: a in mine && Contains(a, lo))
    && (forall a, b :: a in h && Overlaps(a, lo, hi) && b in mine && Overlaps(b, lo, hi) && a.asn <= b.asn ==>
          a in mine)
  }

  lemma ChainNeeded(h: seq<Archive>, a: Archive, lo: nat, hi: nat)
    requires IsChain(h) && a in h && lo <= hi
    ensures Needed(a, lo, hi) <==> Overlaps(a, lo, hi)
  {
    var i :| 0 <= i < |h| && h[i] == a;
    NeededMeans(a, lo, hi);
  }

  lemma AsnBetween(h: seq<Archive>, first: Archive, last: Archive, x: nat) returns (a: Archive)
    requires IsChain(h) && first in h && last in h && first.asn <= x <= last.asn
    ensures a in h && a.asn == x
  {
    var i :| 0 <= i < |h| && h[i] == first;
    var j :| 0 <= j < |h| && h[j] == last;
    if j < i { ChainOrder(h, j, i); }
    if i < j { ChainOrder(h, i, j); }
    var k := i + (x - first.asn);
    if i < k { ChainOrder(h, i, k); }
    a := h[k];
  }

  /** Everything between an archive with the recovery point and a needed one is needed. */
  lemma BetweenNeeded(h: seq<Archive>, first: Archive, last: Archive, a: Archive, lo: nat, hi: nat)
    requires IsChain(h) && first in h && last in h && a in h && lo <= hi && first.asn <= a.asn <= last.asn
    requires Contains(first, lo) && Needed(last, lo, hi)
    ensures Needed(a, lo, hi)
  {
    NeededStart(h, last, lo, hi);
    InOrder(h, first, a);
    InOrder(h, a, last);
    ChainNeeded(h, a, lo, hi);
  }

  lemma CompleteMisses(mine: seq<Archive>, h: seq<Archive>, lo: nat, hi: nat, a: Archive, b: Archive)
    requires IsChain(h) && Present(mine, h) && lo <= hi
    requires var s := Selected(mine, lo, hi);
             s.startAsn != 0 && s.endAsn != 0 && Complete(Picked(mine, lo, hi), s.startAsn, s.endAsn)
    requires a in h && Overlaps(a, lo, hi) && b in mine && Overlaps(b, lo, hi) && a.asn <= b.asn
    ensures a in mine
  {
    hide IsChain, Present, Selected, Picked, Needed, Contains, Overlaps;
    var s, p := Selected(mine, lo, hi), Picked(mine, lo, hi);
    var first := RunBounds(mine, h, lo, hi);
    PickedFacts(mine, h, lo, hi);
    PresentIn(mine, h, b);
    PresentIn(mine, h, first);
    ChainNeeded(h, a, lo, hi);
    ChainNeeded(h, b, lo, hi);
    NotBeforeFirst(h, a, first, lo, hi);
    assert b in p;
    assert HasAsn(p, a.asn);
    var k :| 0 <= k < |p| && p[k].asn == a.asn;
    assert p[k] in p;
    PresentIn(mine, h, p[k]);
    InOrder(h, a, p[k]);
  }

  lemma NoneMissingComplete(mine: seq<Archive>, h: seq<Archive>, lo: nat, hi: nat)
    requires IsChain(h) && Present(mine, h) && lo <= hi && NoneMissing(mine, h, lo, hi) && Picked(mine, lo, hi) != []
    ensures var s := Selected(mine, lo, hi);
            s.startAsn != 0 && s.endAsn != 0 && Complete(Picked(mine, lo, hi), s.startAsn, s.endAsn)
  {
    hide IsChain, Present, Selected, Picked, Needed, Contains, Overlaps;
    var s, p := Selected(mine, lo, hi), Picked(mine, lo, hi);
    SelectionFindsRange(mine, h, lo, hi);
    PickedFacts(mine, h, lo, hi);
    var first :| first in mine && Contains(first, lo);
    PresentIn(mine, h, first);
    ContainsNeeded(first, lo, hi);
    NeededStart(h, first, lo, hi);
    assert first.asn <= s.endAsn;
    var last :| last in mine && Needed(last, lo, hi) && last.asn == s.endAsn;
    PresentIn(mine, h, last);
    ChainNeeded(h, last, lo, hi);
    forall x | s.startAsn <= x <= s.endAsn ensures HasAsn(p, x) {
      var a := AsnBetween(h, first, last, x);
      BetweenNeeded(h, first, last, a, lo, hi);
      ChainNeeded(h, a, lo, hi);
      assert a in p;
      var k :| 0 <= k < |p| && p[k] == a;
    }
  }

  lemma ContainsNeeded(a: Archive, lo: nat, hi: nat)
    ensures Contains(a, lo) ==> Needed(a, lo, hi)
  {
  }

  /** The count check, where an archive is needed at all, passes exactly when none is missing. */
  lemma CountCheckMeans(mine: seq<Archive>, h: seq<Archive>, lo: nat, hi: nat)
    requires IsChain(h) && Present(mine, h) && lo <= hi && Picked(mine, lo, hi) != []
    ensures CountOk(Selected(mine, lo, hi), |Picked(mine, lo, hi)|) <==> NoneMissing(mine, h, lo, hi)
  {
    hide IsChain, Present, Selected, Picked, Needed, Contains, Overlaps, CountOk, Complete;
    var s, p := Selected(mine, lo, hi), Picked(mine, lo, hi);
    CountCheckExact(mine, h, lo, hi);
    if NoneMissing(mine, h, lo, hi) {
      NoneMissingComplete(mine, h, lo, hi);
    }
    if CountOk(s, |p|) {
      var first := RunBounds(mine, h, lo, hi);
      PickedFacts(mine, h, lo, hi);
      forall a, b | a in h && Overlaps(a, lo, hi) && b in mine && Overlaps(b, lo, hi) && a.asn <= b.asn
        ensures a in mine
      {
        CompleteMisses(mine, h, lo, hi, a, b);
      }
    }
  }

  /** The largest ASN noted is the largest of all the node's archives. */
  lemma {:induction false} MaxAsnIsLatest(mine: seq<Archive>, lo: nat, hi: nat)
    ensures Selected(mine, lo, hi).maxAsn == if mine == [] then 0 else Latest(mine).asn
  {
    if mine != [] { MaxAsnIsLatest(mine[..|mine| - 1], lo, hi); }
  }
}
