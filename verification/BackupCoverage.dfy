/** A node's log backup: the archives selected, then what is missing read from the live redo log. */
module BackupCoverage {
  import opened Basics
  import opened ArchiveSelect

  /** One backed-up file: the LSNs in (start, end]. */
  datatype Range = Range(start: nat, end: nat)

  // ---- the live redo log ----

  /** Bytes of the redo log for the LSNs in (from, to]. */
  function LogBytes(redo: nat -> seq<Byte>, from: nat, to: nat): seq<Byte> {
    if to <= from then [] else LogBytes(redo, from, to - 1) + redo(to)
  }

  /** Answer of cm_device_read_batch: an error, nothing at the LSN asked for (the output LSN is then
      left alone), or the batches from that LSN up to `last`. */
  datatype ReadAnswer = Failed | NoData | Data(bytes: seq<Byte>, last: nat)

  /** The device answers with the log's own bytes, starting at the LSN asked for. */
  ghost predicate Honest(redo: nat -> seq<Byte>, read: (nat, nat) -> ReadAnswer) {
    forall k: nat, from: nat :: read(k, from).Data? && from > 0 ==>
      var a := read(k, from);
      from <= a.last && |a.bytes| > 0 && a.bytes == LogBytes(redo, from - 1, a.last)
  }

  lemma {:induction false} LogBytesConcat(redo: nat -> seq<Byte>, a: nat, b: nat, c: nat)
    requires a <= b <= c
    ensures LogBytes(redo, a, b) + LogBytes(redo, b, c) == LogBytes(redo, a, c)
    decreases c
  {
    if b < c {
      LogBytesConcat(redo, a, b, c - 1);
    }
  }

  ghost predicate NeverFails(read: (nat, nat) -> ReadAnswer) { forall k, from :: !read(k, from).Failed? }

  /** The log holds every LSN in (start, lrp], and the size announced is not used up before lrp. */
  ghost predicate RedoHolds(redo: nat -> seq<Byte>, read: (nat, nat) -> ReadAnswer, start: nat, lrp: nat, size: nat) {
    && (forall k, from :: start < from <= lrp ==> read(k, from).Data?)
    && (start < lrp ==> |LogBytes(redo, start, lrp - 1)| < size)
  }

  lemma {:induction false} LogBytesGrow(redo: nat -> seq<Byte>, from: nat, a: nat, b: nat)
    requires a <= b
    ensures |LogBytes(redo, from, a)| <= |LogBytes(redo, from, b)|
    decreases b
  {
    if a < b { LogBytesGrow(redo, from, a, b - 1); }
  }

  /** Why reading stopped after `turns` reads with `body` read up to endLsn. */
  ghost predicate Ended(read: (nat, nat) -> ReadAnswer, turns: nat, body: seq<Byte>, endLsn: nat, maxLsn: nat,
                        size: nat) {
    endLsn >= maxLsn || (size - |body|) % U64 == 0 || read(turns, endLsn + 1).NoData?
  }

  lemma EndedLate(redo: nat -> seq<Byte>, read: (nat, nat) -> ReadAnswer, turns: nat, start: nat, endLsn: nat,
                  lrp: nat, maxLsn: nat, size: nat)
    requires start < endLsn && lrp <= maxLsn && size < U64
    requires Ended(read, turns, LogBytes(redo, start, endLsn), endLsn, maxLsn, size)
    ensures RedoHolds(redo, read, start, lrp, size) ==> lrp <= endLsn
  {
    if endLsn < lrp { LogBytesGrow(redo, start, endLsn, lrp - 1); }
  }

  /** bak_get_log_dbstor: turns batches after `start` until the log ends, the announced size is used up
      (64-bit subtraction) or `maxLsn` is reached. Returns the file body and the LSN it claims to end at. */
  method GetLog(redo: nat -> seq<Byte>, read: (nat, nat) -> ReadAnswer, start: nat, maxLsn: nat, size: nat)
    returns (ok: bool, body: seq<Byte>, endLsn: nat, ghost turns: nat)
    requires Honest(redo, read) && start < maxLsn && 0 < size < U64
    ensures ok && body != [] ==> start < endLsn && body == LogBytes(redo, start, endLsn)
    ensures ok && body != [] ==> Ended(read, turns, body, endLsn, maxLsn, size)
    ensures ok && body == [] ==> read(0, start + 1).NoData? && endLsn == start + 1
    ensures ok ==> (read(0, start + 1).Data? <==> body != [])
    ensures read(0, start + 1).NoData? || NeverFails(read) ==> ok
  {
    hide LogBytes;
    ok, body, turns := true, [], 0;
    var startLsn, lastLsn, left := start + 1, start + 1, size;
    var k := 0;
    assert LogBytes(redo, start, start) == [] by { NoBytes(redo, start); }
    while left > 0
      invariant turns == k && left == (size - |body|) % U64
      invariant k == 0 ==> body == [] && startLsn == lastLsn == start + 1 && left > 0
      invariant k > 0 ==> body != [] && startLsn == lastLsn + 1 && start < lastLsn < maxLsn && read(0, start + 1).Data?
      invariant start < startLsn && body == LogBytes(redo, start, startLsn - 1)
      decreases maxLsn + 1 - startLsn
    {
      var a := read(k, startLsn);
      if a.Failed? {
        return false, body, lastLsn, turns;
      }
      if a.NoData? {
        break;
      }
      LogBytesConcat(redo, start, startLsn - 1, a.last);
      LeftOver(size, |body|, |a.bytes|);
      body := body + a.bytes;
      lastLsn := a.last;
      left := (left - |a.bytes|) % U64;
      startLsn := lastLsn + 1;
      k, turns := k + 1, turns + 1;
      if lastLsn >= maxLsn {
        break;
      }
    }
    endLsn := lastLsn;
  }

  lemma LeftOver(size: nat, a: nat, b: nat)
    ensures ((size - a) % U64 - b) % U64 == (size - (a + b)) % U64
  {
  }

  lemma NoBytes(redo: nat -> seq<Byte>, a: nat)
    ensures LogBytes(redo, a, a) == []
  {
  }

  /** What the top-up adds to the backup: nothing, or one file under the next ASN. */
  datatype TopUp = Nothing | File(range: Range, asn: nat, body: seq<Byte>)

  /** bak_get_logfile_dbstor with bak_generate_archfile_dbstor. `usedKb` is the size of the redo log the
      device reports. */
  method GetLogfile(redo: nat -> seq<Byte>, read: (nat, nat) -> ReadAnswer, usedKb: nat,
                    start: nat, asn: nat, lrp: nat, maxLsn: nat)
    returns (ok: bool, top: TopUp)
    requires Honest(redo, read) && start < maxLsn && usedKb < U32
    ensures ok && top.File? ==> top.range.start == start && start < top.range.end && lrp <= top.range.end
                                && top.body == LogBytes(redo, start, top.range.end) && top.asn == asn
    ensures ok ==> (top.File? <==> usedKb > 0 && read(0, start + 1).Data?)
    ensures ok && top.Nothing? && usedKb > 0 ==> lrp <= start + 1
    ensures usedKb == 0 || read(0, start + 1).NoData? ==> (ok <==> usedKb == 0 || lrp <= start + 1)
    ensures NeverFails(read) && lrp <= maxLsn ==>
              (lrp <= start + 1 || RedoHolds(redo, read, start, lrp, usedKb * 1024) ==> ok)
  {
    if usedKb <= 0 {
      return true, Nothing;
    }
    var body, endLsn;
    ghost var turns;
    ok, body, endLsn, turns := GetLog(redo, read, start, maxLsn, usedKb * 1024);
    if !ok {
      return false, Nothing;
    }
    if body != [] && lrp <= maxLsn {
      EndedLate(redo, read, turns, start, endLsn, lrp, maxLsn, usedKb * 1024);
    }
    if endLsn < lrp {
      return false, Nothing;
    }
    if body == [] {
      return true, Nothing;
    }
    return true, File(Range(start, endLsn), asn, body);
  }

  // ---- ranges without a gap ----

  ghost predicate Gapless(rs: seq<Range>) {
    && (forall k :: 0 <= k < |rs| ==> rs[k].start < rs[k].end)
    && (forall k :: 0 <= k < |rs| - 1 ==> rs[k + 1].start == rs[k].end)
  }

  ghost predicate Covered(rs: seq<Range>, lsn: nat) {
    exists k :: 0 <= k < |rs| && rs[k].start < lsn <= rs[k].end
  }

  /** The backup holds every LSN in (from, to]. */
  ghost predicate CoversAll(rs: seq<Range>, from: nat, to: nat) {
    forall lsn :: from < lsn <= to ==> Covered(rs, lsn)
  }

  lemma {:induction false} GaplessCovers(rs: seq<Range>, lsn: nat)
    requires Gapless(rs) && rs != [] && rs[0].start < lsn <= rs[|rs| - 1].end
    ensures Covered(rs, lsn)
  {
    if lsn <= rs[0].end {
    } else {
      assert |rs| > 1;
      assert forall k :: 0 <= k < |rs[1..]| ==> rs[1..][k] == rs[k + 1];
      assert rs[1].start == rs[0].end;
      GaplessCovers(rs[1..], lsn);
      var k :| 0 <= k < |rs[1..]| && rs[1..][k].start < lsn <= rs[1..][k].end;
      assert rs[k + 1].start < lsn <= rs[k + 1].end;
    }
  }

  lemma {:induction false} GaplessEnds(rs: seq<Range>, k: nat)
    requires Gapless(rs) && k < |rs|
    ensures rs[k].end <= rs[|rs| - 1].end
    decreases |rs| - k
  {
    if k < |rs| - 1 {
      GaplessEnds(rs, k + 1);
      assert rs[k + 1].start == rs[k].end;
    }
  }

  /** r is the range of the archive of h with that ASN. */
  ghost predicate RangeOf(r: Range, h: seq<Archive>, asn: nat) {
    exists a :: a in h && a.asn == asn && r == Range(a.startLsn, a.endLsn)
  }

  /** The ranges `rs` back up the run from ASN `from` up to, not including, `to`. */
  ghost predicate BacksUp(rs: seq<Range>, h: seq<Archive>, from: nat, to: nat) {
    && from <= to && |rs| == to - from
    && forall k :: 0 <= k < |rs| ==> RangeOf(rs[k], h, from + k)
  }

  lemma BacksUpMore(rs: seq<Range>, h: seq<Archive>, from: nat, to: nat, a: Archive)
    requires BacksUp(rs, h, from, to) && a in h && a.asn == to
    ensures BacksUp(rs + [Range(a.startLsn, a.endLsn)], h, from, to + 1)
  {
    assert RangeOf(Range(a.startLsn, a.endLsn), h, to);
    hide RangeOf;
  }

  /** The loop of dtc_bak_read_logfiles_dbstor over the selected archives. */
  method BackupArchives(files: seq<Archive>, start: nat, end: nat, ghost h: seq<Archive>, ghost lsn: nat)
    returns (rs: seq<Range>)
    requires IsRun(files, h, start, end, lsn)
    ensures BacksUp(rs, h, start, end + 1)
  {
    hide BacksUp, Contains;
    rs := [];
    NothingBackedUp(h, start);
    var i := start;
    while i < end + 1
      invariant start <= i <= end + 1
      invariant BacksUp(rs, h, start, i)
    {
      assert HasAsn(files, i);
      var a := GetByAsn(files, i, start, end);
      assert files[..end - start + 1] == files;
      assert a in files;
      BacksUpMore(rs, h, start, i, a);
      rs := rs + [Range(a.startLsn, a.endLsn)];
      i := i + 1;
    }
  }

  lemma NothingBackedUp(h: seq<Archive>, from: nat)
    ensures BacksUp([], h, from, from)
  {
  }

  /** The one archive with that ASN. */
  lemma RangeIs(r: Range, h: seq<Archive>, a: Archive)
    requires IsChain(h) && a in h && RangeOf(r, h, a.asn)
    ensures r == Range(a.startLsn, a.endLsn)
  {
    var b :| b in h && b.asn == a.asn && r == Range(b.startLsn, b.endLsn);
    InOrder(h, a, b);
  }

  lemma RangesAbut(r: Range, s: Range, h: seq<Archive>, asn: nat)
    requires IsChain(h) && RangeOf(r, h, asn) && RangeOf(s, h, asn + 1)
    ensures r.start < r.end == s.start
  {
    var a :| a in h && a.asn == asn && r == Range(a.startLsn, a.endLsn);
    var b :| b in h && b.asn == asn + 1 && s == Range(b.startLsn, b.endLsn);
    InOrder(h, a, b);
    NonEmpty(h, a);
  }

  lemma NonEmpty(h: seq<Archive>, a: Archive)
    requires IsChain(h) && a in h
    ensures a.startLsn < a.endLsn
  {
    var i :| 0 <= i < |h| && h[i] == a;
  }

  lemma BackedUpRange(rs: seq<Range>, h: seq<Archive>, from: nat, to: nat, first: Archive, last: Archive)
    requires IsChain(h) && BacksUp(rs, h, from, to) && from < to
    requires first in h && first.asn == from && last in h && last.asn == to - 1
    ensures Gapless(rs)
    ensures rs[0] == Range(first.startLsn, first.endLsn) && rs[|rs| - 1].end == last.endLsn
  {
    hide IsChain, RangeOf;
    RangeIs(rs[0], h, first) by { assert RangeOf(rs[0], h, from + 0); }
    RangeIs(rs[|rs| - 1], h, last) by { assert RangeOf(rs[|rs| - 1], h, from + (|rs| - 1)); }
    NonEmpty(h, last);
    forall k | 0 <= k < |rs| - 1
      ensures rs[k].start < rs[k].end && rs[k + 1].start == rs[k].end
    {
      assert RangeOf(rs[k], h, from + k) && RangeOf(rs[k + 1], h, from + (k + 1));
      RangesAbut(rs[k], rs[k + 1], h, from + k);
    }
  }

  /** Joining the archives and the top-up. `archEnd` is where the archives end. */
  ghost predicate WholeBackup(rs: seq<Range>, archEnd: nat, rcy: nat) {
    && Gapless(rs)
    && (rs == [] ==> archEnd == rcy)
    && (rs != [] ==> rs[0].start < rcy <= rs[0].end && rs[|rs| - 1].end == archEnd)
  }

  lemma JoinTopUp(rs: seq<Range>, archEnd: nat, rcy: nat, end: nat, lsn: nat)
    requires WholeBackup(rs, archEnd, rcy) && archEnd < end
    ensures Gapless(rs + [Range(archEnd, end)])
    ensures rcy < lsn <= end ==> Covered(rs + [Range(archEnd, end)], lsn)
  {
    var all := rs + [Range(archEnd, end)];
    assert forall k :: 0 <= k < |rs| ==> all[k] == rs[k];
    assert all[|all| - 1] == Range(archEnd, end);
    if rcy < lsn <= end {
      GaplessCovers(all, lsn);
    }
  }

  lemma ArchivesCover(rs: seq<Range>, archEnd: nat, rcy: nat, lsn: nat)
    requires WholeBackup(rs, archEnd, rcy) && rcy < lsn
    ensures Covered(rs, lsn) <==> lsn <= archEnd
  {
    if rs != [] {
      if lsn <= archEnd {
        GaplessCovers(rs, lsn);
      } else {
        forall k | 0 <= k < |rs| ensures lsn > rs[k].end { GaplessEnds(rs, k); }
      }
    }
  }

  /** The live log can supply what follows LSN `after`. */
  ghost predicate RedoHasNext(read: (nat, nat) -> ReadAnswer, usedKb: nat, after: nat) {
    usedKb > 0 && read(0, after + 1).Data?
  }

  /** Backs up a complete run of archives and looks up where it ends. */
  method BackupRun(files: seq<Archive>, start: nat, end: nat, ghost h: seq<Archive>, ghost rcy: nat)
    returns (rs: seq<Range>, archEnd: nat)
    requires IsChain(h) && IsRun(files, h, start, end, rcy)
    ensures WholeBackup(rs, archEnd, rcy) && |rs| == |files| && archEnd == Latest(files).endLsn
    ensures Latest(files).asn == end
  {
    hide IsChain, BacksUp, Gapless, Latest;
    rs := BackupArchives(files, start, end, h, rcy);
    BacksUpCount(rs, h, start, end + 1);
    var last := GetByAsn(files, end, start, end);
    assert files[..end - start + 1] == files;
    assert HasAsn(files, end);
    ghost var first :| first in files && Contains(first, rcy) && first.asn == start;
    BackedUpRange(rs, h, start, end + 1, first, last);
    InOrder(h, last, Latest(files));
    archEnd := last.endLsn;
  }

  lemma BacksUpCount(rs: seq<Range>, h: seq<Archive>, from: nat, to: nat)
    requires BacksUp(rs, h, from, to)
    ensures from <= to && |rs| == to - from
  {
  }

  /** Where the archives of the directory end: at the end of the needed one with the largest ASN, or at the
      recovery point when none is needed. */
  function ArchivesEnd(mine: seq<Archive>, rcy: nat, maxLrp: nat): nat {
    var p := Picked(mine, rcy, maxLrp);
    if p == [] then rcy else Latest(p).endLsn
  }

  /** The ASN after the last archive used, or after the largest there is when none is used. */
  function NextAsn(mine: seq<Archive>, rcy: nat, maxLrp: nat): nat {
    var p := Picked(mine, rcy, maxLrp);
    1 + if p != [] then Latest(p).asn else if mine != [] then Latest(mine).asn else 0
  }

  /** Where the archives end, as dtc_bak_read_logfiles_dbstor and bak_get_logfile_by_lsn_dbstor take it:
      at the last archive of the run, or at the recovery point when no archive is needed. */
  method SelectAndBackup(listing: seq<DirEntry>, ghost h: seq<Archive>, rcy: nat, maxLrp: nat)
    returns (ok: bool, rs: seq<Range>, archEnd: nat, nextAsn: nat)
    requires IsChain(h) && Present(MineOf(listing), h) && rcy <= maxLrp
    ensures ok <==> Scannable(listing, rcy, maxLrp) && ArchivesUsable(MineOf(listing), h, rcy, maxLrp)
    ensures ok ==> WholeBackup(rs, archEnd, rcy)
    ensures ok ==> |rs| == |Picked(MineOf(listing), rcy, maxLrp)|
    ensures ok ==> archEnd == ArchivesEnd(MineOf(listing), rcy, maxLrp)
    ensures ok ==> nextAsn == NextAsn(MineOf(listing), rcy, maxLrp)
  {
    hide IsChain, Present, Picked, Selected, MineOf, Latest, NoneMissing, Scannable;
    var buf := new ArchiveBuffer();
    var sel;
    ok, sel := GetArchInfo(listing, rcy, maxLrp, buf);
    if !ok {
      return false, [], 0, 0;
    }
    var files := buf.files[..buf.num];
    UsableMeans(MineOf(listing), h, rcy, maxLrp);
    if |files| != 0 && !(sel.startAsn != 0 && sel.endAsn != 0 && |files| == (sel.endAsn - sel.startAsn + 1) % U32) {
      return false, [], 0, 0;
    }
    if |files| == 0 {
      MaxAsnIsLatest(MineOf(listing), rcy, maxLrp);
      return true, [], rcy, sel.maxAsn + 1;
    }
    CountCheckSound(MineOf(listing), h, rcy, maxLrp);
    hide WholeBackup, IsRun;
    rs, archEnd := BackupRun(files, sel.startAsn, sel.endAsn, h, rcy);
    nextAsn := sel.endAsn + 1;
  }

  /** The archives of the directory can be used: none holds an LSN from the recovery point to the largest lrp
      point, or none is missing between the one with the recovery point and the last such one. */
  ghost predicate ArchivesUsable(mine: seq<Archive>, h: seq<Archive>, rcy: nat, maxLrp: nat) {
    (forall a :: a in mine ==> !Overlaps(a, rcy, maxLrp)) || NoneMissing(mine, h, rcy, maxLrp)
  }

  lemma UsableMeans(mine: seq<Archive>, h: seq<Archive>, rcy: nat, maxLrp: nat)
    requires IsChain(h) && Present(mine, h) && rcy <= maxLrp
    ensures var p := Picked(mine, rcy, maxLrp);
            CountOk(Selected(mine, rcy, maxLrp), |p|) <==> ArchivesUsable(mine, h, rcy, maxLrp)
  {
    hide IsChain, Present, Selected, Picked, Needed, Overlaps, Contains, NoneMissing;
    var p := Picked(mine, rcy, maxLrp);
    PickedFacts(mine, h, rcy, maxLrp);
    forall a | a in mine ensures a in p <==> Overlaps(a, rcy, maxLrp) {
      PresentIn(mine, h, a);
      ChainNeeded(h, a, rcy, maxLrp);
    }
    if p == [] {
      forall a | a in mine ensures !Overlaps(a, rcy, maxLrp) { assert a !in p; }
    } else {
      assert p[0] in p;
      CountCheckMeans(mine, h, rcy, maxLrp);
    }
  }

  /** ArchivesEnd is the largest end of the archives that hold an LSN of the range. */
  lemma ArchivesEndMeans(mine: seq<Archive>, h: seq<Archive>, rcy: nat, maxLrp: nat)
    requires IsChain(h) && Present(mine, h) && rcy <= maxLrp
    ensures var end := ArchivesEnd(mine, rcy, maxLrp);
            && (forall a :: a in mine && Overlaps(a, rcy, maxLrp) ==> a.endLsn <= end)
            && (end == rcy || exists a :: a in mine && Overlaps(a, rcy, maxLrp) && a.endLsn == end)
  {
    hide IsChain, Present, Picked, Needed, Overlaps, Latest;
    var p := Picked(mine, rcy, maxLrp);
    PickedFacts(mine, h, rcy, maxLrp);
    if p != [] {
      var last := Latest(p);
      PresentIn(mine, h, last);
      ChainNeeded(h, last, rcy, maxLrp);
      forall a | a in mine && Overlaps(a, rcy, maxLrp) ensures a.endLsn <= last.endLsn {
        PresentIn(mine, h, a);
        ChainNeeded(h, a, rcy, maxLrp);
        InOrder(h, a, last);
        NonEmpty(h, last);
      }
    } else {
      forall a | a in mine ensures !Overlaps(a, rcy, maxLrp) {
        PresentIn(mine, h, a);
        ChainNeeded(h, a, rcy, maxLrp);
        assert a !in p;
      }
    }
  }

  /** dtc_bak_read_logfiles_dbstor for one node whose log points need archives. h is the node's archive history,
      any part of which may still be in the directory, listed in any order. A successful backup has no gap
      between its files; it covers every LSN from the recovery point to the node's lrp point exactly when the
      archives in the directory reach the lrp point or the live log holds the LSN that follows them.
      `selected` reports that the archive stage succeeded. */
  method BackupNode(listing: seq<DirEntry>, ghost h: seq<Archive>, rcy: nat, lrp: nat, maxLrp: nat,
                    redo: nat -> seq<Byte>, read: (nat, nat) -> ReadAnswer, usedKb: nat)
    returns (ok: bool, selected: bool, rs: seq<Range>, top: TopUp)
    requires IsChain(h) && Present(MineOf(listing), h) && Honest(redo, read)
    requires rcy <= lrp <= maxLrp && usedKb < U32
    ensures selected <==> Scannable(listing, rcy, maxLrp) && ArchivesUsable(MineOf(listing), h, rcy, maxLrp)
    ensures ok ==> selected && Gapless(rs) && (rs != [] ==> rs[0].start <= rcy)
    ensures var archEnd := ArchivesEnd(MineOf(listing), rcy, maxLrp);
            && (ok ==> (CoversAll(rs, rcy, lrp) <==> lrp <= archEnd || RedoHasNext(read, usedKb, archEnd)))
            && (ok && top.File? ==> top.range.start == archEnd && rs != [] && rs[|rs| - 1] == top.range
                                    && top.body == LogBytes(redo, archEnd, top.range.end)
                                    && top.asn == NextAsn(MineOf(listing), rcy, maxLrp))
            && (selected && archEnd < maxLrp && (usedKb == 0 || read(0, archEnd + 1).NoData?) ==>
                  (ok <==> usedKb == 0 || lrp <= archEnd + 1))
            && (selected && NeverFails(read)
                && (lrp <= archEnd || RedoHolds(redo, read, archEnd, lrp, usedKb * 1024)) ==>
                  ok && CoversAll(rs, rcy, lrp))
  {
    hide IsChain, Present, MineOf, Honest, LogBytes, Gapless, ArchivesEnd, NextAsn, CoversAll, ArchivesUsable;
    hide Scannable, NeverFails;
    var archEnd, nextAsn;
    ok, rs, archEnd, nextAsn := SelectAndBackup(listing, h, rcy, maxLrp);
    top, selected := Nothing, ok;
    if !ok {
      return;
    }
    ghost var base := rs;
    if archEnd < maxLrp {
      ok, top := GetLogfile(redo, read, usedKb, archEnd, nextAsn, lrp, maxLrp);
      if !ok {
        return;
      }
      if top.File? {
        rs := rs + [top.range];
      }
    }
    CoverageExact(base, archEnd, rcy, lrp, top, rs);
  }

  lemma CoverageExact(base: seq<Range>, archEnd: nat, rcy: nat, lrp: nat, top: TopUp, rs: seq<Range>)
    requires WholeBackup(base, archEnd, rcy) && rcy <= lrp
    requires top.File? ==> top.range.start == archEnd < top.range.end && lrp <= top.range.end
    requires rs == if top.File? then base + [top.range] else base
    ensures Gapless(rs) && (rs != [] ==> rs[0].start <= rcy)
    ensures CoversAll(rs, rcy, lrp) <==> lrp <= archEnd || top.File?
  {
    hide Gapless;
    if top.File? {
      JoinTopUp(base, archEnd, rcy, top.range.end, 0);
      forall lsn | rcy < lsn <= lrp ensures Covered(rs, lsn) {
        JoinTopUp(base, archEnd, rcy, top.range.end, lsn);
      }
    } else {
      forall lsn | rcy < lsn <= lrp ensures Covered(rs, lsn) <==> lsn <= archEnd {
        ArchivesCover(base, archEnd, rcy, lsn);
      }
      if lrp > archEnd {
        ArchEndAtLeast(base, archEnd, rcy);
        assert !Covered(rs, lrp);
      }
    }
  }

  lemma ArchEndAtLeast(rs: seq<Range>, archEnd: nat, rcy: nat)
    requires WholeBackup(rs, archEnd, rcy)
    ensures rcy <= archEnd
  {
    if rs != [] { GaplessEnds(rs, 0); }
  }

  /** A backup may report success with a hole: no archive, an lrp point one past the recovery point and
      a live log that no longer holds that LSN. The claimed end is then start + 1 without any data. */
  method HoleExample() returns (ok: bool, rs: seq<Range>)
    ensures ok && !Covered(rs, 8)
  {
    var read: (nat, nat) -> ReadAnswer := (k: nat, from: nat) => NoData;
    var redo: nat -> seq<Byte> := (x: nat) => [];
    var selected, top;
    ok, selected, rs, top := BackupNode([], [], 7, 8, 8, redo, read, 4);
    assert Picked(MineOf([]), 7, 8) == [];
    assert !RedoHasNext(read, 4, 7);
    assert !CoversAll(rs, 7, 8);
  }
}
