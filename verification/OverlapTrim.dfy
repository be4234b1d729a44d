/** Cutting from an archive file the batches the backup set already holds
    (rst_remove_duplicate_batch_archfile, rst_modify_archfile_content). */
module OverlapTrim {
  import opened Basics

  /** sizeof(log_batch_t) */
  const BATCH_HEAD_SIZE: nat := 72

  /** The fields of a batch header that restore reads. */
  datatype BatchHead = BatchHead(lsn: nat, scn: nat, spaceSize: nat)

  /** A batch as stored: its header fields and all its bytes, header and padding included. */
  datatype Batch = Batch(lsn: nat, scn: nat, raw: seq<Byte>)

  datatype LogHead = LogHead(blockSize: nat, writePos: nat, first: nat, firstLsn: nat, lastLsn: nat, asn: nat)

  /** The bytes of the batches, one after the other. */
  function Body(batches: seq<Batch>): seq<Byte> {
    if batches == [] then [] else batches[0].raw + Body(batches[1..])
  }

  /** Every batch's first bytes decode to its own header. */
  ghost predicate WellFormed(batches: seq<Batch>, parse: seq<Byte> -> BatchHead) {
    forall k :: 0 <= k < |batches| ==> Decodes(batches[k], parse)
  }

  ghost predicate Decodes(b: Batch, parse: seq<Byte> -> BatchHead) {
    |b.raw| >= BATCH_HEAD_SIZE && parse(b.raw[..BATCH_HEAD_SIZE]) == BatchHead(b.lsn, b.scn, |b.raw|)
  }

  ghost predicate Increasing(batches: seq<Batch>) {
    forall i, j :: 0 <= i < j < |batches| ==> batches[i].lsn < batches[j].lsn
  }

  /** The file holds the batches right after its header block and nothing more. */
  ghost predicate Holds(file: seq<Byte>, head: LogHead, batches: seq<Batch>) {
    head.blockSize <= |file| == head.writePos && file[head.blockSize..] == Body(batches)
  }

  /** The batches from the first one past `lsn` on. */
  function After(batches: seq<Batch>, lsn: nat): seq<Batch> {
    if batches == [] then [] else if batches[0].lsn <= lsn then After(batches[1..], lsn) else batches
  }

  lemma BodyCons(batches: seq<Batch>)
    requires batches != []
    ensures Body(batches) == batches[0].raw + Body(batches[1..])
  {
  }

  lemma Reassociate(a: seq<Byte>, b: seq<Byte>, c: seq<Byte>)
    ensures a + (b + c) == (a + b) + c
  {
  }

  lemma {:induction false} BodySplit(batches: seq<Batch>, n: nat)
    requires n <= |batches|
    ensures Body(batches) == Body(batches[..n]) + Body(batches[n..])
  {
    if n == 0 {
      assert batches[..0] == [] && batches[0..] == batches;
    } else {
      hide Body;
      BodySplit(batches[1..], n - 1);
      assert batches[..n][0] == batches[0] && batches[..n][1..] == batches[1..][..n - 1];
      assert batches[1..][n - 1..] == batches[n..];
      BodyCons(batches);
      BodyCons(batches[..n]);
      Reassociate(batches[0].raw, Body(batches[1..][..n - 1]), Body(batches[n..]));
    }
  }

  /** What the reader finds at the offset of batch n. */
  lemma AtBatch(file: seq<Byte>, head: LogHead, batches: seq<Batch>, n: nat, parse: seq<Byte> -> BatchHead)
    requires Holds(file, head, batches) && WellFormed(batches, parse) && n <= |batches|
    ensures var off := head.blockSize + |Body(batches[..n])|;
            && off + |Body(batches[n..])| == |file|
            && file[off..] == Body(batches[n..])
            && (n < |batches| ==>
                  && off + BATCH_HEAD_SIZE <= |file|
                  && parse(file[off..off + BATCH_HEAD_SIZE])
                     == BatchHead(batches[n].lsn, batches[n].scn, |batches[n].raw|)
                  && |Body(batches[..n + 1])| == |Body(batches[..n])| + |batches[n].raw|)
            && (n == |batches| ==> off == |file|)
  {
    var off := head.blockSize + |Body(batches[..n])|;
    BodySplit(batches, n);
    assert file[off..] == file[head.blockSize..][|Body(batches[..n])|..];
    if n < |batches| {
      var b := batches[n];
      assert Decodes(b, parse);
      assert Body(batches[n..]) == b.raw + Body(batches[n..][1..]);
      assert file[off..off + BATCH_HEAD_SIZE] == file[off..][..BATCH_HEAD_SIZE] == b.raw[..BATCH_HEAD_SIZE];
      BodySplit(batches[..n + 1], n);
      assert batches[..n + 1][..n] == batches[..n] && batches[..n + 1][n..] == [b];
      assert Body([b]) == b.raw by { assert [b][1..] == []; assert Body([]) == []; }
    }
  }

  lemma {:induction false} AfterAt(batches: seq<Batch>, lsn: nat, n: nat)
    requires n <= |batches|
    requires forall k :: 0 <= k < n ==> batches[k].lsn <= lsn
    requires n == |batches| || batches[n].lsn > lsn
    ensures After(batches, lsn) == batches[n..]
  {
    if n > 0 {
      assert forall k :: 0 <= k < n - 1 ==> batches[1..][k] == batches[k + 1];
      AfterAt(batches[1..], lsn, n - 1);
      assert batches[1..][n - 1..] == batches[n..];
    }
  }

  /** The first loop: skips the batches up to endLsn. Fails exactly when there is none past it. */
  method SkipDuplicates(file: seq<Byte>, head: LogHead, endLsn: nat, parse: seq<Byte> -> BatchHead,
                        ghost batches: seq<Batch>)
    returns (ok: bool, offset: nat, first: nat)
    requires Holds(file, head, batches) && WellFormed(batches, parse)
    ensures ok <==> After(batches, endLsn) != []
    ensures ok ==> offset <= |file| && file[offset..] == Body(After(batches, endLsn)) && head.blockSize <= offset
    ensures ok ==> first == After(batches, endLsn)[0].scn
  {
    hide Body, After, Holds, WellFormed;
    offset := head.blockSize;
    ghost var n := 0;
    NoBatches(batches);
    while true
      invariant n <= |batches| && offset == head.blockSize + |Body(batches[..n])|
      invariant forall k :: 0 <= k < n ==> batches[k].lsn <= endLsn
      decreases |batches| - n
    {
      AtBatch(file, head, batches, n, parse);
      if offset + BATCH_HEAD_SIZE > |file| {
        AfterAt(batches, endLsn, n);
        return false, offset, 0;
      }
      HeaderMeansBatch(file, head, batches, n);
      var b := parse(file[offset..offset + BATCH_HEAD_SIZE]);
      if b.lsn > endLsn {
        AfterAt(batches, endLsn, n);
        return true, offset, b.scn;
      }
      offset := offset + b.spaceSize;
      n := n + 1;
    }
  }

  lemma NoBatches(batches: seq<Batch>)
    ensures |Body(batches[..0])| == 0
  {
  }

  lemma HeaderMeansBatch(file: seq<Byte>, head: LogHead, batches: seq<Batch>, n: nat)
    requires Holds(file, head, batches) && n <= |batches|
    requires head.blockSize + |Body(batches[..n])| + BATCH_HEAD_SIZE <= |file|
    ensures n < |batches|
  {
    assert batches[..|batches|] == batches;
  }

  /** rst_remove_duplicate_batch_archfile. `chunk(k)` is the number of bytes the device would return at
      the k-th read of the copy, cut to the buffer and to the end of the file. Returns the bytes written
      after the new file's header block and the new header. */
  method RemoveDuplicates(file: seq<Byte>, head: LogHead, endLsn: nat, parse: seq<Byte> -> BatchHead,
                          chunk: nat -> nat, bufSize: nat, ghost batches: seq<Batch>)
    returns (ok: bool, out: seq<Byte>, newHead: LogHead)
    requires Holds(file, head, batches) && WellFormed(batches, parse)
    requires 1 <= bufSize && forall k :: 1 <= chunk(k)
    ensures ok <==> After(batches, endLsn) != []
    ensures ok ==> out == Body(After(batches, endLsn))
    ensures ok ==> newHead == head.(first := After(batches, endLsn)[0].scn, writePos := head.blockSize + |out|)
  {
    hide Body, After, WellFormed;
    out, newHead := [], head;
    var offsetRead, first;
    ok, offsetRead, first := SkipDuplicates(file, head, endLsn, parse, batches);
    if !ok {
      return;
    }
    ghost var from := offsetRead;
    var offsetWrite, k := head.blockSize, 0;
    while offsetRead < head.writePos
      invariant from <= offsetRead <= |file|
      invariant out == file[from..offsetRead]
      invariant offsetWrite == head.blockSize + |out|
    {
      var readSize := Min(Min(chunk(k), bufSize), |file| - offsetRead);
      out := out + file[offsetRead..offsetRead + readSize];
      offsetRead := offsetRead + readSize;
      offsetWrite := offsetWrite + readSize;
      k := k + 1;
    }
    assert file[from..|file|] == file[from..];
    newHead := head.(first := first, writePos := offsetWrite);
  }

  /** The batches whose LSN is past `lsn`, in order: what the backup set does not hold yet. */
  function PastLsn(batches: seq<Batch>, lsn: nat): seq<Batch> {
    if batches == [] then []
    else (if batches[0].lsn > lsn then [batches[0]] else []) + PastLsn(batches[1..], lsn)
  }

  lemma {:induction false} PastAll(batches: seq<Batch>, lsn: nat)
    requires forall k :: 0 <= k < |batches| ==> batches[k].lsn > lsn
    ensures PastLsn(batches, lsn) == batches
  {
    if batches != [] {
      assert forall k :: 0 <= k < |batches[1..]| ==> batches[1..][k] == batches[k + 1];
      PastAll(batches[1..], lsn);
      assert batches == [batches[0]] + batches[1..];
    }
  }

  /** Where LSNs increase, skipping to the first batch past `lsn` keeps exactly the batches past it. */
  lemma {:induction false} AfterIsPast(batches: seq<Batch>, lsn: nat)
    requires Increasing(batches)
    ensures After(batches, lsn) == PastLsn(batches, lsn)
  {
    if batches != [] {
      assert forall k :: 0 <= k < |batches[1..]| ==> batches[1..][k] == batches[k + 1];
      if batches[0].lsn <= lsn {
        AfterIsPast(batches[1..], lsn);
      } else {
        PastAll(batches, lsn);
      }
    }
  }

  /** rst_modify_archfile_content: the trimmed file as registered afterwards. For increasing LSNs its
      body is byte for byte the batches past endLsn, and it is again a file that holds exactly them. */
  method ModifyArchfile(file: seq<Byte>, head: LogHead, endLsn: nat, localEndLsn: nat, lastAsn: nat,
                        parse: seq<Byte> -> BatchHead, chunk: nat -> nat, bufSize: nat,
                        ghost batches: seq<Batch>)
    returns (ok: bool, newFile: seq<Byte>, newHead: LogHead, asn: nat)
    requires Holds(file, head, batches) && WellFormed(batches, parse) && Increasing(batches)
    requires 1 <= bufSize && forall k :: 1 <= chunk(k)
    ensures ok <==> PastLsn(batches, endLsn) != []
    ensures ok ==> Holds(newFile, newHead, PastLsn(batches, endLsn))
    ensures ok ==> newHead.first == PastLsn(batches, endLsn)[0].scn && newHead.blockSize == head.blockSize
    ensures ok ==> newHead.firstLsn == endLsn && newHead.lastLsn == localEndLsn
    ensures ok ==> newHead.asn == asn == lastAsn + 1
    ensures !ok ==> asn == lastAsn
  {
    hide Body, After, WellFormed, PastLsn;
    AfterIsPast(batches, endLsn);
    var out;
    ok, out, newHead := RemoveDuplicates(file, head, endLsn, parse, chunk, bufSize, batches);
    newFile, asn := [], lastAsn;
    if !ok {
      return;
    }
    asn := lastAsn + 1;
    newHead := newHead.(firstLsn := endLsn, lastLsn := localEndLsn, asn := asn);
    newFile := file[..head.blockSize] + out;
    assert newFile[head.blockSize..] == out;
  }

  /** Trimming is idempotent: what is kept is still well formed, increasing and past the same LSN. */
  lemma {:induction false} TrimmedAgain(batches: seq<Batch>, lsn: nat, parse: seq<Byte> -> BatchHead)
    requires Increasing(batches) && WellFormed(batches, parse)
    ensures PastLsn(PastLsn(batches, lsn), lsn) == PastLsn(batches, lsn)
    ensures Increasing(PastLsn(batches, lsn)) && WellFormed(PastLsn(batches, lsn), parse)
  {
    PastIsSuffix(batches, lsn);
    var n :| 0 <= n <= |batches| && PastLsn(batches, lsn) == batches[n..];
    SuffixKeeps(batches, n, parse);
    PastAbove(batches, lsn);
    PastAll(PastLsn(batches, lsn), lsn);
    hide PastLsn, Increasing, WellFormed;
  }

  lemma SuffixKeeps(batches: seq<Batch>, n: nat, parse: seq<Byte> -> BatchHead)
    requires n <= |batches| && Increasing(batches) && WellFormed(batches, parse)
    ensures Increasing(batches[n..]) && WellFormed(batches[n..], parse)
  {
    hide Decodes;
    assert forall k :: 0 <= k < |batches[n..]| ==> batches[n..][k] == batches[n + k];
  }

  lemma {:induction false} PastAbove(batches: seq<Batch>, lsn: nat)
    ensures forall k :: 0 <= k < |PastLsn(batches, lsn)| ==> PastLsn(batches, lsn)[k].lsn > lsn
  {
    if batches != [] { PastAbove(batches[1..], lsn); }
  }

  lemma {:induction false} PastIsSuffix(batches: seq<Batch>, lsn: nat)
    requires Increasing(batches)
    ensures exists n :: 0 <= n <= |batches| && PastLsn(batches, lsn) == batches[n..]
  {
    if batches == [] {
      assert PastLsn(batches, lsn) == batches[0..];
    } else if batches[0].lsn > lsn {
      PastAll(batches, lsn);
      assert batches[0..] == batches;
    } else {
      assert forall k :: 0 <= k < |batches[1..]| ==> batches[1..][k] == batches[k + 1];
      PastIsSuffix(batches[1..], lsn);
      var n :| 0 <= n <= |batches[1..]| && PastLsn(batches[1..], lsn) == batches[1..][n..];
      assert batches[1..][n..] == batches[n + 1..];
    }
  }
}
