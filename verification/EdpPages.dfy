/** Page identifiers, earlier-dirty-page (EDP) entries and the order they are sorted by. */
module EdpPages {

  const INVALID_FILE_ID: nat := 1023

  datatype PageId = PageId(file: nat, page: nat)

  /** An EDP entry: the page, the LSN up to which it may be cleaned, and the requested action. */
  datatype EdpPage = EdpPage(page: PageId, lsn: nat, action: nat)

  predicate Before(a: PageId, b: PageId) {
    a.file < b.file || (a.file == b.file && a.page < b.page)
  }

  /** The three-way comparison handed to qsort. */
  function Compare(a: PageId, b: PageId): (r: int)
    ensures r < 0 <==> Before(a, b)
    ensures r > 0 <==> Before(b, a)
    ensures r == 0 <==> a == b
  {
    var byFile := if a.file > b.file then 1 else if a.file < b.file then -1 else 0;
    if byFile != 0 then byFile
    else if a.page > b.page then 1 else if a.page < b.page then -1 else 0
  }

  predicate ValidId(p: PageId) {
    !(p.page == 0 && p.file == 0) && p.file < INVALID_FILE_ID
  }

  ghost function Pages(s: seq<EdpPage>): set<PageId> {
    if s == [] then {} else {s[0].page} + Pages(s[1..])
  }

  ghost predicate AllValid(s: seq<EdpPage>) {
    forall p :: p in Pages(s) ==> ValidId(p)
  }

  /** Sorted, entries of the same page allowed. */
  ghost predicate Ordered(s: seq<EdpPage>) {
    s == [] || ((forall p :: p in Pages(s[1..]) ==> !Before(p, s[0].page)) && Ordered(s[1..]))
  }

  /** Sorted with every page at most once. */
  ghost predicate StrictlyOrdered(s: seq<EdpPage>) {
    s == [] || ((forall p :: p in Pages(s[1..]) ==> Before(s[0].page, p)) && StrictlyOrdered(s[1..]))
  }

  lemma {:induction false} PageAt(s: seq<EdpPage>, i: nat)
    requires i < |s|
    ensures s[i].page in Pages(s)
  {
    if i > 0 { PageAt(s[1..], i - 1); }
  }

  lemma {:induction false} PageFrom(s: seq<EdpPage>, p: PageId) returns (i: nat)
    requires p in Pages(s)
    ensures i < |s| && s[i].page == p
  {
    if s[0].page == p {
      i := 0;
    } else {
      i := PageFrom(s[1..], p);
      i := i + 1;
    }
  }

  ghost predicate Pairwise(s: seq<EdpPage>) {
    forall i, j :: 0 <= i < j < |s| ==> !Before(s[j].page, s[i].page)
  }

  ghost predicate StrictlyPairwise(s: seq<EdpPage>) {
    forall i, j :: 0 <= i < j < |s| ==> Before(s[i].page, s[j].page)
  }

  /** The recursive order is the pairwise one, with or without repeated pages. */
  lemma {:induction false} OrderedPairwise(s: seq<EdpPage>)
    ensures Ordered(s) <==> Pairwise(s)
    ensures StrictlyOrdered(s) <==> StrictlyPairwise(s)
  {
    if s != [] {
      var rest := s[1..];
      OrderedPairwise(rest);
      assert forall j :: 0 <= j < |rest| ==> rest[j] == s[j + 1];
      assert forall j :: 1 <= j < |s| ==> s[j] == rest[j - 1];
      forall j | 0 <= j < |rest| ensures rest[j].page in Pages(rest) { PageAt(rest, j); }
      forall p | p in Pages(rest) ensures exists j :: 0 <= j < |rest| && rest[j].page == p {
        var j := PageFrom(rest, p);
      }
    }
  }

  lemma {:induction false} PagesOfPermutation(a: seq<EdpPage>, b: seq<EdpPage>)
    requires multiset(a) == multiset(b)
    ensures Pages(a) == Pages(b)
  {
    PagesWithin(a, b);
    PagesWithin(b, a);
  }

  lemma {:induction false} PagesWithin(a: seq<EdpPage>, b: seq<EdpPage>)
    requires multiset(a) <= multiset(b)
    ensures Pages(a) <= Pages(b)
  {
    if a != [] {
      assert a == [a[0]] + a[1..];
      assert a[0] in multiset(b);
      var k :| 0 <= k < |b| && b[k] == a[0];
      PageAt(b, k);
      PagesWithin(a[1..], b);
    }
  }

  lemma SwapPermutes(s: seq<EdpPage>, i: nat, j: nat)
    requires i < |s| && j < |s|
    ensures multiset(s[i := s[j]][j := s[i]]) == multiset(s)
  {
  }

  // ---- sorting in place, as qsort promises it ----

  function Insert(x: EdpPage, s: seq<EdpPage>): (r: seq<EdpPage>) {
    if s == [] then [x]
    else if !Before(s[0].page, x.page) then [x] + s
    else [s[0]] + Insert(x, s[1..])
  }

  lemma {:induction false} InsertKeeps(x: EdpPage, s: seq<EdpPage>)
    ensures multiset(Insert(x, s)) == multiset(s) + multiset{x}
  {
    if s != [] && Before(s[0].page, x.page) {
      InsertKeeps(x, s[1..]);
      assert s == [s[0]] + s[1..];
    }
  }

  lemma {:induction false} InsertOrdered(x: EdpPage, s: seq<EdpPage>)
    requires Ordered(s)
    ensures Ordered(Insert(x, s))
    ensures Pages(Insert(x, s)) == Pages(s) + {x.page}
  {
    if s != [] {
      if Before(s[0].page, x.page) {
        InsertOrdered(x, s[1..]);
        assert ([s[0]] + Insert(x, s[1..]))[1..] == Insert(x, s[1..]);
      } else {
        assert ([x] + s)[1..] == s;
      }
    }
  }

  function SortedCopy(s: seq<EdpPage>): (r: seq<EdpPage>)
    ensures Ordered(r)
    ensures multiset(r) == multiset(s)
  {
    if s == [] then []
    else
      InsertKeeps(s[0], SortedCopy(s[1..]));
      InsertOrdered(s[0], SortedCopy(s[1..]));
      assert s == [s[0]] + s[1..];
      Insert(s[0], SortedCopy(s[1..]))
  }

  /** ckpt_sort_page_id_array: orders the first n entries and touches nothing else. */
  method SortPrefix(a: array<EdpPage>, n: nat)
    requires n <= a.Length
    modifies a
    ensures Ordered(a[..n])
    ensures multiset(a[..n]) == multiset(old(a[..n]))
    ensures a[n..] == old(a[n..])
  {
    if n <= 1 { return; }
    var s := SortedCopy(a[..n]);
    assert |s| == n by {
      assert |multiset(s)| == |multiset(a[..n])|;
    }
    forall k | 0 <= k < n {
      a[k] := s[k];
    }
    assert a[..n] == s;
  }
}
