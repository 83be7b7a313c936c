/** ORDER BY with LIMIT: the database may order ties as it likes, so a page is any list that the
    clauses allow. */
module Pages {
  import opened Sequences

  /** `page` is what `rows` ordered by `le` and cut off at `limit` may look like. */
  ghost predicate IsPage<K(!new)>(page: seq<K>, rows: set<K>, le: (K, K) -> bool, limit: nat) {
    && Distinct(page)
    && Elements(page) <= rows
    && |page| == (if limit < |rows| then limit else |rows|)
    && (forall i, j :: 0 <= i < j < |page| ==> le(page[i], page[j]))
    && (forall p, r :: p in page && r in rows && r !in page ==> le(p, r))
  }

  /** A limit that is not reached cuts nothing off. */
  lemma WholePage<K(!new)>(page: seq<K>, rows: set<K>, le: (K, K) -> bool, limit: nat)
    requires IsPage(page, rows, le, limit) && |rows| <= limit
    ensures Elements(page) == rows
  {
    DistinctSize(page);
    SubsetOfSameSize(Elements(page), rows);
  }

  /** Where all rows tie, any choice of them is a page. */
  lemma AnyPageOfTies<K(!new)>(page: seq<K>, rows: set<K>, le: (K, K) -> bool, limit: nat)
    requires Distinct(page) && Elements(page) <= rows && |page| == if limit < |rows| then limit else |rows|
    requires forall a, b :: le(a, b)
    ensures IsPage(page, rows, le, limit)
  {
  }

  /** Without ties there is only one possible page. */
  lemma {:induction false} PageIsUnique<K(!new)>(a: seq<K>, b: seq<K>, rows: set<K>, le: (K, K) -> bool, limit: nat)
    requires IsPage(a, rows, le, limit) && IsPage(b, rows, le, limit)
    requires forall x, y :: x in rows && y in rows && le(x, y) && le(y, x) ==> x == y
    ensures a == b
    decreases |a|
  {
    if a != [] {
      var x, y := a[0], b[0];
      assert x in Elements(a) && y in Elements(b);
      HeadIsLeast(a, rows, le, limit, y);
      HeadIsLeast(b, rows, le, limit, x);
      assert x == y;
      PageTail(a, rows, le, limit);
      PageTail(b, rows, le, limit);
      PageIsUnique(a[1..], b[1..], rows - {x}, le, limit - 1);
      assert a == [x] + a[1..] && b == [y] + b[1..];
    }
  }

  lemma HeadIsLeast<K(!new)>(page: seq<K>, rows: set<K>, le: (K, K) -> bool, limit: nat, r: K)
    requires IsPage(page, rows, le, limit) && page != [] && r in rows
    ensures r == page[0] || le(page[0], r)
  {
    if r in page {
      var i :| 0 <= i < |page| && page[i] == r;
    }
  }

  lemma PageTail<K(!new)>(page: seq<K>, rows: set<K>, le: (K, K) -> bool, limit: nat)
    requires IsPage(page, rows, le, limit) && page != []
    ensures limit > 0 && IsPage(page[1..], rows - {page[0]}, le, limit - 1)
  {
    DistinctCons(page);
    assert page[0] in Elements(page);
    assert page == [page[0]] + page[1..];
  }

  /** A page followed by a page of the remaining rows is a page with the summed limit. */
  lemma PageConcat<K(!new)>(a: seq<K>, b: seq<K>, rows: set<K>, le: (K, K) -> bool, m: nat, n: nat)
    requires IsPage(a, rows, le, m) && IsPage(b, rows - Elements(a), le, n)
    ensures IsPage(a + b, rows, le, m + n)
    ensures rows - Elements(a + b) == rows - Elements(a) - Elements(b)
  {
    var all := a + b;
    assert forall k :: k in a ==> k in Elements(a);
    assert forall k :: k in b ==> k in Elements(b);
    assert forall k :: k in all <==> k in a || k in b;
    DistinctSize(a);
    assert |rows - Elements(a)| == |rows| - |a|;
    forall i, j | 0 <= i < j < |all| ensures all[i] != all[j] && le(all[i], all[j]) {
      if i < |a| <= j {
        assert all[i] == a[i] && all[j] == b[j - |a|];
        assert a[i] in a && b[j - |a|] in Elements(b);
      } else if |a| <= i {
        assert all[i] == b[i - |a|] && all[j] == b[j - |a|];
      }
    }
    assert Elements(all) == Elements(a) + Elements(b);
    forall p, r | p in all && r in rows && r !in all ensures le(p, r) {
      assert r in rows - Elements(a);
    }
  }

  /** LIMIT with OFFSET: what follows the first `offset` rows of a longer page. */
  ghost predicate IsWindow<K(!new)>(page: seq<K>, rows: set<K>, le: (K, K) -> bool, limit: nat, offset: nat) {
    exists skipped: seq<K> :: |skipped| == (if offset < |rows| then offset else |rows|) && IsPage(skipped + page, rows, le, offset + limit)
  }

  lemma WindowElements<K(!new)>(page: seq<K>, rows: set<K>, le: (K, K) -> bool, limit: nat, offset: nat)
    requires IsWindow(page, rows, le, limit, offset)
    ensures Elements(page) <= rows && Distinct(page)
  {
    var skipped :| |skipped| == (if offset < |rows| then offset else |rows|) && IsPage(skipped + page, rows, le, offset + limit);
    assert forall i :: 0 <= i < |page| ==> page[i] == (skipped + page)[|skipped| + i];
    assert forall k :: k in page ==> k in Elements(skipped + page);
  }

  /** Without an offset it is the page itself. */
  lemma WindowAtZero<K(!new)>(page: seq<K>, rows: set<K>, le: (K, K) -> bool, limit: nat)
    ensures IsWindow(page, rows, le, limit, 0) <==> IsPage(page, rows, le, limit)
  {
    assert [] + page == page;
    if IsWindow(page, rows, le, limit, 0) {
      var skipped :| |skipped| == 0 && IsPage(skipped + page, rows, le, 0 + limit);
      assert skipped + page == page;
    }
  }
}
