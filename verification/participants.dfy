/** How a new chat's participant list is normalised: append, sort, unique, erase. */
module Participants {
  import opened Sequences
  import opened Tables

  /** The lexicographical operator< of the id classes. */
  predicate LessText(a: string, b: string) {
    if b == "" then false
    else if a == "" then true
    else a[0] < b[0] || (a[0] == b[0] && LessText(a[1..], b[1..]))
  }

  /** The texts agree up to some place, where the first one ends or has the smaller character. */
  lemma {:induction false} LessTextExactly(a: string, b: string)
    ensures LessText(a, b) <==> exists k: nat :: DiffersAt(a, b, k)
  {
    if a != "" && b != "" {
      LessTextExactly(a[1..], b[1..]);
      if k: nat :| DiffersAt(a[1..], b[1..], k) {
        if a[0] == b[0] {
          assert a[..k + 1] == [a[0]] + a[1..][..k] && b[..k + 1] == [b[0]] + b[1..][..k];
          assert DiffersAt(a, b, k + 1);
        }
      }
      if k: nat :| DiffersAt(a, b, k) {
        if k > 0 {
          assert a[0] == a[..k][0] == b[..k][0] == b[0];
          assert a[1..][..k - 1] == a[..k][1..] == b[..k][1..] == b[1..][..k - 1];
          assert DiffersAt(a[1..], b[1..], k - 1);
        }
      }
      if a[0] < b[0] { assert DiffersAt(a, b, 0); }
    } else if a == "" && b != "" {
      assert DiffersAt(a, b, 0);
    }
  }

  predicate DiffersAt(a: string, b: string, k: nat) {
    k <= |a| && k < |b| && a[..k] == b[..k] && (k == |a| || a[k] < b[k])
  }

  predicate Less(a: UserId, b: UserId) {
    LessText(a.text, b.text)
  }

  lemma {:induction false} LessTextTotal(a: string, b: string)
    ensures a == b || LessText(a, b) || LessText(b, a)
    ensures !(LessText(a, b) && LessText(b, a))
    ensures !LessText(a, a)
    decreases |a|
  {
    if a != "" {
      LessTextTotal(a[1..], a[1..]);
      if b != "" {
        LessTextTotal(a[1..], b[1..]);
        assert a == [a[0]] + a[1..] && b == [b[0]] + b[1..];
      }
    }
  }

  lemma {:induction false} LessTextTransitive(a: string, b: string, c: string)
    requires LessText(a, b) && LessText(b, c)
    ensures LessText(a, c)
    decreases |a|
  {
    if a != "" && a[0] == b[0] == c[0] {
      LessTextTransitive(a[1..], b[1..], c[1..]);
    }
  }

  predicate Sorted(s: seq<UserId>) {
    forall i, j :: 0 <= i < j < |s| ==> !Less(s[j], s[i])
  }

  predicate Ascending(s: seq<UserId>) {
    forall i, j :: 0 <= i < j < |s| ==> Less(s[i], s[j])
  }

  lemma InsertSorted(s: seq<UserId>, k: nat, x: UserId)
    requires Sorted(s) && k <= |s|
    requires k > 0 ==> !Less(x, s[k - 1])
    requires forall q :: k <= q < |s| ==> Less(x, s[q])
    ensures Sorted(s[..k] + [x] + s[k..])
  {
    var r := s[..k] + [x] + s[k..];
    forall p, q | 0 <= p < q < |r| ensures !Less(r[q], r[p]) {
      if q == k {
        if p < k - 1 && Less(x, s[p]) { NotLess(s[k - 1], x, s[p]); }
      } else if p == k {
        LessTextTotal(x.text, s[q - 1].text);
      }
    }
  }

  lemma NotLess(x: UserId, y: UserId, z: UserId)
    requires !Less(y, x) && Less(y, z)
    ensures Less(x, z)
  {
    LessTextTotal(x.text, y.text);
    if x.text != y.text {
      LessTextTransitive(x.text, y.text, z.text);
    }
  }

  /** std::sort, as an insertion sort: any sorted permutation would do, see NormaliseIsDetermined. */
  method Sort(s: seq<UserId>) returns (r: seq<UserId>)
    ensures Sorted(r)
    ensures multiset(r) == multiset(s)
  {
    r := [];
    for i := 0 to |s|
      invariant Sorted(r)
      invariant multiset(r) == multiset(s[..i])
    {
      var k := |r|;
      while k > 0 && Less(s[i], r[k - 1])
        invariant 0 <= k <= |r|
        invariant forall q :: k <= q < |r| ==> Less(s[i], r[q])
      {
        k := k - 1;
      }
      InsertSorted(r, k, s[i]);
      assert r == r[..k] + r[k..];
      assert s[..i + 1] == s[..i] + [s[i]];
      r := r[..k] + [s[i]] + r[k..];
    }
    assert s[..|s|] == s;
  }

  /** std::ranges::unique followed by erase, on the sorted list. */
  method EraseAdjacentDuplicates(s: seq<UserId>) returns (r: seq<UserId>)
    requires Sorted(s)
    ensures Ascending(r)
    ensures Elements(r) == Elements(s)
  {
    r := [];
    for i := 0 to |s|
      invariant Ascending(r)
      invariant Elements(r) == Elements(s[..i])
      invariant if i == 0 then r == [] else r != [] && r[|r| - 1] == s[i - 1]
    {
      assert Elements(s[..i + 1]) == Elements(s[..i]) + {s[i]} by {
        assert s[..i + 1] == s[..i] + [s[i]];
      }
      if i == 0 || s[i] != s[i - 1] {
        if i > 0 { AppendAscending(r, s[i - 1], s[i]); }
        assert Elements(r + [s[i]]) == Elements(r) + {s[i]};
        r := r + [s[i]];
      } else {
        assert s[i] in Elements(r);
      }
    }
    assert s[..|s|] == s;
  }

  lemma AppendAscending(r: seq<UserId>, last: UserId, next: UserId)
    requires Ascending(r) && r != [] && r[|r| - 1] == last && last != next && !Less(next, last)
    ensures Ascending(r + [next])
  {
    LessTextTotal(last.text, next.text);
    forall k | 0 <= k < |r| ensures Less(r[k], next) {
      if k < |r| - 1 { LessTextTransitive(r[k].text, last.text, next.text); }
    }
  }

  method Normalise(creator: UserId, others: seq<UserId>) returns (r: seq<UserId>)
    ensures Ascending(r)
    ensures Elements(r) == {creator} + Elements(others)
  {
    var all := [creator] + others;
    var sorted := Sort(all);
    SameElements(sorted, all);
    assert Elements(all) == {creator} + Elements(others);
    r := EraseAdjacentDuplicates(sorted);
  }

  lemma SameElements(r: seq<UserId>, s: seq<UserId>)
    requires multiset(r) == multiset(s)
    ensures Elements(r) == Elements(s)
  {
    assert forall u :: u in r <==> u in multiset(r);
    assert forall u :: u in s <==> u in multiset(s);
  }

  /** An ascending list repeats no text. */
  lemma AscendingIsDistinct(s: seq<UserId>)
    requires Ascending(s)
    ensures Distinct(s)
  {
    forall i, j | 0 <= i < j < |s| ensures s[i] != s[j] {
      LessTextTotal(s[i].text, s[j].text);
    }
  }

  /** The set alone determines the normalised list, so it does not depend on the sorting
      algorithm or on the order in which the request names the participants. */
  lemma {:induction false} NormaliseIsDetermined(r: seq<UserId>, s: seq<UserId>)
    requires Ascending(r) && Ascending(s) && Elements(r) == Elements(s)
    ensures r == s
    decreases |r|
  {
    if r == [] {
      assert forall k :: 0 <= k < |s| ==> s[k] in Elements(s);
    } else {
      assert r[0] in Elements(r);
      assert s != [];
      assert s[0] in Elements(s);
      FirstIsLeast(r, s[0]);
      FirstIsLeast(s, r[0]);
      LessTextTotal(r[0].text, s[0].text);
      AscendingIsDistinct(r);
      AscendingIsDistinct(s);
      DistinctCons(r);
      DistinctCons(s);
      assert Elements(r[1..]) == Elements(r) - {r[0]} == Elements(s[1..]);
      NormaliseIsDetermined(r[1..], s[1..]);
      assert r == [r[0]] + r[1..] && s == [s[0]] + s[1..];
    }
  }

  lemma FirstIsLeast(s: seq<UserId>, u: UserId)
    requires Ascending(s) && u in s
    ensures s[0] == u || Less(s[0], u)
  {
  }
}
