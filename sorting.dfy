/**
 * The merge of both sources and the descending sort by date.  The script sorts
 * its array in place with `Array.prototype.sort`, which is stable, and a
 * three-way comparator that puts the later date first.
 */
module Sorting {
  import opened Articles

  /** The comparator passed to `sort`: positive when `r` must come before `l`. */
  function Compare(l: ArticleInfo, r: ArticleInfo): (c: int)
    ensures c > 0 <==> l.date < r.date
    ensures c < 0 <==> l.date > r.date
    ensures c == 0 <==> l.date == r.date
  {
    if l.date < r.date then 1
    else if l.date > r.date then -1
    else 0
  }

  /** Non-increasing by date. */
  ghost predicate SortedDesc(s: seq<ArticleInfo>) {
    forall i, j :: 0 <= i < j < |s| ==> s[i].date >= s[j].date
  }

  /** The records of `s` dated `d`, in their order in `s`. */
  function OfDate(s: seq<ArticleInfo>, d: int): seq<ArticleInfo> {
    if s == [] then []
    else (if s[0].date == d then [s[0]] else []) + OfDate(s[1..], d)
  }

  /** `t` keeps, for every date, exactly the records of `s` with that date in
      the same relative order: what a stable sort by date preserves. */
  ghost predicate SameDateOrder(s: seq<ArticleInfo>, t: seq<ArticleInfo>) {
    forall d :: OfDate(s, d) == OfDate(t, d)
  }

  lemma {:induction false} OfDateAppend(s: seq<ArticleInfo>, t: seq<ArticleInfo>, d: int)
    ensures OfDate(s + t, d) == OfDate(s, d) + OfDate(t, d)
  {
    if s == [] {
      assert s + t == t;
    } else {
      var h := if s[0].date == d then [s[0]] else [];
      assert (s + t)[0] == s[0];
      assert (s + t)[1..] == s[1..] + t;
      OfDateAppend(s[1..], t, d);
      calc {
        OfDate(s + t, d);
        h + OfDate(s[1..] + t, d);
        h + (OfDate(s[1..], d) + OfDate(t, d));
        (h + OfDate(s[1..], d)) + OfDate(t, d);
      }
    }
  }

  /** Exchanging two neighbours with different dates keeps every date's order. */
  lemma SwapKeepsDateOrder(s: seq<ArticleInfo>, k: nat)
    requires k + 1 < |s| && s[k].date != s[k + 1].date
    ensures SameDateOrder(s, Swapped(s, k))
  {
    var t := s[..k] + [s[k + 1], s[k]] + s[k + 2..];
    assert s == s[..k] + [s[k], s[k + 1]] + s[k + 2..];
    forall d ensures OfDate(s, d) == OfDate(t, d) {
      OfDateAppend(s[..k] + [s[k], s[k + 1]], s[k + 2..], d);
      OfDateAppend(s[..k], [s[k], s[k + 1]], d);
      OfDateAppend(s[..k] + [s[k + 1], s[k]], s[k + 2..], d);
      OfDateAppend(s[..k], [s[k + 1], s[k]], d);
      assert [s[k], s[k + 1]][1..] == [s[k + 1]];
      assert [s[k + 1], s[k]][1..] == [s[k]];
    }
  }

  /** How often `e` occurs in `s` is how often it occurs among the records of its date. */
  lemma {:induction false} OfDateCount(s: seq<ArticleInfo>, e: ArticleInfo)
    ensures multiset(OfDate(s, e.date))[e] == multiset(s)[e]
  {
    if s != [] {
      OfDateCount(s[1..], e);
      assert s == [s[0]] + s[1..];
    }
  }

  /** Keeping every date's order keeps every record: the result is a permutation. */
  lemma SameDateOrderPermutation(s: seq<ArticleInfo>, t: seq<ArticleInfo>)
    requires SameDateOrder(s, t)
    ensures multiset(s) == multiset(t)
  {
    forall e ensures multiset(s)[e] == multiset(t)[e] {
      OfDateCount(s, e);
      OfDateCount(t, e);
      assert OfDate(s, e.date) == OfDate(t, e.date);
    }
  }

  lemma SameDateOrderTrans(s: seq<ArticleInfo>, t: seq<ArticleInfo>, u: seq<ArticleInfo>)
    requires SameDateOrder(s, t) && SameDateOrder(t, u)
    ensures SameDateOrder(s, u)
  {
    forall d ensures OfDate(s, d) == OfDate(u, d) {
      assert OfDate(s, d) == OfDate(t, d);
    }
  }

  /** `s` with its neighbours at `k` and `k + 1` exchanged. */
  function Swapped(s: seq<ArticleInfo>, k: nat): seq<ArticleInfo>
    requires k + 1 < |s|
  {
    s[..k] + [s[k + 1], s[k]] + s[k + 2..]
  }

  /** One step of the insertion: exchange `a[k]` and `a[k + 1]`. */
  method SwapAdjacent(a: array<ArticleInfo>, k: nat)
    requires k + 1 < a.Length
    modifies a
    ensures a[..] == Swapped(old(a[..]), k)
  {
    a[k], a[k + 1] := a[k + 1], a[k];
  }

  /** While `InsertAt` runs: `s[..i + 1]` is sorted except around position
      `j`, and the record at `j` is later than everything after it up to `i`. */
  ghost predicate Inserting(s: seq<ArticleInfo>, i: nat, j: nat) {
    && j <= i < |s|
    && (forall p, q :: 0 <= p < q <= i && p != j && q != j ==> s[p].date >= s[q].date)
    && (forall q :: j < q <= i ==> s[j].date > s[q].date)
  }

  lemma InsertingStart(s: seq<ArticleInfo>, i: nat)
    requires i < |s|
    requires forall p, q :: 0 <= p < q < i ==> s[p].date >= s[q].date
    ensures Inserting(s, i, i)
  {
  }

  /** Moving the record at `j` one place left keeps the insertion invariant
      and leaves everything after `i` alone. */
  lemma InsertingStep(s: seq<ArticleInfo>, i: nat, j: nat)
    requires Inserting(s, i, j) && 0 < j && s[j - 1].date < s[j].date
    ensures Inserting(Swapped(s, j - 1), i, j - 1)
    ensures Swapped(s, j - 1)[i + 1..] == s[i + 1..]
  {
    var t := Swapped(s, j - 1);
    assert forall q :: 0 <= q < |s| && q != j - 1 && q != j ==> t[q] == s[q];
    assert t[j - 1] == s[j] && t[j] == s[j - 1];
  }

  lemma InsertingDone(s: seq<ArticleInfo>, i: nat, j: nat)
    requires Inserting(s, i, j) && (j == 0 || s[j - 1].date >= s[j].date)
    ensures forall p, q :: 0 <= p < q <= i ==> s[p].date >= s[q].date
  {
  }

  /** Moves `a[i]` left into the sorted prefix `a[..i]`, past every record
      with a strictly earlier date. */
  method InsertAt(a: array<ArticleInfo>, i: nat)
    requires i < a.Length
    requires forall p, q :: 0 <= p < q < i ==> a[p].date >= a[q].date
    modifies a
    ensures forall p, q :: 0 <= p < q <= i ==> a[p].date >= a[q].date
    ensures SameDateOrder(old(a[..]), a[..])
    ensures a[i + 1..] == old(a[i + 1..])
  {
    InsertingStart(a[..], i);
    var j: nat := i;
    while j > 0 && Compare(a[j - 1], a[j]) > 0
      invariant Inserting(a[..], i, j)
      invariant SameDateOrder(old(a[..]), a[..])
      invariant a[i + 1..] == old(a[i + 1..])
    {
      ghost var before := a[..];
      SwapAdjacent(a, j - 1);
      InsertingStep(before, i, j);
      SwapKeepsDateOrder(before, j - 1);
      SameDateOrderTrans(old(a[..]), before, a[..]);
      j := j - 1;
    }
    InsertingDone(a[..], i, j);
  }

  /** In-place insertion sort with `Compare`: records with equal dates never
      pass each other. */
  method SortByDateDesc(a: array<ArticleInfo>)
    modifies a
    ensures SortedDesc(a[..])
    ensures SameDateOrder(old(a[..]), a[..])
  {
    var i := 0;
    while i < a.Length
      invariant 0 <= i <= a.Length
      invariant forall p, q :: 0 <= p < q < i ==> a[p].date >= a[q].date
      invariant SameDateOrder(old(a[..]), a[..])
    {
      ghost var before := a[..];
      InsertAt(a, i);
      SameDateOrderTrans(old(a[..]), before, a[..]);
      i := i + 1;
    }
  }

  lemma {:induction false} OfDateMembers(s: seq<ArticleInfo>, d: int)
    ensures forall x :: x in OfDate(s, d) <==> x in s && x.date == d
  {
    if s != [] {
      OfDateMembers(s[1..], d);
      assert s == [s[0]] + s[1..];
    }
  }

  /** A sorted order that keeps every date's order is unique: the result does
      not depend on which stable sorting algorithm the engine runs. */
  lemma {:induction false} StableSortUnique(t: seq<ArticleInfo>, u: seq<ArticleInfo>)
    requires SortedDesc(t) && SortedDesc(u) && SameDateOrder(t, u)
    ensures t == u
  {
    if t == [] || u == [] {
      var w := if t == [] then u else t;
      if w != [] {
        OfDateMembers(t, w[0].date);
        OfDateMembers(u, w[0].date);
      }
    } else {
      var m := t[0].date;
      OfDateMembers(t, m);
      OfDateMembers(u, m);
      OfDateMembers(t, u[0].date);
      OfDateMembers(u, u[0].date);
      assert t[0] in OfDate(u, m);
      assert u[0] in OfDate(t, u[0].date);
      assert u[0].date == m;
      assert t[0] == OfDate(t, m)[0] == OfDate(u, m)[0] == u[0];
      forall d ensures OfDate(t[1..], d) == OfDate(u[1..], d) {
        var h := if m == d then [t[0]] else [];
        assert OfDate(t, d) == h + OfDate(t[1..], d);
        assert OfDate(u, d) == h + OfDate(u[1..], d);
        assert OfDate(t[1..], d) == (h + OfDate(t[1..], d))[|h|..];
        assert OfDate(u[1..], d) == (h + OfDate(u[1..], d))[|h|..];
      }
      StableSortUnique(t[1..], u[1..]);
      assert t == [t[0]] + t[1..];
      assert u == [u[0]] + u[1..];
    }
  }

  /** The merge and sort of `run`: the records are copied into a fresh array
      (`push`) and sorted there.  The result is the stable descending sort of
      the concatenation. */
  method SortArticles(all: seq<ArticleInfo>) returns (sorted: seq<ArticleInfo>)
    ensures SortedDesc(sorted)
    ensures SameDateOrder(all, sorted)
    ensures multiset(sorted) == multiset(all)
  {
    var a := new ArticleInfo[|all|](i requires 0 <= i < |all| => all[i]);
    assert a[..] == all;
    SortByDateDesc(a);
    sorted := a[..];
    SameDateOrderPermutation(all, sorted);
  }
}
