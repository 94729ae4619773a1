/** The top-districts list (`recommendations/views/district.py`):
    `District.objects.all().order_by("avg_temp_2pm", "avg_pm2_5")[:10]`.

    The ordering is ascending and lexicographic on the two averages. Where an
    average is NULL the placement depends on the database (PostgreSQL puts NULLs
    last in ascending order, SQLite first), so it is the parameter `nullsFirst`.
    Districts with equal keys may come back in any order; the model keeps their
    input order, which is one order the database may return. */
module TopDistricts {

  import opened Wrappers
  import opened Districts

  /** `[:10]` */
  const Limit: nat := 10

  /** Strictly before, for one nullable column in ascending order. */
  predicate OptionBefore(a: Option<real>, b: Option<real>, nullsFirst: bool) {
    match (a, b)
    case (None, None) => false
    case (None, Some(_)) => nullsFirst
    case (Some(_), None) => !nullsFirst
    case (Some(x), Some(y)) => x < y
  }

  /** Strictly before in `ORDER BY avg_temp_2pm, avg_pm2_5`. */
  predicate Before(a: District, b: District, nullsFirst: bool) {
    || OptionBefore(a.avgTemp2pm, b.avgTemp2pm, nullsFirst)
    || (a.avgTemp2pm == b.avgTemp2pm && OptionBefore(a.avgPm25, b.avgPm25, nullsFirst))
  }

  /** `a` may come before `b`. */
  predicate NotAfter(a: District, b: District, nullsFirst: bool) {
    !Before(b, a, nullsFirst)
  }

  lemma NotAfterTransitive(a: District, b: District, c: District, nullsFirst: bool)
    requires NotAfter(a, b, nullsFirst) && NotAfter(b, c, nullsFirst)
    ensures NotAfter(a, c, nullsFirst)
  {
  }

  lemma NotAfterTotal(a: District, b: District, nullsFirst: bool)
    ensures NotAfter(a, b, nullsFirst) || NotAfter(b, a, nullsFirst)
  {
  }

  predicate Sorted(s: seq<District>, nullsFirst: bool) {
    forall i, j :: 0 <= i < j < |s| ==> NotAfter(s[i], s[j], nullsFirst)
  }

  /** Puts `x` before the first element it may precede. */
  function Insert(x: District, s: seq<District>, nullsFirst: bool): (r: seq<District>)
    ensures |r| == |s| + 1
    ensures multiset(r) == multiset(s) + multiset{x}
  {
    if s == [] then [x]
    else if NotAfter(x, s[0], nullsFirst) then [x] + s
    else
      assert s == [s[0]] + s[1..];
      [s[0]] + Insert(x, s[1..], nullsFirst)
  }

  lemma SortedCons(x: District, s: seq<District>, nullsFirst: bool)
    requires Sorted(s, nullsFirst)
    requires forall j :: 0 <= j < |s| ==> NotAfter(x, s[j], nullsFirst)
    ensures Sorted([x] + s, nullsFirst)
  {
    var t := [x] + s;
    forall i, j | 0 <= i < j < |t|
      ensures NotAfter(t[i], t[j], nullsFirst)
    {
      if i > 0 {
        assert t[i] == s[i - 1] && t[j] == s[j - 1];
      } else {
        assert t[j] == s[j - 1];
      }
    }
  }

  lemma {:induction false} InsertSorted(x: District, s: seq<District>, nullsFirst: bool)
    requires Sorted(s, nullsFirst)
    ensures Sorted(Insert(x, s, nullsFirst), nullsFirst)
  {
    if s == [] {
    } else if NotAfter(x, s[0], nullsFirst) {
      forall j | 0 <= j < |s|
        ensures NotAfter(x, s[j], nullsFirst)
      {
        if j > 0 {
          NotAfterTransitive(x, s[0], s[j], nullsFirst);
        }
      }
      SortedCons(x, s, nullsFirst);
    } else {
      NotAfterTotal(x, s[0], nullsFirst);
      var tail := s[1..];
      assert Sorted(tail, nullsFirst) by {
        forall i, j | 0 <= i < j < |tail|
          ensures NotAfter(tail[i], tail[j], nullsFirst)
        {
          assert tail[i] == s[i + 1] && tail[j] == s[j + 1];
        }
      }
      InsertSorted(x, tail, nullsFirst);
      var rest := Insert(x, tail, nullsFirst);
      forall j | 0 <= j < |rest|
        ensures NotAfter(s[0], rest[j], nullsFirst)
      {
        var y := rest[j];
        assert y in multiset(rest);
        if y != x {
          assert y in multiset(tail);
          var k :| 0 <= k < |tail| && tail[k] == y;
          assert s[k + 1] == y;
        }
      }
      SortedCons(s[0], rest, nullsFirst);
    }
  }

  /** The ordered table: insertion sort, stable for equal keys. */
  function Sort(ds: seq<District>, nullsFirst: bool): (r: seq<District>)
    ensures multiset(r) == multiset(ds)
    ensures Sorted(r, nullsFirst)
  {
    if ds == [] then []
    else
      assert ds == [ds[0]] + ds[1..];
      var rest := Sort(ds[1..], nullsFirst);
      InsertSorted(ds[0], rest, nullsFirst);
      Insert(ds[0], rest, nullsFirst)
  }

  function Min(a: nat, b: nat): nat {
    if a <= b then a else b
  }

  /** A prefix of a sorted sequence is sorted, and everything after it may follow its last element. */
  lemma SortedPrefix(s: seq<District>, n: nat, nullsFirst: bool)
    requires Sorted(s, nullsFirst) && n <= |s|
    ensures Sorted(s[..n], nullsFirst)
    ensures multiset(s[..n]) <= multiset(s)
    ensures n > 0 ==> forall x :: x in multiset(s) - multiset(s[..n]) ==> NotAfter(s[n - 1], x, nullsFirst)
  {
    var p, q := s[..n], s[n..];
    forall i, j | 0 <= i < j < |p|
      ensures NotAfter(p[i], p[j], nullsFirst)
    {
      assert p[i] == s[i] && p[j] == s[j];
    }
    assert s == p + q;
    assert multiset(s) == multiset(p) + multiset(q);
    forall x | n > 0 && x in multiset(s) - multiset(p)
      ensures NotAfter(s[n - 1], x, nullsFirst)
    {
      assert x in multiset(q);
      var k :| 0 <= k < |q| && q[k] == x;
      assert s[n + k] == x;
    }
  }

  /** The first `Limit` districts of the ordered table. */
  function Top(ds: seq<District>, nullsFirst: bool): (r: seq<District>)
    ensures |r| == Min(Limit, |ds|)
    ensures Sorted(r, nullsFirst)
    ensures multiset(r) <= multiset(ds)
    ensures |r| > 0 ==> forall x :: x in multiset(ds) - multiset(r) ==> NotAfter(r[|r| - 1], x, nullsFirst)
  {
    var sorted := Sort(ds, nullsFirst);
    assert |sorted| == |ds| by {
      assert |multiset(sorted)| == |multiset(ds)|;
    }
    var n := Min(Limit, |ds|);
    SortedPrefix(sorted, n, nullsFirst);
    sorted[..n]
  }

  /** No district appears twice in the list: the table has one row per primary key. */
  lemma TopHasNoDuplicates(ds: seq<District>, nullsFirst: bool)
    requires forall i, j :: 0 <= i < j < |ds| ==> ds[i] != ds[j]
    ensures var r := Top(ds, nullsFirst);
      forall i, j :: 0 <= i < j < |r| ==> r[i] != r[j]
  {
    var r := Top(ds, nullsFirst);
    forall i, j | 0 <= i < j < |r|
      ensures r[i] != r[j]
    {
      if r[i] == r[j] {
        Twice(r, i, j);
        assert multiset(ds)[r[i]] >= 2;
        UniqueOnce(ds, r[i]);
      }
    }
  }

  /** A value at two positions occurs at least twice. */
  lemma Twice(s: seq<District>, i: nat, j: nat)
    requires i < j < |s| && s[i] == s[j]
    ensures multiset(s)[s[i]] >= 2
  {
    assert s == s[..j] + [s[j]] + s[j + 1..];
    assert s[..j][i] == s[i];
    assert multiset(s[..j])[s[i]] >= 1;
  }

  /** In a sequence without repeats every value occurs at most once. */
  lemma {:induction false} UniqueOnce(s: seq<District>, x: District)
    requires forall i, j :: 0 <= i < j < |s| ==> s[i] != s[j]
    ensures multiset(s)[x] <= 1
  {
    if s != [] {
      var t := s[1..];
      assert s == [s[0]] + t;
      UniqueOnce(t, x);
      if s[0] == x {
        assert x !in t;
      }
    }
  }

  predicate Rated(d: District) {
    d.avgTemp2pm.Some? && d.avgPm25.Some?
  }

  /** When every district has both averages the NULL placement plays no part. */
  lemma {:induction false} InsertIgnoresNulls(x: District, s: seq<District>)
    requires Rated(x) && forall j :: 0 <= j < |s| ==> Rated(s[j])
    ensures Insert(x, s, true) == Insert(x, s, false)
  {
    if s != [] {
      InsertIgnoresNulls(x, s[1..]);
    }
  }

  lemma {:induction false} SortIgnoresNulls(ds: seq<District>)
    requires forall j :: 0 <= j < |ds| ==> Rated(ds[j])
    ensures Sort(ds, true) == Sort(ds, false)
  {
    if ds != [] {
      SortIgnoresNulls(ds[1..]);
      var rest := Sort(ds[1..], true);
      forall j | 0 <= j < |rest|
        ensures Rated(rest[j])
      {
        assert rest[j] in multiset(rest);
        assert rest[j] in multiset(ds[1..]);
      }
      InsertIgnoresNulls(ds[0], rest);
    }
  }

  lemma TopIgnoresNulls(ds: seq<District>)
    requires forall j :: 0 <= j < |ds| ==> Rated(ds[j])
    ensures Top(ds, true) == Top(ds, false)
  {
    SortIgnoresNulls(ds);
  }
}
