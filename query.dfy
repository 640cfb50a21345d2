/**
 * The query shapes shared by the task and user listings: a filter, the
 * `sort({ created_at: -1 })` of a collection kept in creation order,
 * MongoDB's `skip`/`limit`, and the `Math.ceil(total / limit)` page count.
 */
module Query {
  import opened Wrappers

  /** The elements of `s` that satisfy `p`, in their order: `find(query)`. */
  function Filter<T(!new)>(s: seq<T>, p: T -> bool): (r: seq<T>)
    ensures |r| <= |s|
    ensures forall x :: x in r <==> x in s && p(x)
  {
    if s == [] then []
    else (if p(s[0]) then [s[0]] else []) + Filter(s[1..], p)
  }

  /** Creation ticks strictly increase along `s`. */
  ghost predicate Increasing<T>(s: seq<T>, tick: T -> nat) {
    forall i, j :: 0 <= i < j < |s| ==> tick(s[i]) < tick(s[j])
  }

  ghost predicate Decreasing<T>(s: seq<T>, tick: T -> nat) {
    forall i, j :: 0 <= i < j < |s| ==> tick(s[i]) > tick(s[j])
  }

  /** Filtering keeps the creation order. */
  lemma {:induction false} FilterIncreasing<T(!new)>(s: seq<T>, p: T -> bool, tick: T -> nat)
    requires Increasing(s, tick)
    ensures Increasing(Filter(s, p), tick)
  {
    if s != [] {
      FilterIncreasing(s[1..], p, tick);
      var rest := Filter(s[1..], p);
      forall y | y in rest
        ensures tick(s[0]) < tick(y)
      {
        var k :| 0 <= k < |s[1..]| && s[1..][k] == y;
        assert s[k + 1] == y;
      }
    }
  }

  /**
   * A collection kept in creation order, read newest-first. Sorting it by a
   * creation tick that strictly increases along it gives exactly this order.
   */
  function NewestFirst<T>(s: seq<T>): (r: seq<T>)
    ensures |r| == |s|
    ensures forall i :: 0 <= i < |s| ==> r[i] == s[|s| - 1 - i]
  {
    seq(|s|, i requires 0 <= i < |s| => s[|s| - 1 - i])
  }

  lemma {:induction false} NewestFirstPermutes<T>(s: seq<T>)
    ensures multiset(NewestFirst(s)) == multiset(s)
  {
    if s != [] {
      var n := |s| - 1;
      NewestFirstPermutes(s[..n]);
      assert NewestFirst(s) == [s[n]] + NewestFirst(s[..n]);
      assert s == s[..n] + [s[n]];
    }
  }

  /** The newest-first order is sorted by descending creation tick. */
  lemma NewestFirstSorted<T>(s: seq<T>, tick: T -> nat)
    requires Increasing(s, tick)
    ensures Decreasing(NewestFirst(s), tick)
  {
  }

  /** `docs.map(f)`: one projected record per document, in the same order. */
  function Project<T, V>(s: seq<T>, f: T -> V): (r: seq<V>)
    ensures |r| == |s| && forall k :: 0 <= k < |s| ==> r[k] == f(s[k])
  {
    seq(|s|, k requires 0 <= k < |s| => f(s[k]))
  }

  /** The `pagination` object of a listing. */
  datatype Pagination = Pagination(total: nat, page: int, limit: int, totalPages: Option<int>)

  /**
   * `(page - 1) * limit`, the number of documents skipped. It is negative,
   * which MongoDB refuses, exactly for a page before the first with a
   * positive limit and a page after the first with a negative one.
   */
  function Skip(page: int, limit: int): (r: int)
    ensures r < 0 <==> (page < 1 && limit > 0) || (page > 1 && limit < 0)
    ensures page == 1 || limit == 0 ==> r == 0
  {
    SignOfProduct(page - 1, limit);
    (page - 1) * limit
  }

  lemma SignOfProduct(a: int, b: int)
    ensures a * b < 0 <==> (a < 0 && b > 0) || (a > 0 && b < 0)
  {
    if a > 0 && b > 0 {
      PositiveProduct(a, b);
    } else if a < 0 && b < 0 {
      PositiveProduct(-a, -b);
    } else if a < 0 && b > 0 {
      PositiveProduct(-a, b);
    } else if a > 0 && b < 0 {
      PositiveProduct(a, -b);
    }
  }

  lemma {:induction false} PositiveProduct(a: int, b: int)
    requires a > 0 && b > 0
    ensures a * b > 0
    decreases a
  {
    if a > 1 {
      PositiveProduct(a - 1, b);
      assert a * b == (a - 1) * b + b;
    }
  }

  function Abs(x: int): nat {
    if x < 0 then -x else x
  }

  /**
   * `.skip(skip).limit(limit)`: the documents from position `skip` on, at
   * most `|limit|` of them; a limit of 0 means no limit, and a negative limit
   * acts as its absolute value.
   */
  function Window<T>(s: seq<T>, skip: nat, limit: int): (r: seq<T>)
    ensures limit == 0 ==> r == (if skip < |s| then s[skip..] else [])
    ensures limit != 0 ==> |r| <= Abs(limit)
    ensures skip >= |s| ==> r == []
    ensures skip < |s| ==> |r| <= |s| - skip && (|r| == |s| - skip || |r| == Abs(limit))
    ensures forall k :: 0 <= k < |r| ==> skip + k < |s| && r[k] == s[skip + k]
  {
    if skip >= |s| then []
    else
      var rest := s[skip..];
      if limit == 0 || |rest| <= Abs(limit) then rest else rest[..Abs(limit)]
  }

  /** A window of the newest-first matches holds only matches. */
  lemma WindowHoldsMatches<T(!new)>(s: seq<T>, p: T -> bool, skip: nat, limit: int)
    ensures forall x :: x in Window(NewestFirst(Filter(s, p)), skip, limit) ==> x in s && p(x)
  {
    var n := NewestFirst(Filter(s, p));
    var w := Window(n, skip, limit);
    forall x | x in w
      ensures x in s && p(x)
    {
      var k :| 0 <= k < |w| && w[k] == x;
      assert n[skip + k] == Filter(s, p)[|n| - 1 - (skip + k)];
    }
  }

  /** A window of a sorted sequence is sorted. */
  lemma WindowDecreasing<T>(s: seq<T>, tick: T -> nat, skip: nat, limit: int)
    requires Decreasing(s, tick)
    ensures Decreasing(Window(s, skip, limit), tick)
  {
    var w := Window(s, skip, limit);
    forall i, j | 0 <= i < j < |w|
      ensures tick(w[i]) > tick(w[j])
    {
      assert w[i] == s[skip + i] && w[j] == s[skip + j];
    }
  }

  /**
   * `Math.ceil(total / limit)`. None when `limit` is 0, where JavaScript gives
   * `Infinity` or `NaN` and JSON sends `null`.
   */
  function TotalPages(total: nat, limit: int): (r: Option<int>)
    ensures r.None? <==> limit == 0
    ensures limit > 0 ==> (r.value - 1) * limit < total <= r.value * limit
    ensures limit < 0 ==> r.value * limit <= total < (r.value - 1) * limit
  {
    if limit == 0 then None
    else if limit > 0 then
      var q := (total + limit - 1) / limit;
      CeilingBounds(total, limit, q);
      Some(q)
    else
      var f := total / -limit;
      FloorBounds(total, -limit, f);
      Some(-f)
  }

  lemma CeilingBounds(total: nat, limit: int, q: int)
    requires limit > 0 && q == (total + limit - 1) / limit
    ensures (q - 1) * limit < total <= q * limit
  {
    var m := (total + limit - 1) % limit;
    assert total + limit - 1 == q * limit + m;
    assert (q - 1) * limit == q * limit - limit;
  }

  lemma FloorBounds(total: nat, d: int, f: int)
    requires d > 0 && f == total / d
    ensures (-f) * (-d) <= total < (-f - 1) * (-d)
  {
    var m := total % d;
    assert total == f * d + m;
    assert (-f) * (-d) == f * d;
    assert (-f - 1) * (-d) == f * d + d;
  }

  /**
   * The pages cover the matches: with a positive limit, the document at
   * position `k` is on page `k / limit + 1`, a page that `TotalPages` counts.
   */
  lemma {:induction false} EveryItemOnItsPage<T>(s: seq<T>, limit: int, k: nat)
    requires limit > 0 && k < |s|
    ensures 1 <= k / limit + 1 <= TotalPages(|s|, limit).value
    ensures var w := Window(s, Skip(k / limit + 1, limit), limit);
            k % limit < |w| && w[k % limit] == s[k]
  {
    var p := k / limit + 1;
    var skip := Skip(p, limit);
    assert k == (k / limit) * limit + k % limit;
    assert skip == (k / limit) * limit;
    var w := Window(s, skip, limit);
    assert skip <= k < |s|;
    assert |w| == |s| - skip || |w| == limit;
    var q := TotalPages(|s|, limit).value;
    assert (q - 1) * limit < |s| <= q * limit;
    assert (p - 1) * limit <= k < |s| <= q * limit;
    PageBound(p, q, limit);
  }

  lemma PageBound(p: int, q: int, limit: int)
    requires limit > 0 && (p - 1) * limit < q * limit
    ensures p <= q
  {
    if p > q {
      assert false;
    }
  }
}
