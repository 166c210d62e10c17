/*
 * The iterator adaptors the solvers chain together (`filter_map`,
 * `find_map`, `concat`, `sum`, `min`), as functions over sequences.
 */
module Seqs {
  import opened Text

  /** `filter_map`: the `Some` values, in order. */
  function FilterSome<T>(os: seq<Option<T>>): (r: seq<T>)
    ensures |r| <= |os|
    ensures |r| == 0 <==> forall i :: 0 <= i < |os| ==> os[i].None?
  {
    if os == [] then []
    else (if os[0].Some? then [os[0].value] else []) + FilterSome(os[1..])
  }

  /** A value is kept exactly when it was offered. */
  lemma {:induction false} FilterSomeMember<T>(os: seq<Option<T>>, x: T)
    ensures x in FilterSome(os) <==> Some(x) in os
  {
    if os != [] {
      FilterSomeMember(os[1..], x);
      assert os == [os[0]] + os[1..];
    }
  }

  /** `filter_map` works piecewise: the kept values of a concatenation, in order. */
  lemma {:induction false} FilterSomeAppend<T>(a: seq<Option<T>>, b: seq<Option<T>>)
    ensures FilterSome(a + b) == FilterSome(a) + FilterSome(b)
  {
    if a != [] {
      FilterSomeAppend(a[1..], b);
      assert (a + b)[1..] == a[1..] + b;
    } else {
      assert a + b == b;
    }
  }

  /** The index of the first `Some`, or `|os|` when there is none. */
  function FirstSomeIndex<T>(os: seq<Option<T>>): (k: nat)
    ensures k <= |os|
    ensures forall j :: 0 <= j < k ==> os[j].None?
    ensures k < |os| ==> os[k].Some?
  {
    if os == [] then 0
    else if os[0].Some? then 0
    else 1 + FirstSomeIndex(os[1..])
  }

  /** The first `Some` is unique: any index with the same description is it. */
  lemma FirstSomeIndexUnique<T>(os: seq<Option<T>>, k: nat)
    requires k <= |os|
    requires forall j :: 0 <= j < k ==> os[j].None?
    requires k < |os| ==> os[k].Some?
    ensures FirstSomeIndex(os) == k
  {
  }

  /** `find_map`: the first `Some`, in order. */
  function FirstSome<T>(os: seq<Option<T>>): (r: Option<T>)
    ensures r.None? <==> forall i :: 0 <= i < |os| ==> os[i].None?
    ensures r.Some? ==> r == os[FirstSomeIndex(os)]
  {
    var k := FirstSomeIndex(os);
    if k < |os| then os[k] else None
  }

  /**
   * `map(f).collect::<Result<Vec<_>, _>>()`: every value when all items
   * succeed, otherwise the first failing item's error.
   */
  function TryMap<A, B>(f: A -> Result<B>, xs: seq<A>): (r: Result<seq<B>>)
    ensures r.Ok? ==> |r.value| == |xs|
  {
    if xs == [] then Ok([])
    else
      var y :- f(xs[0]);
      var rest :- TryMap(f, xs[1..]);
      Ok([y] + rest)
  }

  /** The map fails exactly when some item fails, and then with the first failing item's error; otherwise it is `f` pointwise. */
  lemma {:induction false} TryMapAll<A, B>(f: A -> Result<B>, xs: seq<A>)
    ensures TryMap(f, xs).Ok? <==> forall k :: 0 <= k < |xs| ==> f(xs[k]).Ok?
    ensures TryMap(f, xs).Ok? ==> forall k :: 0 <= k < |xs| ==> TryMap(f, xs).value[k] == f(xs[k]).value
    ensures TryMap(f, xs).Err? ==>
      exists k :: (0 <= k < |xs| && f(xs[k]).Err? && TryMap(f, xs).msg == f(xs[k]).msg &&
        forall j :: 0 <= j < k ==> f(xs[j]).Ok?)
  {
    if xs != [] {
      TryMapAll(f, xs[1..]);
      assert forall k :: 1 <= k < |xs| ==> xs[k] == xs[1..][k - 1];
      if f(xs[0]).Ok? && TryMap(f, xs[1..]).Err? {
        var k :| 0 <= k < |xs[1..]| && f(xs[1..][k]).Err? && TryMap(f, xs[1..]).msg == f(xs[1..][k]).msg &&
          forall j :: 0 <= j < k ==> f(xs[1..][j]).Ok?;
        assert f(xs[k + 1]).Err?;
      }
    }
  }

  /** A single item maps to its own value or its own error. */
  lemma TryMapSingle<A, B>(f: A -> Result<B>, x: A)
    ensures TryMap(f, [x]) == if f(x).Ok? then Ok([f(x).value]) else Err(f(x).msg)
  {
    assert [x][0] == x && [x][1..] == [];
    if f(x).Ok? {
      assert [f(x).value] + [] == [f(x).value];
    }
  }

  /** Mapping more items after a good prefix: its values, then the rest's, or the rest's error. */
  lemma {:induction false} TryMapAppend<A, B>(f: A -> Result<B>, a: seq<A>, b: seq<A>)
    requires TryMap(f, a).Ok?
    ensures TryMap(f, a + b) == if TryMap(f, b).Ok? then Ok(TryMap(f, a).value + TryMap(f, b).value) else TryMap(f, b)
  {
    if a == [] {
      assert a + b == b;
      if TryMap(f, b).Ok? {
        assert [] + TryMap(f, b).value == TryMap(f, b).value;
      }
    } else {
      assert (a + b)[0] == a[0] && (a + b)[1..] == a[1..] + b;
      TryMapAppend(f, a[1..], b);
      if TryMap(f, b).Ok? {
        var y := f(a[0]).value;
        assert [y] + (TryMap(f, a[1..]).value + TryMap(f, b).value) == ([y] + TryMap(f, a[1..]).value) + TryMap(f, b).value;
      }
    }
  }

  /** Once a prefix has failed, the items after it do not matter. */
  lemma {:induction false} TryMapPrefixErr<A, B>(f: A -> Result<B>, a: seq<A>, b: seq<A>)
    requires TryMap(f, a).Err?
    ensures TryMap(f, a + b) == TryMap(f, a)
  {
    assert a != [];
    assert (a + b)[0] == a[0] && (a + b)[1..] == a[1..] + b;
    if f(a[0]).Ok? {
      TryMapPrefixErr(f, a[1..], b);
    }
  }

  /** Mapping item `i` after the items before it mapped to `vs`: the map grows by its value, or fails with its error. */
  lemma TryMapStep<A, B>(f: A -> Result<B>, xs: seq<A>, i: nat, vs: seq<B>)
    requires i < |xs| && TryMap(f, xs[..i]) == Ok(vs)
    ensures f(xs[i]).Err? ==> TryMap(f, xs) == Err(f(xs[i]).msg)
    ensures f(xs[i]).Ok? ==> TryMap(f, xs[..i + 1]) == Ok(vs + [f(xs[i]).value])
  {
    var x := xs[i];
    assert xs[..i + 1] == xs[..i] + [x];
    TryMapAppend(f, xs[..i], [x]);
    TryMapSingle(f, x);
    if f(x).Err? {
      assert xs == xs[..i + 1] + xs[i + 1..];
      TryMapPrefixErr(f, xs[..i + 1], xs[i + 1..]);
    }
  }

  /**
   * A `try_fold` that adds up `f` over the items: the running sum, stopping
   * at the first item that fails.
   */
  function TrySum<A>(f: A -> Result<nat>, xs: seq<A>): Result<nat> {
    if xs == [] then Ok(0)
    else
      var y :- f(xs[0]);
      var rest :- TrySum(f, xs[1..]);
      Ok(y + rest)
  }

  /** The fold is the sum of the mapped values, or the map's error. */
  lemma {:induction false} TrySumIsSumOfMap<A>(f: A -> Result<nat>, xs: seq<A>)
    ensures TrySum(f, xs) == if TryMap(f, xs).Ok? then Ok(Sum(TryMap(f, xs).value)) else Err(TryMap(f, xs).msg)
  {
    if xs != [] {
      TrySumIsSumOfMap(f, xs[1..]);
      if TryMap(f, xs).Ok? {
        assert TryMap(f, xs).value == [f(xs[0]).value] + TryMap(f, xs[1..]).value;
      }
    }
  }

  /** Such a sum is additive over the items. */
  lemma {:induction false} TrySumAppend<A>(f: A -> Result<nat>, a: seq<A>, b: seq<A>)
    requires TrySum(f, a).Ok? && TrySum(f, b).Ok?
    ensures TrySum(f, a + b) == Ok(TrySum(f, a).value + TrySum(f, b).value)
  {
    if a == [] {
      assert a + b == b;
    } else {
      assert (a + b)[0] == a[0] && (a + b)[1..] == a[1..] + b;
      TrySumAppend(f, a[1..], b);
    }
  }

  /** Item `k` is the first that failed, and it failed with `msg`. */
  predicate FirstFailure<T>(rs: seq<Result<T>>, k: int, msg: string) {
    0 <= k < |rs| && rs[k] == Err(msg) && forall j :: 0 <= j < k ==> rs[j].Ok?
  }

  /** After a good item, the first failure of the rest is the first failure. */
  lemma FirstFailureCons<T>(rs: seq<Result<T>>, k: int, msg: string)
    requires rs != [] && rs[0].Ok? && FirstFailure(rs[1..], k, msg)
    ensures FirstFailure(rs, k + 1, msg)
  {
    assert rs[k + 1] == rs[1..][k];
    assert forall j :: 1 <= j <= k ==> rs[j] == rs[1..][j - 1];
  }

  /** `try_fold(sum, |a, b| Ok(a + b?))`: adds the items up, stopping at the first failed one. */
  function AddUp(sum: int, rs: seq<Result<int>>): Result<int>
    decreases |rs|
  {
    if rs == [] then Ok(sum)
    else
      var x :- rs[0];
      AddUp(sum + x, rs[1..])
  }

  /** The sum of the items that succeeded. */
  function OkTotal(rs: seq<Result<int>>): int {
    if rs == [] then 0 else (if rs[0].Ok? then rs[0].value else 0) + OkTotal(rs[1..])
  }

  /** When every item succeeded with a value from `lo` to `hi`, the total lies between `lo` and `hi` times their number. */
  lemma {:induction false} OkTotalBounds(rs: seq<Result<int>>, lo: int, hi: int)
    requires forall k :: 0 <= k < |rs| ==> rs[k].Ok? && lo <= rs[k].value <= hi
    ensures lo * |rs| <= OkTotal(rs) <= hi * |rs|
  {
    if rs != [] {
      OkTotalBounds(rs[1..], lo, hi);
      assert lo * |rs| == lo + lo * |rs[1..]|;
      assert hi * |rs| == hi + hi * |rs[1..]|;
    }
  }

  /**
   * The fold fails exactly when some item failed, with the first failure;
   * otherwise it adds the sum of the items to the start.
   */
  lemma {:induction false} AddUpIsTotal(sum: int, rs: seq<Result<int>>)
    ensures AddUp(sum, rs).Ok? <==> forall k :: 0 <= k < |rs| ==> rs[k].Ok?
    ensures AddUp(sum, rs).Ok? ==> AddUp(sum, rs).value == sum + OkTotal(rs)
    ensures AddUp(sum, rs).Err? ==> exists k :: FirstFailure(rs, k, AddUp(sum, rs).msg)
    decreases |rs|
  {
    if rs != [] && rs[0].Ok? {
      var tail := rs[1..];
      AddUpIsTotal(sum + rs[0].value, tail);
      assert forall k :: 1 <= k < |rs| ==> rs[k] == tail[k - 1];
      if AddUp(sum + rs[0].value, tail).Err? {
        var k :| FirstFailure(tail, k, AddUp(sum + rs[0].value, tail).msg);
        FirstFailureCons(rs, k, AddUp(sum + rs[0].value, tail).msg);
      }
    } else if rs != [] {
      assert FirstFailure(rs, 0, rs[0].msg);
    }
  }

  /** `concat` of a vector of vectors. */
  function Concat<T>(ss: seq<seq<T>>): seq<T> {
    if ss == [] then [] else ss[0] + Concat(ss[1..])
  }

  function TotalLength<T>(ss: seq<seq<T>>): nat {
    if ss == [] then 0 else |ss[0]| + TotalLength(ss[1..])
  }

  /** Concatenation keeps every element of every piece, in order, and nothing else. */
  lemma {:induction false} ConcatShape<T>(ss: seq<seq<T>>)
    ensures |Concat(ss)| == TotalLength(ss)
    ensures forall x :: x in Concat(ss) <==> exists i :: 0 <= i < |ss| && x in ss[i]
  {
    if ss != [] {
      ConcatShape(ss[1..]);
      forall x
        ensures x in Concat(ss) <==> exists i :: 0 <= i < |ss| && x in ss[i]
      {
        if x in Concat(ss[1..]) {
          var i :| 0 <= i < |ss[1..]| && x in ss[1..][i];
          assert x in ss[i + 1];
        }
        if exists i :: 0 <= i < |ss| && x in ss[i] {
          var i :| 0 <= i < |ss| && x in ss[i];
          if i > 0 {
            assert x in ss[1..][i - 1];
          }
        }
      }
    }
  }

  lemma {:induction false} ConcatAppend<T>(a: seq<seq<T>>, b: seq<seq<T>>)
    ensures Concat(a + b) == Concat(a) + Concat(b)
  {
    if a != [] {
      ConcatAppend(a[1..], b);
      assert (a + b)[1..] == a[1..] + b;
    } else {
      assert a + b == b;
    }
  }

  /** When no piece is longer than `m`, the concatenation is at most `|ss| * m` long. */
  lemma {:induction false} TotalLengthBound<T>(ss: seq<seq<T>>, m: nat)
    requires forall i :: 0 <= i < |ss| ==> |ss[i]| <= m
    ensures TotalLength(ss) <= |ss| * m
  {
    if ss != [] {
      TotalLengthBound(ss[1..], m);
      assert TotalLength(ss) <= m + (|ss| - 1) * m;
      assert m + (|ss| - 1) * m == |ss| * m;
    }
  }

  /** When every piece is at least `m` long, the concatenation is at least `|ss| * m` long. */
  lemma {:induction false} TotalLengthFloor<T>(ss: seq<seq<T>>, m: nat)
    requires forall i :: 0 <= i < |ss| ==> |ss[i]| >= m
    ensures TotalLength(ss) >= |ss| * m
  {
    if ss != [] {
      TotalLengthFloor(ss[1..], m);
      assert TotalLength(ss) >= m + (|ss| - 1) * m;
      assert m + (|ss| - 1) * m == |ss| * m;
    }
  }

  /** `sum` of integers. */
  function Sum(xs: seq<int>): (r: int)
    ensures (forall i :: 0 <= i < |xs| ==> xs[i] >= 0) ==> r >= 0
  {
    if xs == [] then 0 else xs[0] + Sum(xs[1..])
  }

  lemma {:induction false} SumAppend(a: seq<int>, b: seq<int>)
    ensures Sum(a + b) == Sum(a) + Sum(b)
  {
    if a != [] {
      SumAppend(a[1..], b);
      assert (a + b)[1..] == a[1..] + b;
    } else {
      assert a + b == b;
    }
  }

  /** A sum of non-negative terms is at least each term. */
  lemma {:induction false} SumBounds(xs: seq<int>)
    requires forall i :: 0 <= i < |xs| ==> xs[i] >= 0
    ensures Sum(xs) >= 0
    ensures forall i :: 0 <= i < |xs| ==> xs[i] <= Sum(xs)
  {
    if xs != [] {
      SumBounds(xs[1..]);
      assert forall i :: 1 <= i < |xs| ==> xs[i] == xs[1..][i - 1];
    }
  }

  /** `min` of a sequence of naturals: `None` when it is empty. */
  function Min(xs: seq<nat>): (r: Option<nat>)
    ensures r.None? <==> xs == []
    ensures r.Some? ==> r.value in xs && forall i :: 0 <= i < |xs| ==> r.value <= xs[i]
  {
    if xs == [] then None
    else
      match Min(xs[1..])
      case None => Some(xs[0])
      case Some(m) => Some(if xs[0] <= m then xs[0] else m)
  }
}
