/** Sequence helpers shared by the backends: distinctness, enumeration of a set, Python slices. */
module Collections {
  import opened Wrappers

  predicate Distinct<T(==)>(xs: seq<T>)
  {
    forall i, j :: 0 <= i < j < |xs| ==> xs[i] != xs[j]
  }

  /** xs lists every element of s exactly once (in some order). */
  predicate Enumerates<T(==,!new)>(xs: seq<T>, s: set<T>)
  {
    Distinct(xs) && (forall x :: x in xs ==> x in s) && (forall x :: x in s ==> x in xs)
  }

  lemma EnumeratesLength<T(!new)>(xs: seq<T>, s: set<T>)
    requires Enumerates(xs, s)
    ensures |xs| == |s|
    decreases |xs|
  {
    if xs != [] {
      var x := xs[|xs| - 1];
      var init := xs[..|xs| - 1];
      assert Enumerates(init, s - {x}) by {
        forall y ensures y in init <==> y in s - {x} {
          if y in init {
            var k :| 0 <= k < |init| && init[k] == y;
            assert xs[k] == y;
          }
          if y in s - {x} {
            var k :| 0 <= k < |xs| && xs[k] == y;
            assert k != |xs| - 1;
            assert init[k] == y;
          }
        }
      }
      EnumeratesLength(init, s - {x});
    }
  }

  /** Python `list(s)` of a set: its elements in an order the model does not fix. */
  method ListOfSet<T(==,!new)>(s: set<T>) returns (xs: seq<T>)
    ensures Enumerates(xs, s)
  {
    xs := [];
    var rest := s;
    while rest != {}
      invariant Distinct(xs)
      invariant forall x :: x in xs <==> x in s - rest
      invariant rest <= s
      decreases |rest|
    {
      var x :| x in rest;
      assert x !in xs;
      xs := xs + [x];
      rest := rest - {x};
    }
  }

  /** The elements of xs that satisfy p, in order. */
  function Filter<T(==,!new)>(xs: seq<T>, p: T -> bool): (r: seq<T>)
    ensures |r| <= |xs|
    ensures forall x :: x in r <==> x in xs && p(x)
  {
    if xs == [] then []
    else (if p(xs[0]) then [xs[0]] else []) + Filter(xs[1..], p)
  }

  /** xs without any occurrence of x, order kept. */
  function Remove<T(==,!new)>(xs: seq<T>, x: T): (r: seq<T>)
    ensures |r| <= |xs|
    ensures forall y :: y in r <==> y in xs && y != x
    ensures Distinct(xs) ==> Distinct(r)
  {
    if xs == [] then []
    else
      var h := if xs[0] == x then [] else [xs[0]];
      var t := Remove(xs[1..], x);
      DistinctPrepend(h, t, xs);
      h + t
  }

  /** Appending an element not yet listed enumerates the set with it added. */
  lemma EnumeratesAppend<T(!new)>(xs: seq<T>, s: set<T>, x: T)
    requires Enumerates(xs, s) && x !in s
    ensures Enumerates(xs + [x], s + {x})
  {
    var ys := xs + [x];
    forall i, j | 0 <= i < j < |ys| ensures ys[i] != ys[j] {
      if j == |xs| {
        assert ys[i] == xs[i];
      }
    }
  }

  lemma DistinctPrepend<T>(h: seq<T>, t: seq<T>, xs: seq<T>)
    requires xs != [] && (h == [] || h == [xs[0]])
    requires forall y :: y in t ==> y in xs[1..]
    requires Distinct(xs) ==> Distinct(t)
    ensures Distinct(xs) ==> Distinct(h + t)
  {
    if Distinct(xs) && h != [] {
      assert xs[0] !in xs[1..];
      forall i, j | 0 <= i < j < |h + t| ensures (h + t)[i] != (h + t)[j] {
        if i == 0 {
          assert (h + t)[j] == t[j - 1];
          assert t[j - 1] in t;
        } else {
          assert (h + t)[i] == t[i - 1] && (h + t)[j] == t[j - 1];
        }
      }
    }
  }

  /** xs with x appended unless it is already there. */
  function AddOnce<T(==,!new)>(xs: seq<T>, x: T): (r: seq<T>)
    ensures x in r
    ensures x in xs ==> r == xs
    ensures x !in xs ==> r == xs + [x]
    ensures forall y :: y in r <==> y in xs || y == x
    ensures Distinct(xs) ==> Distinct(r)
  {
    if x in xs then xs else xs + [x]
  }

  /** Python's normalisation of one slice bound against a length n. */
  function SliceBound(bound: Option<int>, default: nat, n: nat): (k: nat)
    requires default <= n
    ensures k <= n
  {
    match bound
    case None => default
    case Some(b) => if b < 0 then (if n + b < 0 then 0 else n + b) else if b > n then n else b
  }

  /** Python `s[start:stop]` with step 1. */
  function PySlice<T>(s: seq<T>, start: Option<int>, stop: Option<int>): (r: seq<T>)
    ensures |r| <= |s|
  {
    var lo := SliceBound(start, 0, |s|);
    var hi := SliceBound(stop, |s|, |s|);
    if hi <= lo then [] else s[lo..hi]
  }

  /** With non-negative bounds, a slice keeps the elements from start up to, not including, stop. */
  lemma PySliceNonNegative<T>(s: seq<T>, start: nat, stop: nat)
    ensures |PySlice(s, Some(start), Some(stop))| == if stop <= start || start >= |s| then 0
      else (if stop > |s| then |s| else stop) - start
    ensures forall i :: 0 <= i < |PySlice(s, Some(start), Some(stop))| ==>
      PySlice(s, Some(start), Some(stop))[i] == s[start + i]
  {
  }
}
