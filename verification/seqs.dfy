/** Generic sequence searches used by the catalog and the cart: the two array
    helpers the store relies on, `findIndex` and `filter`. */
module Seqs {

  import opened Wrappers

  /** Position of the first element satisfying `p`, or -1 when none does. */
  function FindIndex<T>(s: seq<T>, p: T -> bool): (r: int)
    ensures -1 <= r < |s|
    ensures r == -1 <==> forall i :: 0 <= i < |s| ==> !p(s[i])
    ensures r != -1 ==> p(s[r]) && forall i :: 0 <= i < r ==> !p(s[i])
    decreases |s|
  {
    if |s| == 0 then -1
    else if p(s[0]) then 0
    else
      var k := FindIndex(s[1..], p);
      if k == -1 then -1 else k + 1
  }

  /** The first element satisfying `p`, as `Array.prototype.find` returns it. */
  function FindFirst<T>(s: seq<T>, p: T -> bool): Option<T>
    decreases |s|
  {
    if |s| == 0 then None
    else if p(s[0]) then Some(s[0])
    else FindFirst(s[1..], p)
  }

  /** `find` and `findIndex` agree: the element found is the one at the index found. */
  lemma {:induction false} FindFirstAtIndex<T>(s: seq<T>, p: T -> bool)
    ensures var i := FindIndex(s, p);
      FindFirst(s, p) == if i == -1 then None else Some(s[i])
    decreases |s|
  {
    if |s| > 0 && !p(s[0]) {
      FindFirstAtIndex(s[1..], p);
    }
  }

  /** The elements of `s` satisfying `p`, in their original order. */
  function Filter<T>(s: seq<T>, p: T -> bool): (r: seq<T>)
    ensures |r| <= |s|
    ensures forall i :: 0 <= i < |r| ==> p(r[i])
    decreases |s|
  {
    if |s| == 0 then []
    else (if p(s[0]) then [s[0]] else []) + Filter(s[1..], p)
  }

  /** Filtering distributes over concatenation: nothing is reordered across the seam. */
  lemma {:induction false} FilterAppend<T>(a: seq<T>, b: seq<T>, p: T -> bool)
    ensures Filter(a + b, p) == Filter(a, p) + Filter(b, p)
    decreases |a|
  {
    if |a| == 0 {
      assert a + b == b;
    } else {
      assert (a + b)[1..] == a[1..] + b;
      FilterAppend(a[1..], b, p);
    }
  }

  /** A filter that rejects every element yields nothing. */
  lemma {:induction false} FilterNone<T>(s: seq<T>, p: T -> bool)
    requires forall i :: 0 <= i < |s| ==> !p(s[i])
    ensures Filter(s, p) == []
    decreases |s|
  {
    if |s| > 0 {
      FilterNone(s[1..], p);
    }
  }

  /** A filter that accepts every element yields the sequence itself. */
  lemma {:induction false} FilterAll<T>(s: seq<T>, p: T -> bool)
    requires forall i :: 0 <= i < |s| ==> p(s[i])
    ensures Filter(s, p) == s
    decreases |s|
  {
    if |s| > 0 {
      FilterAll(s[1..], p);
    }
  }

  /** The filter invents nothing: every element it yields comes from `s`. */
  lemma {:induction false} FilterSubset<T>(s: seq<T>, p: T -> bool)
    ensures forall i :: 0 <= i < |Filter(s, p)| ==> Filter(s, p)[i] in s
    decreases |s|
  {
    if |s| > 0 {
      FilterSubset(s[1..], p);
      var head := if p(s[0]) then [s[0]] else [];
      assert Filter(s, p) == head + Filter(s[1..], p);
      forall i | 0 <= i < |Filter(s, p)|
        ensures Filter(s, p)[i] in s
      {
        if i >= |head| {
          assert Filter(s, p)[i] == Filter(s[1..], p)[i - |head|];
          assert Filter(s, p)[i] in s[1..];
        }
      }
    }
  }

  /** A filter that yields nothing rejected every element. */
  lemma {:induction false} FilterEmpty<T>(s: seq<T>, p: T -> bool)
    requires |Filter(s, p)| == 0
    ensures forall i :: 0 <= i < |s| ==> !p(s[i])
    decreases |s|
  {
    if |s| > 0 {
      FilterEmpty(s[1..], p);
      assert forall i :: 1 <= i < |s| ==> s[i] == s[1..][i - 1];
    }
  }

  /** Every element of `s` satisfying `p` survives the filter. */
  lemma {:induction false} FilterKeeps<T>(s: seq<T>, p: T -> bool, i: int)
    requires 0 <= i < |s| && p(s[i])
    ensures s[i] in Filter(s, p)
    decreases |s|
  {
    if i > 0 {
      assert s[1..][i - 1] == s[i];
      FilterKeeps(s[1..], p, i - 1);
    }
  }

  /** The positions of `s` whose elements satisfy `p`, in increasing order. */
  function Positions<T>(s: seq<T>, p: T -> bool): (idx: seq<int>)
    decreases |s|
  {
    if |s| == 0 then []
    else
      var rest := Positions(s[1..], p);
      (if p(s[0]) then [0] else []) + seq(|rest|, k requires 0 <= k < |rest| => rest[k] + 1)
  }

  /** `Filter(s, p)` is read off `s` at the positions `Positions(s, p)`. */
  lemma {:induction false} FilterAtPositions<T>(s: seq<T>, p: T -> bool)
    ensures |Positions(s, p)| == |Filter(s, p)|
    ensures forall k {:trigger Positions(s, p)[k]} :: 0 <= k < |Positions(s, p)| ==>
      0 <= Positions(s, p)[k] < |s| && Filter(s, p)[k] == s[Positions(s, p)[k]]
    decreases |s|
  {
    if |s| > 0 {
      FilterAtPositions(s[1..], p);
      var rest := Positions(s[1..], p);
      var idx := Positions(s, p);
      var tail := Filter(s[1..], p);
      var n := if p(s[0]) then 1 else 0;
      assert Filter(s, p) == (if p(s[0]) then [s[0]] else []) + tail;
      forall k | 0 <= k < |idx|
        ensures 0 <= idx[k] < |s| && Filter(s, p)[k] == s[idx[k]]
      {
        if k >= n {
          assert idx[k] == rest[k - n] + 1;
          assert Filter(s, p)[k] == tail[k - n];
        }
      }
    }
  }

  /** The positions are strictly increasing, so the filter keeps the order of `s`. */
  lemma {:induction false} PositionsIncrease<T>(s: seq<T>, p: T -> bool)
    ensures forall k :: 0 <= k < |Positions(s, p)| ==> 0 <= Positions(s, p)[k] < |s|
    ensures forall k, l :: 0 <= k < l < |Positions(s, p)| ==> Positions(s, p)[k] < Positions(s, p)[l]
    decreases |s|
  {
    if |s| > 0 {
      PositionsIncrease(s[1..], p);
      var rest := Positions(s[1..], p);
      var idx := Positions(s, p);
      var n := if p(s[0]) then 1 else 0;
      forall k | 0 <= k < |idx|
        ensures 0 <= idx[k] < |s|
      {
        if k >= n {
          assert idx[k] == rest[k - n] + 1;
        }
      }
      forall k, l | 0 <= k < l < |idx|
        ensures idx[k] < idx[l]
      {
        assert idx[l] == rest[l - n] + 1;
        if k >= n {
          assert idx[k] == rest[k - n] + 1;
        }
      }
    }
  }

  /** Every position whose element satisfies `p` is among the positions:
      the filter skips nothing. */
  lemma {:induction false} PositionsCover<T>(s: seq<T>, p: T -> bool, j: int)
    requires 0 <= j < |s| && p(s[j])
    ensures j in Positions(s, p)
    decreases |s|
  {
    if j == 0 {
      assert Positions(s, p)[0] == 0;
    } else {
      assert s[1..][j - 1] == s[j];
      PositionsCover(s[1..], p, j - 1);
      var rest := Positions(s[1..], p);
      var idx := Positions(s, p);
      var k :| 0 <= k < |rest| && rest[k] == j - 1;
      assert idx[k + |idx| - |rest|] == j;
    }
  }
}
