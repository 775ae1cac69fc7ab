/** Small shared vocabulary: optional values, results and a few facts about sequences and finite sums. */
module Common {

  datatype Option<+T> = None | Some(value: T)

  datatype Result<+T, +E> = Ok(value: T) | Err(error: E)

  /** What a database write does, and whether the caller is told so: the last kind happens but reports an error. */
  datatype Writing = Written | Refused | Unacknowledged

  function Max(a: int, b: int): int {
    if a < b then b else a
  }

  function Min(a: int, b: int): int {
    if a < b then a else b
  }

  function AppendIf<T>(s: seq<T>, present: bool, x: T): seq<T> {
    if present then s + [x] else s
  }

  ghost predicate NoDuplicates<T>(s: seq<T>) {
    forall i, j :: 0 <= i < j < |s| ==> s[i] != s[j]
  }

  /** A repetition-free sequence over a finite set is no longer than the set. */
  lemma {:induction false} NoDuplicatesFits<T>(s: seq<T>, universe: set<T>)
    requires NoDuplicates(s)
    requires forall x :: x in s ==> x in universe
    ensures |s| <= |universe|
  {
    if s != [] {
      var last := |s| - 1;
      assert forall x :: x in s[..last] ==> x in universe - {s[last]};
      NoDuplicatesFits(s[..last], universe - {s[last]});
    }
  }

  /** Position of the first occurrence. */
  function IndexOf<T(==)>(s: seq<T>, x: T): (i: nat)
    requires x in s
    ensures i < |s| && s[i] == x
    ensures x !in s[..i]
  {
    if s[0] == x then 0 else 1 + IndexOf(s[1..], x)
  }

  /** Number of occurrences. */
  ghost function Count<T>(s: seq<T>, x: T): nat {
    if s == [] then 0 else Count(s[..|s| - 1], x) + (if s[|s| - 1] == x then 1 else 0)
  }

  /** The elements different from `x`, in order. */
  ghost function Without<T>(s: seq<T>, x: T): seq<T> {
    if s == [] then []
    else Without(s[..|s| - 1], x) + (if s[|s| - 1] == x then [] else [s[|s| - 1]])
  }

  lemma {:induction false} WithoutCounts<T>(s: seq<T>, x: T)
    ensures |s| == |Without(s, x)| + Count(s, x)
    ensures forall y :: y in Without(s, x) ==> y in s && y != x
    ensures forall y :: y != x ==> Count(Without(s, x), y) == Count(s, y)
  {
    if s != [] {
      var front := s[..|s| - 1];
      WithoutCounts(front, x);
      var tail := if s[|s| - 1] == x then [] else [s[|s| - 1]];
      if tail != [] {
        assert (Without(front, x) + tail)[..|Without(front, x)|] == Without(front, x);
      } else {
        assert Without(front, x) + tail == Without(front, x);
      }
    }
  }

  /** Sum of `f` over a finite set. */
  ghost function SumOver<T>(s: set<T>, f: T -> nat): nat {
    if s == {} then 0 else var x :| x in s; f(x) + SumOver(s - {x}, f)
  }

  /** The sum does not depend on the order in which the elements are taken. */
  lemma {:induction false} SumOverSplit<T>(s: set<T>, f: T -> nat, x: T)
    requires x in s
    ensures SumOver(s, f) == f(x) + SumOver(s - {x}, f)
    decreases |s|
  {
    var y :| y in s && SumOver(s, f) == f(y) + SumOver(s - {y}, f);
    if y != x {
      SumOverSplit(s - {y}, f, x);
      SumOverSplit(s - {x}, f, y);
      assert s - {y} - {x} == s - {x} - {y};
    }
  }

  /** If no element occurs more often than `f` allows, the sequence is no longer than the sum of `f`. */
  lemma {:induction false} LengthWithinSum<T>(s: seq<T>, keys: set<T>, f: T -> nat)
    requires forall x :: x in s ==> x in keys
    requires forall x :: x in keys ==> Count(s, x) <= f(x)
    ensures |s| <= SumOver(keys, f)
    decreases |keys|
  {
    if s != [] {
      var x := s[0];
      WithoutCounts(s, x);
      LengthWithinSum(Without(s, x), keys - {x}, f);
      SumOverSplit(keys, f, x);
    }
  }

  lemma ScaledStep(n: nat, k: nat)
    ensures n * (k + 1) == n * k + n
  {
  }

  lemma ScaledBound(n: nat, k: nat, bound: nat)
    requires k <= bound
    ensures n * k + n <= n * (1 + bound)
  {
    assert n * k <= n * bound;
  }

  lemma SliceOfSlice<T>(s: seq<T>, a: nat, b: nat, i: nat, j: nat)
    requires a <= b <= |s| && i <= j <= b - a
    ensures s[a..b][i..j] == s[a + i..a + j]
  {
    var x, y := s[a..b][i..j], s[a + i..a + j];
    forall k | 0 <= k < |x| ensures x[k] == y[k] {
      assert x[k] == s[a..b][i + k];
    }
  }
}
