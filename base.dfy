/** Small value-level helpers shared by the supervisor models. */
module Base {

  datatype Option<T> = None | Some(value: T)

  /** Strictly ascending: the shape of every id list the primary keeps, since
      worker ids are handed out in increasing order and lists only grow at the end. */
  ghost predicate Increasing(s: seq<nat>) {
    forall i, j :: 0 <= i < j < |s| ==> s[i] < s[j]
  }

  /** `s` with every occurrence of `x` removed, in order: `s.filter(w => w !== x)`. */
  function Without(s: seq<nat>, x: nat): (r: seq<nat>)
    ensures forall y :: y in r <==> y in s && y != x
    ensures |r| <= |s|
    ensures x !in s ==> r == s
  {
    if s == [] then []
    else if s[0] == x then Without(s[1..], x)
    else [s[0]] + Without(s[1..], x)
  }

  /** Elements of an ascending list are above its head. */
  lemma TailAbove(s: seq<nat>)
    requires Increasing(s) && s != []
    ensures Increasing(s[1..])
    ensures forall y :: y in s[1..] ==> s[0] < y
  {
    forall y | y in s[1..] ensures s[0] < y {
      var k :| 0 <= k < |s[1..]| && s[1..][k] == y;
      assert s[k + 1] == y;
    }
  }

  /** Putting a smaller element in front keeps a list ascending. */
  lemma ConsIncreasing(x: nat, s: seq<nat>)
    requires Increasing(s)
    requires forall y :: y in s ==> x < y
    ensures Increasing([x] + s)
  {
    var r := [x] + s;
    forall i, j | 0 <= i < j < |r| ensures r[i] < r[j] {
      if i == 0 {
        assert r[j] == s[j - 1] && s[j - 1] in s;
      } else {
        assert r[i] == s[i - 1] && r[j] == s[j - 1];
      }
    }
  }

  /** Appending a larger element keeps a list ascending. */
  lemma SnocIncreasing(s: seq<nat>, x: nat)
    requires Increasing(s)
    requires forall y :: y in s ==> y < x
    ensures Increasing(s + [x])
  {
    var r := s + [x];
    forall i, j | 0 <= i < j < |r| ensures r[i] < r[j] {
      assert r[i] == s[i] && s[i] in s;
      if j < |s| {
        assert r[j] == s[j];
      }
    }
  }

  /** Filtering an ascending list keeps it ascending. */
  lemma {:induction false} WithoutIncreasing(s: seq<nat>, x: nat)
    requires Increasing(s)
    ensures Increasing(Without(s, x))
  {
    if s != [] {
      TailAbove(s);
      WithoutIncreasing(s[1..], x);
      if s[0] != x {
        ConsIncreasing(s[0], Without(s[1..], x));
      }
    }
  }

  /** Filtering an ascending list removes exactly one element when `x` is in it. */
  lemma {:induction false} WithoutLength(s: seq<nat>, x: nat)
    requires Increasing(s)
    ensures |Without(s, x)| == if x in s then |s| - 1 else |s|
  {
    if s != [] {
      TailAbove(s);
      WithoutLength(s[1..], x);
      assert x in s <==> x == s[0] || x in s[1..];
    }
  }

  /** `[start, start + 1, …, start + n - 1]`: the ids of `n` consecutive forks. */
  function Iota(start: nat, n: nat): (r: seq<nat>)
    ensures |r| == n
    ensures forall i :: 0 <= i < n ==> r[i] == start + i
    decreases n
  {
    if n == 0 then [] else Iota(start, n - 1) + [start + n - 1]
  }

  function Min(a: nat, b: nat): nat {
    if a <= b then a else b
  }
}
