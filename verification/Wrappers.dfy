/**
 * The types shared by every module. `None` stands for SQL NULL and Python's None; an `Attempt` is a
 * transaction in progress: its result, or the error that makes the caller roll it back.
 */
module Wrappers {
  datatype Option<+T> = None | Some(value: T)

  datatype Attempt<+T, +E> = Done(value: T) | Aborted(error: E)

  function Min(a: int, b: int): int {
    if a <= b then a else b
  }

  function Max(a: int, b: int): int {
    if a >= b then a else b
  }

  lemma FrontAndLast<T>(s: seq<T>)
    requires s != []
    ensures s == s[..|s| - 1] + [s[|s| - 1]]
  {
  }
}

/** Sums over table rows, the model of SQL's `coalesce(sum(...), 0)`. */
module Sums {
  function SumBy<T>(s: seq<T>, f: T -> int): int {
    if s == [] then 0 else SumBy(s[..|s| - 1], f) + f(s[|s| - 1])
  }

  lemma SumByAppend<T>(s: seq<T>, x: T, f: T -> int)
    ensures SumBy(s + [x], f) == SumBy(s, f) + f(x)
  {
    assert (s + [x])[..|s|] == s;
  }

  lemma {:induction false} SumByUpdate<T>(s: seq<T>, i: nat, x: T, f: T -> int)
    requires i < |s|
    ensures SumBy(s[i := x], f) == SumBy(s, f) - f(s[i]) + f(x)
    decreases |s|
  {
    var front := s[..|s| - 1];
    if i < |s| - 1 {
      assert s[i := x][..|s| - 1] == front[i := x];
      SumByUpdate(front, i, x, f);
    } else {
      assert s[i := x][..|s| - 1] == front;
    }
  }

  lemma {:induction false} SumByZero<T>(s: seq<T>, f: T -> int)
    requires forall x :: x in s ==> f(x) == 0
    ensures SumBy(s, f) == 0
    decreases |s|
  {
    if s == [] {
    } else {
      SumByZero(s[..|s| - 1], f);
    }
  }

  lemma {:induction false} SumByNonNegative<T>(s: seq<T>, f: T -> int)
    requires forall x :: x in s ==> f(x) >= 0
    ensures SumBy(s, f) >= 0
    decreases |s|
  {
    if s == [] {
    } else {
      SumByNonNegative(s[..|s| - 1], f);
    }
  }

  lemma {:induction false} SumByPointwise<T>(s: seq<T>, t: seq<T>, f: T -> int)
    requires |s| == |t| && forall i :: 0 <= i < |s| ==> f(s[i]) == f(t[i])
    ensures SumBy(s, f) == SumBy(t, f)
    decreases |s|
  {
    if s == [] {
    } else {
      SumByPointwise(s[..|s| - 1], t[..|t| - 1], f);
    }
  }

  /** Adding up a pointwise sum is adding up the two sums. */
  lemma {:induction false} SumByPlus<T>(s: seq<T>, f: T -> int, g: T -> int, h: T -> int)
    requires forall x :: x in s ==> h(x) == f(x) + g(x)
    ensures SumBy(s, h) == SumBy(s, f) + SumBy(s, g)
    decreases |s|
  {
    if s == [] {
    } else {
      SumByPlus(s[..|s| - 1], f, g, h);
    }
  }
}
