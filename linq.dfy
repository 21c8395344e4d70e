/**
 * The three LINQ operators the core relies on, over finite sequences:
 * `select` (Select), a nested `from .. from .. select` (SelectMany) and
 * `Aggregate` (a left fold).
 */
module Linq {

  /** `from x in xs select f(x)`: one result per element, in order. */
  function Select<T, U>(xs: seq<T>, f: T -> U): (ys: seq<U>)
    ensures |ys| == |xs|
    ensures forall i :: 0 <= i < |xs| ==> ys[i] == f(xs[i])
  {
    if xs == [] then [] else [f(xs[0])] + Select(xs[1..], f)
  }

  /** The sum of the lengths of the blocks `f(x)` over the elements `x` of `xs`. */
  function TotalLength<T, U>(xs: seq<T>, f: T -> seq<U>): nat
  {
    if xs == [] then 0 else |f(xs[0])| + TotalLength(xs[1..], f)
  }

  /** `from x in xs from y in f(x) select y`: the blocks `f(x)` laid end to end, in order. */
  function SelectMany<T, U>(xs: seq<T>, f: T -> seq<U>): (ys: seq<U>)
    ensures |ys| == TotalLength(xs, f)
  {
    if xs == [] then [] else f(xs[0]) + SelectMany(xs[1..], f)
  }

  /**
   * A reference for the left fold, written from the other end: the last
   * element is combined last, onto the fold of everything before it.
   */
  function FoldLast<T, A>(xs: seq<T>, seed: A, step: (A, T) -> A): A
    decreases |xs|
  {
    if xs == [] then seed else step(FoldLast(xs[..|xs| - 1], seed, step), xs[|xs| - 1])
  }

  /** Folding `[x] + xs` from the end is folding `xs` from `step(seed, x)`. */
  lemma {:induction false} FoldLastCons<T, A>(x: T, xs: seq<T>, seed: A, step: (A, T) -> A)
    ensures FoldLast([x] + xs, seed, step) == FoldLast(xs, step(seed, x), step)
    decreases |xs|
  {
    var ys := [x] + xs;
    if xs == [] {
      assert ys[..0] == [];
    } else {
      var init := xs[..|xs| - 1];
      FoldLastCons(x, init, seed, step);
      assert ys[..|ys| - 1] == [x] + init;
    }
  }

  /** `xs.Aggregate(seed, step)`: the left fold of `step` over `xs`, from the first element on. */
  function Aggregate<T, A>(xs: seq<T>, seed: A, step: (A, T) -> A): (r: A)
    ensures r == FoldLast(xs, seed, step)
    decreases |xs|
  {
    if xs == [] then seed
    else
      FoldLastCons(xs[0], xs[1..], seed, step);
      assert [xs[0]] + xs[1..] == xs;
      Aggregate(xs[1..], step(seed, xs[0]), step)
  }

  lemma {:induction false} SelectAppend<T, U>(a: seq<T>, b: seq<T>, f: T -> U)
    ensures Select(a + b, f) == Select(a, f) + Select(b, f)
  {
    var l, r := Select(a + b, f), Select(a, f) + Select(b, f);
    assert |l| == |r|;
    forall i | 0 <= i < |l| ensures l[i] == r[i] {
      if i < |a| { assert (a + b)[i] == a[i]; } else { assert (a + b)[i] == b[i - |a|]; }
    }
  }

  /** Two fan-outs whose blocks have equal lengths element by element have the same total length. */
  lemma {:induction false} TotalLengthCongruent<T, U, V>(xs: seq<T>, f: T -> seq<U>, g: T -> seq<V>)
    requires forall i :: 0 <= i < |xs| ==> |f(xs[i])| == |g(xs[i])|
    ensures TotalLength(xs, f) == TotalLength(xs, g)
  {
    if xs != [] {
      TotalLengthCongruent(xs[1..], f, g);
    }
  }

  /** A fan-out distributes over concatenation of its input. */
  lemma {:induction false} SelectManyAppend<T, U>(a: seq<T>, b: seq<T>, f: T -> seq<U>)
    ensures SelectMany(a + b, f) == SelectMany(a, f) + SelectMany(b, f)
  {
    if a == [] {
      assert a + b == b;
    } else {
      assert (a + b)[1..] == a[1..] + b;
      SelectManyAppend(a[1..], b, f);
    }
  }

  /**
   * Where each element's block sits in the output: the `j`-th entry of
   * `f(xs[i])` is found right after the blocks of the elements before `xs[i]`.
   */
  lemma {:induction false} SelectManyAt<T, U>(xs: seq<T>, f: T -> seq<U>, i: nat, j: nat)
    requires i < |xs| && j < |f(xs[i])|
    ensures TotalLength(xs[..i], f) + j < |SelectMany(xs, f)|
    ensures SelectMany(xs, f)[TotalLength(xs[..i], f) + j] == f(xs[i])[j]
  {
    assert xs == xs[..i] + xs[i..];
    SelectManyAppend(xs[..i], xs[i..], f);
    assert xs[i..] == [xs[i]] + xs[i + 1..];
    SelectManyAppend([xs[i]], xs[i + 1..], f);
    assert SelectMany([xs[i]], f) == f(xs[i]) by {
      assert [xs[i]][1..] == [];
    }
  }

  /** Every output entry comes from some input element's block. */
  lemma {:induction false} SelectManyOrigin<T, U>(xs: seq<T>, f: T -> seq<U>, k: nat)
    requires k < |SelectMany(xs, f)|
    ensures exists i, j :: 0 <= i < |xs| && 0 <= j < |f(xs[i])| && SelectMany(xs, f)[k] == f(xs[i])[j]
  {
    if k < |f(xs[0])| {
      assert SelectMany(xs, f)[k] == f(xs[0])[k];
    } else {
      var rest := SelectMany(xs[1..], f);
      assert SelectMany(xs, f)[k] == rest[k - |f(xs[0])|];
      SelectManyOrigin(xs[1..], f, k - |f(xs[0])|);
      var i, j :| 0 <= i < |xs[1..]| && 0 <= j < |f(xs[1..][i])| && rest[k - |f(xs[0])|] == f(xs[1..][i])[j];
      assert xs[1..][i] == xs[i + 1];
    }
  }

  /** A fan-out whose blocks agree element by element yields the same output. */
  lemma {:induction false} SelectManyCongruent<T, U>(a: seq<T>, b: seq<T>, f: T -> seq<U>, g: T -> seq<U>)
    requires |a| == |b|
    requires forall i :: 0 <= i < |a| ==> f(a[i]) == g(b[i])
    ensures SelectMany(a, f) == SelectMany(b, g)
  {
    if a != [] {
      SelectManyCongruent(a[1..], b[1..], f, g);
    }
  }

  /** Folding over `a + b` is folding over `b` from the result of folding over `a`. */
  lemma {:induction false} AggregateAppend<T, A>(a: seq<T>, b: seq<T>, seed: A, step: (A, T) -> A)
    ensures Aggregate(a + b, seed, step) == Aggregate(b, Aggregate(a, seed, step), step)
  {
    if a == [] {
      assert a + b == b;
    } else {
      assert (a + b)[1..] == a[1..] + b;
      AggregateAppend(a[1..], b, step(seed, a[0]), step);
    }
  }
}
