/** Running a partial step function over a list, and when the order of the list does not
    matter to the result. */
module Folding {
  import opened Wrappers

  function Fold<T, A, E>(step: (T, A) -> Result<T, E>, t: T, xs: seq<A>): Result<T, E>
    decreases |xs|
  {
    if xs == [] then Success(t)
    else
      var t' :- step(t, xs[0]);
      Fold(step, t', xs[1..])
  }

  /** Where both steps are accepted, they can be taken in either order. */
  ghost predicate Commute<T(!new), A, E>(step: (T, A) -> Result<T, E>, a: A, b: A) {
    forall t :: step(t, a).Success? && step(t, b).Success? ==>
                  && step(step(t, a).value, b).Success?
                  && step(step(t, a).value, b) == step(step(t, b).value, a)
  }

  ghost predicate AllCommute<T(!new), A, E>(step: (T, A) -> Result<T, E>, xs: seq<A>) {
    forall i, j :: 0 <= i < |xs| && 0 <= j < |xs| && i != j ==> Commute(step, xs[i], xs[j])
  }

  ghost predicate AllAccepted<T, A, E>(step: (T, A) -> Result<T, E>, t: T, xs: seq<A>) {
    forall i :: 0 <= i < |xs| ==> step(t, xs[i]).Success?
  }

  /** Taking the first step leaves the others acceptable. */
  lemma StillAccepted<T(!new), A, E>(step: (T, A) -> Result<T, E>, t: T, xs: seq<A>)
    requires xs != [] && AllCommute(step, xs) && AllAccepted(step, t, xs)
    ensures AllCommute(step, xs[1..]) && AllAccepted(step, step(t, xs[0]).value, xs[1..])
  {
    forall i | 0 <= i < |xs[1..]| ensures step(step(t, xs[0]).value, xs[1..][i]).Success? {
      assert Commute(step, xs[0], xs[i + 1]);
    }
  }

  /** The list with its element `i` moved to the front. */
  function ToFront<A>(xs: seq<A>, i: nat): (r: seq<A>)
    requires i < |xs|
    ensures |r| == |xs| && r[0] == xs[i] && r[1..] == xs[..i] + xs[i + 1..]
  {
    [xs[i]] + (xs[..i] + xs[i + 1..])
  }

  lemma FrontPermutes<A>(xs: seq<A>, i: nat)
    requires i < |xs|
    ensures multiset(ToFront(xs, i)) == multiset(xs)
  {
    assert xs == xs[..i] + [xs[i]] + xs[i + 1..];
  }

  lemma FrontCommutes<T(!new), A, E>(step: (T, A) -> Result<T, E>, t: T, xs: seq<A>, i: nat)
    requires i < |xs| && AllCommute(step, xs) && AllAccepted(step, t, xs)
    ensures AllCommute(step, ToFront(xs, i)) && AllAccepted(step, t, ToFront(xs, i))
  {
    var ys := ToFront(xs, i);
    assert forall a :: 0 <= a < |ys| ==> ys[a] == xs[if a == 0 then i else if a <= i then a - 1 else a];
  }

  lemma FoldCons<T, A, E>(step: (T, A) -> Result<T, E>, t: T, x: A, xs: seq<A>)
    requires step(t, x).Success?
    ensures Fold(step, t, [x] + xs) == Fold(step, step(t, x).value, xs)
  {
    assert ([x] + xs)[1..] == xs;
  }

  /** A step that commutes with `x` can be moved before it. */
  lemma MoveStep<T(!new), A, E>(step: (T, A) -> Result<T, E>, t: T, x: A, tail: seq<A>, y: A, rest: seq<A>)
    requires Commute(step, x, y) && step(t, x).Success? && step(t, y).Success?
    requires Fold(step, step(t, x).value, tail) == Fold(step, step(t, x).value, [y] + rest)
    ensures Fold(step, t, [x] + tail) == Fold(step, t, [y] + ([x] + rest))
  {
    var tx, ty := step(t, x).value, step(t, y).value;
    assert step(tx, y).Success? && step(tx, y) == step(ty, x);
    FoldCons(step, t, x, tail);
    FoldCons(step, tx, y, rest);
    FoldCons(step, t, y, [x] + rest);
    FoldCons(step, ty, x, rest);
  }

  lemma FrontParts<A>(xs: seq<A>, i: nat)
    requires 0 < i < |xs|
    ensures ToFront(xs[1..], i - 1) == [xs[i]] + (xs[1..i] + xs[i + 1..])
    ensures ToFront(xs, i) == [xs[i]] + ([xs[0]] + (xs[1..i] + xs[i + 1..]))
    ensures xs == [xs[0]] + xs[1..]
  {
    assert xs[1..][..i - 1] == xs[1..i] && xs[1..][i..] == xs[i + 1..];
    assert xs[..i] == [xs[0]] + xs[1..i];
  }

  lemma {:induction false} MoveToFront<T(!new), A, E>(step: (T, A) -> Result<T, E>, t: T, xs: seq<A>, i: nat)
    requires i < |xs| && AllCommute(step, xs) && AllAccepted(step, t, xs)
    ensures Fold(step, t, xs) == Fold(step, t, ToFront(xs, i))
    decreases i
  {
    if i == 0 {
      assert ToFront(xs, i) == xs;
    } else {
      StillAccepted(step, t, xs);
      MoveToFront(step, step(t, xs[0]).value, xs[1..], i - 1);
      assert Commute(step, xs[0], xs[i]);
      FrontParts(xs, i);
      MoveStep(step, t, xs[0], xs[1..], xs[i], xs[1..i] + xs[i + 1..]);
    }
  }

  /** If the elements pairwise commute and are acceptable one by one, every permutation of
      the list gives the same result. */
  lemma {:induction false} Permuted<T(!new), A, E>(step: (T, A) -> Result<T, E>, t: T, xs: seq<A>, ys: seq<A>)
    requires multiset(xs) == multiset(ys) && AllCommute(step, xs) && AllAccepted(step, t, xs)
    ensures Fold(step, t, xs) == Fold(step, t, ys)
    decreases |ys|
  {
    assert |xs| == |multiset(xs)| == |ys|;
    if ys != [] {
      var i := IndexOf(xs, ys);
      var zs := ToFront(xs, i);
      MoveToFront(step, t, xs, i);
      FrontCommutes(step, t, xs, i);
      StillAccepted(step, t, zs);
      FrontPermutes(xs, i);
      SameTail(zs, ys);
      Permuted(step, step(t, zs[0]).value, zs[1..], ys[1..]);
    }
  }

  lemma IndexOf<A>(xs: seq<A>, ys: seq<A>) returns (i: nat)
    requires multiset(xs) == multiset(ys) && ys != []
    ensures i < |xs| && xs[i] == ys[0]
  {
    assert ys[0] in multiset(ys);
    i :| 0 <= i < |xs| && xs[i] == ys[0];
  }

  lemma SameTail<A>(xs: seq<A>, ys: seq<A>)
    requires multiset(xs) == multiset(ys) && xs != [] && ys != [] && xs[0] == ys[0]
    ensures multiset(xs[1..]) == multiset(ys[1..])
  {
    assert xs == [xs[0]] + xs[1..] && ys == [ys[0]] + ys[1..];
    assert multiset(xs[1..]) == multiset(xs) - multiset{xs[0]};
  }
}
