/** When the order of the flags on a command line does not matter. */
module FlagOrder {
  import opened Wrappers
  import opened FlagTree
  import opened FlagKeys
  import opened FlagRun
  import opened Folding

  /** Neither path is a prefix of the other, and where they part both take a key or both
      take an index. */
  ghost predicate Diverge(p: Path, q: Path) {
    exists n :: PartAt(p, q, n)
  }

  predicate PartAt(p: Path, q: Path, n: nat) {
    n < |p| && n < |q| && p[..n] == q[..n] && p[n] != q[n] && p[n].Index? == q[n].Index?
  }

  /** No slice is indexed directly inside a slice. */
  predicate NoNestedIndex(p: Path) {
    forall i :: 0 <= i < |p| - 1 ==> !(p[i].Index? && p[i + 1].Index?)
  }

  predicate CommuteAt(t: Tree, p: Path, v: string, q: Path, w: string)
    requires Store(t, p, v).Success? && Store(t, q, w).Success?
  {
    && Store(Store(t, p, v).value, q, w).Success?
    && Store(Store(t, p, v).value, q, w) == Store(Store(t, q, w).value, p, v)
  }

  /** One step of an assignment, with the rest of it summed up in what settles. */
  lemma StoreOneStep(t: Tree, p: Path, v: string) returns (e: Tree)
    requires p != [] && Store(t, p, v).Success?
    ensures Fits(t, p[0]) && Store(Child(t, p[0]), p[1..], v).Success?
    ensures e == Settled(p[0], Child(t, p[0]), p[1..], Store(Child(t, p[0]), p[1..], v).value)
    ensures Store(t, p, v).value == With(t, p[0], e)
  {
    e := Settled(p[0], Child(t, p[0]), p[1..], Store(Child(t, p[0]), p[1..], v).value);
  }

  /** The result below a step depends on what is there and on nothing else. */
  lemma StoreElsewhere(t: Tree, a: Tree, p: Path, v: string)
    requires p != [] && Store(t, p, v).Success?
    requires Fits(a, p[0]) && Child(a, p[0]) == Child(t, p[0])
    ensures Store(a, p, v) == Success(With(a, p[0],
                Settled(p[0], Child(t, p[0]), p[1..], Store(Child(t, p[0]), p[1..], v).value)))
  {
  }

  lemma CommuteApart(t: Tree, p: Path, v: string, q: Path, w: string)
    requires p != [] && q != [] && p[0] != q[0] && p[0].Index? == q[0].Index?
    requires Store(t, p, v).Success? && Store(t, q, w).Success?
    ensures CommuteAt(t, p, v, q, w)
  {
    var d := StoreOneStep(t, p, v);
    var e := StoreOneStep(t, q, w);
    var a, b := With(t, p[0], d), With(t, q[0], e);
    WithReads(t, p[0], d, q[0]);
    WithReads(t, q[0], e, p[0]);
    StoreElsewhere(t, a, q, w);
    StoreElsewhere(t, b, p, v);
    WithsCommute(t, p[0], d, q[0], e);
  }

  lemma CommuteTogether(t: Tree, p: Path, v: string, q: Path, w: string)
    requires p != [] && q != [] && p[0] == q[0]
    requires Store(t, p, v).Success? && Store(t, q, w).Success?
    requires Store(Child(t, p[0]), p[1..], v).Success? && Store(Child(t, p[0]), q[1..], w).Success?
    requires CommuteAt(Child(t, p[0]), p[1..], v, q[1..], w)
    requires var c := Child(t, p[0]);
      p[0].Index? ==>
        && !Outgrown(c, p[1..]) && !Outgrown(Store(c, q[1..], w).value, p[1..])
        && !Outgrown(c, q[1..]) && !Outgrown(Store(c, p[1..], v).value, q[1..])
    ensures CommuteAt(t, p, v, q, w)
  {
    var d := StoreOneStep(t, p, v);
    var e := StoreOneStep(t, q, w);
    var a, b := With(t, p[0], d), With(t, p[0], e);
    WithReads(t, p[0], d, p[0]);
    WithReads(t, p[0], e, p[0]);
    var x := StoreOneStep(a, q, w);
    var y := StoreOneStep(b, p, v);
    WithTwice(t, p[0], d, x);
    WithTwice(t, p[0], e, y);
  }

  lemma PartBelow(p: Path, q: Path, n: nat)
    requires PartAt(p, q, n) && n > 0
    ensures p[0] == q[0] && PartAt(p[1..], q[1..], n - 1)
  {
    assert p[0] == p[..n][0] == q[..n][0] == q[0];
    assert p[1..][..n - 1] == p[..n][1..] == q[1..][..n - 1];
  }

  /** An assignment does not make another one with a diverging path unacceptable. */
  lemma {:induction false} StaysAccepted(t: Tree, p: Path, v: string, q: Path, w: string, n: nat)
    requires PartAt(p, q, n) && Store(t, p, v).Success? && Store(t, q, w).Success?
    ensures Store(Store(t, p, v).value, q, w).Success?
    decreases n
  {
    var d := StoreOneStep(t, p, v);
    WithReads(t, p[0], d, q[0]);
    if n > 0 {
      PartBelow(p, q, n);
      StaysAccepted(Child(t, p[0]), p[1..], v, q[1..], w, n - 1);
    }
  }

  /** Neither assignment is lost, whichever comes first. */
  predicate NothingLost(t: Tree, p: Path, v: string, q: Path, w: string)
    requires Store(t, p, v).Success? && Store(t, q, w).Success?
  {
    && !LosesWrite(t, p) && !LosesWrite(Store(t, q, w).value, p)
    && !LosesWrite(t, q) && !LosesWrite(Store(t, p, v).value, q)
  }

  lemma NothingLostBelow(t: Tree, p: Path, v: string, q: Path, w: string)
    requires p != [] && q != [] && p[0] == q[0]
    requires Store(t, p, v).Success? && Store(t, q, w).Success? && NothingLost(t, p, v, q, w)
    ensures var c := Child(t, p[0]);
      && Store(c, p[1..], v).Success? && Store(c, q[1..], w).Success? && NothingLost(c, p[1..], v, q[1..], w)
      && (p[0].Index? ==>
            && !Outgrown(c, p[1..]) && !Outgrown(Store(c, q[1..], w).value, p[1..])
            && !Outgrown(c, q[1..]) && !Outgrown(Store(c, p[1..], v).value, q[1..]))
  {
    var d := StoreOneStep(t, p, v);
    var e := StoreOneStep(t, q, w);
    WithReads(t, p[0], d, p[0]);
    WithReads(t, p[0], e, p[0]);
  }

  /** Two diverging assignments, each accepted on its own, commute if neither is lost. */
  lemma {:induction false} StoresCommute(t: Tree, p: Path, v: string, q: Path, w: string, n: nat)
    requires PartAt(p, q, n) && Store(t, p, v).Success? && Store(t, q, w).Success?
    requires NothingLost(t, p, v, q, w)
    ensures CommuteAt(t, p, v, q, w)
    decreases n
  {
    if n == 0 {
      CommuteApart(t, p, v, q, w);
    } else {
      PartBelow(p, q, n);
      NothingLostBelow(t, p, v, q, w);
      StoresCommute(Child(t, p[0]), p[1..], v, q[1..], w, n - 1);
      CommuteTogether(t, p, v, q, w);
    }
  }

  lemma {:induction false} LostReadsNil(t: Tree, p: Path)
    requires LosesWrite(t, p)
    ensures Read(t, p) == Nil
    decreases |p|
  {
    var c := Child(t, p[0]);
    if p[0].Index? && Outgrown(c, p[1..]) {
      ReadNil(p[2..]);
    } else {
      LostReadsNil(c, p[1..]);
    }
  }

  /** If the first assignment is lost in one order only, the orders differ at its path. */
  lemma LostOnceDiffers(t: Tree, p: Path, v: string, q: Path, w: string, n: nat)
    requires PartAt(p, q, n) && Store(t, p, v).Success? && Store(t, q, w).Success?
    requires LosesWrite(t, p) != LosesWrite(Store(t, q, w).value, p)
    ensures !CommuteAt(t, p, v, q, w)
  {
    var a, b := Store(t, p, v).value, Store(t, q, w).value;
    StaysAccepted(t, p, v, q, w, n);
    assert PartAt(q, p, n);
    StaysAccepted(t, q, w, p, v, n);
    NotAPrefix(p, q, n);
    Untouched(t, q, w, p);
    Untouched(a, q, w, p);
    if LosesWrite(t, p) { LostReadsNil(t, p); } else { LostReadsNil(b, p); }
    ReadBack(t, p, v);
    ReadBack(b, p, v);
  }

  lemma NotAPrefix(p: Path, q: Path, n: nat)
    requires PartAt(p, q, n)
    ensures !(p <= q) && !(q <= p)
  {
  }

  /** When two diverging assignments commute, exactly: each is lost after the other if and
      only if it is lost on its own. */
  lemma CommutesExactly(t: Tree, p: Path, v: string, q: Path, w: string, n: nat)
    requires PartAt(p, q, n) && Store(t, p, v).Success? && Store(t, q, w).Success?
    ensures CommuteAt(t, p, v, q, w) <==>
            && LosesWrite(t, p) == LosesWrite(Store(t, q, w).value, p)
            && LosesWrite(t, q) == LosesWrite(Store(t, p, v).value, q)
  {
    var a, b := Store(t, p, v).value, Store(t, q, w).value;
    assert PartAt(q, p, n);
    StaysAccepted(t, p, v, q, w, n);
    StaysAccepted(t, q, w, p, v, n);
    if LosesWrite(t, p) != LosesWrite(b, p) {
      LostOnceDiffers(t, p, v, q, w, n);
    } else if LosesWrite(t, q) != LosesWrite(a, q) {
      LostOnceDiffers(t, q, w, p, v, n);
    } else if LosesWrite(t, p) {
      ReadBack(t, p, v);
      ReadBack(b, p, v);
    } else if LosesWrite(t, q) {
      ReadBack(t, q, w);
      ReadBack(a, q, w);
    } else {
      StoresCommute(t, p, v, q, w, n);
    }
  }

  /** The paths part inside a slice that is itself an element of a slice. */
  predicate ForkAt(p: Path, q: Path, n: nat) {
    PartAt(p, q, n) && n > 0 && p[n - 1].Index? && p[n].Index?
  }

  /** They part in a nested slice that the tree does not have yet, on a way on which
      nothing is lost. */
  predicate ForkInNothing(t: Tree, p: Path, q: Path, n: nat) {
    ForkAt(p, q, n) && Read(t, p[..n]) == Nil && !LosesWrite(t, p[..n])
  }

  /** The slice `c`, itself an element of a slice, after the assignment along `q`. */
  lemma OutgrownAfter(c: Tree, p: Path, q: Path, w: string, n: nat)
    requires PartAt(p, q, n) && Store(c, q, w).Success? && !Outgrown(c, q)
    ensures Outgrown(Store(c, q, w).value, p) <==>
            Outgrown(c, p) || (n == 0 && p[0].Index? && c == Nil && q[0].i < p[0].i)
  {
    if n > 0 { PartBelow(p, q, n); }
  }

  lemma ForkBelow(t: Tree, p: Path, q: Path, n: nat)
    requires n > 0 && PartAt(p, q, n) && p[0] == q[0] && PartAt(p[1..], q[1..], n - 1)
    requires !(p[0].Index? && Outgrown(Child(t, p[0]), q[1..]))
    ensures ForkInNothing(t, p, q, n) <==>
            if n == 1 then p[0].Index? && p[1].Index? && Child(t, p[0]) == Nil
            else ForkInNothing(Child(t, p[0]), p[1..], q[1..], n - 1)
  {
    var up := p[..n][1..];
    assert up == p[1..][..n - 1];
    if n == 1 {
      assert Read(Child(t, p[0]), up) == Child(t, p[0]) && !LosesWrite(Child(t, p[0]), up);
    } else {
      assert up[0] == q[1..][0] by { assert p[1..][..n - 1][0] == q[1..][..n - 1][0]; }
      assert p[n - 1] == p[1..][n - 2] && p[n] == p[1..][n - 1];
    }
  }

  /** Both assignments go through a slice in a slice that the common part has to grow. */
  lemma LostTogether(t: Tree, p: Path, q: Path, w: string, n: nat)
    requires PartAt(p, q, n) && n > 0 && p[0] == q[0] && Store(t, q, w).Success?
    requires p[0].Index? && Outgrown(Child(t, p[0]), q[1..])
    requires n == 1 || p[1] == q[1]
    ensures LosesWrite(Store(t, q, w).value, p) == LosesWrite(t, p) && !ForkInNothing(t, p, q, n)
  {
    var e := StoreOneStep(t, q, w);
    WithReads(t, q[0], e, p[0]);
    var up := p[..n][1..];
    if n > 1 {
      assert up[0] == q[1];
    } else {
      assert Read(Child(t, p[0]), up) == Child(t, p[0]);
    }
  }

  lemma LostAfterStep(t: Tree, p: Path, q: Path, w: string, n: nat)
    requires PartAt(p, q, n) && n > 0 && p[0] == q[0] && PartAt(p[1..], q[1..], n - 1)
    requires Store(t, q, w).Success? && !(p[0].Index? && Outgrown(Child(t, p[0]), q[1..]))
    requires var c := Child(t, p[0]);
      LosesWrite(Store(c, q[1..], w).value, p[1..]) <==>
      LosesWrite(c, p[1..]) || (ForkInNothing(c, p[1..], q[1..], n - 1) && q[n].i < p[n].i)
    ensures LosesWrite(Store(t, q, w).value, p) <==>
            LosesWrite(t, p) || (ForkInNothing(t, p, q, n) && q[n].i < p[n].i)
  {
    var e := StoreOneStep(t, q, w);
    WithReads(t, q[0], e, p[0]);
    if p[0].Index? { OutgrownAfter(Child(t, p[0]), p[1..], q[1..], w, n - 1); }
    ForkBelow(t, p, q, n);
  }

  /** What one assignment does to the chances of another: it is lost afterwards if it was
      lost before, or if the two fork in nothing and the first made the slice too short. */
  lemma {:induction false} LostAfter(t: Tree, p: Path, q: Path, w: string, n: nat)
    requires PartAt(p, q, n) && Store(t, q, w).Success?
    ensures LosesWrite(Store(t, q, w).value, p) <==>
            LosesWrite(t, p) || (ForkInNothing(t, p, q, n) && q[n].i < p[n].i)
    decreases n
  {
    if n == 0 {
      var e := StoreOneStep(t, q, w);
      WithReads(t, q[0], e, p[0]);
    } else {
      PartBelow(p, q, n);
      if p[0].Index? && Outgrown(Child(t, p[0]), q[1..]) {
        assert n > 1 ==> p[1] == p[..n][1] == q[..n][1] == q[1];
        LostTogether(t, p, q, w, n);
      } else {
        LostAfter(Child(t, p[0]), p[1..], q[1..], w, n - 1);
        LostAfterStep(t, p, q, w, n);
      }
    }
  }

  lemma {:induction false} NothingLostInNothing(t: Tree, p: Path, n: nat)
    requires n <= |p| && Read(t, p[..n]) == Nil && !LosesWrite(t, p[..n])
    ensures !LosesWrite(t, p)
    decreases n
  {
    if n == 0 {
      ReadNil(p);
    } else {
      assert p[..n][1..] == p[1..][..n - 1];
      NothingLostInNothing(Child(t, p[0]), p[1..], n - 1);
    }
  }

  /** When two diverging assignments commute, exactly: unless they fork in a nested slice
      that is still missing. */
  lemma CommutesUnlessForked(t: Tree, p: Path, v: string, q: Path, w: string, n: nat)
    requires PartAt(p, q, n) && Store(t, p, v).Success? && Store(t, q, w).Success?
    ensures CommuteAt(t, p, v, q, w) <==> !ForkInNothing(t, p, q, n)
  {
    CommutesExactly(t, p, v, q, w, n);
    LostAfter(t, p, q, w, n);
    LostAfter(t, q, p, v, n);
    if ForkInNothing(t, p, q, n) {
      NothingLostInNothing(t, p, n);
      NothingLostInNothing(t, q, n);
    }
  }

  /** Without nested indices nothing is ever lost. */
  lemma {:induction false} NeverLost(t: Tree, p: Path)
    requires NoNestedIndex(p)
    ensures !LosesWrite(t, p)
    decreases |p|
  {
    if p != [] {
      forall i | 0 <= i < |p[1..]| - 1 ensures !(p[1..][i].Index? && p[1..][i + 1].Index?) {
        assert p[1..][i] == p[i + 1] && p[1..][i + 1] == p[i + 2];
      }
      NeverLost(Child(t, p[0]), p[1..]);
    }
  }

  /** In an empty place the smaller index first loses the larger one, the larger one first
      keeps both; so what the path of the larger one reads differs. */
  lemma ForkReads(t: Tree, p: Path, v: string, q: Path, w: string, n: nat)
    requires ForkInNothing(t, p, q, n) && p[n].i < q[n].i
    requires Store(t, p, v).Success? && Store(t, q, w).Success?
    ensures var ab, ba := Store(Store(t, p, v).value, q, w), Store(Store(t, q, w).value, p, v);
      ab.Success? && ba.Success? && Read(ab.value, q) == Nil && Read(ba.value, q) == Str(w)
  {
    var a, b := Store(t, p, v).value, Store(t, q, w).value;
    assert PartAt(q, p, n) && ForkInNothing(t, q, p, n);
    StaysAccepted(t, p, v, q, w, n);
    StaysAccepted(t, q, w, p, v, n);
    LostAfter(t, q, p, v, n);
    LostReadsNil(a, q);
    ReadBack(a, q, w);
    NothingLostInNothing(t, q, n);
    ReadPastNil(t, q, n);
    ReadBack(t, q, w);
    NotAPrefix(p, q, n);
    Untouched(b, p, v, q);
  }

  lemma {:induction false} ReadPastNil(t: Tree, p: Path, n: nat)
    requires n <= |p| && Read(t, p[..n]) == Nil
    ensures Read(t, p) == Nil
    decreases n
  {
    if n == 0 {
      ReadNil(p);
    } else {
      assert p[..n][1..] == p[1..][..n - 1];
      ReadPastNil(Child(t, p[0]), p[1..], n - 1);
    }
  }

  // ----- Lists of flags -----

  function PathOf(f: Setting): Path {
    Parse(f.key).steps
  }

  /** The keys parse, and the paths pairwise part at two keys or at two indices. */
  ghost predicate Diverging(fs: seq<Setting>) {
    && (forall f :: f in fs ==> Parse(f.key).bad.None?)
    && forall i, j :: 0 <= i < j < |fs| ==> Diverge(PathOf(fs[i]), PathOf(fs[j]))
  }

  ghost predicate Fork(p: Path, q: Path) {
    exists n :: ForkAt(p, q, n)
  }

  /** No two paths part inside a slice that is an element of a slice. */
  ghost predicate NoForks(fs: seq<Setting>) {
    forall i, j :: 0 <= i < j < |fs| ==> !Fork(PathOf(fs[i]), PathOf(fs[j]))
  }

  ghost predicate Parted(f: Setting, g: Setting) {
    Parse(f.key).bad.None? && Parse(g.key).bad.None? && Diverge(PathOf(f), PathOf(g))
  }

  lemma DivergingPair(fs: seq<Setting>, i: nat, j: nat)
    requires Diverging(fs) && i < |fs| && j < |fs| && i != j
    ensures Parted(fs[i], fs[j])
  {
    if j < i {
      var n :| PartAt(PathOf(fs[j]), PathOf(fs[i]), n);
      assert PartAt(PathOf(fs[i]), PathOf(fs[j]), n);
    }
  }

  lemma SettingsCommute(f: Setting, g: Setting)
    requires Parted(f, g) && !Fork(PathOf(f), PathOf(g))
    ensures Commute(Apply, f, g) && Commute(Apply, g, f)
  {
    var n :| PartAt(PathOf(f), PathOf(g), n);
    forall t | Apply(t, f).Success? && Apply(t, g).Success?
      ensures CommuteAt(t, PathOf(f), f.value, PathOf(g), g.value)
    {
      CommutesUnlessForked(t, PathOf(f), f.value, PathOf(g), g.value, n);
    }
  }

  lemma UnforkedCommute(fs: seq<Setting>)
    requires Diverging(fs) && NoForks(fs)
    ensures AllCommute(Apply, fs)
  {
    forall i, j | 0 <= i < |fs| && 0 <= j < |fs| && i != j ensures Commute(Apply, fs[i], fs[j]) {
      DivergingPair(fs, if i < j then i else j, if i < j then j else i);
      if i < j { SettingsCommute(fs[i], fs[j]); } else { SettingsCommute(fs[j], fs[i]); }
    }
  }

  /** A flag whose path starts with a key is accepted by the empty root, one that starts
      with an index is not. */
  lemma AtTheRoot(f: Setting)
    requires Parse(f.key).bad.None? && PathOf(f) != []
    ensures Apply(EMPTY, f).Success? <==> PathOf(f)[0].Key?
    ensures PathOf(f)[0].Index? ==> Apply(EMPTY, f) == Failure(ExpectedSlice(MapKind))
  {
    ReadNil(PathOf(f)[1..]);
    PutSucceedsExactly(EMPTY, PathOf(f), Success(f.value));
  }

  /** The run of these flags is refused by the root. */
  predicate Indexed(fs: seq<Setting>) {
    fs != [] && PathOf(fs[0]) != [] && PathOf(fs[0])[0].Index?
  }

  /** Diverging flags all start with a key, or all start with an index. */
  lemma SameStart(fs: seq<Setting>, i: nat)
    requires Diverging(fs) && |fs| >= 2 && i < |fs|
    ensures PathOf(fs[0]) != [] && PathOf(fs[i]) != []
    ensures PathOf(fs[i])[0].Index? == PathOf(fs[0])[0].Index?
  {
    var j := if i == 0 then 1 else i;
    var n: nat :| PartAt(PathOf(fs[0]), PathOf(fs[j]), n);
    assert n > 0 ==> PathOf(fs[0])[..n][0] == PathOf(fs[j])[..n][0];
  }

  lemma IndexedAtRoot(fs: seq<Setting>)
    requires Indexed(fs) && Parse(fs[0].key).bad.None?
    ensures RunSettings(EMPTY, fs) == Failure(ExpectedSlice(MapKind))
  {
    AtTheRoot(fs[0]);
  }

  lemma KeyedAtRoot(fs: seq<Setting>)
    requires Diverging(fs) && |fs| >= 2 && !Indexed(fs)
    ensures AllAccepted(Apply, EMPTY, fs)
  {
    forall i | 0 <= i < |fs| ensures Apply(EMPTY, fs[i]).Success? {
      SameStart(fs, i);
      AtTheRoot(fs[i]);
    }
  }

  lemma Reordered(fs: seq<Setting>, gs: seq<Setting>)
    requires multiset(fs) == multiset(gs) && Diverging(fs) && |fs| >= 2
    requires Indexed(fs) || NoForks(fs)
    ensures RunSettings(EMPTY, fs) == RunSettings(EMPTY, gs)
  {
    if Indexed(fs) {
      assert |multiset(gs)| == |fs|;
      var i := IndexOf(fs, gs);
      SameStart(fs, i);
      IndexedAtRoot(fs);
      IndexedAtRoot(gs);
    } else {
      UnforkedCommute(fs);
      KeyedAtRoot(fs);
      Permuted(Apply, EMPTY, fs, gs);
    }
  }

  lemma ShortLists<A>(xs: seq<A>, ys: seq<A>)
    requires multiset(xs) == multiset(ys) && |xs| < 2
    ensures xs == ys
  {
    assert |xs| == |multiset(xs)| == |ys|;
    if |xs| == 1 { assert ys[0] in multiset(xs); }
  }

  lemma SameArguments(fs: seq<Setting>, gs: seq<Setting>)
    requires multiset(fs) == multiset(gs) && forall f :: f in fs ==> '=' !in f.key
    ensures MapOf(Arguments(fs)) == RunSettings(EMPTY, fs)
    ensures MapOf(Arguments(gs)) == RunSettings(EMPTY, gs)
  {
    forall g | g in gs ensures g in fs { assert g in multiset(gs); }
    RunArguments(EMPTY, fs);
    RunArguments(EMPTY, gs);
  }

  /** Order independence: for flags whose paths pairwise part at two keys or at two
      indices, and not inside a nested slice, every permutation of the command line gives
      the same result. */
  lemma OrderDoesNotMatter(fs: seq<Setting>, gs: seq<Setting>)
    requires multiset(fs) == multiset(gs) && Diverging(fs) && (Indexed(fs) || NoForks(fs))
    requires forall f :: f in fs ==> '=' !in f.key
    ensures MapOf(Arguments(fs)) == MapOf(Arguments(gs))
  {
    SameArguments(fs, gs);
    if |fs| < 2 { ShortLists(fs, gs); } else { Reordered(fs, gs); }
  }

  // ----- When two flags fork, order matters -----

  /** Flags accepted one by one are accepted in a row, and a path that diverges from all
      of them reads the same afterwards. */
  lemma {:induction false} RunApart(t: Tree, fs: seq<Setting>, p: Path)
    requires Diverging(fs) && AllAccepted(Apply, t, fs)
    requires forall f :: f in fs ==> Diverge(p, PathOf(f))
    ensures RunSettings(t, fs).Success? && Read(RunSettings(t, fs).value, p) == Read(t, p)
    decreases |fs|
  {
    if fs != [] {
      var f, rest := fs[0], fs[1..];
      var u := Apply(t, f).value;
      forall i | 0 <= i < |rest| ensures Apply(u, rest[i]).Success? {
        assert rest[i] == fs[i + 1];
        StaysAcceptedApart(t, f, rest[i]);
      }
      var n: nat :| PartAt(p, PathOf(f), n);
      NotAPrefix(p, PathOf(f), n);
      Untouched(t, PathOf(f), f.value, p);
      assert forall i, j :: 0 <= i < j < |rest| ==> rest[i] == fs[i + 1] && rest[j] == fs[j + 1];
      RunApart(u, rest, p);
    }
  }

  lemma StaysAcceptedApart(t: Tree, f: Setting, g: Setting)
    requires Parted(f, g) && Apply(t, f).Success? && Apply(t, g).Success?
    ensures Apply(Apply(t, f).value, g).Success?
  {
    var n :| PartAt(PathOf(f), PathOf(g), n);
    StaysAccepted(t, PathOf(f), f.value, PathOf(g), g.value, n);
  }

  /** The list with its elements `i` and `j` taken out. */
  function Others<A>(xs: seq<A>, i: nat, j: nat): (r: seq<A>)
    requires i < j < |xs|
    ensures |r| == |xs| - 2
    ensures forall k :: 0 <= k < |r| ==> r[k] == xs[if k < i then k else if k + 1 < j then k + 1 else k + 2]
  {
    xs[..i] + xs[i + 1..j] + xs[j + 1..]
  }

  lemma OthersPermute<A>(xs: seq<A>, i: nat, j: nat)
    requires i < j < |xs|
    ensures multiset([xs[i]] + ([xs[j]] + Others(xs, i, j))) == multiset(xs)
    ensures multiset([xs[j]] + ([xs[i]] + Others(xs, i, j))) == multiset(xs)
  {
    assert xs == xs[..i] + [xs[i]] + xs[i + 1..j] + [xs[j]] + xs[j + 1..];
  }

  /** Two accepted flags, and flags that part from both. */
  ghost predicate Beside(f: Setting, g: Setting, rest: seq<Setting>) {
    && Apply(EMPTY, f).Success? && Apply(EMPTY, g).Success? && AllAccepted(Apply, EMPTY, rest)
    && Parted(f, g) && Parted(g, f) && Diverging(rest)
    && forall h :: h in rest ==> Parted(f, h) && Parted(g, h)
  }

  /** What the path of the second of two flags reads after them, it reads at the end. */
  lemma RunBeside(f: Setting, g: Setting, rest: seq<Setting>, h: Setting)
    requires Beside(f, g, rest) && h in {f, g}
    ensures Apply(Apply(EMPTY, f).value, g).Success?
    ensures var r := RunSettings(EMPTY, [f] + ([g] + rest));
      r.Success? && Read(r.value, PathOf(h)) == Read(Apply(Apply(EMPTY, f).value, g).value, PathOf(h))
  {
    StaysAcceptedApart(EMPTY, f, g);
    var a := Apply(EMPTY, f).value;
    forall i | 0 <= i < |rest| ensures Apply(Apply(a, g).value, rest[i]).Success? {
      assert rest[i] in rest;
      StaysAcceptedApart(EMPTY, f, rest[i]);
      StaysAcceptedApart(a, g, rest[i]);
    }
    RunApart(Apply(a, g).value, rest, PathOf(h));
    FoldCons(Apply, EMPTY, f, [g] + rest);
    FoldCons(Apply, a, g, rest);
  }

  lemma ForkInNothingAtRoot(f: Setting, q: Path, n: nat)
    requires Parse(f.key).bad.None? && Apply(EMPTY, f).Success? && ForkAt(PathOf(f), q, n)
    ensures ForkInNothing(EMPTY, PathOf(f), q, n)
  {
    AtTheRoot(f);
    ReadNil(PathOf(f)[..n][1..]);
  }

  /** With the smaller index first the larger one is lost for good. */
  lemma SmallerFirstLoses(f: Setting, g: Setting, rest: seq<Setting>, n: nat)
    requires Beside(f, g, rest) && Beside(g, f, rest)
    requires ForkAt(PathOf(f), PathOf(g), n) && PathOf(f)[n].i < PathOf(g)[n].i
    ensures RunSettings(EMPTY, [f] + ([g] + rest)) != RunSettings(EMPTY, [g] + ([f] + rest))
  {
    ForkInNothingAtRoot(f, PathOf(g), n);
    ForkReads(EMPTY, PathOf(f), f.value, PathOf(g), g.value, n);
    RunBeside(f, g, rest, g);
    RunBeside(g, f, rest, g);
  }

  lemma ForkIsSymmetric(p: Path, q: Path, n: nat)
    requires ForkAt(p, q, n)
    ensures ForkAt(q, p, n) && p[n].i != q[n].i
  {
  }

  /** Of two flags that fork, the order decides what the larger index ends up with. */
  lemma ForkedOrdersDiffer(f: Setting, g: Setting, rest: seq<Setting>, n: nat)
    requires Beside(f, g, rest) && Beside(g, f, rest) && ForkAt(PathOf(f), PathOf(g), n)
    ensures RunSettings(EMPTY, [f] + ([g] + rest)) != RunSettings(EMPTY, [g] + ([f] + rest))
  {
    ForkIsSymmetric(PathOf(f), PathOf(g), n);
    if PathOf(f)[n].i < PathOf(g)[n].i {
      SmallerFirstLoses(f, g, rest, n);
    } else {
      SmallerFirstLoses(g, f, rest, n);
    }
  }

  lemma OthersBeside(fs: seq<Setting>, i: nat, j: nat)
    requires i < j < |fs| && Diverging(fs) && AllAccepted(Apply, EMPTY, fs)
    ensures Beside(fs[i], fs[j], Others(fs, i, j)) && Beside(fs[j], fs[i], Others(fs, i, j))
  {
    var rest := Others(fs, i, j);
    DivergingPair(fs, i, j);
    DivergingPair(fs, j, i);
    forall h | h in rest ensures Parted(fs[i], h) && Parted(fs[j], h) {
      var k :| 0 <= k < |rest| && rest[k] == h;
      var l := if k < i then k else if k + 1 < j then k + 1 else k + 2;
      DivergingPair(fs, i, l);
      DivergingPair(fs, j, l);
    }
  }

  lemma ForkedListMatters(fs: seq<Setting>, i: nat, j: nat) returns (gs: seq<Setting>, hs: seq<Setting>)
    requires i < j < |fs| && Diverging(fs) && !Indexed(fs) && Fork(PathOf(fs[i]), PathOf(fs[j]))
    ensures multiset(gs) == multiset(fs) && multiset(hs) == multiset(fs)
    ensures RunSettings(EMPTY, gs) != RunSettings(EMPTY, hs)
  {
    var rest := Others(fs, i, j);
    var n :| ForkAt(PathOf(fs[i]), PathOf(fs[j]), n);
    KeyedAtRoot(fs);
    OthersBeside(fs, i, j);
    ForkedOrdersDiffer(fs[i], fs[j], rest, n);
    OthersPermute(fs, i, j);
    gs, hs := [fs[i]] + ([fs[j]] + rest), [fs[j]] + ([fs[i]] + rest);
  }

  /** Every order of these flags on the command line has the same result. */
  ghost predicate OrderFree(fs: seq<Setting>) {
    forall gs :: multiset(gs) == multiset(fs) ==> MapOf(Arguments(gs)) == MapOf(Arguments(fs))
  }

  /** Order independence, exactly: of flags whose paths pairwise part at two keys or at two
      indices, every permutation of the command line gives the same result if and only if
      the root refuses them all, or no two of them part inside a nested slice. */
  lemma OrderDoesNotMatterExactly(fs: seq<Setting>)
    requires Diverging(fs) && forall f :: f in fs ==> '=' !in f.key
    ensures OrderFree(fs) <==> Indexed(fs) || NoForks(fs)
  {
    if Indexed(fs) || NoForks(fs) {
      forall gs | multiset(gs) == multiset(fs) ensures MapOf(Arguments(gs)) == MapOf(Arguments(fs)) {
        OrderDoesNotMatter(fs, gs);
      }
    } else {
      var i, j :| 0 <= i < j < |fs| && Fork(PathOf(fs[i]), PathOf(fs[j]));
      var gs, hs := ForkedListMatters(fs, i, j);
      SameArguments(fs, gs);
      SameArguments(fs, hs);
      assert OrderFree(fs) ==> MapOf(Arguments(gs)) == MapOf(Arguments(fs)) == MapOf(Arguments(hs));
    }
  }

  // ----- Why the conditions are there -----

  function AtPath(p: Path, v: string): Setting {
    Setting(PrintKey(p), v)
  }

  lemma ApplyAtPath(t: Tree, p: Path, v: string)
    requires forall s :: s in p ==> Nameable(s)
    ensures Apply(t, AtPath(p, v)) == Store(t, p, v)
    ensures '=' !in AtPath(p, v).key
  {
    ParsePrintedKey(p);
  }

  lemma RunTwo(p: Path, v: string, q: Path, w: string, t: Tree)
    requires (forall s :: s in p ==> Nameable(s)) && forall s :: s in q ==> Nameable(s)
    requires Store(EMPTY, p, v) == Success(t)
    ensures MapOf(Arguments([AtPath(p, v), AtPath(q, w)])) == Store(t, q, w)
  {
    var f, g := AtPath(p, v), AtPath(q, w);
    ApplyAtPath(EMPTY, p, v);
    ApplyAtPath(t, q, w);
    RunArguments(EMPTY, [f, g]);
    FoldCons(Apply, EMPTY, f, [g]);
    assert [f] + [g] == [f, g];
    assert Fold(Apply, t, [g]) == Apply(t, g);
  }

  lemma StoreCons(t: Tree, s: Step, p: Path, v: string, r: Tree)
    requires Fits(t, s) && Store(Child(t, s), p, v) == Success(r)
    ensures Store(t, [s] + p, v) == Success(With(t, s, Settled(s, Child(t, s), p, r)))
  {
    assert ([s] + p)[1..] == p;
  }

  /** `--a[0][j]=v` where `a[0]` is a slice, or nothing yet. */
  lemma NestedStore(t: Tree, c: Tree, j: nat, v: string)
    requires t == if c == Nil then EMPTY else Map(map["a" := Slice([c])])
    requires (c == Nil || c.Slice?) && Child(c, Index(j)) == Nil
    ensures Store(t, [Key("a")] + ([Index(0)] + [Index(j)]), v) ==
            Success(Map(map["a" := Slice([if Outgrown(c, [Index(j)]) then c else With(c, Index(j), Str(v))])]))
  {
    var s := if c == Nil then Nil else Slice([c]);
    StoreCons(c, Index(j), [], v, Str(v));
    assert [Index(j)] + [] == [Index(j)];
    var d := With(c, Index(j), Str(v));
    var e := if Outgrown(c, [Index(j)]) then c else d;
    StoreCons(s, Index(0), [Index(j)], v, d);
    assert With(s, Index(0), e).es == [e];
    StoreCons(t, Key("a"), [Index(0)] + [Index(j)], v, Slice([e]));
    assert Entries(t)["a" := Slice([e])] == map["a" := Slice([e])];
  }

  /** Writes into a slice inside a slice are lost in increasing order: after
      `--a[0][0]=x --a[0][1]=y` only x is there, the other order keeps both. */
  lemma NestedOrderMatters()
    ensures var p, q := [Key("a")] + ([Index(0)] + [Index(0)]), [Key("a")] + ([Index(0)] + [Index(1)]);
      && MapOf(Arguments([AtPath(p, "x"), AtPath(q, "y")])) ==
         Success(Map(map["a" := Slice([Slice([Str("x")])])]))
      && MapOf(Arguments([AtPath(q, "y"), AtPath(p, "x")])) ==
         Success(Map(map["a" := Slice([Slice([Str("x"), Str("y")])])]))
  {
    var p, q := [Key("a")] + ([Index(0)] + [Index(0)]), [Key("a")] + ([Index(0)] + [Index(1)]);
    var x, y := Slice([Str("x")]), Slice([Nil, Str("y")]);
    NestedStore(EMPTY, Nil, 0, "x");
    assert With(Nil, Index(0), Str("x")).es == x.es;
    NestedStore(Map(map["a" := Slice([x])]), x, 1, "y");
    RunTwo(p, "x", q, "y", Map(map["a" := Slice([x])]));
    NestedStore(EMPTY, Nil, 1, "y");
    assert With(Nil, Index(1), Str("y")).es == y.es;
    NestedStore(Map(map["a" := Slice([y])]), y, 0, "x");
    assert With(y, Index(0), Str("x")).es == [Str("x"), Str("y")];
    RunTwo(q, "y", p, "x", Map(map["a" := Slice([y])]));
  }
}
