/**
 The tree of maps and slices that `--a.b[2].c=v` flags build, as an immutable value,
 and what one assignment does to it.  `Put` is the specification that the in-place
 `assign` of FlagHeap is proved against; the lemmas say what it means.
 */
module FlagTree {
  import opened Wrappers

  /** An `interface{}` value built from flags.  A missing map entry is read as Nil. */
  datatype Tree = Nil | Str(s: string) | Slice(es: seq<Tree>) | Map(m: map<string, Tree>)

  datatype Kind = StringKind | SliceKind | MapKind

  datatype Step = Index(i: nat) | Key(k: string)

  type Path = seq<Step>

  datatype Error =
    | BadIndex(digits: string)      // strconv.Atoi refused the text between the brackets
    | UnknownKey(key: string)       // neither pattern matches the rest of the key
    | ExpectedSlice(got: Kind)
    | ExpectedMap(got: Kind)
    | InvalidFlag
    | ExpectedParameter
    | SliceOutOfRange               // k[0:2] panics on an argument of fewer than two bytes

  function KindOf(t: Tree): Kind
    requires !t.Nil?
  {
    match t
    case Str(_) => StringKind
    case Slice(_) => SliceKind
    case Map(_) => MapKind
  }

  // ----- Reading -----

  function Elements(t: Tree): seq<Tree> {
    if t.Slice? then t.es else []
  }

  function Entries(t: Tree): map<string, Tree> {
    if t.Map? then t.m else map[]
  }

  /** What `t` holds one step down; Nil where it holds nothing. */
  function Child(t: Tree, s: Step): Tree {
    match s
    case Index(i) => if i < |Elements(t)| then Elements(t)[i] else Nil
    case Key(k) => if k in Entries(t) then Entries(t)[k] else Nil
  }

  function Read(t: Tree, p: Path): Tree
    decreases |p|
  {
    if p == [] then t else Read(Child(t, p[0]), p[1..])
  }

  // ----- Writing -----

  function Nils(n: nat): (r: seq<Tree>)
    ensures |r| == n && forall i :: 0 <= i < n ==> r[i] == Nil
  {
    seq(n, _ => Nil)
  }

  /** A slice grown to length `n` with nil elements, when it is shorter. */
  function Pad(es: seq<Tree>, n: nat): (r: seq<Tree>)
    ensures |r| == if |es| < n then n else |es|
    ensures forall i :: 0 <= i < |r| ==> r[i] == if i < |es| then es[i] else Nil
  {
    if |es| < n then es + Nils(n - |es|) else es
  }

  /** `t` can be stepped into by `s`: nothing is there yet, or the right container. */
  predicate Fits(t: Tree, s: Step) {
    t.Nil? || (if s.Index? then t.Slice? else t.Map?)
  }

  function Misfit(t: Tree, s: Step): Error
    requires !t.Nil?
  {
    if s.Index? then ExpectedSlice(KindOf(t)) else ExpectedMap(KindOf(t))
  }

  /** `t` with `e` one step down, created or grown as needed. */
  function With(t: Tree, s: Step, e: Tree): Tree {
    match s
    case Index(i) => Slice(Pad(Elements(t), i + 1)[i := e])
    case Key(k) => Map(Entries(t)[k := e])
  }

  /** Assigning through `p` has to replace the slice `t` by a longer one. */
  predicate Outgrown(t: Tree, p: Path) {
    t.Slice? && p != [] && p[0].Index? && |t.es| <= p[0].i
  }

  /** What stays at step `s`, which held `c`, when the assignment along the rest `p` of
      the path returns `r`.  A map takes what is returned; a slice slot ignores it, so a
      replaced slice is lost there. */
  function Settled(s: Step, c: Tree, p: Path, r: Tree): Tree {
    if s.Index? && Outgrown(c, p) then c else r
  }

  /** The value one assignment returns.  `leaf` is the string to store, or the error
      that parsing the key meets once the steps of `p` have been taken. */
  function Put(t: Tree, p: Path, leaf: Result<string, Error>): Result<Tree, Error>
    decreases |p|
  {
    if p == [] then
      var v :- leaf;
      Success(if t.Nil? then Str(v) else t)
    else if !Fits(t, p[0]) then
      Failure(Misfit(t, p[0]))
    else
      var c := Child(t, p[0]);
      var r :- Put(c, p[1..], leaf);
      Success(With(t, p[0], Settled(p[0], c, p[1..], r)))
  }

  /** `Put` of a string along a path that parsed. */
  function Store(t: Tree, p: Path, v: string): Result<Tree, Error> {
    Put(t, p, Success(v))
  }

  // ----- One step down -----

  /** `Put` along a path given as its first step and the rest. */
  lemma PutCons(t: Tree, s: Step, rest: Path, leaf: Result<string, Error>)
    ensures Put(t, [s] + rest, leaf) ==
            if !Fits(t, s) then Failure(Misfit(t, s))
            else if Put(Child(t, s), rest, leaf).Failure? then Failure(Put(Child(t, s), rest, leaf).error)
            else Success(With(t, s, Settled(s, Child(t, s), rest, Put(Child(t, s), rest, leaf).value)))
  {
    assert ([s] + rest)[1..] == rest;
  }

  lemma WithReads(t: Tree, s: Step, e: Tree, q: Step)
    requires Fits(t, s)
    ensures Child(With(t, s, e), q) == if q == s then e else Child(t, q)
  {
  }

  lemma WithWhatIsThere(t: Tree, s: Step)
    requires Child(t, s) != Nil
    ensures With(t, s, Child(t, s)) == t
  {
    match s
    case Index(i) => assert t.es[i := t.es[i]] == t.es;
    case Key(k) => assert t.m[k := t.m[k]] == t.m;
  }

  lemma WithTwice(t: Tree, s: Step, d: Tree, e: Tree)
    requires Fits(t, s)
    ensures With(With(t, s, d), s, e) == With(t, s, e)
  {
    match s
    case Index(i) => assert With(With(t, s, d), s, e).es == With(t, s, e).es;
    case Key(k) => assert With(With(t, s, d), s, e).m == With(t, s, e).m;
  }

  lemma PadsCommute(es: seq<Tree>, i: nat, d: Tree, j: nat, e: Tree)
    requires i != j
    ensures Pad(Pad(es, i + 1)[i := d], j + 1)[j := e] == Pad(Pad(es, j + 1)[j := e], i + 1)[i := d]
  {
  }

  lemma WithsCommute(t: Tree, s: Step, d: Tree, q: Step, e: Tree)
    requires Fits(t, s) && Fits(t, q) && s != q && s.Index? == q.Index?
    ensures With(With(t, s, d), q, e) == With(With(t, q, e), s, d)
  {
    match s
    case Index(i) => PadsCommute(Elements(t), i, d, q.i, e);
    case Key(_) => assert With(With(t, s, d), q, e).m == With(With(t, q, e), s, d).m;
  }

  // ----- When an assignment is accepted -----

  /** Every step of `p` fits what it meets. */
  predicate Accepts(t: Tree, p: Path)
    decreases |p|
  {
    p == [] || (Fits(t, p[0]) && Accepts(Child(t, p[0]), p[1..]))
  }

  /** An assignment succeeds exactly when the key parsed and every step fits; the first
      step that does not fit is reported before any later parse error. */
  lemma {:induction false} PutSucceedsExactly(t: Tree, p: Path, leaf: Result<string, Error>)
    ensures Put(t, p, leaf).Success? <==> Accepts(t, p) && leaf.Success?
    ensures Accepts(t, p) && leaf.Failure? ==> Put(t, p, leaf).error == leaf.error
    ensures !Accepts(t, p) ==>
              exists n: nat :: FirstMisfit(t, p, n) && Put(t, p, leaf).error == Misfit(Read(t, p[..n]), p[n])
    decreases |p|
  {
    if p != [] {
      var c := Child(t, p[0]);
      if !Fits(t, p[0]) {
        assert FirstMisfit(t, p, 0);
      } else {
        PutSucceedsExactly(c, p[1..], leaf);
        if !Accepts(c, p[1..]) {
          var n: nat :|
            FirstMisfit(c, p[1..], n) && Put(c, p[1..], leaf).error == Misfit(Read(c, p[1..][..n]), p[1..][n]);
          assert p[..n + 1][1..] == p[1..][..n];
          assert FirstMisfit(t, p, n + 1);
        }
      }
    }
  }

  /** Step `n` of `p` is the first that does not fit what it meets. */
  predicate FirstMisfit(t: Tree, p: Path, n: nat) {
    n < |p| && Accepts(t, p[..n]) && !Fits(Read(t, p[..n]), p[n])
  }

  // ----- Reading back -----

  /** Somewhere along `p` a slice that is itself an element of a slice has to grow. */
  predicate LosesWrite(t: Tree, p: Path)
    decreases |p|
  {
    p != [] && var c := Child(t, p[0]);
    (p[0].Index? && Outgrown(c, p[1..])) || LosesWrite(c, p[1..])
  }

  lemma ReadNil(p: Path)
    ensures Read(Nil, p) == Nil && !LosesWrite(Nil, p) && Accepts(Nil, p)
  {
  }

  /** What an accepted assignment did: the path now reads the new string, except in two
      cases, where the tree is unchanged: the path already held something, or the write
      was lost in the copy of a nested slice. */
  lemma {:induction false} ReadBack(t: Tree, p: Path, v: string)
    requires Store(t, p, v).Success?
    ensures var t' := Store(t, p, v).value;
      if Read(t, p) != Nil || LosesWrite(t, p) then t' == t
      else Read(t', p) == Str(v) && t' != t
    decreases |p|
  {
    if p != [] {
      var c := Child(t, p[0]);
      ReadBack(c, p[1..], v);
      WithReads(t, p[0], Settled(p[0], c, p[1..], Store(c, p[1..], v).value), p[0]);
      if c == Nil {
        ReadNil(p[1..]);
      } else {
        WithWhatIsThere(t, p[0]);
      }
      if Outgrown(c, p[1..]) { ReadNil(p[2..]); }
    }
  }

  // ----- What an assignment leaves alone -----

  /** Every path that is not a prefix of the assigned one reads the same afterwards:
      growing a slice adds nothing but nil elements. */
  lemma {:induction false} Untouched(t: Tree, p: Path, v: string, q: Path)
    requires Store(t, p, v).Success? && !(q <= p)
    ensures Read(Store(t, p, v).value, q) == Read(t, q)
    decreases |p|
  {
    var t' := Store(t, p, v).value;
    if p == [] {
      if t == Nil {
        assert Child(t', q[0]) == Nil;
        ReadNil(q[1..]);
      }
    } else {
      WithReads(t, p[0], Settled(p[0], Child(t, p[0]), p[1..], Store(Child(t, p[0]), p[1..], v).value), q[0]);
      if q[0] == p[0] { Untouched(Child(t, p[0]), p[1..], v, q[1..]); }
    }
  }

  /** First write wins: nil is below everything, slices may extend, maps may gain keys,
      and a string is below itself only. */
  predicate Below(a: Tree, b: Tree) {
    match a
    case Nil => true
    case Str(_) => b == a
    case Slice(es) => b.Slice? && |es| <= |b.es| && forall i :: 0 <= i < |es| ==> Below(es[i], b.es[i])
    case Map(m) => b.Map? && m.Keys <= b.m.Keys && forall k :: k in m ==> Below(m[k], b.m[k])
  }

  lemma BelowItself(t: Tree)
    ensures Below(t, t)
  {
  }

  lemma {:induction false} BelowTransitive(a: Tree, b: Tree, c: Tree)
    requires Below(a, b) && Below(b, c)
    ensures Below(a, c)
  {
    match a
    case Nil =>
    case Str(_) =>
    case Slice(es) =>
      forall i | 0 <= i < |es| ensures Below(es[i], c.es[i]) { BelowTransitive(es[i], b.es[i], c.es[i]); }
    case Map(m) =>
      forall k | k in m ensures Below(m[k], c.m[k]) { BelowTransitive(m[k], b.m[k], c.m[k]); }
  }

  /** Along any path a larger tree reads something larger: a stored string reads the same. */
  lemma {:induction false} BelowReads(a: Tree, b: Tree, p: Path)
    requires Below(a, b)
    ensures Below(Read(a, p), Read(b, p))
    decreases |p|
  {
    if p != [] {
      BelowReads(Child(a, p[0]), Child(b, p[0]), p[1..]);
    }
  }

  lemma {:induction false} PutGrows(t: Tree, p: Path, v: string)
    requires Store(t, p, v).Success?
    ensures Below(t, Store(t, p, v).value)
    decreases |p|
  {
    BelowItself(t);
    if p != [] {
      var c := Child(t, p[0]);
      PutGrows(c, p[1..], v);
      BelowItself(c);
      if p[0].Index? {
        forall j | 0 <= j < |Elements(t)| ensures Below(t.es[j], Store(t, p, v).value.es[j]) { BelowItself(t.es[j]); }
      } else {
        forall k | k in Entries(t) ensures Below(t.m[k], Store(t, p, v).value.m[k]) { BelowItself(t.m[k]); }
      }
    }
  }
}
