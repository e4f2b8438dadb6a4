/**
 `assign` and `Map` as the source runs them: maps and slices are objects on the heap,
 a slice slot can be set in place, a map entry cannot, a slice grows by copying, and
 what `assign` returns is stored by a map but ignored by a slice.

 A ghost `Layout` says which objects a value is made of.  The methods keep it a tree of
 distinct objects and are proved equal to `Put` on the tree the layout stands for.
 */
module FlagHeap {
  import opened Wrappers
  import opened FlagTree
  import opened FlagKeys
  import opened FlagRun

  /** A Go `interface{}` holding what flags can build. */
  datatype Value = NilValue | StrValue(s: string) | SliceValue(a: array<Value>) | MapValue(o: GoMap)

  /** A Go `map[string]interface{}`. */
  class GoMap {
    var entries: map<string, Value>

    constructor ()
      ensures entries == map[]
    {
      entries := map[];
    }
  }

  /** The `reflect.Value` that `assign` is given: nothing (a missed map lookup), the root
      map, an addressable slice slot, or a map entry, which cannot be set. */
  datatype Place = Invalid | Root(o: GoMap) | Slot(a: array<Value>, i: nat) | Entry(v: Value)

  // ----- Layouts -----

  /** A value together with the objects it is stored in. */
  datatype Layout =
    | LNil
    | LStr(s: string)
    | LSlice(a: array<Value>, es: seq<Layout>)
    | LMap(o: GoMap, m: map<string, Layout>)

  ghost function UnionOfSeq(fs: seq<set<object>>): (r: set<object>)
    ensures forall i :: 0 <= i < |fs| ==> fs[i] <= r
  {
    set i, x | 0 <= i < |fs| && x in fs[i] :: x
  }

  ghost function UnionOfMap(fs: map<string, set<object>>): (r: set<object>)
    ensures forall k :: k in fs ==> fs[k] <= r
  {
    set k, x | k in fs && x in fs[k] :: x
  }

  /** The objects of a layout. */
  ghost function Foot(l: Layout): set<object> {
    match l
    case LNil => {}
    case LStr(_) => {}
    case LSlice(a, es) => {a} + UnionOfSeq(seq(|es|, i requires 0 <= i < |es| => Foot(es[i])))
    case LMap(o, m) => {o} + UnionOfMap(map k | k in m :: Foot(m[k]))
  }

  lemma PartFoot(l: Layout)
    ensures l.LSlice? ==> l.a in Foot(l) && forall i :: 0 <= i < |l.es| ==> Foot(l.es[i]) <= Foot(l)
    ensures l.LMap? ==> l.o in Foot(l) && forall k :: k in l.m ==> Foot(l.m[k]) <= Foot(l)
  {
    match l
    case LSlice(a, es) =>
      var fs := seq(|es|, i requires 0 <= i < |es| => Foot(es[i]));
      assert forall i :: 0 <= i < |es| ==> fs[i] == Foot(es[i]);
    case LMap(o, m) =>
      var fs := map k | k in m :: Foot(m[k]);
      assert forall k :: k in m ==> fs[k] == Foot(m[k]);
    case _ =>
  }

  /** No object is used twice, and no map entry is nil. */
  ghost predicate Sound(l: Layout) {
    match l
    case LNil => true
    case LStr(_) => true
    case LSlice(a, es) =>
      && (forall i :: 0 <= i < |es| ==> Sound(es[i]) && a !in Foot(es[i]))
      && forall i, j :: 0 <= i < j < |es| ==> Foot(es[i]) !! Foot(es[j])
    case LMap(o, m) =>
      && (forall k :: k in m ==> Sound(m[k]) && m[k] != LNil && o !in Foot(m[k]))
      && forall j, k :: j in m && k in m && j != k ==> Foot(m[j]) !! Foot(m[k])
  }

  /** The heap holds `v` laid out as `l`. */
  ghost predicate Holds(v: Value, l: Layout)
    reads Foot(l)
    decreases l
  {
    match l
    case LNil => v == NilValue
    case LStr(s) => v == StrValue(s)
    case LSlice(a, es) =>
      v == SliceValue(a) && a.Length == |es| && forall i :: 0 <= i < |es| ==> (PartFoot(l); Holds(a[i], es[i]))
    case LMap(o, m) =>
      v == MapValue(o) && o.entries.Keys == m.Keys && forall k :: k in m ==> (PartFoot(l); Holds(o.entries[k], m[k]))
  }

  /** The immutable tree a layout stands for. */
  ghost function TreeOf(l: Layout): Tree {
    match l
    case LNil => Nil
    case LStr(s) => Str(s)
    case LSlice(_, es) => Slice(seq(|es|, i requires 0 <= i < |es| => TreeOf(es[i])))
    case LMap(_, m) => Map(map k | k in m :: TreeOf(m[k]))
  }

  ghost predicate At(p: Place, l: Layout)
    reads Foot(l), PlaceFoot(p)
  {
    match p
    case Invalid => l == LNil
    case Root(o) => l.LMap? && Holds(MapValue(o), l)
    case Slot(a, i) => i < a.Length && a !in Foot(l) && Holds(a[i], l)
    case Entry(v) => v != NilValue && Holds(v, l)
  }

  function PlaceFoot(p: Place): set<object> {
    if p.Slot? then {p.a} else {}
  }

  function KindOfValue(v: Value): Kind
    requires v != NilValue
  {
    match v
    case StrValue(_) => StringKind
    case SliceValue(_) => SliceKind
    case MapValue(_) => MapKind
  }

  ghost function LNils(n: nat): (r: seq<Layout>)
    ensures |r| == n && forall i :: 0 <= i < n ==> r[i] == LNil
  {
    seq(n, _ => LNil)
  }

  // ----- assign -----

  /** What an assignment along `path` into a place laid out as `l` returns. */
  ghost predicate Returns(l: Layout, path: Path, leaf: Result<string, Error>, r: Result<Value, Error>, l': Layout)
    reads Foot(l')
  {
    match r
    case Failure(e) => Put(TreeOf(l), path, leaf) == Failure(e)
    case Success(v) => Put(TreeOf(l), path, leaf) == Success(TreeOf(l')) && Holds(v, l') && Sound(l') && l' != LNil
  }

  /** The layout left in a slice slot that held `l` when the assignment returned `l'`. */
  ghost function Left(l: Layout, path: Path, l': Layout): Layout {
    if Outgrown(TreeOf(l), path) then l else l'
  }

  /** What the place holds, after a missing value or a nil slot got a new slice of `n` nils. */
  method OpenSlice(p: Place, n: nat, ghost l: Layout) returns (v: Value, ghost l': Layout)
    requires At(p, l) && Sound(l)
    modifies PlaceFoot(p)
    ensures v != NilValue && Holds(v, l') && Sound(l') && (forall x :: x in Foot(l') && x !in Foot(l) ==> fresh(x))
    ensures l != LNil ==> l' == l
    ensures l == LNil ==> l'.LSlice? && l'.es == LNils(n)
    ensures p.Slot? ==> p.a[p.i] == v && p.a !in Foot(l')
    ensures p.Slot? ==> forall j :: 0 <= j < p.a.Length && j != p.i ==> p.a[j] == old(p.a[j])
  {
    l' := l;
    match p
    case Invalid =>
      var a := new Value[n](_ => NilValue);
      v, l' := SliceValue(a), LSlice(a, LNils(n));
    case Root(o) =>
      v := MapValue(o);
    case Slot(s, i) =>
      if s[i].NilValue? {
        var a := new Value[n](_ => NilValue);
        s[i] := SliceValue(a);
        l' := LSlice(a, LNils(n));
      }
      v := s[i];
    case Entry(x) =>
      v := x;
  }

  /** The same with a new map. */
  method OpenMap(p: Place, ghost l: Layout) returns (v: Value, ghost l': Layout)
    requires At(p, l) && Sound(l)
    modifies PlaceFoot(p)
    ensures v != NilValue && Holds(v, l') && Sound(l') && (forall x :: x in Foot(l') && x !in Foot(l) ==> fresh(x))
    ensures l != LNil ==> l' == l
    ensures l == LNil ==> l'.LMap? && l'.m == map[]
    ensures p.Slot? ==> p.a[p.i] == v && p.a !in Foot(l')
    ensures p.Slot? ==> forall j :: 0 <= j < p.a.Length && j != p.i ==> p.a[j] == old(p.a[j])
  {
    l' := l;
    match p
    case Invalid =>
      var o := new GoMap();
      v, l' := MapValue(o), LMap(o, map[]);
    case Root(o) =>
      v := MapValue(o);
    case Slot(s, i) =>
      if s[i].NilValue? {
        var o := new GoMap();
        s[i] := MapValue(o);
        l' := LMap(o, map[]);
      }
      v := s[i];
    case Entry(x) =>
      v := x;
  }

  lemma FootOfSlice(l: Layout, x: object)
    requires l.LSlice? && x in Foot(l)
    ensures x == l.a || exists i :: 0 <= i < |l.es| && x in Foot(l.es[i])
  {
  }

  /** The layout of a slice copied into the new array `t` of length `n`. */
  ghost function Grown(l: Layout, t: array<Value>, n: nat): Layout
    requires l.LSlice? && |l.es| < n
  {
    LSlice(t, l.es + LNils(n - |l.es|))
  }

  lemma GrownIsSound(l: Layout, t: array<Value>, n: nat)
    requires l.LSlice? && |l.es| < n && Sound(l) && t !in Foot(l)
    ensures Sound(Grown(l, t, n)) && Foot(Grown(l, t, n)) <= Foot(l) + {t}
  {
    var g := Grown(l, t, n);
    PartFoot(l);
    forall x | x in Foot(g) ensures x in Foot(l) + {t} {
      FootOfSlice(g, x);
      if x != t {
        var i :| 0 <= i < |g.es| && x in Foot(g.es[i]);
        assert i < |l.es| && g.es[i] == l.es[i];
      }
    }
    forall i | 0 <= i < |g.es| ensures Sound(g.es[i]) && t !in Foot(g.es[i]) {
      if i < |l.es| { assert g.es[i] == l.es[i]; }
    }
  }

  /** The slice, or, when it is too short, a new array that shares its elements. */
  method GrowSlice(s: array<Value>, n: nat, ghost l: Layout) returns (t: array<Value>, ghost l': Layout)
    requires l.LSlice? && Holds(SliceValue(s), l) && Sound(l)
    ensures l'.LSlice? && Holds(SliceValue(t), l') && Sound(l')
    ensures forall x :: x in Foot(l') && x !in Foot(l) ==> fresh(x)
    ensures if |l.es| < n then fresh(t) && l' == Grown(l, t, n) else t == s && l' == l
  {
    t, l' := s, l;
    if s.Length < n {
      assert allocated(Foot(l));
      PartFoot(l);
      t := new Value[n](i requires 0 <= i reads s => if i < s.Length then s[i] else NilValue);
      GrownIsSound(l, t, n);
      l' := Grown(l, t, n);
      forall i | 0 <= i < n ensures Holds(t[i], l'.es[i]) {
        if i < |l.es| { assert t[i] == s[i] && l'.es[i] == l.es[i]; }
      }
    }
  }

  /** Replacing element `i` of a sound slice by a sound value made of new objects and of
      the objects of the old one. */
  lemma ReplaceElement(l: Layout, i: nat, e: Layout, old': set<object>)
    requires l.LSlice? && i < |l.es| && Sound(l) && Sound(e)
    requires Foot(l) <= old'
    requires forall x :: x in Foot(e) ==> x in Foot(l.es[i]) || x !in old'
    ensures Sound(LSlice(l.a, l.es[i := e]))
    ensures forall x :: x in Foot(LSlice(l.a, l.es[i := e])) ==> x in Foot(l) || x in Foot(e)
    ensures TreeOf(LSlice(l.a, l.es[i := e])) == Slice(TreeOf(l).es[i := TreeOf(e)])
  {
    var l' := LSlice(l.a, l.es[i := e]);
    PartFoot(l);
    PartFoot(l');
    forall x | x in Foot(l') ensures x in Foot(l) || x in Foot(e) { FootOfSlice(l', x); }
    assert TreeOf(l').es == TreeOf(l).es[i := TreeOf(e)];
  }

  lemma FootOfMap(l: Layout, x: object)
    requires l.LMap? && x in Foot(l)
    ensures x == l.o || exists k :: k in l.m && x in Foot(l.m[k])
  {
  }

  lemma FootOfReplacedEntry(l: Layout, k: string, e: Layout)
    requires l.LMap?
    ensures forall x :: x in Foot(LMap(l.o, l.m[k := e])) ==> x in Foot(l) || x in Foot(e)
  {
    var l' := LMap(l.o, l.m[k := e]);
    PartFoot(l);
    forall x | x in Foot(l') ensures x in Foot(l) || x in Foot(e) { FootOfMap(l', x); }
  }

  lemma TreeOfReplacedEntry(l: Layout, k: string, e: Layout)
    requires l.LMap?
    ensures TreeOf(LMap(l.o, l.m[k := e])) == Map(TreeOf(l).m[k := TreeOf(e)])
  {
    assert TreeOf(LMap(l.o, l.m[k := e])).m == TreeOf(l).m[k := TreeOf(e)];
  }

  /** The same for a map, where the key may be new. */
  lemma ReplaceEntry(l: Layout, k: string, e: Layout, old': set<object>)
    requires l.LMap? && Sound(l) && Sound(e) && e != LNil
    requires Foot(l) <= old'
    requires forall x :: x in Foot(e) ==> (k in l.m && x in Foot(l.m[k])) || x !in old'
    ensures Sound(LMap(l.o, l.m[k := e])) && l.o !in Foot(e)
  {
    PartFoot(l);
    forall j | j in l.m && j != k ensures Foot(l.m[j]) !! Foot(e) {}
  }

  lemma GrownTree(l: Layout, t: array<Value>, n: nat)
    requires l.LSlice? && |l.es| < n
    ensures TreeOf(Grown(l, t, n)) == Slice(Pad(TreeOf(l).es, n))
  {
    assert TreeOf(Grown(l, t, n)).es == Pad(TreeOf(l).es, n);
  }

  /** Creating and growing, on the tree. */
  lemma PaddedTree(l: Layout, l1: Layout, t: array<Value>, n: nat)
    requires l1.LSlice? && l1 == if l == LNil then LSlice(l1.a, LNils(n)) else l
    ensures Fits(TreeOf(l), Index(n))
    ensures TreeOf(if |l1.es| < n then Grown(l1, t, n) else l1) == Slice(Pad(Elements(TreeOf(l)), n))
  {
    if l == LNil {
      assert TreeOf(l1).es == Pad([], n);
    } else if |l1.es| < n {
      GrownTree(l1, t, n);
    }
  }

  /** Growing first makes no difference to what is returned. */
  lemma PutIntoGrown(t: Tree, i: nat, rest: Path, leaf: Result<string, Error>)
    requires t.Nil? || t.Slice?
    ensures Put(t, [Index(i)] + rest, leaf) == Put(Slice(Pad(Elements(t), i + 1)), [Index(i)] + rest, leaf)
  {
    PutCons(t, Index(i), rest, leaf);
    PutCons(Slice(Pad(Elements(t), i + 1)), Index(i), rest, leaf);
  }

  /** The recursive call on a slot does not reach the other elements. */
  method AssignSlot(s: array<Value>, i: nat, tail: string, v: string, ghost l: Layout)
    returns (r: Result<Value, Error>, ghost e': Layout)
    requires l.LSlice? && i < |l.es| && Holds(SliceValue(s), l) && Sound(l)
    modifies Foot(l.es[i]), s
    ensures Returns(l.es[i], Parse(tail).steps, Parse(tail).Leaf(v), r, e')
    ensures r.Success? ==> forall x :: x in Foot(e') && x !in Foot(l.es[i]) ==> fresh(x)
    ensures r.Success? ==> s !in Foot(e') && Holds(s[i], Left(l.es[i], Parse(tail).steps, e'))
    ensures forall j :: 0 <= j < s.Length && j != i ==> Holds(s[j], l.es[j])
    decreases |tail|, 2
  {
    assert allocated(Foot(l));
    PartFoot(l);
    ghost var e := l.es[i];
    label before:
    r, e' := Assign(Slot(s, i), tail, v, e);
    forall j | 0 <= j < s.Length && j != i ensures Holds(s[j], l.es[j]) {
      assert Foot(l.es[j]) !! Foot(e);
      assert Holds(s[j], l.es[j]) == old@before(Holds(s[j], l.es[j]));
    }
  }

  /** `assign(rdata.Index(index), mTail, v)` on a slice that is long enough. */
  method AssignElement(s: array<Value>, i: nat, tail: string, v: string, ghost l: Layout)
    returns (r: Result<Value, Error>, ghost l': Layout)
    requires l.LSlice? && i < |l.es| && Holds(SliceValue(s), l) && Sound(l)
    modifies Foot(l.es[i]), s
    ensures Returns(l, [Index(i)] + Parse(tail).steps, Parse(tail).Leaf(v), r, l')
    ensures r.Success? ==> (forall x :: x in Foot(l') && x !in Foot(l) ==> fresh(x)) && r.value == SliceValue(s)
    decreases |tail|, 3
  {
    ghost var e, rest := l.es[i], Parse(tail).steps;
    PutCons(TreeOf(l), Index(i), rest, Parse(tail).Leaf(v));
    assert allocated(Foot(l));
    PartFoot(l);
    var f, e' := AssignSlot(s, i, tail, v, l);
    l' := l;
    if f.Failure? {
      return Failure(f.error), l;
    }
    r := Success(SliceValue(s));
    ghost var kept := Left(e, rest, e');
    ReplaceElement(l, i, kept, Foot(l));
    l' := LSlice(s, l.es[i := kept]);
  }

  /** Create, and check that it is a slice. */
  method CheckedSlice(p: Place, n: nat, ghost l: Layout) returns (r: Result<array<Value>, Error>, ghost l': Layout)
    requires At(p, l) && Sound(l)
    modifies PlaceFoot(p)
    ensures r.Failure? ==> !Fits(TreeOf(l), Index(n)) && r.error == Misfit(TreeOf(l), Index(n))
    ensures r.Success? ==>
              && l'.LSlice? && Holds(SliceValue(r.value), l') && Sound(l')
              && l' == if l == LNil then LSlice(r.value, LNils(n)) else l
    ensures forall x :: x in Foot(l') && x !in Foot(l) ==> fresh(x)
    ensures r.Success? && p.Slot? ==> p.a[p.i] == SliceValue(r.value) && p.a !in Foot(l')
    ensures p.Slot? ==> forall j :: 0 <= j < p.a.Length && j != p.i ==> p.a[j] == old(p.a[j])
  {
    assert allocated(Foot(l));
    var c;
    c, l' := OpenSlice(p, n, l);
    r := if c.SliceValue? then Success(c.a) else Failure(ExpectedSlice(KindOfValue(c)));
  }

  /** The slice branch up to the recursive call: create, check and grow. */
  method SliceFor(p: Place, i: nat, ghost l: Layout) returns (r: Result<array<Value>, Error>, ghost l': Layout)
    requires At(p, l) && Sound(l)
    modifies PlaceFoot(p)
    ensures r.Failure? ==> !Fits(TreeOf(l), Index(i)) && r.error == Misfit(TreeOf(l), Index(i))
    ensures r.Success? ==>
              && l'.LSlice? && i < |l'.es| && Holds(SliceValue(r.value), l') && Sound(l')
              && (forall x :: x in Foot(l') && x !in Foot(l) ==> fresh(x))
              && Fits(TreeOf(l), Index(i)) && TreeOf(l') == Slice(Pad(Elements(TreeOf(l)), i + 1))
    ensures r.Success? && p.Slot? ==>
              if l.LSlice? && |l.es| <= i
              then Holds(p.a[p.i], l) && fresh(r.value) && l'.es[i] == LNil
              else p.a[p.i] == SliceValue(r.value)
    ensures r.Success? && p.Slot? ==> p.a !in Foot(l')
    ensures p.Slot? ==> forall j :: 0 <= j < p.a.Length && j != p.i ==> p.a[j] == old(p.a[j])
  {
    assert allocated(Foot(l));
    var c, l1 := CheckedSlice(p, i + 1, l);
    if c.Failure? {
      return c, l1;
    }
    var s, l2 := GrowSlice(c.value, i + 1, l1);
    PaddedTree(l, l1, s, i + 1);
    l' := l2;
    r := Success(s);
  }

  /** The slice branch of `assign`. */
  method AssignIndex(p: Place, i: nat, tail: string, v: string, ghost l: Layout)
    returns (r: Result<Value, Error>, ghost l': Layout)
    requires At(p, l) && Sound(l)
    modifies Foot(l), PlaceFoot(p)
    ensures Returns(l, [Index(i)] + Parse(tail).steps, Parse(tail).Leaf(v), r, l')
    ensures r.Success? ==> (forall x :: x in Foot(l') && x !in Foot(l) ==> fresh(x))
    ensures r.Success? && p.Slot? ==> p.a !in Foot(l') && Holds(p.a[p.i], Left(l, [Index(i)] + Parse(tail).steps, l'))
    ensures p.Slot? ==> forall j :: 0 <= j < p.a.Length && j != p.i ==> p.a[j] == old(p.a[j])
    ensures p.Root? && r.Success? ==> r.value == MapValue(p.o)
    decreases |tail|, 4
  {
    assert allocated(Foot(l));
    var s, l1 := SliceFor(p, i, l);
    if s.Failure? {
      return Failure(s.error), l1;
    }
    PartFoot(l1);
    assert allocated(Foot(l1));
    r, l' := AssignElement(s.value, i, tail, v, l1);
    PutIntoGrown(TreeOf(l), i, Parse(tail).steps, Parse(tail).Leaf(v));
  }

  /** `SetMapIndex`: the value stored is never nil, so no key is deleted. */
  method SetMapIndex(o: GoMap, key: string, f: Value, ghost l: Layout, ghost e: Layout) returns (ghost l': Layout)
    requires l.LMap? && l.o == o && o.entries.Keys == l.m.Keys && Sound(l) && Sound(e) && e != LNil
    requires forall k :: k in l.m && k != key ==> Holds(o.entries[k], l.m[k])
    requires Holds(f, e)
    requires forall x :: x in Foot(e) ==> (key in l.m && x in Foot(l.m[key])) || x !in Foot(l)
    modifies o
    ensures l' == LMap(o, l.m[key := e]) && Holds(MapValue(o), l') && Sound(l')
    ensures TreeOf(l') == Map(TreeOf(l).m[key := TreeOf(e)])
    ensures forall x :: x in Foot(l') ==> x in Foot(l) || x in Foot(e)
  {
    ReplaceEntry(l, key, e, Foot(l));
    FootOfReplacedEntry(l, key, e);
    TreeOfReplacedEntry(l, key, e);
    l' := LMap(o, l.m[key := e]);
    StoreEntry(o, key, f, l, e);
  }

  /** The assignment itself. */
  method StoreEntry(o: GoMap, key: string, f: Value, ghost l: Layout, ghost e: Layout)
    requires l.LMap? && l.o == o && o.entries.Keys == l.m.Keys && Holds(f, e) && o !in Foot(e)
    requires forall k :: k in l.m && k != key ==> o !in Foot(l.m[k]) && Holds(o.entries[k], l.m[k])
    modifies o
    ensures Holds(MapValue(o), LMap(o, l.m[key := e]))
  {
    o.entries := o.entries[key := f];
    assert forall k :: k in l.m[key := e] ==> Holds(o.entries[k], l.m[key := e][k]);
  }

  /** The recursive call below a map entry does not reach the other entries. */
  method AssignBelow(o: GoMap, key: string, tail: string, v: string, ghost l: Layout, ghost e: Layout)
    returns (r: Result<Value, Error>, ghost e': Layout)
    requires l.LMap? && Holds(MapValue(o), l) && Sound(l)
    requires e == if key in l.m then l.m[key] else LNil
    modifies Foot(e)
    ensures Returns(e, Parse(tail).steps, Parse(tail).Leaf(v), r, e')
    ensures r.Success? ==> (forall x :: x in Foot(e') && x !in Foot(e) ==> fresh(x))
    ensures o.entries.Keys == l.m.Keys
    ensures forall k :: k in l.m && k != key ==> Holds(o.entries[k], l.m[k])
    decreases |tail|, 2
  {
    PartFoot(l);
    assert allocated(Foot(l));
    var rv := if key in o.entries then Entry(o.entries[key]) else Invalid;
    ghost var entries := o.entries;
    assert PlaceFoot(rv) == {} && At(rv, e);
    assert o !in Foot(e) && forall k :: k in l.m && k != key ==> Foot(l.m[k]) !! Foot(e) && Holds(entries[k], l.m[k]);
    r, e' := Assign(rv, tail, v, e);
    assert o.entries == entries;
    forall k | k in l.m && k != key ensures Holds(entries[k], l.m[k]) {
      assert Holds(entries[k], l.m[k]) == old(Holds(entries[k], l.m[k]));
    }
  }

  /** `Put` into a map entry, on layouts. */
  lemma PutEntry(l: Layout, key: string, e: Layout, rest: Path, leaf: Result<string, Error>)
    requires l.LMap? && e == if key in l.m then l.m[key] else LNil
    ensures var r := Put(TreeOf(e), rest, leaf);
      Put(TreeOf(l), [Key(key)] + rest, leaf) ==
      if r.Failure? then Failure(r.error) else Success(Map(TreeOf(l).m[key := r.value]))
  {
    PutCons(TreeOf(l), Key(key), rest, leaf);
    assert Child(TreeOf(l), Key(key)) == TreeOf(e);
  }

  /** Looking a key up, assigning into what it holds and storing what comes back. */
  method AssignEntry(o: GoMap, key: string, tail: string, v: string, ghost l: Layout)
    returns (r: Result<Value, Error>, ghost l': Layout)
    requires l.LMap? && Holds(MapValue(o), l) && Sound(l)
    modifies Foot(l)
    ensures Returns(l, [Key(key)] + Parse(tail).steps, Parse(tail).Leaf(v), r, l')
    ensures r.Success? ==> (forall x :: x in Foot(l') && x !in Foot(l) ==> fresh(x)) && r.value == MapValue(o)
    decreases |tail|, 3
  {
    assert allocated(Foot(l));
    PartFoot(l);
    ghost var e := if key in l.m then l.m[key] else LNil;
    var f, e' := AssignBelow(o, key, tail, v, l, e);
    l' := l;
    if f.Failure? {
      PutEntry(l, key, e, Parse(tail).steps, Parse(tail).Leaf(v));
      return Failure(f.error), l;
    }
    l' := SetMapIndex(o, key, f.value, l, e');
    r := Success(MapValue(o));
    PutEntry(l, key, e, Parse(tail).steps, Parse(tail).Leaf(v));
  }

  /** The map branch of `assign`. */
  method AssignKey(p: Place, key: string, tail: string, v: string, ghost l: Layout)
    returns (r: Result<Value, Error>, ghost l': Layout)
    requires At(p, l) && Sound(l)
    modifies Foot(l), PlaceFoot(p)
    ensures Returns(l, [Key(key)] + Parse(tail).steps, Parse(tail).Leaf(v), r, l')
    ensures r.Success? ==> (forall x :: x in Foot(l') && x !in Foot(l) ==> fresh(x))
    ensures r.Success? && p.Slot? ==> p.a !in Foot(l') && Holds(p.a[p.i], l')
    ensures p.Slot? ==> forall j :: 0 <= j < p.a.Length && j != p.i ==> p.a[j] == old(p.a[j])
    ensures p.Root? && r.Success? ==> r.value == MapValue(p.o)
    decreases |tail|, 4
  {
    PutCons(TreeOf(l), Key(key), Parse(tail).steps, Parse(tail).Leaf(v));
    assert allocated(Foot(l));
    var c, l1 := OpenMap(p, l);
    if !c.MapValue? {
      return Failure(ExpectedMap(KindOfValue(c))), l1;
    }
    PartFoot(l1);
    PutCons(TreeOf(l1), Key(key), Parse(tail).steps, Parse(tail).Leaf(v));
    r, l' := AssignEntry(c.o, key, tail, v, l1);
    assert Entries(TreeOf(l)) == TreeOf(l1).m;
  }

  /** `assign` on the empty key: the string is stored where nothing is. */
  method AssignString(p: Place, v: string, ghost l: Layout) returns (r: Value, ghost l': Layout)
    requires At(p, l) && Sound(l)
    modifies PlaceFoot(p)
    ensures Returns(l, [], Success(v), Success(r), l') && Foot(l') <= Foot(l)
    ensures p.Slot? ==> p.a !in Foot(l') && Holds(p.a[p.i], l')
    ensures p.Slot? ==> forall j :: 0 <= j < p.a.Length && j != p.i ==> p.a[j] == old(p.a[j])
    ensures p.Root? ==> r == MapValue(p.o)
  {
    l' := l;
    match p
    case Invalid =>
      r, l' := StrValue(v), LStr(v);
    case Root(o) =>
      r := MapValue(o);
    case Slot(a, i) =>
      if a[i].NilValue? {
        a[i] := StrValue(v);
        l' := LStr(v);
      }
      r := a[i];
    case Entry(x) =>
      r := x;
  }

  /** The same, with the promise that `assign` makes for any key. */
  method AssignEmpty(p: Place, v: string, ghost l: Layout) returns (r: Result<Value, Error>, ghost l': Layout)
    requires At(p, l) && Sound(l)
    modifies PlaceFoot(p)
    ensures Returns(l, [], Success(v), r, l') && r.Success?
    ensures forall x :: x in Foot(l') ==> x in Foot(l)
    ensures p.Slot? ==> p.a !in Foot(l') && Holds(p.a[p.i], Left(l, [], l'))
    ensures p.Slot? ==> forall j :: 0 <= j < p.a.Length && j != p.i ==> p.a[j] == old(p.a[j])
    ensures p.Root? ==> r.value == MapValue(p.o)
  {
    var w;
    w, l' := AssignString(p, v, l);
    r := Success(w);
  }

  /** `assign` on a key that starts with a bracket.  When the digits are refused, the place
      still holds what it held. */
  method AssignBracket(p: Place, k: string, v: string, ghost l: Layout)
    returns (r: Result<Value, Error>, ghost l': Layout)
    requires At(p, l) && Sound(l) && MatchSlice(k).Some?
    modifies Foot(l), PlaceFoot(p)
    ensures Returns(l, Parse(k).steps, Parse(k).Leaf(v), r, l')
    ensures r.Success? ==> (forall x :: x in Foot(l') && x !in Foot(l) ==> fresh(x))
    ensures r.Success? && p.Slot? ==> p.a !in Foot(l') && Holds(p.a[p.i], Left(l, Parse(k).steps, l'))
    ensures p.Slot? ==> forall j :: 0 <= j < p.a.Length && j != p.i ==> p.a[j] == old(p.a[j])
    ensures p.Root? && r.Success? ==> r.value == MapValue(p.o)
    ensures Atoi(MatchSlice(k).value.group).None? ==> At(p, l)
    decreases |k|, 0
  {
    var m := MatchSlice(k).value;
    var index := Atoi(m.group);
    if index.Some? {
      r, l' := AssignIndex(p, index.value, m.tail, v, l);
    } else {
      r, l' := Failure(BadIndex(m.group)), l;
    }
  }

  /** `assign` on any other key.  When it does not start with a word, the place still holds
      what it held. */
  method AssignWord(p: Place, k: string, v: string, ghost l: Layout) returns (r: Result<Value, Error>, ghost l': Layout)
    requires At(p, l) && Sound(l) && k != "" && MatchSlice(k).None?
    modifies Foot(l), PlaceFoot(p)
    ensures Returns(l, Parse(k).steps, Parse(k).Leaf(v), r, l')
    ensures r.Success? ==> (forall x :: x in Foot(l') && x !in Foot(l) ==> fresh(x))
    ensures r.Success? && p.Slot? ==> p.a !in Foot(l') && Holds(p.a[p.i], Left(l, Parse(k).steps, l'))
    ensures p.Slot? ==> forall j :: 0 <= j < p.a.Length && j != p.i ==> p.a[j] == old(p.a[j])
    ensures p.Root? && r.Success? ==> r.value == MapValue(p.o)
    ensures MatchMap(k).None? ==> At(p, l)
    decreases |k|, 0
  {
    var m := MatchMap(k);
    if m.Some? {
      r, l' := AssignKey(p, m.value.group, m.value.tail, v, l);
    } else {
      r, l' := Failure(UnknownKey(k)), l;
    }
  }

  /** `assign`: what it returns and leaves behind is what `Put` says for the parsed key. */
  method Assign(p: Place, k: string, v: string, ghost l: Layout) returns (r: Result<Value, Error>, ghost l': Layout)
    requires At(p, l) && Sound(l)
    modifies Foot(l), PlaceFoot(p)
    ensures Returns(l, Parse(k).steps, Parse(k).Leaf(v), r, l')
    ensures r.Success? ==> (forall x :: x in Foot(l') && x !in Foot(l) ==> fresh(x))
    ensures r.Success? && p.Slot? ==> p.a !in Foot(l') && Holds(p.a[p.i], Left(l, Parse(k).steps, l'))
    ensures p.Slot? ==> forall j :: 0 <= j < p.a.Length && j != p.i ==> p.a[j] == old(p.a[j])
    ensures p.Root? && r.Success? ==> r.value == MapValue(p.o)
    decreases |k|, 1
  {
    if k == "" {
      r, l' := AssignEmpty(p, v, l);
    } else if MatchSlice(k).Some? {
      r, l' := AssignBracket(p, k, v, l);
    } else {
      r, l' := AssignWord(p, k, v, l);
    }
  }

  // ----- Map -----

  /** The arguments still to be read; `Next` takes the next flag off. */
  class FlagReader {
    var s: seq<string>

    constructor (args: seq<string>)
      ensures s == args
    {
      s := args;
    }

    /** The next key and value, or None at the end. */
    method Take() returns (r: Result<Option<Setting>, Error>)
      modifies this
      ensures match Next(old(s))
              case EndOfFlags => r == Success(None) && s == []
              case Bad(e) => r == Failure(e)
              case Flag(k, v, rest) => r == Success(Some(Setting(k, v))) && s == rest
    {
      if s == [] {
        return Success(None);
      }
      var k := s[0];
      s := s[1..];
      if |k| < 2 {
        return Failure(SliceOutOfRange);
      }
      if k[..2] != "--" {
        return Failure(InvalidFlag);
      }
      k := k[2..];
      var n := EqualsAt(k);
      if n < |k| {
        return Success(Some(Setting(k[..n], k[n + 1..])));
      }
      if s == [] {
        return Failure(ExpectedParameter);
      }
      var v := s[0];
      s := s[1..];
      r := Success(Some(Setting(k, v)));
    }
  }

  /** One accepted flag, assigned into the root. */
  method AssignFlag(m: GoMap, kv: Setting, ghost l: Layout) returns (r: Option<Error>, ghost l': Layout)
    requires l.LMap? && Holds(MapValue(m), l) && Sound(l)
    modifies Foot(l)
    ensures r.Some? ==> Assigned(TreeOf(l), kv.key, kv.value) == Failure(r.value)
    ensures r.None? ==>
              && l'.LMap? && Holds(MapValue(m), l') && Sound(l')
              && Assigned(TreeOf(l), kv.key, kv.value) == Success(TreeOf(l'))
              && forall x :: x in Foot(l') && x !in Foot(l) ==> fresh(x)
  {
    var a;
    a, l' := Assign(Root(m), kv.key, kv.value, l);
    r := if a.Failure? then Some(a.error) else None;
  }

  /** The body of the loop: take a flag off and assign it; false at the end. */
  method AssignNext(f: FlagReader, m: GoMap, ghost l: Layout) returns (more: Result<bool, Error>, ghost l': Layout)
    requires l.LMap? && Holds(MapValue(m), l) && Sound(l) && f !in Foot(l)
    modifies f, Foot(l)
    ensures more.Failure? ==> RunArgs(TreeOf(l), old(f.s)) == Failure(more.error)
    ensures more.Success? ==>
              && l'.LMap? && Holds(MapValue(m), l') && Sound(l')
              && (forall x :: x in Foot(l') && x !in Foot(l) ==> fresh(x))
              && RunArgs(TreeOf(l), old(f.s)) == (if more.value then RunArgs(TreeOf(l'), f.s) else Success(TreeOf(l')))
              && (more.value ==> |f.s| < |old(f.s)|)
  {
    l' := l;
    assert allocated(Foot(l));
    var next := f.Take();
    if next.Failure? {
      return Failure(next.error), l;
    }
    if next.value.None? {
      return Success(false), l;
    }
    var a, l1 := AssignFlag(m, next.value.value, l);
    if a.Some? {
      return Failure(a.value), l;
    }
    more, l' := Success(true), l1;
  }

  /** `Map`: on success the root is a tree of distinct new objects that stands for exactly
      the tree `MapOf` computes; otherwise the error is the same. */
  method BuildMap(args: seq<string>) returns (r: Result<GoMap, Error>, ghost l: Layout)
    ensures r.Failure? ==> MapOf(args) == Failure(r.error)
    ensures r.Success? ==> l.LMap? && Holds(MapValue(r.value), l) && Sound(l) && MapOf(args) == Success(TreeOf(l))
    ensures r.Success? ==> forall x :: x in Foot(l) ==> fresh(x)
  {
    var f := new FlagReader(args);
    var m := new GoMap();
    l := LMap(m, map[]);
    assert TreeOf(l).m == map[];
    while true
      invariant fresh(f) && f !in Foot(l)
      invariant l.LMap? && Holds(MapValue(m), l) && Sound(l) && forall x :: x in Foot(l) ==> fresh(x)
      invariant RunArgs(TreeOf(l), f.s) == MapOf(args)
      decreases |f.s|
    {
      var more, l1 := AssignNext(f, m, l);
      if more.Failure? {
        return Failure(more.error), l;
      }
      l := l1;
      if !more.value {
        return Success(m), l;
      }
    }
  }
}
