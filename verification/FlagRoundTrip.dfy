/**
 Printing a tree as flags and reading the flags back.  One flag is printed for each
 string; the elements of a slice are printed from the last to the first, so that the
 first flag allocates the slice at its full length.
 */
module FlagRoundTrip {
  import opened Wrappers
  import opened Folding
  import opened FlagTree
  import opened FlagKeys
  import opened FlagRun

  datatype Entry = Entry(path: Path, value: string)

  // ----- Printing -----

  /** `ks` lists the set `s` without repeating anything. */
  ghost predicate Lists(ks: seq<string>, s: set<string>) {
    && (forall k :: k in s <==> k in ks)
    && forall i, j :: 0 <= i < j < |ks| ==> ks[i] != ks[j]
  }

  /** The order in which the keys of the map at a path are visited; Go leaves it open. */
  type KeyOrder = (Path, set<string>) -> seq<string>

  ghost predicate IsKeyOrder(o: KeyOrder) {
    forall at, s :: Lists(o(at, s), s)
  }

  /** Some listing of a finite set. */
  ghost function Listed(s: set<string>): (ks: seq<string>)
    ensures Lists(ks, s)
  {
    if s == {} then []
    else
      var k :| k in s;
      [k] + Listed(s - {k})
  }

  /** There is an order in which to visit the keys, so what follows is about something. */
  lemma SomeKeyOrder() returns (o: KeyOrder)
    ensures IsKeyOrder(o)
  {
    o := (at, s) => Listed(s);
  }

  function Under(s: Step, es: seq<Entry>): (r: seq<Entry>)
    ensures |r| == |es| && forall i :: 0 <= i < |r| ==> r[i] == Entry([s] + es[i].path, es[i].value)
  {
    seq(|es|, i requires 0 <= i < |es| => Entry([s] + es[i].path, es[i].value))
  }

  /** One entry for each string in `t`, with its path from `t`. */
  ghost function Print(t: Tree, at: Path, o: KeyOrder): seq<Entry>
    requires IsKeyOrder(o)
    decreases t, 1, 0
  {
    match t
    case Nil => []
    case Str(s) => [Entry([], s)]
    case Slice(es) => PrintElements(t, |es|, at, o)
    case Map(m) => PrintKeys(t, o(at, m.Keys), at, o)
  }

  /** The elements below index `n`, from the last to the first. */
  ghost function PrintElements(t: Tree, n: nat, at: Path, o: KeyOrder): seq<Entry>
    requires IsKeyOrder(o) && t.Slice? && n <= |t.es|
    decreases t, 0, n
  {
    if n == 0 then []
    else Under(Index(n - 1), Print(t.es[n - 1], at + [Index(n - 1)], o)) + PrintElements(t, n - 1, at, o)
  }

  ghost function PrintKeys(t: Tree, ks: seq<string>, at: Path, o: KeyOrder): seq<Entry>
    requires IsKeyOrder(o) && t.Map? && forall k :: k in ks ==> k in t.m
    decreases t, 0, |ks|
  {
    if ks == [] then []
    else Under(Key(ks[0]), Print(t.m[ks[0]], at + [Key(ks[0])], o)) + PrintKeys(t, ks[1..], at, o)
  }

  lemma InUnder(s: Step, es: seq<Entry>, p: Path, v: string)
    ensures Entry(p, v) in Under(s, es) <==> p != [] && p[0] == s && Entry(p[1..], v) in es
  {
    if p != [] && p[0] == s && Entry(p[1..], v) in es {
      var i :| 0 <= i < |es| && es[i] == Entry(p[1..], v);
      assert Under(s, es)[i] == Entry(p, v);
    }
    if Entry(p, v) in Under(s, es) {
      var i :| 0 <= i < |es| && Under(s, es)[i] == Entry(p, v);
      assert es[i] == Entry(p[1..], v);
    }
  }

  /** What is printed are the strings of the tree, each under the path that reads it. */
  lemma {:induction false} PrintsWhatIsRead(t: Tree, at: Path, o: KeyOrder, p: Path, v: string)
    requires IsKeyOrder(o)
    ensures Entry(p, v) in Print(t, at, o) <==> Read(t, p) == Str(v)
    decreases t, 1, 0
  {
    if p != [] && Child(t, p[0]) == Nil { ReadNil(p[1..]); }
    match t
    case Nil =>
    case Str(_) =>
    case Slice(es) => PrintsElements(t, |es|, at, o, p, v);
    case Map(m) => PrintsKeys(t, o(at, m.Keys), at, o, p, v);
  }

  lemma {:induction false} PrintsElements(t: Tree, n: nat, at: Path, o: KeyOrder, p: Path, v: string)
    requires IsKeyOrder(o) && t.Slice? && n <= |t.es|
    ensures Entry(p, v) in PrintElements(t, n, at, o) <==>
            p != [] && p[0].Index? && p[0].i < n && Read(t, p) == Str(v)
    decreases t, 0, n
  {
    if n > 0 {
      var inside := Print(t.es[n - 1], at + [Index(n - 1)], o);
      var more := PrintElements(t, n - 1, at, o);
      assert PrintElements(t, n, at, o) == Under(Index(n - 1), inside) + more;
      PrintsElements(t, n - 1, at, o, p, v);
      InUnder(Index(n - 1), inside, p, v);
      if p != [] && p[0] == Index(n - 1) { PrintsWhatIsRead(t.es[n - 1], at + [Index(n - 1)], o, p[1..], v); }
    }
  }

  lemma {:induction false} PrintsKeys(t: Tree, ks: seq<string>, at: Path, o: KeyOrder, p: Path, v: string)
    requires IsKeyOrder(o) && t.Map? && forall k :: k in ks ==> k in t.m
    ensures Entry(p, v) in PrintKeys(t, ks, at, o) <==>
            p != [] && p[0].Key? && p[0].k in ks && Read(t, p) == Str(v)
    decreases t, 0, |ks|
  {
    if ks != [] {
      PrintsKeys(t, ks[1..], at, o, p, v);
      InUnder(Key(ks[0]), Print(t.m[ks[0]], at + [Key(ks[0])], o), p, v);
      if p != [] && p[0] == Key(ks[0]) { PrintsWhatIsRead(t.m[ks[0]], at + [Key(ks[0])], o, p[1..], v); }
    }
  }

  predicate NoPathTwice(es: seq<Entry>) {
    forall i, j :: 0 <= i < j < |es| ==> es[i].path != es[j].path
  }

  lemma UnderOnce(s: Step, es: seq<Entry>)
    requires NoPathTwice(es)
    ensures NoPathTwice(Under(s, es))
  {
    forall i, j | 0 <= i < j < |es| ensures Under(s, es)[i].path != Under(s, es)[j].path {
      assert Under(s, es)[i].path[1..] == es[i].path && Under(s, es)[j].path[1..] == es[j].path;
    }
  }

  /** And each of them is printed once. */
  lemma {:induction false} PrintsOnce(t: Tree, at: Path, o: KeyOrder)
    requires IsKeyOrder(o)
    ensures NoPathTwice(Print(t, at, o))
    decreases t, 1, 0
  {
    match t
    case Nil =>
    case Str(_) =>
    case Slice(es) => PrintsElementsOnce(t, |es|, at, o);
    case Map(m) => PrintsKeysOnce(t, o(at, m.Keys), at, o);
  }

  lemma {:induction false} PrintsElementsOnce(t: Tree, n: nat, at: Path, o: KeyOrder)
    requires IsKeyOrder(o) && t.Slice? && n <= |t.es|
    ensures NoPathTwice(PrintElements(t, n, at, o))
    decreases t, 0, n
  {
    if n > 0 {
      PrintsElementsOnce(t, n - 1, at, o);
      PrintsOnce(t.es[n - 1], at + [Index(n - 1)], o);
      UnderOnce(Index(n - 1), Print(t.es[n - 1], at + [Index(n - 1)], o));
      forall e | e in PrintElements(t, n - 1, at, o) ensures e.path != [] && e.path[0] != Index(n - 1) {
        PrintsElements(t, n - 1, at, o, e.path, e.value);
      }
    }
  }

  lemma {:induction false} PrintsKeysOnce(t: Tree, ks: seq<string>, at: Path, o: KeyOrder)
    requires IsKeyOrder(o) && t.Map? && forall k :: k in ks ==> k in t.m
    requires forall i, j :: 0 <= i < j < |ks| ==> ks[i] != ks[j]
    ensures NoPathTwice(PrintKeys(t, ks, at, o))
    decreases t, 0, |ks|
  {
    if ks != [] {
      PrintsKeysOnce(t, ks[1..], at, o);
      PrintsOnce(t.m[ks[0]], at + [Key(ks[0])], o);
      UnderOnce(Key(ks[0]), Print(t.m[ks[0]], at + [Key(ks[0])], o));
      forall e | e in PrintKeys(t, ks[1..], at, o) ensures e.path != [] && e.path[0] != Key(ks[0]) {
        PrintsKeys(t, ks[1..], at, o, e.path, e.value);
      }
    }
  }

  // ----- Running entries -----

  /** One assignment into a slice slot, or into a map entry. */
  function Land(slot: bool, t: Tree, e: Entry): Result<Tree, Error> {
    var r :- Store(t, e.path, e.value);
    Success(if slot && Outgrown(t, e.path) then t else r)
  }

  function RunEntries(slot: bool, t: Tree, es: seq<Entry>): Result<Tree, Error>
    decreases |es|
  {
    if es == [] then Success(t)
    else
      var t' :- Land(slot, t, es[0]);
      RunEntries(slot, t', es[1..])
  }

  lemma {:induction false} RunAppend(slot: bool, t: Tree, a: seq<Entry>, b: seq<Entry>)
    requires RunEntries(slot, t, a).Success?
    ensures RunEntries(slot, t, a + b) == RunEntries(slot, RunEntries(slot, t, a).value, b)
    decreases |a|
  {
    if a == [] {
      assert a + b == b;
    } else {
      assert (a + b)[1..] == a[1..] + b;
      RunAppend(slot, Land(slot, t, a[0]).value, a[1..], b);
    }
  }

  /** `t` can take an assignment through `s` without growing. */
  predicate Ready(t: Tree, s: Step) {
    Fits(t, s) && (t.Slice? && s.Index? ==> s.i < |t.es|)
  }

  lemma LandUnder(slot: bool, t: Tree, s: Step, e: Entry)
    requires Ready(t, s) && Land(s.Index?, Child(t, s), e).Success?
    ensures Land(slot, t, Entry([s] + e.path, e.value)) == Success(With(t, s, Land(s.Index?, Child(t, s), e).value))
    ensures Ready(With(t, s, Land(s.Index?, Child(t, s), e).value), s)
  {
    assert ([s] + e.path)[1..] == e.path;
  }

  /** Assignments that all start with `s` act on what is there and on nothing else. */
  lemma {:induction false} RunUnder(slot: bool, t: Tree, s: Step, es: seq<Entry>)
    requires Ready(t, s) && es != [] && RunEntries(s.Index?, Child(t, s), es).Success?
    ensures RunEntries(slot, t, Under(s, es)) == Success(With(t, s, RunEntries(s.Index?, Child(t, s), es).value))
    decreases |es|
  {
    var c := Land(s.Index?, Child(t, s), es[0]).value;
    LandUnder(slot, t, s, es[0]);
    WithReads(t, s, c, s);
    assert Under(s, es)[1..] == Under(s, es[1..]);
    if |es| > 1 {
      RunUnder(slot, With(t, s, c), s, es[1..]);
      WithTwice(t, s, c, RunEntries(s.Index?, c, es[1..]).value);
    }
  }

  // ----- The round trip on paths -----

  /** A built tree, or nothing. */
  predicate Printable(t: Tree) {
    t == Nil || t == EMPTY || Built(t)
  }

  lemma PrintsSomething(t: Tree, at: Path, o: KeyOrder)
    requires IsKeyOrder(o) && Built(t)
    ensures Print(t, at, o) != []
    decreases t
  {
    match t
    case Str(_) =>
    case Slice(es) =>
      PrintsSomething(es[|es| - 1], at + [Index(|es| - 1)], o);
    case Map(m) =>
      var ks := o(at, m.Keys);
      assert Lists(ks, m.Keys);
      var k :| k in m;
      assert k in ks && ks[0] in ks;
      PrintsSomething(m[ks[0]], at + [Key(ks[0])], o);
  }

  /** The slice with only its elements from `n` on filled in. */
  function Filled(t: Tree, n: nat): Tree
    requires t.Slice? && n <= |t.es|
  {
    Slice(Nils(n) + t.es[n..])
  }

  /** The entries printed for `e` fill an empty place below `s`. */
  lemma {:induction false} RunGroup(slot: bool, u: Tree, s: Step, e: Tree, at: Path, o: KeyOrder)
    requires IsKeyOrder(o) && Built(e) && Ready(u, s) && Child(u, s) == Nil
    ensures RunEntries(slot, u, Under(s, Print(e, at, o))) == Success(With(u, s, e))
    decreases e, 2, 0
  {
    PrintsSomething(e, at, o);
    RunPrinted(s.Index?, e, at, o);
    RunUnder(slot, u, s, Print(e, at, o));
  }

  lemma {:induction false} RunElements(slot: bool, t: Tree, n: nat, at: Path, o: KeyOrder)
    requires IsKeyOrder(o) && t.Slice? && Built(t) && n < |t.es|
    ensures RunEntries(slot, Filled(t, n), PrintElements(t, n, at, o)) == Success(t)
    decreases t, 0, n
  {
    if n == 0 {
      assert Filled(t, 0) == t;
    } else {
      var e, s := t.es[n - 1], Index(n - 1);
      assert With(Filled(t, n), s, e).es == Filled(t, n - 1).es;
      if e == Nil {
        assert Filled(t, n).es == Filled(t, n - 1).es;
      } else {
        RunGroup(slot, Filled(t, n), s, e, at + [s], o);
      }
      RunAppend(slot, Filled(t, n), Under(s, Print(e, at + [s], o)), PrintElements(t, n - 1, at, o));
      RunElements(slot, t, n - 1, at, o);
    }
  }

  lemma FilledFromNothing(t: Tree)
    requires t.Slice? && t.es != []
    ensures With(Nil, Index(|t.es| - 1), t.es[|t.es| - 1]) == Filled(t, |t.es| - 1)
  {
    assert With(Nil, Index(|t.es| - 1), t.es[|t.es| - 1]).es == Filled(t, |t.es| - 1).es;
  }

  /** The first entry printed for a slice allocates it at its full length. */
  lemma {:induction false} RunSlice(slot: bool, t: Tree, at: Path, o: KeyOrder)
    requires IsKeyOrder(o) && t.Slice? && Built(t)
    ensures RunEntries(slot, Nil, PrintElements(t, |t.es|, at, o)) == Success(t)
    decreases t, 0, |t.es|
  {
    var n := |t.es| - 1;
    var e, s := t.es[n], Index(n);
    RunGroup(slot, Nil, s, e, at + [s], o);
    FilledFromNothing(t);
    RunAppend(slot, Nil, Under(s, Print(e, at + [s], o)), PrintElements(t, n, at, o));
    RunElements(slot, t, n, at, o);
  }

  /** `u` holds some of the entries of `t`. */
  predicate PartOf(u: Tree, t: Tree) {
    (u.Nil? || u.Map?) && t.Map? && forall k :: k in Entries(u) ==> k in t.m && t.m[k] == Entries(u)[k]
  }

  /** `ks` lists the keys of `t` that `u` lacks. */
  ghost predicate Lacks(u: Tree, t: Tree, ks: seq<string>) {
    PartOf(u, t) && Lists(ks, t.m.Keys - Entries(u).Keys)
  }

  lemma TakeKey(u: Tree, t: Tree, ks: seq<string>)
    requires Lacks(u, t, ks) && ks != []
    ensures ks[0] in t.m && Child(u, Key(ks[0])) == Nil && forall k :: k in ks[1..] ==> k in t.m
    ensures Lacks(With(u, Key(ks[0]), t.m[ks[0]]), t, ks[1..])
  {
    assert ks[0] in ks;
    assert forall k :: k in ks <==> k == ks[0] || k in ks[1..];
    assert ks[0] !in ks[1..];
  }

  lemma NoKeysLeft(u: Tree, t: Tree)
    requires Lacks(u, t, []) && u.Map?
    ensures u == t
  {
    forall k | k in t.m ensures k in u.m { assert k !in []; }
    assert u.m == t.m;
  }

  lemma {:induction false} RunKeys(slot: bool, t: Tree, ks: seq<string>, u: Tree, at: Path, o: KeyOrder)
    requires IsKeyOrder(o) && (t == EMPTY || Built(t)) && Lacks(u, t, ks)
    requires forall k :: k in ks ==> k in t.m
    ensures RunEntries(slot, u, PrintKeys(t, ks, at, o)) == Success(if ks == [] then u else t)
    decreases t, 0, |ks|
  {
    if ks != [] {
      TakeKey(u, t, ks);
      var e, s := t.m[ks[0]], Key(ks[0]);
      RunGroup(slot, u, s, e, at + [s], o);
      RunAppend(slot, u, Under(s, Print(e, at + [s], o)), PrintKeys(t, ks[1..], at, o));
      RunKeys(slot, t, ks[1..], With(u, s, e), at, o);
      if ks[1..] == [] { NoKeysLeft(With(u, s, e), t); }
    }
  }

  /** Running what was printed from a tree into an empty place builds the tree. */
  lemma {:induction false} RunPrinted(slot: bool, t: Tree, at: Path, o: KeyOrder)
    requires IsKeyOrder(o) && Built(t)
    ensures RunEntries(slot, Nil, Print(t, at, o)) == Success(t)
    decreases t, 1, 0
  {
    match t
    case Str(s) =>
      assert Land(slot, Nil, Entry([], s)) == Success(t);
    case Slice(es) =>
      RunSlice(slot, t, at, o);
    case Map(m) =>
      PrintsSomething(t, at, o);
      assert m.Keys - Entries(Nil).Keys == m.Keys;
      RunKeys(slot, t, o(at, m.Keys), Nil, at, o);
  }

  // ----- The round trip on text -----

  function Settings(es: seq<Entry>): (r: seq<Setting>)
    ensures |r| == |es| && forall i :: 0 <= i < |r| ==> r[i] == Setting(PrintKey(es[i].path), es[i].value)
  {
    seq(|es|, i requires 0 <= i < |es| => Setting(PrintKey(es[i].path), es[i].value))
  }

  predicate AllNameable(es: seq<Entry>) {
    forall i :: 0 <= i < |es| ==> forall s :: s in es[i].path ==> Nameable(s)
  }

  lemma {:induction false} PrintedNameable(t: Tree, at: Path, o: KeyOrder)
    requires IsKeyOrder(o) && Printable(t)
    ensures AllNameable(Print(t, at, o))
    decreases t, 1, 0
  {
    match t
    case Nil =>
    case Str(_) =>
    case Slice(es) => ElementsNameable(t, |es|, at, o);
    case Map(m) => KeysNameable(t, o(at, m.Keys), at, o);
  }

  lemma {:induction false} ElementsNameable(t: Tree, n: nat, at: Path, o: KeyOrder)
    requires IsKeyOrder(o) && t.Slice? && Built(t) && n <= |t.es|
    ensures AllNameable(PrintElements(t, n, at, o))
    decreases t, 0, n
  {
    if n > 0 {
      PrintedNameable(t.es[n - 1], at + [Index(n - 1)], o);
      ElementsNameable(t, n - 1, at, o);
    }
  }

  lemma {:induction false} KeysNameable(t: Tree, ks: seq<string>, at: Path, o: KeyOrder)
    requires IsKeyOrder(o) && t.Map? && Printable(t) && forall k :: k in ks ==> k in t.m
    ensures AllNameable(PrintKeys(t, ks, at, o))
    decreases t, 0, |ks|
  {
    if ks != [] {
      assert ks[0] in t.m;
      PrintedNameable(t.m[ks[0]], at + [Key(ks[0])], o);
      KeysNameable(t, ks[1..], at, o);
    }
  }

  lemma NoEqualsSigns(es: seq<Entry>)
    requires AllNameable(es)
    ensures forall f :: f in Settings(es) ==> '=' !in f.key
  {
    forall i | 0 <= i < |es| ensures '=' !in PrintKey(es[i].path) { ParsePrintedKey(es[i].path); }
  }

  lemma FirstText(t: Tree, es: seq<Entry>)
    requires AllNameable(es) && es != []
    ensures Apply(t, Settings(es)[0]) == Land(false, t, es[0])
    ensures Settings(es)[1..] == Settings(es[1..]) && AllNameable(es[1..])
  {
    ParsePrintedKey(es[0].path);
  }

  lemma {:induction false} RunText(t: Tree, es: seq<Entry>)
    requires AllNameable(es)
    ensures RunSettings(t, Settings(es)) == RunEntries(false, t, es)
    decreases |es|
  {
    if es != [] {
      FirstText(t, es);
      var r := Land(false, t, es[0]);
      if r.Success? { RunText(r.value, es[1..]); }
    }
  }

  /** The flags that describe a tree. */
  ghost function Flags(t: Tree, o: KeyOrder): seq<Setting>
    requires IsKeyOrder(o)
  {
    Settings(Print(t, [], o))
  }

  /** Round trip: reading the flags printed for any tree of the built shape, with the keys
      of each map in any order, gives exactly that tree. */
  lemma RoundTrip(t: Tree, o: KeyOrder)
    requires IsKeyOrder(o) && BuiltRoot(t)
    ensures MapOf(Arguments(Flags(t, o))) == Success(t)
  {
    var es := Print(t, [], o);
    PrintedNameable(t, [], o);
    RunText(EMPTY, es);
    NoEqualsSigns(es);
    RunArguments(EMPTY, Settings(es));
    assert t.m.Keys - Entries(EMPTY).Keys == t.m.Keys;
    RunKeys(false, t, o([], t.m.Keys), EMPTY, [], o);
    if o([], t.m.Keys) == [] { NoKeysLeft(EMPTY, t); }
  }

  /** Every accepted command line can be replaced by the printed form of its tree. */
  lemma MapPrintMap(args: seq<string>, o: KeyOrder)
    requires IsKeyOrder(o) && MapOf(args).Success?
    ensures MapOf(Arguments(Flags(MapOf(args).value, o))) == MapOf(args)
  {
    RunBuilds(EMPTY, args);
    RoundTrip(MapOf(args).value, o);
  }
}
