/**
 Whole command lines: what `Map` computes from a list of arguments, the two forms of a
 flag, and what every run keeps.
 */
module FlagRun {
  import opened Wrappers
  import opened FlagTree
  import opened FlagKeys
  import opened Folding

  // ----- Arguments -----

  /** What `Next` takes from the front of the arguments. */
  datatype Taken =
    | EndOfFlags
    | Flag(key: string, value: string, rest: seq<string>)
    | Bad(error: Error)

  /** Where the first '=' of `s` is, or |s|. */
  function EqualsAt(s: string): (n: nat)
    ensures n <= |s|
  {
    Run(s, c => c != '=')
  }

  function Next(args: seq<string>): (r: Taken)
    ensures r.Flag? ==> |r.rest| < |args|
  {
    if args == [] then EndOfFlags
    else if |args[0]| < 2 then Bad(SliceOutOfRange)
    else if args[0][..2] != "--" then Bad(InvalidFlag)
    else
      var k := args[0][2..];
      var n := EqualsAt(k);
      if n < |k| then Flag(k[..n], k[n + 1..], args[1..])
      else if |args| == 1 then Bad(ExpectedParameter)
      else Flag(k, args[1], args[2..])
  }

  /** One accepted flag: parse the key, assign into the tree. */
  function Assigned(t: Tree, key: string, value: string): Result<Tree, Error> {
    Put(t, Parse(key).steps, Parse(key).Leaf(value))
  }

  /** What the loop of `Map` computes from the tree `t` and the arguments left. */
  function RunArgs(t: Tree, args: seq<string>): Result<Tree, Error>
    decreases |args|
  {
    match Next(args)
    case EndOfFlags => Success(t)
    case Bad(e) => Failure(e)
    case Flag(k, v, rest) =>
      var t' :- Assigned(t, k, v);
      RunArgs(t', rest)
  }

  const EMPTY := Map(map[])

  function MapOf(args: seq<string>): Result<Tree, Error> {
    RunArgs(EMPTY, args)
  }

  // ----- The two forms of a flag -----

  function Joined(k: string, v: string): string {
    "--" + k + "=" + v
  }

  lemma NextOfJoined(k: string, v: string, rest: seq<string>)
    requires '=' !in k
    ensures Next([Joined(k, v)] + rest) == Flag(k, v, rest)
  {
    var t := k + "=" + v;
    assert Joined(k, v) == "--" + t && Joined(k, v)[2..] == t;
    assert t[..|k|] == k && t[|k| + 1..] == v;
    assert forall i :: 0 <= i < |k| ==> t[i] == k[i];
    RunIs(t, c => c != '=', |k|);
    assert ([Joined(k, v)] + rest)[1..] == rest;
  }

  lemma NextOfSplit(k: string, v: string, rest: seq<string>)
    requires '=' !in k
    ensures Next(["--" + k, v] + rest) == Flag(k, v, rest)
  {
    assert ("--" + k)[2..] == k;
    RunIs(k, c => c != '=', |k|);
    assert (["--" + k, v] + rest)[2..] == rest;
  }

  lemma SplitAtEquals(s: string, n: nat)
    requires n == EqualsAt(s)
    ensures '=' !in s[..n] && (n < |s| ==> s == s[..n] + "=" + s[n + 1..])
  {
  }

  /** A flag is taken exactly when the arguments start with one of its two forms. */
  lemma TakesExactly(args: seq<string>, k: string, v: string, rest: seq<string>)
    ensures Next(args) == Flag(k, v, rest) <==>
            '=' !in k && (args == [Joined(k, v)] + rest || args == ["--" + k, v] + rest)
  {
    if Next(args) == Flag(k, v, rest) {
      var t := args[0][2..];
      SplitAtEquals(t, EqualsAt(t));
      assert args[0] == "--" + t;
      if EqualsAt(t) < |t| {
        assert args[0] == Joined(k, v);
        assert args == [args[0]] + args[1..];
      } else {
        assert t == k;
        assert args == [args[0], args[1]] + args[2..];
      }
    }
    if '=' !in k {
      NextOfJoined(k, v, rest);
      NextOfSplit(k, v, rest);
    }
  }

  /** A flag starts right after `pre`, whatever follows. */
  predicate AtBoundary(pre: seq<string>)
    decreases |pre|
  {
    pre == [] || (Next(pre).Flag? && AtBoundary(Next(pre).rest))
  }

  lemma NextAcross(pre: seq<string>, post: seq<string>)
    requires Next(pre).Flag?
    ensures Next(pre + post) == Flag(Next(pre).key, Next(pre).value, Next(pre).rest + post)
  {
    assert (pre + post)[1..] == pre[1..] + post;
    assert |pre| > 1 ==> (pre + post)[2..] == pre[2..] + post;
  }

  lemma {:induction false} RunAcross(t: Tree, pre: seq<string>, a: seq<string>, b: seq<string>)
    requires AtBoundary(pre)
    requires forall t' :: RunArgs(t', a) == RunArgs(t', b)
    ensures RunArgs(t, pre + a) == RunArgs(t, pre + b)
    decreases |pre|
  {
    if pre == [] {
      assert pre + a == a && pre + b == b;
    } else {
      var f := Next(pre);
      NextAcross(pre, a);
      NextAcross(pre, b);
      var r := Assigned(t, f.key, f.value);
      if r.Success? { RunAcross(r.value, f.rest, a, b); }
    }
  }

  lemma SameNext(k: string, v: string, post: seq<string>)
    requires '=' !in k
    ensures forall t :: RunArgs(t, [Joined(k, v)] + post) == RunArgs(t, ["--" + k, v] + post)
  {
    NextOfJoined(k, v, post);
    NextOfSplit(k, v, post);
  }

  /** `--k=v` and `--k v` are the same flag wherever a flag may start: the same tree or
      the same error. */
  lemma ArgumentFormsAgree(pre: seq<string>, k: string, v: string, post: seq<string>)
    requires '=' !in k && AtBoundary(pre)
    ensures MapOf(pre + ([Joined(k, v)] + post)) == MapOf(pre + (["--" + k, v] + post))
  {
    SameNext(k, v, post);
    RunAcross(EMPTY, pre, [Joined(k, v)] + post, ["--" + k, v] + post);
  }

  // ----- Lists of flags -----

  datatype Setting = Setting(key: string, value: string)

  /** The arguments `--key=value`, one for each setting. */
  function Arguments(fs: seq<Setting>): seq<string> {
    if fs == [] then [] else [Joined(fs[0].key, fs[0].value)] + Arguments(fs[1..])
  }

  function Apply(t: Tree, f: Setting): Result<Tree, Error> {
    Assigned(t, f.key, f.value)
  }

  function RunSettings(t: Tree, fs: seq<Setting>): Result<Tree, Error> {
    Fold(Apply, t, fs)
  }

  lemma {:induction false} RunArguments(t: Tree, fs: seq<Setting>)
    requires forall f :: f in fs ==> '=' !in f.key
    ensures RunArgs(t, Arguments(fs)) == RunSettings(t, fs)
    decreases |fs|
  {
    if fs != [] {
      assert fs[0] in fs;
      NextOfJoined(fs[0].key, fs[0].value, Arguments(fs[1..]));
      var r := Assigned(t, fs[0].key, fs[0].value);
      if r.Success? { RunArguments(r.value, fs[1..]); }
    }
  }

  // ----- What every run keeps -----

  /** Nothing an accepted flag stored is changed by the flags after it. */
  lemma {:induction false} RunGrows(t: Tree, args: seq<string>)
    requires RunArgs(t, args).Success?
    ensures Below(t, RunArgs(t, args).value)
    decreases |args|
  {
    BelowItself(t);
    var f := Next(args);
    if f.Flag? {
      var p := Parse(f.key);
      PutSucceedsExactly(t, p.steps, p.Leaf(f.value));
      var t' := Assigned(t, f.key, f.value).value;
      PutGrows(t, p.steps, f.value);
      RunGrows(t', f.rest);
      BelowTransitive(t, t', RunArgs(t', f.rest).value);
    }
  }

  /** First write wins over whole command lines: the tree of an accepted front part is
      below the tree of the whole. */
  lemma {:induction false} FirstWriteWins(t: Tree, pre: seq<string>, post: seq<string>)
    requires AtBoundary(pre)
    ensures RunArgs(t, pre + post).Success? ==>
              RunArgs(t, pre).Success? && Below(RunArgs(t, pre).value, RunArgs(t, pre + post).value)
    decreases |pre|
  {
    if pre == [] {
      assert pre + post == post;
      if RunArgs(t, post).Success? { RunGrows(t, post); }
    } else {
      NextAcross(pre, post);
      var r := Assigned(t, Next(pre).key, Next(pre).value);
      if r.Success? { FirstWriteWins(r.value, Next(pre).rest, post); }
    }
  }

  /** In particular a path that reads a string keeps reading it. */
  lemma FirstStringStays(pre: seq<string>, post: seq<string>, p: Path)
    requires AtBoundary(pre) && MapOf(pre + post).Success?
    requires MapOf(pre).Success? && Read(MapOf(pre).value, p).Str?
    ensures Read(MapOf(pre + post).value, p) == Read(MapOf(pre).value, p)
  {
    FirstWriteWins(EMPTY, pre, post);
    BelowReads(MapOf(pre).value, MapOf(pre + post).value, p);
  }

  /** The shapes flags can build below the root: no empty container, no nil map entry,
      no trailing nil in a slice, only nameable keys and indices. */
  predicate Built(t: Tree) {
    match t
    case Nil => false
    case Str(_) => true
    case Slice(es) =>
      && 0 < |es| <= MAX_INT + 1
      && es[|es| - 1] != Nil
      && forall i :: 0 <= i < |es| ==> es[i] == Nil || Built(es[i])
    case Map(m) => m != map[] && forall k :: k in m ==> IsWord(k) && Built(m[k])
  }

  /** The shapes of the root: a map, perhaps empty. */
  predicate BuiltRoot(t: Tree) {
    t == EMPTY || (t.Map? && Built(t))
  }

  lemma WithBuilds(t: Tree, s: Step, e: Tree)
    requires t == Nil || t == EMPTY || Built(t)
    requires Fits(t, s) && Nameable(s) && Built(e)
    ensures Built(With(t, s, e))
  {
    var t' := With(t, s, e);
    if s.Index? {
      assert t'.es[|t'.es| - 1] != Nil;
    } else {
      assert s.k in t'.m;
    }
  }

  lemma ChildBuilt(t: Tree, s: Step)
    requires t == Nil || t == EMPTY || Built(t)
    ensures Child(t, s) == Nil || Built(Child(t, s))
  {
  }

  lemma {:induction false} PutBuilds(t: Tree, p: Path, v: string)
    requires t == Nil || t == EMPTY || Built(t)
    requires t == EMPTY ==> p != []
    requires forall s :: s in p ==> Nameable(s)
    requires Store(t, p, v).Success?
    ensures Built(Store(t, p, v).value)
    decreases |p|
  {
    if p != [] {
      var c := Child(t, p[0]);
      ChildBuilt(t, p[0]);
      PutBuilds(c, p[1..], v);
      WithBuilds(t, p[0], Settled(p[0], c, p[1..], Store(c, p[1..], v).value));
    }
  }

  /** Every state between accepted flags has a built shape; in particular no map entry is
      ever nil, so no `Set` meets an entry that cannot be set, and no assignment through
      `SetMapIndex` deletes. */
  lemma {:induction false} RunBuilds(t: Tree, args: seq<string>)
    requires BuiltRoot(t) && RunArgs(t, args).Success?
    ensures BuiltRoot(RunArgs(t, args).value)
    decreases |args|
  {
    var f := Next(args);
    if f.Flag? {
      var p := Parse(f.key);
      PutSucceedsExactly(t, p.steps, p.Leaf(f.value));
      ParsedStepsNameable(f.key);
      if p.steps != [] { PutBuilds(t, p.steps, f.value); }
      RunBuilds(Assigned(t, f.key, f.value).value, f.rest);
    }
  }
}
