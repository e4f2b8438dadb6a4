/**
 What is refused, and with which error: the characters of keys, the text of numbers, keys
 that do not parse, steps that do not fit, and command lines that are not flags to their
 end.  Nothing here is said in terms of the matchers of FlagKeys or of `Next`.
 */
module FlagErrors {
  import opened Wrappers
  import opened FlagTree
  import opened FlagKeys
  import opened FlagRun

  // ----- Characters and numbers -----

  const DIGITS: map<char, nat> := map[
    '0' := 0, '1' := 1, '2' := 2, '3' := 3, '4' := 4, '5' := 5, '6' := 6, '7' := 7, '8' := 8, '9' := 9]

  /** The word characters of ASCII: digits, capitals, the underscore and small letters. */
  predicate IsAsciiWord(code: int) {
    48 <= code <= 57 || 65 <= code <= 90 || code == 95 || 97 <= code <= 122
  }

  lemma Characters(c: char)
    ensures IsDigit(c) <==> c in DIGITS
    ensures IsDigit(c) ==> Digit(c) == DIGITS[c]
    ensures IsWordChar(c) <==> IsAsciiWord(c as int)
  {
  }

  function Power10(n: nat): nat {
    if n == 0 then 1 else 10 * Power10(n - 1)
  }

  /** The value of a text of digits, from the front. */
  function Value(s: string): nat
    requires forall i :: 0 <= i < |s| ==> s[i] in DIGITS
  {
    if s == "" then 0 else DIGITS[s[0]] * Power10(|s| - 1) + Value(s[1..])
  }

  lemma TenTimes(d: nat, q: nat)
    ensures d * (10 * q) == 10 * (d * q)
  {
  }

  lemma {:induction false} ValueOfMore(s: string, c: char)
    requires (forall i :: 0 <= i < |s| ==> s[i] in DIGITS) && c in DIGITS
    ensures forall i :: 0 <= i < |s + [c]| ==> (s + [c])[i] in DIGITS
    ensures Value(s + [c]) == 10 * Value(s) + DIGITS[c]
    decreases |s|
  {
    var all := s + [c];
    if s == "" {
      assert all == [c] && all[1..] == "";
    } else {
      ValueOfMore(s[1..], c);
      assert all[1..] == s[1..] + [c];
      assert all[0] == s[0] && Power10(|s|) == 10 * Power10(|s| - 1);
      TenTimes(DIGITS[s[0]], Power10(|s| - 1));
    }
  }

  /** The index between the brackets is the value of its digits. */
  lemma {:induction false} NumberIsValue(s: string)
    requires forall i :: 0 <= i < |s| ==> IsDigit(s[i])
    ensures (forall i :: 0 <= i < |s| ==> s[i] in DIGITS) && Number(s) == Value(s)
    decreases |s|
  {
    if s != "" {
      var pre, c := s[..|s| - 1], s[|s| - 1];
      assert s == pre + [c];
      NumberIsValue(pre);
      Characters(c);
      ValueOfMore(pre, c);
    }
  }

  // ----- Keys that do not parse -----

  /** The steps of `p` are spelled one after the other, and `rest` is left. */
  ghost predicate SpellsBefore(k: string, p: Path, rest: string)
    decreases |p|
  {
    if p == [] then k == rest
    else exists n :: 0 <= n <= |k| && StepEnds(k, p[0], n) && SpellsBefore(k[n..], p[1..], rest)
  }

  /** `k` starts with brackets around the digits `d`. */
  predicate Bracketed(k: string, d: string) {
    (forall i :: 0 <= i < |d| ==> d[i] in DIGITS) && "[" + d + "]" <= k
  }

  /** No step can be read from `rest`, and this is why: digits between brackets that are
      none or too large for 64 bits, or no brackets around digits and no word. */
  ghost predicate Stuck(rest: string, e: Error) {
    match e
    case BadIndex(d) => Bracketed(rest, d) && (d == "" || Value(d) >= 9223372036854775808)
    case UnknownKey(k) =>
      && k == rest != "" && (forall d :: !Bracketed(rest, d))
      && !IsAsciiWord(rest[0] as int)
      && (rest[0] == '.' && |rest| > 1 ==> !IsAsciiWord(rest[1] as int))
    case _ => false
  }

  lemma BracketsMatch(k: string, d: string)
    requires '\n' !in k && Bracketed(k, d)
    ensures MatchSlice(k) == Some(Match(d, k[|d| + 2..]))
  {
    var b := "[" + d + "]";
    assert forall i :: 0 <= i < |b| ==> k[i] == b[i];
    forall i | 0 <= i < |d| ensures IsDigit(k[1..][i]) { Characters(d[i]); assert b[i + 1] == d[i]; }
    assert k[1..][|d|] == b[|d| + 1];
    RunIs(k[1..], IsDigit, |d|);
    assert k[1..1 + |d|] == d;
  }

  lemma MatchBrackets(k: string)
    requires '\n' !in k && MatchSlice(k).Some?
    ensures Bracketed(k, MatchSlice(k).value.group)
  {
    var d := MatchSlice(k).value.group;
    forall i | 0 <= i < |d| ensures d[i] in DIGITS { Characters(d[i]); }
    var n := |d|;
    assert k[..n + 2] == [k[0]] + k[1..n + 1] + [k[n + 1]];
  }

  lemma NoWord(k: string)
    requires k != "" && MatchSlice(k).None?
    ensures MatchMap(k).None? <==>
            !IsAsciiWord(k[0] as int) && (k[0] == '.' && |k| > 1 ==> !IsAsciiWord(k[1] as int))
  {
    Characters(k[0]);
    if |k| > 1 { Characters(k[1]); }
  }

  /** The key stops right here exactly when it is stuck. */
  lemma StopsExactly(k: string, e: Error)
    requires '\n' !in k
    ensures Parse(k) == Parsed([], Some(e)) <==> Stuck(k, e)
  {
    if k != "" {
      if MatchSlice(k).Some? {
        MatchBrackets(k);
        NumberIsValue(MatchSlice(k).value.group);
      } else {
        NoWord(k);
      }
      forall d | Bracketed(k, d) ensures MatchSlice(k) == Some(Match(d, k[|d| + 2..])) { BracketsMatch(k, d); }
    }
  }

  /** When a key without newlines does not parse, exactly: some steps are spelled, and what
      is left is stuck. */
  lemma {:induction false} FailsExactly(k: string, p: Path, e: Error)
    requires '\n' !in k
    ensures Parse(k) == Parsed(p, Some(e)) <==> exists rest :: SpellsBefore(k, p, rest) && Stuck(rest, e)
    decreases |p|
  {
    StopsExactly(k, e);
    if p == [] {
      assert Stuck(k, e) ==> SpellsBefore(k, p, k);
    } else {
      if Parse(k) == Parsed(p, Some(e)) {
        var n := FirstStep(k);
        FailsExactly(k[n..], p[1..], e);
        var rest :| SpellsBefore(k[n..], p[1..], rest) && Stuck(rest, e);
        assert SpellsBefore(k, p, rest);
      }
      if rest :| SpellsBefore(k, p, rest) && Stuck(rest, e) {
        var n :| 0 <= n <= |k| && StepEnds(k, p[0], n) && SpellsBefore(k[n..], p[1..], rest);
        FailsExactly(k[n..], p[1..], e);
        MatchStep(k, p[0], n);
        assert [p[0]] + p[1..] == p;
      }
    }
  }

  /** What follows a newline after a word is dropped. */
  lemma NewlineDrops(w: string, rest: string)
    requires w != "" && forall i :: 0 <= i < |w| ==> IsAsciiWord(w[i] as int)
    requires rest != "" && rest[0] == '\n'
    ensures Parse(w + rest) == Parsed([Key(w)], None)
  {
    var k := w + rest;
    forall i | 0 <= i < |w| ensures IsWordChar(k[i]) { Characters(w[i]); assert k[i] == w[i]; }
    Characters('\n');
    Characters('[');
    RunIs(k, IsWordChar, |w|);
    assert k[..|w|] == w && k[|w|..] == rest;
    LineStops(rest);
    WordThenNothing(k, w);
  }

  lemma LineStops(s: string)
    requires s != "" && s[0] == '\n'
    ensures Line(s) == ""
  {
    RunIs(s, c => c != '\n', 0);
  }

  lemma WordThenNothing(k: string, w: string)
    requires MatchSlice(k).None? && MatchMap(k) == Some(Match(w, ""))
    ensures Parse(k) == Parsed([Key(w)], None)
  {
    assert Parse("") == Parsed([], None);
    assert [Key(w)] + [] == [Key(w)];
  }

  // ----- Refused assignments -----

  /** The error of an assignment that is refused, with the kind of what was met spelled
      out: the first step that does not fit, or else the parse error. */
  predicate RefusedWith(t: Tree, key: string, e: Error) {
    var p := Parse(key);
    if Accepts(t, p.steps) then p.bad == Some(e)
    else exists n: nat ::
      n < |p.steps| && FirstMisfit(t, p.steps, n) && SaysMisfit(Read(t, p.steps[..n]), p.steps[n], e)
  }

  predicate SaysMisfit(met: Tree, s: Step, e: Error) {
    match (met, s)
    case (Str(_), Index(_)) => e == ExpectedSlice(StringKind)
    case (Map(_), Index(_)) => e == ExpectedSlice(MapKind)
    case (Str(_), Key(_)) => e == ExpectedMap(StringKind)
    case (Slice(_), Key(_)) => e == ExpectedMap(SliceKind)
    case _ => false
  }

  lemma MisfitSays(met: Tree, s: Step, e: Error)
    ensures SaysMisfit(met, s, e) <==> !Fits(met, s) && e == Misfit(met, s)
  {
  }

  lemma {:induction false} FailsAtMisfit(t: Tree, p: Path, leaf: Result<string, Error>, n: nat)
    requires FirstMisfit(t, p, n)
    ensures !Accepts(t, p) && Put(t, p, leaf) == Failure(Misfit(Read(t, p[..n]), p[n]))
    decreases n
  {
    if n > 0 {
      assert p[..n][1..] == p[1..][..n - 1];
      FailsAtMisfit(Child(t, p[0]), p[1..], leaf, n - 1);
    }
  }

  /** An assignment is refused with this error and no other. */
  lemma RefusedExactly(t: Tree, key: string, v: string, e: Error)
    ensures Assigned(t, key, v) == Failure(e) <==> RefusedWith(t, key, e)
  {
    var p := Parse(key);
    PutSucceedsExactly(t, p.steps, p.Leaf(v));
    if !Accepts(t, p.steps) {
      forall n: nat | FirstMisfit(t, p.steps, n)
        ensures Assigned(t, key, v) == Failure(e) <==> SaysMisfit(Read(t, p.steps[..n]), p.steps[n], e)
      {
        FailsAtMisfit(t, p.steps, p.Leaf(v), n);
        MisfitSays(Read(t, p.steps[..n]), p.steps[n], e);
      }
    }
  }

  // ----- Command lines -----

  /** A flag as it is written: a setting, in one argument or in two. */
  datatype Written = Written(f: Setting, joined: bool) {
    function Arguments(): seq<string> {
      if joined then ["--" + f.key + "=" + f.value] else ["--" + f.key, f.value]
    }
  }

  function CommandLine(ws: seq<Written>): seq<string> {
    if ws == [] then [] else ws[0].Arguments() + CommandLine(ws[1..])
  }

  /** The flags are accepted one after the other, and take `t` to `u`. */
  predicate Takes(t: Tree, ws: seq<Written>, u: Tree)
    decreases |ws|
  {
    if ws == [] then u == t
    else
      var r := Assigned(t, ws[0].f.key, ws[0].f.value);
      '=' !in ws[0].f.key && r.Success? && Takes(r.value, ws[1..], u)
  }

  /** The next argument does not begin a flag. */
  predicate NoFlag(args: seq<string>, e: Error) {
    args != [] &&
    match e
    case SliceOutOfRange => |args[0]| < 2
    case InvalidFlag => |args[0]| >= 2 && !("--" <= args[0])
    case ExpectedParameter => |args| == 1 && "--" <= args[0] && '=' !in args[0]
    case _ => false
  }

  /** The next arguments are a flag that `t` refuses. */
  ghost predicate BadFlag(t: Tree, args: seq<string>, e: Error) {
    exists w: Written, rest ::
      args == w.Arguments() + rest && '=' !in w.f.key && RefusedWith(t, w.f.key, e)
  }

  lemma NextOfWritten(w: Written, rest: seq<string>)
    requires '=' !in w.f.key
    ensures Next(w.Arguments() + rest) == Flag(w.f.key, w.f.value, rest)
  {
    if w.joined { NextOfJoined(w.f.key, w.f.value, rest); } else { NextOfSplit(w.f.key, w.f.value, rest); }
  }

  lemma NextIsWritten(args: seq<string>) returns (w: Written)
    requires Next(args).Flag?
    ensures '=' !in w.f.key && args == w.Arguments() + Next(args).rest
    ensures Next(args) == Flag(w.f.key, w.f.value, Next(args).rest)
  {
    var n := Next(args);
    TakesExactly(args, n.key, n.value, n.rest);
    w := Written(Setting(n.key, n.value), args == [Joined(n.key, n.value)] + n.rest);
  }

  lemma NextIsBad(args: seq<string>, e: Error)
    ensures Next(args) == Bad(e) <==> NoFlag(args, e)
  {
    if args != [] && |args[0]| >= 2 {
      var k := args[0][2..];
      if args[0][..2] == "--" {
        assert args[0] == "--" + k;
        assert EqualsAt(k) < |k| ==> args[0][EqualsAt(k) + 2] == '=';
        assert EqualsAt(k) == |k| ==> '=' !in args[0];
      }
    }
  }

  lemma NextIsRefused(t: Tree, args: seq<string>, e: Error)
    ensures BadFlag(t, args, e) <==>
            Next(args).Flag? && Assigned(t, Next(args).key, Next(args).value) == Failure(e)
  {
    if Next(args).Flag? {
      var w := NextIsWritten(args);
      RefusedExactly(t, w.f.key, w.f.value, e);
    }
    if BadFlag(t, args, e) {
      var w: Written, rest :| args == w.Arguments() + rest && '=' !in w.f.key && RefusedWith(t, w.f.key, e);
      NextOfWritten(w, rest);
      RefusedExactly(t, w.f.key, w.f.value, e);
    }
  }

  /** After flags that are taken the run goes on with the arguments left. */
  lemma {:induction false} RunAfterTaken(t: Tree, ws: seq<Written>, u: Tree, rest: seq<string>)
    requires Takes(t, ws, u)
    ensures RunArgs(t, CommandLine(ws) + rest) == RunArgs(u, rest)
    decreases |ws|
  {
    if ws == [] {
      assert CommandLine(ws) + rest == rest;
    } else {
      var w, more := ws[0], CommandLine(ws[1..]) + rest;
      assert CommandLine(ws) + rest == w.Arguments() + more;
      NextOfWritten(w, more);
      RunAfterTaken(Assigned(t, w.f.key, w.f.value).value, ws[1..], u, rest);
    }
  }

  /** Every run takes flags for as long as it can: to the end, or to what it fails on. */
  lemma {:induction false} RunTakes(t: Tree, args: seq<string>) returns (ws: seq<Written>, u: Tree, rest: seq<string>)
    ensures Takes(t, ws, u) && args == CommandLine(ws) + rest
    ensures match RunArgs(t, args)
            case Success(v) => rest == [] && u == v
            case Failure(e) => NoFlag(rest, e) || BadFlag(u, rest, e)
    decreases |args|
  {
    var n := Next(args);
    ws, u, rest := [], t, args;
    if n.Bad? { NextIsBad(args, n.error); }
    if n.Flag? {
      var w := NextIsWritten(args);
      var r := Assigned(t, w.f.key, w.f.value);
      if r.Failure? {
        NextIsRefused(t, args, r.error);
      } else {
        ws, u, rest := RunTakes(r.value, n.rest);
        assert ([w] + ws)[1..] == ws;
        ws := [w] + ws;
      }
    }
  }

  ghost predicate AcceptedAs(args: seq<string>, u: Tree) {
    exists ws :: args == CommandLine(ws) && Takes(EMPTY, ws, u)
  }

  /** A command line is accepted, with this result, exactly when it consists of flags in
      either form to its very end, accepted one after the other. */
  lemma AcceptedExactly(args: seq<string>, u: Tree)
    ensures MapOf(args) == Success(u) <==> AcceptedAs(args, u)
  {
    var ws, v, rest := RunTakes(EMPTY, args);
    assert rest == [] ==> CommandLine(ws) + rest == CommandLine(ws);
    if AcceptedAs(args, u) {
      var xs :| args == CommandLine(xs) && Takes(EMPTY, xs, u);
      RunAfterTaken(EMPTY, xs, u, []);
      assert CommandLine(xs) + [] == CommandLine(xs);
    }
  }

  ghost predicate FailedAt(args: seq<string>, ws: seq<Written>, u: Tree, rest: seq<string>, e: Error) {
    args == CommandLine(ws) + rest && Takes(EMPTY, ws, u) && (NoFlag(rest, e) || BadFlag(u, rest, e))
  }

  ghost predicate FailedWith(args: seq<string>, e: Error) {
    exists ws, u, rest :: FailedAt(args, ws, u, rest, e)
  }

  lemma FailedRuns(args: seq<string>, ws: seq<Written>, u: Tree, rest: seq<string>, e: Error)
    requires FailedAt(args, ws, u, rest, e)
    ensures MapOf(args) == Failure(e)
  {
    RunAfterTaken(EMPTY, ws, u, rest);
    NextIsBad(rest, e);
    NextIsRefused(u, rest, e);
  }

  /** `Map` returns this error exactly when flags that are accepted are followed by an
      argument that is no flag, or by a flag that is refused, with that error. */
  lemma FailedExactly(args: seq<string>, e: Error)
    ensures MapOf(args) == Failure(e) <==> FailedWith(args, e)
  {
    if MapOf(args) == Failure(e) {
      var ws, u, rest := RunTakes(EMPTY, args);
      assert FailedAt(args, ws, u, rest, e);
    }
    if FailedWith(args, e) {
      var ws, u, rest :| FailedAt(args, ws, u, rest, e);
      FailedRuns(args, ws, u, rest, e);
    }
  }

  /** In particular, after an accepted front part an argument without the two dashes ends
      the run, and so does a flag at the very end that has no value. */
  lemma FailsAfter(pre: seq<string>, rest: seq<string>, e: Error)
    requires MapOf(pre).Success? && NoFlag(rest, e)
    ensures MapOf(pre + rest) == Failure(e)
  {
    var ws, u, none := RunTakes(EMPTY, pre);
    assert CommandLine(ws) + none == CommandLine(ws);
    FailedRuns(pre + rest, ws, u, rest, e);
  }
}
