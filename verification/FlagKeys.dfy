/**
 The text of a flag key: the two regular expressions `^\[(\d+)?\](.*)` and
 `^\.?(\w+)(.*)` as hand-written matchers, the steps a key parses to, and a printer
 for paths.  `.` does not match a newline and neither pattern is anchored at the end,
 so the text after a newline is dropped, as in Go.
 */
module FlagKeys {
  import opened Wrappers
  import opened FlagTree

  /** The largest value of Go's 64-bit int; strconv.Atoi refuses anything above. */
  const MAX_INT: nat := 0x7FFF_FFFF_FFFF_FFFF

  predicate IsDigit(c: char) {
    '0' <= c <= '9'
  }

  predicate IsWordChar(c: char) {
    IsDigit(c) || 'A' <= c <= 'Z' || 'a' <= c <= 'z' || c == '_'
  }

  predicate IsWord(s: string) {
    s != "" && forall i :: 0 <= i < |s| ==> IsWordChar(s[i])
  }

  // ----- Matching -----

  /** The length of the longest prefix of `s` all of whose characters satisfy `p`. */
  function Run(s: string, p: char -> bool): (n: nat)
    ensures n <= |s|
    ensures forall i :: 0 <= i < n ==> p(s[i])
    ensures n < |s| ==> !p(s[n])
  {
    if s != "" && p(s[0]) then 1 + Run(s[1..], p) else 0
  }

  /** The longest such prefix is determined by where it stops. */
  lemma {:induction false} RunIs(s: string, p: char -> bool, n: nat)
    requires n <= |s| && forall i :: 0 <= i < n ==> p(s[i])
    requires n < |s| ==> !p(s[n])
    ensures Run(s, p) == n
  {
  }

  /** What `(.*)` captures: everything up to the first newline. */
  function Line(s: string): (r: string)
    ensures r <= s && (|r| < |s| ==> s[|r|] == '\n')
    ensures '\n' !in s ==> r == s
  {
    s[..Run(s, c => c != '\n')]
  }

  datatype Match = Match(group: string, tail: string)

  /** `^\[(\d+)?\](.*)` */
  function MatchSlice(k: string): (r: Option<Match>)
    ensures r.Some? ==> |r.value.tail| < |k|
    ensures r.Some? ==> forall i :: 0 <= i < |r.value.group| ==> IsDigit(r.value.group[i])
  {
    if k == "" || k[0] != '[' then
      None
    else
      var n := Run(k[1..], IsDigit);
      if n == |k| - 1 || k[1 + n] != ']' then None else Some(Match(k[1..1 + n], Line(k[2 + n..])))
  }

  /** `^\.?(\w+)(.*)` */
  function MatchMap(k: string): (r: Option<Match>)
    ensures r.Some? ==> IsWord(r.value.group) && |r.value.tail| < |k|
  {
    var w := if k != "" && k[0] == '.' then k[1..] else k;
    var n := Run(w, IsWordChar);
    if n == 0 then None else Some(Match(w[..n], Line(w[n..])))
  }

  // ----- Numbers -----

  function Digit(c: char): nat
    requires IsDigit(c)
  {
    (c as int) - ('0' as int)
  }

  function Number(digits: string): nat
    requires forall i :: 0 <= i < |digits| ==> IsDigit(digits[i])
  {
    if digits == "" then 0
    else 10 * Number(digits[..|digits| - 1]) + Digit(digits[|digits| - 1])
  }

  /** strconv.Atoi on a run of digits: an empty run and an overflow are errors. */
  function Atoi(digits: string): Option<nat>
    requires forall i :: 0 <= i < |digits| ==> IsDigit(digits[i])
  {
    if digits == "" || Number(digits) > MAX_INT then None else Some(Number(digits))
  }

  function Decimal(n: nat): (r: string)
    ensures r != "" && forall i :: 0 <= i < |r| ==> IsDigit(r[i])
  {
    var last := ('0' as int + n % 10) as char;
    if n < 10 then [last] else Decimal(n / 10) + [last]
  }

  lemma {:induction false} NumberOfDecimal(n: nat)
    ensures Number(Decimal(n)) == n
  {
    if n >= 10 {
      NumberOfDecimal(n / 10);
      assert Decimal(n)[..|Decimal(n)| - 1] == Decimal(n / 10);
    } else {
      assert Number(Decimal(n)[..0]) == 0;
    }
  }

  // ----- Parsing -----

  /** The steps a key names, and the error that ends it if it does not parse. */
  datatype Parsed = Parsed(steps: Path, bad: Option<Error>) {

    /** What the last step stores: the value, or the parse error. */
    function Leaf(v: string): Result<string, Error> {
      if bad.Some? then Failure(bad.value) else Success(v)
    }

    function After(s: Step): Parsed {
      Parsed([s] + steps, bad)
    }
  }

  /** The key, read with the same order of tests as `assign`. */
  function Parse(k: string): Parsed
    decreases |k|
  {
    if k == "" then
      Parsed([], None)
    else
      match MatchSlice(k)
      case Some(m) =>
        (match Atoi(m.group)
         case Some(i) => Parse(m.tail).After(Index(i))
         case None => Parsed([], Some(BadIndex(m.group))))
      case None =>
        match MatchMap(k)
        case Some(m) => Parse(m.tail).After(Key(m.group))
        case None => Parsed([], Some(UnknownKey(k)))
  }

  /** A step that some key can name. */
  predicate Nameable(s: Step) {
    match s
    case Index(i) => i <= MAX_INT
    case Key(k) => IsWord(k)
  }

  /** Every parsed step is nameable. */
  lemma {:induction false} ParsedStepsNameable(k: string)
    ensures forall s :: s in Parse(k).steps ==> Nameable(s)
    decreases |k|
  {
    if k != "" {
      var m := if MatchSlice(k).Some? then MatchSlice(k) else MatchMap(k);
      if m.Some? { ParsedStepsNameable(m.value.tail); }
    }
  }

  // ----- Printing -----

  function PrintStep(s: Step): string {
    match s
    case Index(i) => "[" + Decimal(i) + "]"
    case Key(k) => "." + k
  }

  function PrintSteps(p: Path): string {
    if p == [] then "" else PrintStep(p[0]) + PrintSteps(p[1..])
  }

  /** The key for a path as the documentation writes it: no dot before the first name. */
  function PrintKey(p: Path): string {
    if p != [] && p[0].Key? then p[0].k + PrintSteps(p[1..]) else PrintSteps(p)
  }

  // ----- The grammar of keys -----

  /** The text of one step: `[digits]`, or a word with an optional dot before it. */
  predicate SpellsStep(text: string, s: Step) {
    match s
    case Index(i) =>
      && |text| >= 3 && text[0] == '[' && text[|text| - 1] == ']'
      && (forall j :: 1 <= j < |text| - 1 ==> IsDigit(text[j]))
      && Number(text[1..|text| - 1]) == i <= MAX_INT
    case Key(w) => IsWord(w) && (text == w || text == "." + w)
  }

  /** The first `n` characters of `k` spell `s`; a name does not stop inside a word. */
  predicate StepEnds(k: string, s: Step, n: nat) {
    n <= |k| && SpellsStep(k[..n], s) && (s.Key? && n < |k| ==> !IsWordChar(k[n]))
  }

  /** `k` is the text of the steps of `p`, one after the other. */
  ghost predicate Spells(k: string, p: Path)
    decreases |p|
  {
    if p == [] then k == ""
    else exists n :: 0 <= n <= |k| && StepEnds(k, p[0], n) && Spells(k[n..], p[1..])
  }

  lemma MatchIndex(k: string, i: nat, n: nat)
    requires StepEnds(k, Index(i), n) && '\n' !in k
    ensures MatchSlice(k) == Some(Match(k[1..n - 1], k[n..]))
    ensures Atoi(k[1..n - 1]) == Some(i)
  {
    assert k[..n][1..n - 1] == k[1..n - 1];
    assert forall j :: 0 <= j < n - 2 ==> k[1..][j] == k[..n][1 + j];
    assert k[..n][n - 1] == k[1..][n - 2] == ']';
    RunIs(k[1..], IsDigit, n - 2);
  }

  lemma MatchWord(t: string, w: string)
    requires w <= t && IsWord(w) && '\n' !in t
    requires |w| < |t| ==> !IsWordChar(t[|w|])
    ensures t[0] != '.' && t[0] != '['
    ensures MatchMap(t) == Some(Match(w, t[|w|..])) == MatchMap("." + t)
  {
    assert forall j :: 0 <= j < |w| ==> t[j] == w[j];
    RunIs(t, IsWordChar, |w|);
    assert t[..|w|] == w && ("." + t)[1..] == t;
  }

  lemma MatchKey(k: string, w: string, n: nat)
    requires StepEnds(k, Key(w), n) && '\n' !in k
    ensures MatchSlice(k).None?
    ensures MatchMap(k) == Some(Match(w, k[n..]))
  {
    if k[..n] == w {
      MatchWord(k, w);
    } else {
      assert k[0] == k[..n][0] == '.';
      assert forall j :: 0 <= j < |w| ==> k[1..][j] == k[..n][1 + j];
      MatchWord(k[1..], w);
      assert k == "." + k[1..] && k[1..][|w|..] == k[n..];
    }
  }

  lemma MatchStep(k: string, s: Step, n: nat)
    requires StepEnds(k, s, n) && '\n' !in k
    ensures Parse(k) == Parse(k[n..]).After(s)
  {
    match s
    case Index(i) => MatchIndex(k, i, n);
    case Key(w) => MatchKey(k, w, n);
  }

  lemma FirstIndex(k: string, n: nat)
    requires '\n' !in k && MatchSlice(k).Some? && n == 2 + |MatchSlice(k).value.group|
    requires Atoi(MatchSlice(k).value.group).Some?
    ensures StepEnds(k, Index(Atoi(MatchSlice(k).value.group).value), n) && MatchSlice(k).value.tail == k[n..]
  {
    var d := MatchSlice(k).value.group;
    assert k[n - 1] == ']' && k[..n][1..n - 1] == d;
    assert forall j :: 1 <= j < n - 1 ==> k[..n][j] == d[j - 1];
  }

  lemma FirstKey(k: string, n: nat)
    requires '\n' !in k && MatchMap(k).Some? && n == |k| - |MatchMap(k).value.tail|
    ensures StepEnds(k, Key(MatchMap(k).value.group), n) && MatchMap(k).value.tail == k[n..]
  {
    var w := MatchMap(k).value.group;
    if k[0] == '.' {
      assert n == 1 + |w| && k[1..][|w|..] == k[n..];
      assert k[..n] == "." + w;
    } else {
      assert n == |w| && k[..n] == w;
    }
  }

  /** How much of a key its first step takes. */
  lemma FirstStep(k: string) returns (n: nat)
    requires '\n' !in k && Parse(k).steps != []
    ensures StepEnds(k, Parse(k).steps[0], n)
    ensures Parse(k) == Parse(k[n..]).After(Parse(k).steps[0])
  {
    if MatchSlice(k).Some? {
      n := 2 + |MatchSlice(k).value.group|;
      FirstIndex(k, n);
    } else {
      n := |k| - |MatchMap(k).value.tail|;
      FirstKey(k, n);
    }
  }

  lemma {:induction false} SpelledParses(k: string, p: Path)
    requires '\n' !in k && Spells(k, p)
    ensures Parse(k) == Parsed(p, None)
    decreases |p|
  {
    if p != [] {
      var n :| 0 <= n <= |k| && StepEnds(k, p[0], n) && Spells(k[n..], p[1..]);
      SpelledParses(k[n..], p[1..]);
      MatchStep(k, p[0], n);
      assert [p[0]] + p[1..] == p;
    }
  }

  lemma {:induction false} ParsedSpells(k: string)
    requires '\n' !in k && Parse(k).bad.None?
    ensures Spells(k, Parse(k).steps)
    decreases |k|
  {
    if k != "" {
      var n := FirstStep(k);
      ParsedSpells(k[n..]);
      assert Parse(k).steps[1..] == Parse(k[n..]).steps;
    }
  }

  /** A key without newlines parses to `p` exactly when it spells `p`. */
  lemma ParseExactly(k: string, p: Path)
    requires '\n' !in k
    ensures Parse(k) == Parsed(p, None) <==> Spells(k, p)
  {
    if Spells(k, p) {
      SpelledParses(k, p);
    } else if Parse(k).bad.None? {
      ParsedSpells(k);
    }
  }

  lemma {:induction false} PrintedStepsSpell(p: Path)
    requires forall s :: s in p ==> Nameable(s)
    ensures Spells(PrintSteps(p), p)
    ensures '\n' !in PrintSteps(p) && '=' !in PrintSteps(p)
    ensures p != [] ==> PrintSteps(p)[0] in "[."
  {
    if p != [] {
      assert Nameable(p[0]) by { assert p[0] in p; }
      PrintedStepsSpell(p[1..]);
      var step, rest := PrintStep(p[0]), PrintSteps(p[1..]);
      assert (step + rest)[..|step|] == step && (step + rest)[|step|..] == rest;
      assert SpellsStep(step, p[0]) by {
        if p[0].Index? { NumberOfDecimal(p[0].i); assert step[1..|step| - 1] == Decimal(p[0].i); }
      }
      assert StepEnds(PrintSteps(p), p[0], |step|);
      assert '\n' !in step && '=' !in step;
    }
  }

  /** Parsing a printed path gives the path back. */
  lemma ParsePrintedKey(p: Path)
    requires forall s :: s in p ==> Nameable(s)
    ensures Parse(PrintKey(p)) == Parsed(p, None)
    ensures '=' !in PrintKey(p)
  {
    PrintedStepsSpell(p);
    if p != [] && p[0].Key? {
      var w, rest := p[0].k, PrintSteps(p[1..]);
      assert Nameable(p[0]) by { assert p[0] in p; }
      PrintedStepsSpell(p[1..]);
      assert (w + rest)[..|w|] == w && (w + rest)[|w|..] == rest;
      assert StepEnds(w + rest, p[0], |w|);
    }
    SpelledParses(PrintKey(p), p);
  }
}
