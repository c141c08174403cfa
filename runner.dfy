/** One planner run and the record made of it (benchmark_pddl.py:
    run_benchmark). The subprocess and the clock are not modelled: what the
    planner did, and how long it took, is an `Observation` given as input. */
module Runner {
  import opened Wrappers
  import opened Text
  import opened Fs

  // ---------------------------------------------------------------------
  // The planner as seen from the driver

  /** A command-line argument: a word, or a path rendered as a string. */
  datatype Arg = Word(text: string) | PathArg(path: Path)

  /** Wall-clock seconds between the start of a run and its end. */
  type Seconds = r: real | r >= 0.0

  /** How `subprocess.run` came back: with the captured standard output,
      with `TimeoutExpired`, or with any other exception and its message. */
  datatype Outcome = Completed(stdout: string) | TimedOut | Failed(message: string)

  datatype Observation = Observation(outcome: Outcome, elapsed: Seconds)

  /** What the driver asks of the planner: the command line, the timeout in
      seconds, and how many runs came before (so that two runs of the same
      command may be observed differently). */
  datatype Invocation = Invocation(argv: seq<Arg>, timeout: int, serial: nat)

  /** `python -m pyperplan [--search S] [--heuristic H] DOMAIN PROBLEM`,
      each option present only when its value is non-empty. */
  function Command(domainFile: Path, problemFile: Path, search: string, heuristic: string): (argv: seq<Arg>)
    ensures |argv| == 5 + (if search != "" then 2 else 0) + (if heuristic != "" then 2 else 0)
    ensures argv[..3] == [Word("python"), Word("-m"), Word("pyperplan")]
    ensures search != "" ==> argv[3] == Word("--search") && argv[4] == Word(search)
    ensures heuristic != "" ==> argv[|argv| - 4] == Word("--heuristic") && argv[|argv| - 3] == Word(heuristic)
    ensures argv[|argv| - 2] == PathArg(domainFile) && argv[|argv| - 1] == PathArg(problemFile)
  {
    [Word("python"), Word("-m"), Word("pyperplan")]
    + (if search != "" then [Word("--search"), Word(search)] else [])
    + (if heuristic != "" then [Word("--heuristic"), Word(heuristic)] else [])
    + [PathArg(domainFile), PathArg(problemFile)]
  }

  // ---------------------------------------------------------------------
  // The record

  /** A counter in a record: a number read from the planner's output, or
      the sentinel text written in its place when the run did not complete. */
  datatype Metric = Value(n: nat) | Timeout | Error(message: string)

  /** The eight fields every record has, in the order the source writes
      them: `domain`, `problem`, `search`, `heuristic`, `success`,
      `runtime`, `expanded_nodes`, `plan_length`. */
  datatype Record = Record(
    domain: string,
    problem: string,
    search: string,
    heuristic: string,
    success: bool,
    runtime: Seconds,
    expandedNodes: Metric,
    planLength: Metric)

  /** `os.path.basename(p).replace(".pddl", "")` */
  function Stem(p: Path): string {
    RemoveAll(Basename(p), ".pddl")
  }

  /** The stem of a dot-free `NAME.pddl` is `NAME`; a name without the
      marker is its own stem; no stem is longer than its basename. */
  lemma StemDropsExtension(p: Path)
    ensures |Stem(p)| <= |Basename(p)|
    ensures var b := Basename(p);
      EndsWith(b, ".pddl") && '.' !in b[..|b| - 5] ==> Stem(p) == b[..|b| - 5]
    ensures !Contains(Basename(p), ".pddl") ==> Stem(p) == Basename(p)
  {
    var b := Basename(p);
    if EndsWith(b, ".pddl") && '.' !in b[..|b| - 5] {
      assert b == b[..|b| - 5] + ".pddl";
      RemoveTrailingMarker(b[..|b| - 5], ".pddl");
      assert OccursAt(b, ".pddl", |b| - 5);
    } else if !Contains(b, ".pddl") {
      RemoveAllAbsent(b, ".pddl");
    }
  }

  /** Python's `value or fallback` on strings: the empty string is falsy. */
  function Or(value: string, fallback: string): (shown: string)
    ensures value != "" ==> shown == value
    ensures value == "" ==> shown == fallback
  {
    if value == "" then fallback else value
  }

  /** `search or "breadth_first_search"` */
  function SearchLabel(search: string): string {
    Or(search, "breadth_first_search")
  }

  /** `heuristic or "None"` */
  function HeuristicLabel(heuristic: string): string {
    Or(heuristic, "None")
  }

  // ---------------------------------------------------------------------
  // Reading the planner's output

  const GoalMarker: string := "Goal reached"
  const NodesMarker: string := " Nodes expanded"
  const LengthMarker: string := "Plan length: "

  /** `(\d+) Nodes expanded` matches at `i`. Greedy `\d+` backs off only
      onto digits, which cannot be followed by the space of the marker, so
      the group is the whole digit run starting at `i`. */
  predicate NodesMatchAt(s: string, i: nat) {
    i < |s| && IsDigit(s[i]) && OccursAt(s, NodesMarker, i + DigitRunLength(s, i))
  }

  /** `Plan length: (\d+)` matches at `i`; the group is the digit run after
      the marker. */
  predicate LengthMatchAt(s: string, i: nat) {
    OccursAt(s, LengthMarker, i) && i + |LengthMarker| < |s| && IsDigit(s[i + |LengthMarker|])
  }

  /** `re.search` for the nodes counter from `from`: the first index at
      which it matches, or `|s|`. */
  function FirstNodesMatch(s: string, from: nat): (i: nat)
    requires from <= |s|
    ensures from <= i <= |s|
    ensures i < |s| ==> NodesMatchAt(s, i)
    ensures forall k :: from <= k < i ==> !NodesMatchAt(s, k)
    decreases |s| - from
  {
    if from == |s| || NodesMatchAt(s, from) then from else FirstNodesMatch(s, from + 1)
  }

  /** `re.search` for the plan length from `from`. */
  function FirstLengthMatch(s: string, from: nat): (i: nat)
    requires from <= |s|
    ensures from <= i <= |s|
    ensures i < |s| ==> LengthMatchAt(s, i)
    ensures forall k :: from <= k < i ==> !LengthMatchAt(s, k)
    decreases |s| - from
  {
    if from == |s| || LengthMatchAt(s, from) then from else FirstLengthMatch(s, from + 1)
  }

  /** `int(group(1))` of the leftmost nodes match, or 0 without one. */
  function ExpandedNodes(stdout: string): (n: nat)
    ensures (forall i :: 0 <= i < |stdout| ==> !NodesMatchAt(stdout, i)) ==> n == 0
  {
    var i := FirstNodesMatch(stdout, 0);
    if i < |stdout| then DigitsAt(stdout, i) else 0
  }

  /** `int(group(1))` of the leftmost plan-length match, or 0 without one. */
  function PlanLength(stdout: string): (n: nat)
    ensures (forall i :: 0 <= i < |stdout| ==> !LengthMatchAt(stdout, i)) ==> n == 0
  {
    var i := FirstLengthMatch(stdout, 0);
    if i < |stdout| then DigitsAt(stdout, i + |LengthMarker|) else 0
  }

  /** `run_benchmark` once the planner has answered: the three outcomes
      give the three kinds of record. */
  function RunBenchmark(domainFile: Path, problemFile: Path, search: string, heuristic: string,
                        obs: Observation): (r: Record)
    ensures r.domain == Stem(domainFile) && r.problem == Stem(problemFile)
    ensures r.search == SearchLabel(search) && r.heuristic == HeuristicLabel(heuristic)
    ensures r.runtime == obs.elapsed
  {
    var domain := Stem(domainFile);
    var problem := Stem(problemFile);
    var s := SearchLabel(search);
    var h := HeuristicLabel(heuristic);
    match obs.outcome
    case Completed(out) =>
      Record(domain, problem, s, h, Contains(out, GoalMarker), obs.elapsed,
             Value(ExpandedNodes(out)), Value(PlanLength(out)))
    case TimedOut =>
      Record(domain, problem, s, h, false, obs.elapsed, Timeout, Timeout)
    case Failed(msg) =>
      Record(domain, problem, s, h, false, obs.elapsed, Error(msg), Error(msg))
  }

  // ---------------------------------------------------------------------
  // The record as the dictionary the driver builds and writes out

  /** A value of the record dictionary: text, a flag, seconds or a count. */
  datatype Field = Str(text: string) | Flag(flag: bool) | Time(seconds: Seconds) | Count(count: nat)

  /** The keys, in the order every branch of `run_benchmark` writes them. */
  const Header: seq<string> :=
    ["domain", "problem", "search", "heuristic", "success", "runtime", "expanded_nodes", "plan_length"]

  const TimeoutText: string := "timeout"
  const ErrorPrefix: string := "error: "

  /** A counter as the dictionary holds it: the number, `"timeout"`, or
      `"error: "` followed by the exception's message. */
  function MetricField(m: Metric): (f: Field)
    ensures m.Value? <==> f.Count?
    ensures f.Str? ==> f.text == TimeoutText || StartsWith(f.text, ErrorPrefix)
  {
    match m
    case Value(n) => Count(n)
    case Timeout => Str(TimeoutText)
    case Error(msg) => Str(ErrorPrefix + msg)
  }

  /** Reading a counter back from the dictionary. */
  function FieldMetric(f: Field): Option<Metric> {
    match f
    case Count(n) => Some(Value(n))
    case Str(t) =>
      if t == TimeoutText then Some(Timeout)
      else if StartsWith(t, ErrorPrefix) then Some(Error(t[|ErrorPrefix|..]))
      else None
    case _ => None
  }

  /** The two sentinels cannot be confused with each other or with a
      number: every counter is read back as written. */
  lemma MetricFieldRoundTrip(m: Metric)
    ensures FieldMetric(MetricField(m)) == Some(m)
  {
    if m.Error? {
      var t := ErrorPrefix + m.message;
      assert t[..|ErrorPrefix|] == ErrorPrefix && t[|ErrorPrefix|..] == m.message;
      assert t != TimeoutText by {
        assert t[4] == 'r' && TimeoutText[4] == 'o';
      }
    }
  }

  /** The dictionary of a record: its keys and values, in order. */
  function Entries(r: Record): (row: seq<(string, Field)>)
    ensures |row| == |Header| && forall k :: 0 <= k < |row| ==> row[k].0 == Header[k]
  {
    [("domain", Str(r.domain)), ("problem", Str(r.problem)), ("search", Str(r.search)),
     ("heuristic", Str(r.heuristic)), ("success", Flag(r.success)), ("runtime", Time(r.runtime)),
     ("expanded_nodes", MetricField(r.expandedNodes)), ("plan_length", MetricField(r.planLength))]
  }

  /** The keys of a dictionary, in order, as `results[0].keys()` gives
      them to the CSV writer. */
  function Keys(row: seq<(string, Field)>): (keys: seq<string>)
    ensures |keys| == |row| && forall k :: 0 <= k < |row| ==> keys[k] == row[k].0
  {
    seq(|row|, k requires 0 <= k < |row| => row[k].0)
  }

  /** The header taken from the first record fits every other record:
      every record has the same keys in the same order. */
  lemma HeaderFitsEveryRow(first: Record, r: Record)
    ensures Keys(Entries(first)) == Keys(Entries(r)) == Header
  {
  }

  /** Each value sits under its own key and reads back as the record's
      field. */
  lemma EntriesReadBack(r: Record)
    ensures var row := Entries(r);
            && row[0].1 == Str(r.domain) && row[1].1 == Str(r.problem)
            && row[2].1 == Str(r.search) && row[3].1 == Str(r.heuristic)
            && row[4].1 == Flag(r.success) && row[5].1 == Time(r.runtime)
            && FieldMetric(row[6].1) == Some(r.expandedNodes)
            && FieldMetric(row[7].1) == Some(r.planLength)
  {
    MetricFieldRoundTrip(r.expandedNodes);
    MetricFieldRoundTrip(r.planLength);
  }

  // ---------------------------------------------------------------------
  // Properties of a record

  /** What every record satisfies: both counters are numbers, or both hold
      the same sentinel; and success comes only with numbers. */
  predicate Consistent(r: Record) {
    && (r.expandedNodes.Value? <==> r.planLength.Value?)
    && (!r.expandedNodes.Value? ==> r.expandedNodes == r.planLength)
    && (r.success ==> r.expandedNodes.Value? && r.planLength.Value?)
  }

  /** Every record `run_benchmark` makes is consistent, and its counters are
      numbers exactly when the planner completed. */
  lemma RunBenchmarkConsistent(domainFile: Path, problemFile: Path, search: string, heuristic: string,
                               obs: Observation)
    ensures var r := RunBenchmark(domainFile, problemFile, search, heuristic, obs);
            Consistent(r) && (r.expandedNodes.Value? <==> obs.outcome.Completed?)
  {
  }

  /** Two runs whose planner answered alike give the same record, up to
      the time they took. */
  lemma SameOutcomeSameRecord(domainFile: Path, problemFile: Path, search: string, heuristic: string,
                              a: Observation, b: Observation)
    requires a.outcome == b.outcome
    ensures var ra := RunBenchmark(domainFile, problemFile, search, heuristic, a);
            var rb := RunBenchmark(domainFile, problemFile, search, heuristic, b);
            ra.(runtime := b.elapsed) == rb
  {
  }

  /** A completed run succeeds exactly when its output says the goal was
      reached, and carries the counters read from that output. */
  lemma CompletedRecord(domainFile: Path, problemFile: Path, search: string, heuristic: string,
                        out: string, elapsed: Seconds)
    ensures var r := RunBenchmark(domainFile, problemFile, search, heuristic, Observation(Completed(out), elapsed));
            && (r.success <==> Contains(out, GoalMarker))
            && r.expandedNodes == Value(ExpandedNodes(out))
            && r.planLength == Value(PlanLength(out))
  {
  }

  /** A run that timed out or raised never succeeds and writes the same
      sentinel into both counters. */
  lemma SentinelRecord(domainFile: Path, problemFile: Path, search: string, heuristic: string,
                       obs: Observation)
    requires !obs.outcome.Completed?
    ensures var r := RunBenchmark(domainFile, problemFile, search, heuristic, obs);
            && !r.success
            && r.expandedNodes == r.planLength
            && (obs.outcome.TimedOut? ==> r.expandedNodes == Timeout)
            && (obs.outcome.Failed? ==> r.expandedNodes == Error(obs.outcome.message))
  {
  }

  // ---------------------------------------------------------------------
  // Reading back what the planner wrote

  /** No nodes match starts inside a digit-free prefix. */
  lemma NoNodesMatchInPrefix(s: string, prefix: string, k: nat)
    requires forall c :: c in prefix ==> !IsDigit(c)
    requires StartsWith(s, prefix) && k < |prefix|
    ensures !NodesMatchAt(s, k)
  {
    assert s[k] == prefix[k];
  }

  /** `N Nodes expanded` after a digit-free prefix is read back as `N`. */
  lemma NodesRoundTrip(prefix: string, n: nat, rest: string)
    requires forall c :: c in prefix ==> !IsDigit(c)
    ensures ExpandedNodes(prefix + NatText(n) + NodesMarker + rest) == n
  {
    var t := NatText(n);
    var s := prefix + t + NodesMarker + rest;
    var i := |prefix|;
    assert NodesMatchAt(s, i) && DigitsAt(s, i) == n by {
      assert s[i..i + |t|] == t;
      assert s[i + |t|..i + |t| + |NodesMarker|] == NodesMarker;
      NodesFollowNumber(s, i, n);
    }
    assert StartsWith(s, prefix);
    forall k | 0 <= k < i
      ensures !NodesMatchAt(s, k)
    {
      NoNodesMatchInPrefix(s, prefix, k);
    }
    ExpandedNodesAt(s, i);
  }

  /** The number written at `i` and followed by the marker is a match. */
  lemma NodesFollowNumber(s: string, i: nat, n: nat)
    requires i + |NatText(n)| + |NodesMarker| <= |s|
    requires s[i..i + |NatText(n)|] == NatText(n)
    requires s[i + |NatText(n)|..i + |NatText(n)| + |NodesMarker|] == NodesMarker
    ensures NodesMatchAt(s, i) && DigitsAt(s, i) == n
  {
    var t := NatText(n);
    var j := i + |t|;
    assert s[j] == ' ' by {
      assert s[j] == s[j..j + |NodesMarker|][0];
    }
    ReadNumberAt(s, i, n);
    assert s[i] == t[0];
  }

  /** The leftmost nodes match decides the value read. */
  lemma ExpandedNodesAt(s: string, i: nat)
    requires NodesMatchAt(s, i)
    requires forall k :: 0 <= k < i ==> !NodesMatchAt(s, k)
    ensures ExpandedNodes(s) == DigitsAt(s, i)
  {
    assert FirstNodesMatch(s, 0) == i;
  }

  /** No plan-length match starts inside a prefix without a `P`. */
  lemma NoLengthMatchInPrefix(s: string, prefix: string, k: nat)
    requires 'P' !in prefix
    requires StartsWith(s, prefix) && k < |prefix|
    ensures !LengthMatchAt(s, k)
  {
    assert s[k] == prefix[k] && s[k] != 'P';
    assert k + |LengthMarker| <= |s| ==> s[k..k + |LengthMarker|][0] == s[k];
  }

  /** The leftmost plan-length match decides the value read. */
  lemma PlanLengthAt(s: string, i: nat)
    requires LengthMatchAt(s, i)
    requires forall k :: 0 <= k < i ==> !LengthMatchAt(s, k)
    ensures PlanLength(s) == DigitsAt(s, i + |LengthMarker|)
  {
    assert FirstLengthMatch(s, 0) == i;
  }

  /** `Plan length: N` after a prefix without a `P`, and followed by
      something other than a digit, is read back as `N`. */
  lemma LengthRoundTrip(prefix: string, n: nat, rest: string)
    requires 'P' !in prefix
    requires rest == [] || !IsDigit(rest[0])
    ensures PlanLength(prefix + LengthMarker + NatText(n) + rest) == n
  {
    var t := NatText(n);
    var s := prefix + LengthMarker + t + rest;
    var i := |prefix|;
    var j := i + |LengthMarker|;
    assert LengthMatchAt(s, i) && DigitsAt(s, j) == n by {
      assert s[i..j] == LengthMarker;
      assert s[j..j + |t|] == t;
      assert j + |t| < |s| ==> s[j + |t|] == rest[0];
      ReadNumberAt(s, j, n);
      assert s[j] == t[0];
    }
    assert StartsWith(s, prefix);
    forall k | 0 <= k < i
      ensures !LengthMatchAt(s, k)
    {
      NoLengthMatchInPrefix(s, prefix, k);
    }
    PlanLengthAt(s, i);
  }

  /** Output that never mentions the counters gives zeros, not sentinels. */
  lemma SilentOutputGivesZeros(out: string)
    requires !Contains(out, NodesMarker) && !Contains(out, LengthMarker)
    ensures ExpandedNodes(out) == 0 && PlanLength(out) == 0
  {
    forall i | 0 <= i < |out|
      ensures !NodesMatchAt(out, i) && !LengthMatchAt(out, i)
    {
      var j := i + DigitRunLength(out, i);
      assert !OccursAt(out, NodesMarker, j);
      assert !OccursAt(out, LengthMarker, i);
    }
  }

  /** A log of a solved run: the goal line, the node count, the plan
      length. */
  const SolvedLog: string := SolvedHead + "42" + NodesMarker + "\n" + LengthMarker + "7\n"
  const SolvedHead: string := "Goal reached! Start search\n"

  lemma SolvedLogCounters()
    ensures ExpandedNodes(SolvedLog) == 42
    ensures PlanLength(SolvedLog) == 7
  {
    SolvedLogNodes(SolvedLog);
    SolvedLogLength(SolvedLog);
  }

  // The log is passed as a parameter so that the verifier does not try to
  // evaluate the scanners on the literal text character by character.

  lemma SolvedLogNodes(log: string)
    requires log == SolvedLog
    ensures ExpandedNodes(log) == 42
  {
    var head, tail := SolvedLogSplit(log);
    NodesRoundTrip(head, 42, tail);
  }

  /** Where the node count sits in the solved log. */
  lemma SolvedLogSplit(log: string) returns (head: string, tail: string)
    requires log == SolvedLog
    ensures forall c :: c in head ==> !IsDigit(c)
    ensures log == head + NatText(42) + NodesMarker + tail
  {
    head := SolvedHead;
    tail := "\n" + LengthMarker + "7\n";
    DigitFree(head);
    assert NatText(42) == "42";
  }

  lemma DigitFree(head: string)
    requires head == SolvedHead
    ensures forall c :: c in head ==> !IsDigit(c)
  {
    assert forall k :: 0 <= k < |head| ==> !IsDigit(head[k]);
  }

  lemma SolvedLogLength(log: string)
    requires log == SolvedLog
    ensures PlanLength(log) == 7
  {
    var head := SolvedHead + "42" + NodesMarker + "\n";
    assert 'P' !in head;
    assert log == head + LengthMarker + NatText(7) + "\n" by {
      assert NatText(7) == "7";
    }
    LengthRoundTrip(head, 7, "\n");
  }

  /** A solved run of A* with h_FF whose log reports 42 expanded nodes and
      a plan of 7 steps. */
  lemma SolvedRunRecord(domainFile: Path, problemFile: Path, elapsed: Seconds)
    ensures RunBenchmark(domainFile, problemFile, "astar", "hff", Observation(Completed(SolvedLog), elapsed))
              == Record(Stem(domainFile), Stem(problemFile), "astar", "hff", true, elapsed, Value(42), Value(7))
  {
    SolvedLogCounters();
    assert OccursAt(SolvedLog, GoalMarker, 0) by {
      assert SolvedLog[..|GoalMarker|] == GoalMarker;
    }
  }
}
