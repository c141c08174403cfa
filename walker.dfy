/** The benchmark walk of `main` (benchmark_pddl.py): which directories are
    domain directories, which problems of each are run and in which order,
    which search and heuristic pairs are run on each, and the list of
    records this appends to. */
module Walker {
  import opened Wrappers
  import opened Text
  import opened Fs
  import Search
  import Classifier
  import Resolver
  import Runner
  import Ordering

  // ---------------------------------------------------------------------
  // Options

  const DefaultSearches: seq<string> := ["astar", "gbf"]
  const DefaultHeuristics: seq<string> := ["hmax", "hadd", "hff", "blind"]
  const DefaultTimeout: int := 5
  const DefaultMaxProblems: int := 10

  /** The command-line options the walk depends on; `domains` is empty
      when `--domains` is not given. */
  datatype Config = Config(
    benchmarkDir: Path,
    searches: seq<string>,
    heuristics: seq<string>,
    domains: seq<string>,
    timeout: int,
    maxProblems: int,
    testInvalid: bool)

  /** The options when only the benchmark directory is given. */
  function DefaultConfig(benchmarkDir: Path): (cfg: Config)
    ensures cfg.searches == ["astar", "gbf"] && cfg.heuristics == ["hmax", "hadd", "hff", "blind"]
    ensures cfg.domains == [] && cfg.timeout == 5 && cfg.maxProblems == 10 && !cfg.testInvalid
  {
    Config(benchmarkDir, DefaultSearches, DefaultHeuristics, [], DefaultTimeout, DefaultMaxProblems, false)
  }

  // ---------------------------------------------------------------------
  // Domain directories

  /** `os.path.isfile(join(dir, f)) and f.endswith('.pddl')` */
  predicate IsPddlFile(fs: FileSystem, dir: Path, f: string) {
    IsFile(fs, Join(dir, f)) && EndsWith(f, ".pddl")
  }

  /** The directory itself holds a `.pddl` file. */
  predicate HoldsPddl(fs: FileSystem, dir: Path) {
    exists i :: 0 <= i < |Listing(fs, dir)| && IsPddlFile(fs, dir, Listing(fs, dir)[i])
  }

  /** A directory name is asked for when it contains one of the requested
      names, ignoring case. */
  predicate Wanted(domains: seq<string>, name: string) {
    exists k :: 0 <= k < |domains| && Contains(Lower(name), Lower(domains[k]))
  }

  /** The filter ignores case: a name is wanted exactly when its
      lower-case spelling is, and a requested name selects the same
      directories whatever its case. */
  lemma WantedIgnoresCase(domains: seq<string>, name: string, k: nat, other: string)
    requires k < |domains| && Lower(other) == Lower(domains[k])
    ensures Wanted(domains, name) <==> Wanted(domains, Lower(name))
    ensures Wanted(domains, name) <==> Wanted(domains[k := other], name)
  {
    LowerIdempotent(name);
    var swapped := domains[k := other];
    assert forall j :: 0 <= j < |domains| ==> Lower(swapped[j]) == Lower(domains[j]);
  }

  /** `os.path.join(root, d) for d in os.listdir(root)`, in listing order. */
  function ListedPaths(fs: FileSystem, root: Path): (ps: seq<Path>)
    ensures |ps| == |Listing(fs, root)|
    ensures forall i :: 0 <= i < |ps| ==> ps[i] == Join(root, Listing(fs, root)[i])
  {
    var names := Listing(fs, root);
    seq(|names|, i requires 0 <= i < |names| => Join(root, names[i]))
  }

  /** The visible subdirectories of `root`, in listing order. */
  function Subdirectories(fs: FileSystem, root: Path): (ds: seq<Path>)
    ensures forall i :: 0 <= i < |ds| ==>
      Dirname(ds[i]) == root && IsDir(fs, ds[i]) && !IsHidden(Basename(ds[i])) && Basename(ds[i]) in Listing(fs, root)
    ensures Search.IsSubsequence(ds, ListedPaths(fs, root))
  {
    var paths := ListedPaths(fs, root);
    var keep := (d: Path) => IsDir(fs, d) && !IsHidden(Basename(d));
    Search.FilterSound(paths, keep);
    Search.FilterSubsequence(paths, keep);
    Search.Filter(paths, keep)
  }

  /** The domain directories: None when the benchmark directory is not a
      directory; the directory alone when it holds a `.pddl` file; else
      its visible subdirectories, narrowed by `--domains` when given. */
  function SelectDomainDirs(fs: FileSystem, cfg: Config): (r: Option<seq<Path>>)
    ensures r.None? <==> !IsDir(fs, cfg.benchmarkDir)
    ensures r.Some? && HoldsPddl(fs, cfg.benchmarkDir) ==> r.value == [cfg.benchmarkDir]
    ensures r.Some? && !HoldsPddl(fs, cfg.benchmarkDir) ==> forall i :: 0 <= i < |r.value| ==>
      && Dirname(r.value[i]) == cfg.benchmarkDir && IsDir(fs, r.value[i])
      && !IsHidden(Basename(r.value[i]))
      && (cfg.domains != [] ==> Wanted(cfg.domains, Basename(r.value[i])))
    ensures r.Some? && !HoldsPddl(fs, cfg.benchmarkDir) ==>
      Search.IsSubsequence(r.value, Subdirectories(fs, cfg.benchmarkDir))
  {
    var root := cfg.benchmarkDir;
    if !IsDir(fs, root) then None
    else if HoldsPddl(fs, root) then Some([root])
    else
      var ds := Subdirectories(fs, root);
      if cfg.domains == [] then
        Search.SubsequenceOfSelf(ds);
        Some(ds)
      else
        var keep := (d: Path) => Wanted(cfg.domains, Basename(d));
        Search.FilterSound(ds, keep);
        Search.FilterSubsequence(ds, keep);
        Some(Search.Filter(ds, keep))
  }

  /** Conversely, every visible subdirectory that `--domains` asks for (or
      every one, without it) is walked. */
  lemma SelectDomainDirsComplete(fs: FileSystem, cfg: Config, name: string)
    requires IsDir(fs, cfg.benchmarkDir) && !HoldsPddl(fs, cfg.benchmarkDir)
    requires name in Listing(fs, cfg.benchmarkDir) && IsDir(fs, Join(cfg.benchmarkDir, name)) && !IsHidden(name)
    requires cfg.domains == [] || Wanted(cfg.domains, name)
    ensures Join(cfg.benchmarkDir, name) in SelectDomainDirs(fs, cfg).value
  {
    var root := cfg.benchmarkDir;
    var names := Listing(fs, root);
    var paths := ListedPaths(fs, root);
    var k :| 0 <= k < |names| && names[k] == name;
    assert paths[k] == Join(root, name);
    var visible := (d: Path) => IsDir(fs, d) && !IsHidden(Basename(d));
    Search.FilterComplete(paths, visible);
    var ds := Subdirectories(fs, root);
    assert Join(root, name) in ds;
    if cfg.domains != [] {
      var m :| 0 <= m < |ds| && ds[m] == Join(root, name);
      var wanted := (d: Path) => Wanted(cfg.domains, Basename(d));
      Search.FilterComplete(ds, wanted);
      assert wanted(ds[m]);
    }
  }

  // ---------------------------------------------------------------------
  // Search and heuristic pairs

  /** Without `--test-invalid`, blind search is run only with A*. */
  predicate Allowed(search: string, heuristic: string, testInvalid: bool) {
    testInvalid || !(heuristic == "blind" && search != "astar")
  }

  /** The allowed pairs with search `s`, heuristics in the given order. */
  function RowPairs(s: string, hs: seq<string>, testInvalid: bool): (r: seq<(string, string)>)
    ensures forall i :: 0 <= i < |r| ==> r[i].0 == s && r[i].1 in hs && Allowed(s, r[i].1, testInvalid)
  {
    if hs == [] then []
    else (if Allowed(s, hs[0], testInvalid) then [(s, hs[0])] else []) + RowPairs(s, hs[1..], testInvalid)
  }

  /** The allowed pairs, searches outer and heuristics inner. */
  function Pairs(ss: seq<string>, hs: seq<string>, testInvalid: bool): (r: seq<(string, string)>)
    ensures forall i :: 0 <= i < |r| ==> r[i].0 in ss && r[i].1 in hs && Allowed(r[i].0, r[i].1, testInvalid)
  {
    if ss == [] then [] else RowPairs(ss[0], hs, testInvalid) + Pairs(ss[1..], hs, testInvalid)
  }

  lemma {:induction false} RowPairsMembership(s: string, hs: seq<string>, testInvalid: bool, h: string)
    ensures (s, h) in RowPairs(s, hs, testInvalid) <==> h in hs && Allowed(s, h, testInvalid)
    ensures forall q :: q in RowPairs(s, hs, testInvalid) ==> q.0 == s
  {
    if hs != [] {
      RowPairsMembership(s, hs[1..], testInvalid, h);
      assert hs == [hs[0]] + hs[1..];
    }
  }

  /** A pair is run exactly when its search and its heuristic were asked
      for and the pair is allowed. */
  lemma {:induction false} PairsMembership(ss: seq<string>, hs: seq<string>, testInvalid: bool, s: string, h: string)
    ensures (s, h) in Pairs(ss, hs, testInvalid) <==> s in ss && h in hs && Allowed(s, h, testInvalid)
  {
    if ss != [] {
      PairsMembership(ss[1..], hs, testInvalid, s, h);
      RowPairsMembership(ss[0], hs, testInvalid, h);
      assert ss == [ss[0]] + ss[1..];
      if s != ss[0] {
        assert (s, h) !in RowPairs(ss[0], hs, testInvalid);
      }
    }
  }

  /** How many elements of `xs` are `x`, and how many are not. */
  function Occurrences(xs: seq<string>, x: string): (n: nat)
    ensures n <= |xs|
  {
    if xs == [] then 0 else (if xs[0] == x then 1 else 0) + Occurrences(xs[1..], x)
  }

  lemma {:induction false} RowPairsCount(s: string, hs: seq<string>, testInvalid: bool)
    ensures |RowPairs(s, hs, testInvalid)|
            == if testInvalid || s == "astar" then |hs| else |hs| - Occurrences(hs, "blind")
  {
    if hs != [] {
      RowPairsCount(s, hs[1..], testInvalid);
    }
  }

  /** Every search is run with every heuristic, except that without
      `--test-invalid` each search other than A* skips each `blind`. */
  lemma {:induction false} PairsCount(ss: seq<string>, hs: seq<string>, testInvalid: bool)
    ensures |Pairs(ss, hs, testInvalid)|
            == |ss| * |hs| - (if testInvalid then 0 else (|ss| - Occurrences(ss, "astar")) * Occurrences(hs, "blind"))
  {
    if ss != [] {
      PairsCount(ss[1..], hs, testInvalid);
      RowPairsCount(ss[0], hs, testInvalid);
      assert Pairs(ss, hs, testInvalid) == RowPairs(ss[0], hs, testInvalid) + Pairs(ss[1..], hs, testInvalid);
      CountStep(|ss|, |hs|, Occurrences(ss[1..], "astar"), Occurrences(hs, "blind"));
    }
  }

  lemma CountStep(n: int, m: int, a: int, b: int)
    ensures (n - 1) * m + m == n * m
    ensures (n - 1 - a) * b + b == (n - a) * b
  {
    assert (n - 1) * m == n * m - m;
    assert (n - 1 - a) * b == (n - a) * b - b;
  }

  /** With the default options, 7 runs per problem: A* with all four
      heuristics, greedy best-first search with all but `blind`. */
  lemma DefaultPairs()
    ensures Pairs(DefaultSearches, DefaultHeuristics, false)
            == [("astar", "hmax"), ("astar", "hadd"), ("astar", "hff"), ("astar", "blind"),
                ("gbf", "hmax"), ("gbf", "hadd"), ("gbf", "hff")]
  {
    var hs := DefaultHeuristics;
    assert hs[1..] == ["hadd", "hff", "blind"] && hs[1..][1..] == ["hff", "blind"];
    assert hs[1..][1..][1..] == ["blind"] && hs[1..][1..][1..][1..] == [];
    assert DefaultSearches[1..] == ["gbf"] && DefaultSearches[1..][1..] == [];
  }

  // ---------------------------------------------------------------------
  // Records

  /** One run: the planner answers the invocation, whose serial number is
      the number of records already collected. */
  function RunOne(cfg: Config, planner: Runner.Invocation -> Runner.Observation,
                  domainFile: Path, problem: Path, pair: (string, string), serial: nat): Runner.Record
  {
    var argv := Runner.Command(domainFile, problem, pair.0, pair.1);
    Runner.RunBenchmark(domainFile, problem, pair.0, pair.1, planner(Runner.Invocation(argv, cfg.timeout, serial)))
  }

  /** A function producing the record of one run, from the domain file, the
      problem, the pair and the serial number of the run. */
  type RunFn = (Path, Path, (string, string), nat) -> Runner.Record

  /** What the walk asks of the files and the planner: the problem files of
      a directory, the domain file of a problem, the domain name a problem
      declares, and the record of a run. The walk is stated over these so
      that what it guarantees depends only on the properties of each. */
  datatype Env = Env(
    problemFiles: Path -> seq<Path>,
    domainFile: Path -> Option<Path>,
    declaredName: Path -> Option<string>,
    run: RunFn)

  function Runs(cfg: Config, planner: Runner.Invocation -> Runner.Observation): RunFn {
    (domainFile: Path, problem: Path, pair: (string, string), serial: nat) =>
      RunOne(cfg, planner, domainFile, problem, pair, serial)
  }

  /** The environment of `main`: the problem scan, the domain-file
      resolver, the declared-name reader and `run_benchmark`. */
  function EnvOf(fs: FileSystem, cfg: Config, planner: Runner.Invocation -> Runner.Observation): Env {
    Env((dir: Path) => Classifier.ProblemFiles(fs, dir),
        (p: Path) => Resolver.FindDomainFile(fs, p),
        (p: Path) => Resolver.DeclaredDomainName(fs, p),
        Runs(cfg, planner))
  }

  /** Every record names the run's problem, domain file, search and
      heuristic. */
  ghost predicate Labelled(run: RunFn) {
    forall d: Path, p: Path, pair: (string, string), n: nat {:trigger run(d, p, pair, n)} ::
      && run(d, p, pair, n).problem == Runner.Stem(p)
      && run(d, p, pair, n).domain == Runner.Stem(d)
      && run(d, p, pair, n).search == Runner.SearchLabel(pair.0)
      && run(d, p, pair, n).heuristic == Runner.HeuristicLabel(pair.1)
  }

  /** Every record is consistent. */
  ghost predicate RunsConsistent(run: RunFn) {
    forall d: Path, p: Path, pair: (string, string), n: nat {:trigger run(d, p, pair, n)} ::
      Runner.Consistent(run(d, p, pair, n))
  }

  /** `run_benchmark` labels its records and keeps them consistent,
      whatever the planner answers. */
  lemma RunsWellBehaved(cfg: Config, planner: Runner.Invocation -> Runner.Observation)
    ensures Labelled(Runs(cfg, planner)) && RunsConsistent(Runs(cfg, planner))
  {
    var run := Runs(cfg, planner);
    forall d: Path, p: Path, pair: (string, string), n: nat
      ensures && run(d, p, pair, n).problem == Runner.Stem(p)
              && run(d, p, pair, n).domain == Runner.Stem(d)
              && run(d, p, pair, n).search == Runner.SearchLabel(pair.0)
              && run(d, p, pair, n).heuristic == Runner.HeuristicLabel(pair.1)
              && Runner.Consistent(run(d, p, pair, n))
    {
      var argv := Runner.Command(d, p, pair.0, pair.1);
      Runner.RunBenchmarkConsistent(d, p, pair.0, pair.1, planner(Runner.Invocation(argv, cfg.timeout, n)));
    }
  }

  /** The runs of one problem, appended to `acc` in pair order. */
  function RunPairs(run: RunFn, domainFile: Path, problem: Path, pairs: seq<(string, string)>, acc: seq<Runner.Record>)
    : (rs: seq<Runner.Record>)
    ensures |rs| == |acc| + |pairs| && rs[..|acc|] == acc
    decreases |pairs|
  {
    if pairs == [] then acc
    else
      var r := run(domainFile, problem, pairs[0], |acc|);
      var rest := RunPairs(run, domainFile, problem, pairs[1..], acc + [r]);
      PrefixOfPrefix(rest, acc + [r], acc);
      rest
  }

  /** Why the walk stopped with an exception: mixed sort keys (`TypeError`)
      or an unresolved problem that declares `blocksworld`, where the
      fallback refers to an undefined variable (`NameError`). */
  datatype Crash = UnorderableKeys(dir: Path) | UndefinedProblemDir(problem: Path)

  datatype WalkOutcome = NotADirectory | Crashed(crash: Crash) | Finished(results: seq<Runner.Record>)

  /** The problems of a domain directory that are tried: sorted by key,
      then cut to `--max-problems`. */
  function Kept(files: seq<Path>, maxProblems: int): (kept: seq<Path>)
    ensures Ordering.Sorted(kept, Ordering.KeyOf)
    ensures multiset(kept) <= multiset(files)
    ensures 0 <= maxProblems ==> |kept| == if maxProblems < |files| then maxProblems else |files|
  {
    var sorted := Ordering.Sort(files, Ordering.KeyOf);
    Ordering.SortSorts(files, Ordering.KeyOf);
    Ordering.SortPermutes(files, Ordering.KeyOf);
    var kept := Ordering.Truncate(sorted, maxProblems);
    assert sorted == kept + sorted[|kept|..];
    kept
  }

  /** The problems kept are the first ones of the sorted list: the cut
      drops problems only from the end. */
  lemma KeptIsPrefix(files: seq<Path>, maxProblems: int)
    ensures Kept(files, maxProblems) == Ordering.Sort(files, Ordering.KeyOf)[..|Kept(files, maxProblems)|]
  {
  }

  /** The problem loop: an unresolved problem is skipped (or crashes, when
      it declares `blocksworld`); a resolved one gets one record per pair. */
  function WalkProblems(env: Env, cfg: Config, problems: seq<Path>, acc: seq<Runner.Record>): (out: WalkOutcome)
    ensures !out.NotADirectory?
    decreases |problems|
  {
    if problems == [] then Finished(acc)
    else
      var p := problems[0];
      match env.domainFile(p)
      case None =>
        if env.declaredName(p) == Some("blocksworld") then Crashed(UndefinedProblemDir(p))
        else WalkProblems(env, cfg, problems[1..], acc)
      case Some(d) =>
        var pairs := Pairs(cfg.searches, cfg.heuristics, cfg.testInvalid);
        WalkProblems(env, cfg, problems[1..], RunPairs(env.run, d, p, pairs, acc))
  }

  /** The directory loop: a directory without problems is skipped; one
      whose problems have keys of both kinds crashes. */
  function WalkDirs(env: Env, cfg: Config, dirs: seq<Path>, acc: seq<Runner.Record>): (out: WalkOutcome)
    ensures !out.NotADirectory?
    decreases |dirs|
  {
    if dirs == [] then Finished(acc)
    else
      var files := env.problemFiles(dirs[0]);
      if files == [] then WalkDirs(env, cfg, dirs[1..], acc)
      else if Ordering.MixedKeys(files, Ordering.KeyOf) then Crashed(UnorderableKeys(dirs[0]))
      else
        match WalkProblems(env, cfg, Kept(files, cfg.maxProblems), acc)
        case Finished(rs) => WalkDirs(env, cfg, dirs[1..], rs)
        case other => other
  }

  /** `main` up to the CSV file: the records collected, or how it stopped. */
  function Benchmark(fs: FileSystem, cfg: Config, planner: Runner.Invocation -> Runner.Observation): (out: WalkOutcome)
    ensures out.NotADirectory? <==> !IsDir(fs, cfg.benchmarkDir)
  {
    match SelectDomainDirs(fs, cfg)
    case None => NotADirectory
    case Some(dirs) => WalkDirs(EnvOf(fs, cfg, planner), cfg, dirs, [])
  }

  // ---------------------------------------------------------------------
  // The loops of `main`

  /** The nested loops of `main`, appending each record to `results`. */
  method Walk(fs: FileSystem, cfg: Config, planner: Runner.Invocation -> Runner.Observation)
    returns (out: WalkOutcome)
    ensures out == Benchmark(fs, cfg, planner)
  {
    var selected := SelectDomainDirs(fs, cfg);
    if selected.None? {
      return NotADirectory;
    }
    ghost var env := EnvOf(fs, cfg, planner);
    var dirs := selected.value;
    assert Benchmark(fs, cfg, planner) == WalkDirs(env, cfg, dirs, []);
    var results: seq<Runner.Record> := [];
    var i := 0;
    while i < |dirs|
      invariant 0 <= i <= |dirs|
      invariant WalkDirs(env, cfg, dirs, []) == WalkDirs(env, cfg, dirs[i..], results)
    {
      assert dirs[i..][0] == dirs[i] && dirs[i..][1..] == dirs[i + 1..];
      var files := Classifier.FindProblemFiles(fs, dirs[i]);
      assert files == env.problemFiles(dirs[i]);
      if files == [] {
        i := i + 1;
        continue;
      }
      if Ordering.MixedKeys(files, Ordering.KeyOf) {
        return Crashed(UnorderableKeys(dirs[i]));
      }
      var sorted := Ordering.SortByKey(files, Ordering.KeyOf);
      var kept := Ordering.Truncate(sorted, cfg.maxProblems);
      assert kept == Kept(files, cfg.maxProblems);
      var walked := WalkKept(fs, cfg, planner, kept, results);
      if !walked.Finished? {
        return walked;
      }
      results := walked.results;
      i := i + 1;
    }
    assert dirs[i..] == [];
    return Finished(results);
  }

  /** The problem loop of `main` over the kept problems of one directory. */
  method WalkKept(fs: FileSystem, cfg: Config, planner: Runner.Invocation -> Runner.Observation,
                  kept: seq<Path>, acc: seq<Runner.Record>)
    returns (out: WalkOutcome)
    ensures out == WalkProblems(EnvOf(fs, cfg, planner), cfg, kept, acc)
  {
    ghost var env := EnvOf(fs, cfg, planner);
    var results := acc;
    var j := 0;
    while j < |kept|
      invariant 0 <= j <= |kept|
      invariant WalkProblems(env, cfg, kept, acc) == WalkProblems(env, cfg, kept[j..], results)
    {
      WalkProblemsStep(env, cfg, kept, j, results);
      var problem := kept[j];
      var domainFile := Resolver.FindDomainFile(fs, problem);
      assert domainFile == env.domainFile(problem);
      if domainFile.None? {
        var declared := Resolver.DeclaredDomainName(fs, problem);
        assert declared == env.declaredName(problem);
        if declared == Some("blocksworld") {
          return Crashed(UndefinedProblemDir(problem));
        }
        j := j + 1;
        continue;
      }
      results := RunAllPairs(cfg, planner, domainFile.value, problem, results);
      assert env.run == Runs(cfg, planner);
      j := j + 1;
    }
    assert kept[j..] == [];
    return Finished(results);
  }

  /** One step of the problem loop, at index `j`. */
  lemma WalkProblemsStep(env: Env, cfg: Config, problems: seq<Path>, j: nat, acc: seq<Runner.Record>)
    requires j < |problems|
    ensures var p := problems[j];
            WalkProblems(env, cfg, problems[j..], acc)
            == match env.domainFile(p)
               case None =>
                 if env.declaredName(p) == Some("blocksworld") then Crashed(UndefinedProblemDir(p))
                 else WalkProblems(env, cfg, problems[j + 1..], acc)
               case Some(d) =>
                 WalkProblems(env, cfg, problems[j + 1..],
                              RunPairs(env.run, d, p, Pairs(cfg.searches, cfg.heuristics, cfg.testInvalid), acc))
  {
    assert problems[j..][0] == problems[j] && problems[j..][1..] == problems[j + 1..];
  }

  /** The two inner loops of `main` for one problem. */
  method RunAllPairs(cfg: Config, planner: Runner.Invocation -> Runner.Observation,
                     domainFile: Path, problem: Path, acc: seq<Runner.Record>)
    returns (results: seq<Runner.Record>)
    ensures results == RunPairs(Runs(cfg, planner), domainFile, problem, Pairs(cfg.searches, cfg.heuristics, cfg.testInvalid), acc)
  {
    ghost var run := Runs(cfg, planner);
    var ss := cfg.searches;
    results := acc;
    var a := 0;
    while a < |ss|
      invariant 0 <= a <= |ss|
      invariant RunPairs(run, domainFile, problem, Pairs(ss, cfg.heuristics, cfg.testInvalid), acc)
                == RunPairs(run, domainFile, problem, Pairs(ss[a..], cfg.heuristics, cfg.testInvalid), results)
    {
      ghost var row := RowPairs(ss[a], cfg.heuristics, cfg.testInvalid);
      ghost var later := Pairs(ss[a + 1..], cfg.heuristics, cfg.testInvalid);
      assert Pairs(ss[a..], cfg.heuristics, cfg.testInvalid) == row + later by {
        assert ss[a..][0] == ss[a] && ss[a..][1..] == ss[a + 1..];
      }
      RunPairsConcat(run, domainFile, problem, row, later, results);
      results := RunRow(cfg, planner, domainFile, problem, ss[a], results);
      a := a + 1;
    }
    assert ss[a..] == [];
  }

  /** The heuristic loop of `main` for one problem and one search. */
  method RunRow(cfg: Config, planner: Runner.Invocation -> Runner.Observation,
                domainFile: Path, problem: Path, search: string, acc: seq<Runner.Record>)
    returns (results: seq<Runner.Record>)
    ensures results == RunPairs(Runs(cfg, planner), domainFile, problem, RowPairs(search, cfg.heuristics, cfg.testInvalid), acc)
  {
    ghost var run := Runs(cfg, planner);
    var hs := cfg.heuristics;
    results := acc;
    var b := 0;
    while b < |hs|
      invariant 0 <= b <= |hs|
      invariant RunPairs(run, domainFile, problem, RowPairs(search, hs, cfg.testInvalid), acc)
                == RunPairs(run, domainFile, problem, RowPairs(search, hs[b..], cfg.testInvalid), results)
    {
      var heuristic := hs[b];
      ghost var rest := RowPairs(search, hs[b + 1..], cfg.testInvalid);
      assert RowPairs(search, hs[b..], cfg.testInvalid)
             == (if Allowed(search, heuristic, cfg.testInvalid) then [(search, heuristic)] else []) + rest by {
        assert hs[b..][0] == heuristic && hs[b..][1..] == hs[b + 1..];
      }
      if !Allowed(search, heuristic, cfg.testInvalid) {
        assert [] + rest == rest;
        b := b + 1;
        continue;
      }
      var argv := Runner.Command(domainFile, problem, search, heuristic);
      var observation := planner(Runner.Invocation(argv, cfg.timeout, |results|));
      var stats := Runner.RunBenchmark(domainFile, problem, search, heuristic, observation);
      assert stats == run(domainFile, problem, (search, heuristic), |results|);
      assert RunPairs(run, domainFile, problem, [(search, heuristic)] + rest, results)
             == RunPairs(run, domainFile, problem, rest, results + [stats]) by {
        assert ([(search, heuristic)] + rest)[0] == (search, heuristic);
        assert ([(search, heuristic)] + rest)[1..] == rest;
      }
      results := results + [stats];
      b := b + 1;
    }
    assert hs[b..] == [];
  }

  lemma {:induction false} RunPairsConcat(run: RunFn, domainFile: Path, problem: Path,
                                          p: seq<(string, string)>, q: seq<(string, string)>, acc: seq<Runner.Record>)
    ensures RunPairs(run, domainFile, problem, p + q, acc)
            == RunPairs(run, domainFile, problem, q, RunPairs(run, domainFile, problem, p, acc))
    decreases |p|
  {
    if p == [] {
      assert p + q == q;
    } else {
      assert (p + q)[0] == p[0] && (p + q)[1..] == p[1..] + q;
      RunPairsConcat(run, domainFile, problem, p[1..], q, acc + [run(domainFile, problem, p[0], |acc|)]);
    }
  }

  // ---------------------------------------------------------------------
  // What the walk guarantees

  /** The record after the `k` earlier runs of a problem is the run of the
      problem with its domain file and the `k`-th pair, and its serial
      number is the number of records before it. */
  lemma {:induction false} RunPairsAt(run: RunFn, domainFile: Path, problem: Path, pairs: seq<(string, string)>,
                                      acc: seq<Runner.Record>, k: nat)
    requires k < |pairs|
    ensures var rs := RunPairs(run, domainFile, problem, pairs, acc);
            |acc| + k < |rs| && rs[|acc| + k] == run(domainFile, problem, pairs[k], |acc| + k)
    decreases |pairs|
  {
    var r := run(domainFile, problem, pairs[0], |acc|);
    var rs := RunPairs(run, domainFile, problem, pairs, acc);
    assert rs == RunPairs(run, domainFile, problem, pairs[1..], acc + [r]);
    if k == 0 {
      assert rs[|acc|] == rs[..|acc| + 1][|acc|];
    } else {
      RunPairsAt(run, domainFile, problem, pairs[1..], acc + [r], k - 1);
      assert pairs[1..][k - 1] == pairs[k];
    }
  }

  /** Each record of one problem names the problem, the domain file, and
      the pair's search and heuristic (or their defaults). */
  lemma RunPairsShape(run: RunFn, domainFile: Path, problem: Path, pairs: seq<(string, string)>,
                      acc: seq<Runner.Record>)
    requires Labelled(run)
    ensures var rs := RunPairs(run, domainFile, problem, pairs, acc);
            && |rs| == |acc| + |pairs|
            && rs[..|acc|] == acc
            && forall j :: |acc| <= j < |rs| ==>
                 && rs[j].problem == Runner.Stem(problem)
                 && rs[j].domain == Runner.Stem(domainFile)
                 && rs[j].search == Runner.SearchLabel(pairs[j - |acc|].0)
                 && rs[j].heuristic == Runner.HeuristicLabel(pairs[j - |acc|].1)
  {
    var rs := RunPairs(run, domainFile, problem, pairs, acc);
    forall j | |acc| <= j < |rs|
      ensures && rs[j].problem == Runner.Stem(problem)
              && rs[j].domain == Runner.Stem(domainFile)
              && rs[j].search == Runner.SearchLabel(pairs[j - |acc|].0)
              && rs[j].heuristic == Runner.HeuristicLabel(pairs[j - |acc|].1)
    {
      RunPairsAt(run, domainFile, problem, pairs, acc, j - |acc|);
      var r := run(domainFile, problem, pairs[j - |acc|], j);
      assert r.problem == Runner.Stem(problem);
    }
  }

  /** What every collected record satisfies: it is consistent, and it is
      not a blind run of a search other than A* unless `--test-invalid`. */
  predicate Good(cfg: Config, r: Runner.Record) {
    Runner.Consistent(r) && (cfg.testInvalid || !(r.heuristic == "blind" && r.search != "astar"))
  }

  predicate AllGood(cfg: Config, rs: seq<Runner.Record>) {
    forall k :: 0 <= k < |rs| ==> Good(cfg, rs[k])
  }

  lemma {:induction false} RunPairsGood(cfg: Config, run: RunFn, domainFile: Path, problem: Path,
                                        pairs: seq<(string, string)>, acc: seq<Runner.Record>)
    requires Labelled(run) && RunsConsistent(run)
    requires AllAllowed(pairs, cfg.testInvalid)
    requires AllGood(cfg, acc)
    ensures AllGood(cfg, RunPairs(run, domainFile, problem, pairs, acc))
    decreases |pairs|
  {
    if pairs != [] {
      var r := run(domainFile, problem, pairs[0], |acc|);
      assert Good(cfg, r);
      RunPairsGood(cfg, run, domainFile, problem, pairs[1..], acc + [r]);
    }
  }

  predicate AllAllowed(pairs: seq<(string, string)>, testInvalid: bool) {
    forall k :: 0 <= k < |pairs| ==> Allowed(pairs[k].0, pairs[k].1, testInvalid)
  }

  lemma {:induction false} WalkProblemsGood(env: Env, cfg: Config, problems: seq<Path>, acc: seq<Runner.Record>)
    requires Labelled(env.run) && RunsConsistent(env.run)
    requires AllGood(cfg, acc)
    ensures var out := WalkProblems(env, cfg, problems, acc);
            out.Finished? ==> AllGood(cfg, out.results)
    decreases |problems|
  {
    if problems != [] {
      var p := problems[0];
      match env.domainFile(p)
      case None =>
        WalkProblemsGood(env, cfg, problems[1..], acc);
      case Some(d) =>
        var pairs := Pairs(cfg.searches, cfg.heuristics, cfg.testInvalid);
        RunPairsGood(cfg, env.run, d, p, pairs, acc);
        WalkProblemsGood(env, cfg, problems[1..], RunPairs(env.run, d, p, pairs, acc));
    }
  }

  lemma {:induction false} WalkDirsGood(env: Env, cfg: Config, dirs: seq<Path>, acc: seq<Runner.Record>)
    requires Labelled(env.run) && RunsConsistent(env.run)
    requires AllGood(cfg, acc)
    ensures var out := WalkDirs(env, cfg, dirs, acc);
            out.Finished? ==> AllGood(cfg, out.results)
    decreases |dirs|
  {
    if dirs != [] {
      var files := env.problemFiles(dirs[0]);
      if files == [] {
        WalkDirsGood(env, cfg, dirs[1..], acc);
      } else if !Ordering.MixedKeys(files, Ordering.KeyOf) {
        var kept := Kept(files, cfg.maxProblems);
        WalkProblemsGood(env, cfg, kept, acc);
        var out := WalkProblems(env, cfg, kept, acc);
        if out.Finished? {
          WalkDirsGood(env, cfg, dirs[1..], out.results);
        }
      }
    }
  }

  /** Every record of a finished walk is consistent (success only with
      numeric counters, sentinels in both counters alike) and respects the
      pair filter. */
  lemma BenchmarkRecordsGood(fs: FileSystem, cfg: Config, planner: Runner.Invocation -> Runner.Observation)
    requires Benchmark(fs, cfg, planner).Finished?
    ensures forall k :: 0 <= k < |Benchmark(fs, cfg, planner).results| ==>
      var r := Benchmark(fs, cfg, planner).results[k];
      && Runner.Consistent(r)
      && (cfg.testInvalid || !(r.heuristic == "blind" && r.search != "astar"))
  {
    RunsWellBehaved(cfg, planner);
    WalkDirsGood(EnvOf(fs, cfg, planner), cfg, SelectDomainDirs(fs, cfg).value, []);
  }

  /** The number of problems in a list whose domain file resolves. */
  function ResolvedCount(resolve: Path -> Option<Path>, problems: seq<Path>): (n: nat)
    ensures n <= |problems|
  {
    if problems == [] then 0
    else (if resolve(problems[0]).Some? then 1 else 0) + ResolvedCount(resolve, problems[1..])
  }

  /** A problem loop that finishes adds one record per pair for each
      resolved problem, and none for the others; what was collected before
      stays in front. */
  lemma {:induction false} WalkProblemsCount(env: Env, cfg: Config, problems: seq<Path>, acc: seq<Runner.Record>)
    ensures var out := WalkProblems(env, cfg, problems, acc);
            out.Finished? ==>
              && |out.results| == |acc| + ResolvedCount(env.domainFile, problems) * |Pairs(cfg.searches, cfg.heuristics, cfg.testInvalid)|
              && out.results[..|acc|] == acc
    decreases |problems|
  {
    if problems != [] {
      var p := problems[0];
      var rest := problems[1..];
      var pairs := Pairs(cfg.searches, cfg.heuristics, cfg.testInvalid);
      var n := ResolvedCount(env.domainFile, rest);
      if env.domainFile(p).None? {
        assert ResolvedCount(env.domainFile, problems) == n;
        assert WalkProblems(env, cfg, problems, acc)
               == if env.declaredName(p) == Some("blocksworld") then Crashed(UndefinedProblemDir(p))
                  else WalkProblems(env, cfg, rest, acc);
        WalkProblemsCount(env, cfg, rest, acc);
      } else {
        var d := env.domainFile(p).value;
        var mid := RunPairs(env.run, d, p, pairs, acc);
        assert ResolvedCount(env.domainFile, problems) == 1 + n;
        assert WalkProblems(env, cfg, problems, acc) == WalkProblems(env, cfg, rest, mid);
        WalkProblemsCount(env, cfg, rest, mid);
        var out := WalkProblems(env, cfg, rest, mid);
        if out.Finished? {
          Scaled(n, |pairs|);
          PrefixOfPrefix(out.results, mid, acc);
        }
      }
    }
  }

  lemma Scaled(n: nat, m: nat)
    ensures n * m >= 0 && (n + 1) * m == m + n * m
  {
  }

  lemma PrefixOfPrefix<T>(xs: seq<T>, ys: seq<T>, zs: seq<T>)
    requires |ys| <= |xs| && xs[..|ys|] == ys
    requires |zs| <= |ys| && ys[..|zs|] == zs
    ensures xs[..|zs|] == zs
  {
    assert xs[..|zs|] == xs[..|ys|][..|zs|];
  }

  /** An unresolved problem adds nothing, unless it declares `blocksworld`,
      which stops the walk. */
  lemma UnresolvedProblem(env: Env, cfg: Config, p: Path, rest: seq<Path>, acc: seq<Runner.Record>)
    requires env.domainFile(p).None?
    ensures env.declaredName(p) != Some("blocksworld") ==>
              WalkProblems(env, cfg, [p] + rest, acc) == WalkProblems(env, cfg, rest, acc)
    ensures env.declaredName(p) == Some("blocksworld") ==>
              WalkProblems(env, cfg, [p] + rest, acc) == Crashed(UndefinedProblemDir(p))
  {
    assert ([p] + rest)[1..] == rest;
  }
}
