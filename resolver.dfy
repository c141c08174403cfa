/** Pairing a problem file with its domain file (benchmark_pddl.py:
    read_domain_name_from_file, find_domain_file_for_problem). */
module Resolver {
  import opened Wrappers
  import opened Text
  import opened Fs
  import Search
  import Classifier

  // ---------------------------------------------------------------------
  // The declared domain name, `\(:domain\s+([^)]+)\)`

  const DomainOpen: string := "(:domain"

  /** Index of the first `)` at or after `j`, or `|s|`. */
  function CloseAfter(s: string, j: nat): (e: nat)
    requires j <= |s|
    ensures j <= e <= |s|
    ensures e < |s| ==> s[e] == ')'
    ensures forall k :: j <= k < e ==> s[k] != ')'
    decreases |s| - j
  {
    if j == |s| || s[j] == ')' then j else CloseAfter(s, j + 1)
  }

  /** The regular expression matches at `i`: the marker, at least one
      whitespace character, at least one more character that is not `)`,
      then `)`. The text between marker and `)` is `s[i + 8..CloseAfter]`. */
  predicate DomainMatchAt(s: string, i: nat) {
    OccursAt(s, DomainOpen, i) && i + |DomainOpen| < |s| && IsSpace(s[i + |DomainOpen|])
    && var e := CloseAfter(s, i + |DomainOpen|);
       e < |s| && e - (i + |DomainOpen|) >= 2
  }

  /** `re.search(...).group(1).strip()` on the leftmost match, or None.
      Greedy `\s+` followed by `[^)]+` puts the leading whitespace in or out
      of the group, and `strip` removes it either way, so the name is the
      stripped text between the marker and the first `)`. */
  function DeclaredName(s: string): (r: Option<string>)
    ensures r.Some? ==> ')' !in r.value
  {
    var i := LeftmostDomainMatch(s, 0);
    if i < |s| then Some(NameAfter(s, i + |DomainOpen|)) else None
  }

  /** The stripped text from `j` up to the first `)`. */
  function NameAfter(s: string, j: nat): (name: string)
    requires j <= |s|
    ensures ')' !in name
  {
    NameHasNoClose(s, j);
    Strip(s[j..CloseAfter(s, j)])
  }

  /** A name is read exactly when the expression matches somewhere. */
  lemma DeclaredNameFound(s: string)
    ensures DeclaredName(s).Some? <==> exists i :: 0 <= i < |s| && DomainMatchAt(s, i)
  {
    var i := LeftmostDomainMatch(s, 0);
    if i < |s| {
      assert DomainMatchAt(s, i);
    }
  }

  /** The name stops before the first `)`. */
  lemma NameHasNoClose(s: string, j: nat)
    requires j <= |s|
    ensures ')' !in Strip(s[j..CloseAfter(s, j)])
  {
    var e := CloseAfter(s, j);
    forall c | c in s[j..e] ensures c != ')' {
      var k :| 0 <= k < e - j && s[j..e][k] == c;
      assert s[j + k] == c;
    }
    StripWithin(s[j..e]);
  }

  /** `re.search` scanning from `from`: the first index at which the
      expression matches, or `|s|`. */
  function LeftmostDomainMatch(s: string, from: nat): (i: nat)
    requires from <= |s|
    ensures from <= i <= |s|
    ensures i < |s| ==> DomainMatchAt(s, i)
    ensures forall k :: from <= k < i ==> !DomainMatchAt(s, k)
    decreases |s| - from
  {
    if from == |s| || DomainMatchAt(s, from) then from else LeftmostDomainMatch(s, from + 1)
  }

  /** Stripping keeps a contiguous part of the text. */
  lemma StripWithin(s: string)
    ensures forall c :: c in Strip(s) ==> c in s
  {
    var l := StripLeft(s);
    var r := StripRight(l);
    assert forall c :: c in r ==> c in l;
    assert forall c :: c in l ==> c in s;
  }

  /** `read_domain_name_from_file`, and the same inline read at the top of
      `find_domain_file_for_problem`: None also when the file cannot be read. */
  function DeclaredDomainName(fs: FileSystem, p: Path): (r: Option<string>)
    ensures r.Some? <==> ReadAll(fs, p).Some?
                         && exists i :: 0 <= i < |ReadAll(fs, p).value| && DomainMatchAt(ReadAll(fs, p).value, i)
    ensures r.Some? ==> IsFile(fs, p) && ')' !in r.value
  {
    match ReadAll(fs, p)
    case None => None
    case Some(text) =>
      DeclaredNameFound(text);
      DeclaredName(text)
  }

  /** No match can start inside a prefix that holds no colon when what
      follows it starts with `(`. */
  lemma NoMatchInPrefix(prefix: string, tail: string, k: nat)
    requires ':' !in prefix && tail != [] && tail[0] == '(' && k < |prefix|
    ensures !OccursAt(prefix + tail, DomainOpen, k)
  {
    var s := prefix + tail;
    assert s[k + 1] != ':' by {
      if k + 1 < |prefix| {
        assert s[k + 1] == prefix[k + 1];
      } else {
        assert s[k + 1] == tail[0];
      }
    }
    assert k + |DomainOpen| <= |s| ==> s[k..k + |DomainOpen|][1] == s[k + 1];
  }

  /** Stripping a single leading space off a name with no surrounding
      whitespace gives the name. */
  lemma StripSpaceName(name: string)
    requires name != [] && !IsSpace(name[0]) && !IsSpace(name[|name| - 1])
    ensures Strip([' '] + name) == name
  {
    assert ([' '] + name)[1..] == name;
  }

  /** The expression matches a declaration written right after a prefix,
      and its group is the space and the name. */
  lemma MatchAtDeclaration(prefix: string, name: string, rest: string)
    requires ')' !in name
    ensures var s := prefix + DomainOpen + " " + name + ")" + rest;
            var j := |prefix| + |DomainOpen|;
            && CloseAfter(s, j) == j + 1 + |name|
            && s[j..j + 1 + |name|] == [' '] + name
            && (name != [] ==> DomainMatchAt(s, |prefix|))
  {
    var s := prefix + DomainOpen + " " + name + ")" + rest;
    var i := |prefix|;
    var j := i + |DomainOpen|;
    assert s[i..j] == DomainOpen;
    assert s[j..j + 1 + |name|] == [' '] + name;
    assert s[j + 1 + |name|] == ')';
    assert forall k :: j <= k < j + 1 + |name| ==> s[k] == s[j..j + 1 + |name|][k - j];
    assert CloseAfter(s, j) == j + 1 + |name|;
  }

  /** The declaration written after a colon-free prefix is the leftmost
      match. */
  lemma DeclarationIsLeftmost(prefix: string, name: string, rest: string)
    requires ':' !in prefix && name != [] && ')' !in name
    ensures LeftmostDomainMatch(prefix + DomainOpen + " " + name + ")" + rest, 0) == |prefix|
  {
    var tail := DomainOpen + " " + name + ")" + rest;
    var s := prefix + tail;
    assert s == prefix + DomainOpen + " " + name + ")" + rest;
    MatchAtDeclaration(prefix, name, rest);
    forall k | 0 <= k < |prefix|
      ensures !DomainMatchAt(s, k)
    {
      NoMatchInPrefix(prefix, tail, k);
    }
  }

  /** What a problem writes as `(:domain NAME)` is read back as `NAME`,
      whatever follows, provided nothing before it contains a colon. */
  lemma DeclaredNameRoundTrip(prefix: string, name: string, rest: string)
    requires ':' !in prefix
    requires name != [] && ')' !in name && !IsSpace(name[0]) && !IsSpace(name[|name| - 1])
    ensures DeclaredName(prefix + DomainOpen + " " + name + ")" + rest) == Some(name)
  {
    var s := prefix + DomainOpen + " " + name + ")" + rest;
    var j := |prefix| + |DomainOpen|;
    var e := j + 1 + |name|;
    assert CloseAfter(s, j) == e && s[j..e] == [' '] + name by {
      MatchAtDeclaration(prefix, name, rest);
    }
    assert LeftmostDomainMatch(s, 0) == |prefix| by {
      DeclarationIsLeftmost(prefix, name, rest);
    }
    assert DeclaredName(s) == Some(NameAfter(s, j));
    assert NameAfter(s, j) == Strip([' '] + name);
    StripSpaceName(name);
  }

  // ---------------------------------------------------------------------
  // Candidate names and patterns

  /** The declared name first, then its known misspelling, in both
      directions; nothing when the name is missing or empty. */
  function Candidates(declared: Option<string>): (names: seq<string>)
    ensures declared.None? || declared.value == "" <==> names == []
    ensures names != [] ==> names[0] == declared.value
    ensures declared == Some("blocksworld") ==> names == ["blocksworld", "blockworld"]
    ensures declared == Some("blockworld") ==> names == ["blockworld", "blocksworld"]
    ensures declared.Some? && declared.value != "" && declared.value != "blocksworld" && declared.value != "blockworld"
            ==> names == [declared.value]
    ensures |names| <= 2
  {
    match declared
    case None => []
    case Some(name) =>
      if name == "" then []
      else if name == "blocksworld" then [name, "blockworld"]
      else if name == "blockworld" then [name, "blocksworld"]
      else [name]
  }

  /** `os.path.join(problem_dir, f"{variant}.pddl")` */
  function CandidatePath(dir: Path, name: string): Path {
    Join(dir, name + ".pddl")
  }

  /** The conventional file names tried, in order, in the problem's
      directory and then in its parent. */
  function Patterns(declared: Option<string>, problemDir: Path): (pats: seq<string>)
    ensures |pats| == if declared.None? || declared.value == "" then 4 else 5
    ensures pats[0] == "domain.pddl"
    ensures pats[|pats| - 1] == Basename(problemDir) + ".pddl"
    ensures "*domain*.pddl" in pats && "*.domain.pddl" in pats
    ensures declared.Some? && declared.value != "" ==> pats[1] == declared.value + ".pddl"
    ensures pats[|pats| - 3] == "*domain*.pddl" && pats[|pats| - 2] == "*.domain.pddl"
  {
    ["domain.pddl"]
    + (if declared.Some? && declared.value != "" then [declared.value + ".pddl"] else [])
    + ["*domain*.pddl", "*.domain.pddl", Basename(problemDir) + ".pddl"]
  }

  /** The structural test for a domain file: actions and no goal. */
  predicate LooksLikeDomain(text: string) {
    Contains(text, ":action") && !Contains(text, "(:goal")
  }

  /** A `.pddl` file other than the problem that reads as a domain. Such a
      file is never one the classifier takes for a problem, so the scan
      cannot pick a problem of the same directory. */
  predicate IsDomainLike(fs: FileSystem, problem: Path, p: Path)
    ensures IsDomainLike(fs, problem, p) ==> !Classifier.IsProblemFile(fs, p)
    ensures IsDomainLike(fs, problem, p) <==> p != problem && ReadAll(fs, p).Some? && LooksLikeDomain(ReadAll(fs, p).value)
  {
    p != problem && IsFile(fs, p)
    && match ReadAll(fs, p)
       case None => false
       case Some(text) => LooksLikeDomain(text)
  }

  // ---------------------------------------------------------------------
  // The layers of the search, each an early-return loop

  /** First layer: the first candidate name whose `.pddl` file exists. */
  function FirstExisting(fs: FileSystem, dir: Path, names: seq<string>): (r: Option<Path>)
    ensures r.None? <==> forall k :: 0 <= k < |names| ==> !Exists(fs, CandidatePath(dir, names[k]))
    ensures r.Some? ==> Exists(fs, r.value) && Dirname(r.value) == dir
    ensures r.Some? ==> exists k :: (0 <= k < |names| && r.value == CandidatePath(dir, names[k])
                                     && forall j :: 0 <= j < k ==> !Exists(fs, CandidatePath(dir, names[j])))
  {
    var k := Search.First(names, n => Exists(fs, CandidatePath(dir, n)));
    if k < |names| then Some(CandidatePath(dir, names[k])) else None
  }

  /** Second and fourth layers: the first hit of the first pattern that
      has one. */
  function FirstGlobHit(fs: FileSystem, dir: Path, pats: seq<string>): (r: Option<Path>)
    ensures r.None? <==> forall k :: 0 <= k < |pats| ==> Glob(fs, dir, pats[k]) == []
    ensures r.Some? ==> Dirname(r.value) == dir
    ensures r.Some? ==> exists k :: (0 <= k < |pats| && Glob(fs, dir, pats[k]) != []
                                     && r.value == Glob(fs, dir, pats[k])[0]
                                     && forall j :: 0 <= j < k ==> Glob(fs, dir, pats[j]) == [])
  {
    var k := Search.First(pats, pat => Glob(fs, dir, pat) != []);
    if k < |pats| then Some(Glob(fs, dir, pats[k])[0]) else None
  }

  /** Third layer: the first `.pddl` file of the directory, other than the
      problem, that reads as a domain. */
  function FirstDomainLike(fs: FileSystem, problem: Path, dir: Path): (r: Option<Path>)
    ensures r.None? <==> forall q :: q in Glob(fs, dir, "*.pddl") ==> !IsDomainLike(fs, problem, q)
    ensures r.Some? ==> IsDomainLike(fs, problem, r.value) && Dirname(r.value) == dir
    ensures var all := Glob(fs, dir, "*.pddl");
      r.Some? ==> exists k :: (0 <= k < |all| && all[k] == r.value
                               && forall j :: 0 <= j < k ==> !IsDomainLike(fs, problem, all[j]))
  {
    var all := Glob(fs, dir, "*.pddl");
    var k := Search.First(all, q => IsDomainLike(fs, problem, q));
    if k < |all| then Some(all[k]) else None
  }

  /** `find_domain_file_for_problem`: the declared name and its synonym,
      then the patterns, then the structural scan, then the patterns one
      directory up, the first success winning; None when all fail. */
  function FindDomainFile(fs: FileSystem, problem: Path): (r: Option<Path>)
    ensures r.Some? ==> Dirname(r.value) == Dirname(problem) || Dirname(r.value) == Dirname(Dirname(problem))
  {
    var dir := Dirname(problem);
    var declared := DeclaredDomainName(fs, problem);
    var pats := Patterns(declared, dir);
    match FirstExisting(fs, dir, Candidates(declared))
    case Some(p) => Some(p)
    case None =>
      match FirstGlobHit(fs, dir, pats)
      case Some(p) => Some(p)
      case None =>
        match FirstDomainLike(fs, problem, dir)
        case Some(p) => Some(p)
        case None => FirstGlobHit(fs, Dirname(dir), pats)
  }

  // ---------------------------------------------------------------------
  // Properties of the resolution order

  /** An exact declared-name match in the problem's directory wins over
      every other rule. */
  lemma DeclaredNameWins(fs: FileSystem, problem: Path, name: string)
    requires DeclaredDomainName(fs, problem) == Some(name) && name != ""
    requires Exists(fs, CandidatePath(Dirname(problem), name))
    ensures FindDomainFile(fs, problem) == Some(CandidatePath(Dirname(problem), name))
  {
  }

  /** A problem declaring `blocksworld` resolves to `blockworld.pddl` when
      only that spelling is present. */
  lemma BlocksworldFindsBlockworld(fs: FileSystem, problem: Path)
    requires DeclaredDomainName(fs, problem) == Some("blocksworld")
    requires !Exists(fs, CandidatePath(Dirname(problem), "blocksworld"))
    requires Exists(fs, CandidatePath(Dirname(problem), "blockworld"))
    ensures FindDomainFile(fs, problem) == Some(CandidatePath(Dirname(problem), "blockworld"))
  {
    var names := Candidates(Some("blocksworld"));
    assert names[0] == "blocksworld" && names[1] == "blockworld";
    FirstExistingAt(fs, Dirname(problem), names, 1);
  }

  /** And the other way round. */
  lemma BlockworldFindsBlocksworld(fs: FileSystem, problem: Path)
    requires DeclaredDomainName(fs, problem) == Some("blockworld")
    requires !Exists(fs, CandidatePath(Dirname(problem), "blockworld"))
    requires Exists(fs, CandidatePath(Dirname(problem), "blocksworld"))
    ensures FindDomainFile(fs, problem) == Some(CandidatePath(Dirname(problem), "blocksworld"))
  {
    var names := Candidates(Some("blockworld"));
    assert names[0] == "blockworld" && names[1] == "blocksworld";
    FirstExistingAt(fs, Dirname(problem), names, 1);
  }

  /** The first candidate whose file exists is the one returned. */
  lemma FirstExistingAt(fs: FileSystem, dir: Path, names: seq<string>, k: nat)
    requires k < |names| && Exists(fs, CandidatePath(dir, names[k]))
    requires forall j :: 0 <= j < k ==> !Exists(fs, CandidatePath(dir, names[j]))
    ensures FirstExisting(fs, dir, names) == Some(CandidatePath(dir, names[k]))
  {
    assert Search.First(names, n => Exists(fs, CandidatePath(dir, n))) == k;
  }

  /** With no candidate present, the first hit of the patterns beside the
      problem decides, before the structural scan and the parent
      directory. */
  lemma PatternsNext(fs: FileSystem, problem: Path)
    requires FirstExisting(fs, Dirname(problem), Candidates(DeclaredDomainName(fs, problem))).None?
    requires FirstGlobHit(fs, Dirname(problem), Patterns(DeclaredDomainName(fs, problem), Dirname(problem))).Some?
    ensures FindDomainFile(fs, problem)
            == FirstGlobHit(fs, Dirname(problem), Patterns(DeclaredDomainName(fs, problem), Dirname(problem)))
  {
  }

  /** In particular, when pattern `k` is the first with a hit, its first
      hit is the domain file, whichever of `domain.pddl`,
      `<declared>.pddl`, `*domain*.pddl`, `*.domain.pddl` or
      `<dirname>.pddl` it is. */
  lemma PatternHitDecides(fs: FileSystem, problem: Path, k: nat)
    requires FirstExisting(fs, Dirname(problem), Candidates(DeclaredDomainName(fs, problem))).None?
    requires var pats := Patterns(DeclaredDomainName(fs, problem), Dirname(problem));
      k < |pats| && Glob(fs, Dirname(problem), pats[k]) != []
    requires var pats := Patterns(DeclaredDomainName(fs, problem), Dirname(problem));
      forall j :: 0 <= j < k ==> Glob(fs, Dirname(problem), pats[j]) == []
    ensures var pats := Patterns(DeclaredDomainName(fs, problem), Dirname(problem));
      FindDomainFile(fs, problem) == Some(Glob(fs, Dirname(problem), pats[k])[0])
  {
    var dir := Dirname(problem);
    var pats := Patterns(DeclaredDomainName(fs, problem), dir);
    FirstGlobHitHead(fs, dir, pats, k);
    PatternsNext(fs, problem);
  }

  /** With no candidate present, a literal `domain.pddl` beside the problem
      is chosen before any guess. */
  lemma ConventionalNameNext(fs: FileSystem, problem: Path)
    requires FirstExisting(fs, Dirname(problem), Candidates(DeclaredDomainName(fs, problem))).None?
    requires Exists(fs, Join(Dirname(problem), "domain.pddl"))
    ensures FindDomainFile(fs, problem) == Some(Join(Dirname(problem), "domain.pddl"))
  {
    var dir := Dirname(problem);
    var pats := Patterns(DeclaredDomainName(fs, problem), dir);
    ConventionalNamePlain();
    assert Glob(fs, dir, pats[0]) == [Join(dir, "domain.pddl")];
    PatternHitDecides(fs, problem, 0);
  }

  lemma ConventionalNamePlain()
    ensures !HasMagic("domain.pddl")
  {
    assert forall i :: 0 <= i < |"domain.pddl"| ==> "domain.pddl"[i] != '*' && "domain.pddl"[i] != '?';
  }

  /** The first pattern with a hit yields its first hit, whatever later
      patterns would select. */
  lemma FirstGlobHitHead(fs: FileSystem, dir: Path, pats: seq<string>, k: nat)
    requires k < |pats| && Glob(fs, dir, pats[k]) != []
    requires forall j :: 0 <= j < k ==> Glob(fs, dir, pats[j]) == []
    ensures FirstGlobHit(fs, dir, pats) == Some(Glob(fs, dir, pats[k])[0])
  {
    assert Search.First(pats, pat => Glob(fs, dir, pat) != []) == k;
  }

  /** When nothing beside the problem resolves it, the patterns are tried
      one directory up, in the same order. */
  lemma ParentPatternsLast(fs: FileSystem, problem: Path)
    requires FirstExisting(fs, Dirname(problem), Candidates(DeclaredDomainName(fs, problem))).None?
    requires FirstGlobHit(fs, Dirname(problem), Patterns(DeclaredDomainName(fs, problem), Dirname(problem))).None?
    requires FirstDomainLike(fs, problem, Dirname(problem)).None?
    ensures FindDomainFile(fs, problem)
            == FirstGlobHit(fs, Dirname(Dirname(problem)), Patterns(DeclaredDomainName(fs, problem), Dirname(problem)))
  {
  }

  /** When no name and no pattern hits beside the problem, the structural
      scan decides before the parent directory is tried. */
  lemma StructuralScanBeforeParent(fs: FileSystem, problem: Path, q: Path)
    requires FirstExisting(fs, Dirname(problem), Candidates(DeclaredDomainName(fs, problem))).None?
    requires FirstGlobHit(fs, Dirname(problem), Patterns(DeclaredDomainName(fs, problem), Dirname(problem))).None?
    requires FirstDomainLike(fs, problem, Dirname(problem)) == Some(q)
    ensures FindDomainFile(fs, problem) == Some(q)
    ensures q != problem && IsFile(fs, q) && ReadAll(fs, q).Some? && LooksLikeDomain(ReadAll(fs, q).value)
  {
  }

  /** A problem is unresolved exactly when every layer fails. */
  lemma UnresolvedMeansEveryLayerFailed(fs: FileSystem, problem: Path)
    ensures var dir := Dirname(problem);
            var declared := DeclaredDomainName(fs, problem);
            FindDomainFile(fs, problem).None? <==>
              && FirstExisting(fs, dir, Candidates(declared)).None?
              && FirstGlobHit(fs, dir, Patterns(declared, dir)).None?
              && FirstDomainLike(fs, problem, dir).None?
              && FirstGlobHit(fs, Dirname(dir), Patterns(declared, dir)).None?
  {
  }

  /** In a well-formed tree the resolved domain file exists. */
  lemma ResolvedFileExists(fs: FileSystem, problem: Path)
    requires WellFormed(fs)
    requires FindDomainFile(fs, problem).Some?
    ensures Exists(fs, FindDomainFile(fs, problem).value)
  {
    var dir := Dirname(problem);
    var declared := DeclaredDomainName(fs, problem);
    var pats := Patterns(declared, dir);
    var byName := FirstExisting(fs, dir, Candidates(declared));
    var byPattern := FirstGlobHit(fs, dir, pats);
    var byContent := FirstDomainLike(fs, problem, dir);
    var byParent := FirstGlobHit(fs, Dirname(dir), pats);
    assert FindDomainFile(fs, problem)
           == if byName.Some? then byName else if byPattern.Some? then byPattern
              else if byContent.Some? then byContent else byParent;
    FirstGlobHitExists(fs, dir, pats);
    FirstGlobHitExists(fs, Dirname(dir), pats);
  }

  lemma FirstGlobHitExists(fs: FileSystem, dir: Path, pats: seq<string>)
    requires WellFormed(fs)
    ensures FirstGlobHit(fs, dir, pats).Some? ==> Exists(fs, FirstGlobHit(fs, dir, pats).value)
  {
    var k := Search.First(pats, pat => Glob(fs, dir, pat) != []);
    if k < |pats| {
      GlobHitsExist(fs, dir, pats[k], 0);
    }
  }
}
