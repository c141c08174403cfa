/** Deciding from its text whether a `.pddl` file is a problem file
    (benchmark_pddl.py: is_problem_file, find_problem_files). */
module Classifier {
  import opened Wrappers
  import opened Text
  import opened Fs
  import Search

  /** How many characters of a file the classifier reads. */
  const ProbeLength: nat := 2000

  /** The conjunctive structural test on a text: a goal section, a
      definition, and the word `problem`. */
  predicate LooksLikeProblem(text: string) {
    Contains(text, "(:goal") && Contains(text, "(define") && Contains(text, "problem")
  }

  /** `is_problem_file`: the test on the first `ProbeLength` characters;
      false whenever the file cannot be read. A file it accepts holds all
      three markers. */
  predicate IsProblemFile(fs: FileSystem, p: Path)
    ensures IsProblemFile(fs, p) ==> IsFile(fs, p) && ReadAll(fs, p).Some? && LooksLikeProblem(ReadAll(fs, p).value)
  {
    match ReadAll(fs, p)
    case None => false
    case Some(text) =>
      ProbeMarkers(text);
      LooksLikeProblem(Take(text, ProbeLength))
  }

  /** A marker found inside the first `ProbeLength` characters is found in
      the whole text too. */
  lemma ProbeWithinText(text: string, marker: string)
    requires Contains(Take(text, ProbeLength), marker)
    ensures Contains(text, marker)
  {
    var t := Take(text, ProbeLength);
    var i :| 0 <= i <= |t| - |marker| && OccursAt(t, marker, i);
    assert text[i..i + |marker|] == t[i..i + |marker|];
    assert OccursAt(text, marker, i);
  }

  /** The markers found in the probe are in the whole text. */
  lemma ProbeMarkers(text: string)
    ensures LooksLikeProblem(Take(text, ProbeLength)) ==> LooksLikeProblem(text)
  {
    if LooksLikeProblem(Take(text, ProbeLength)) {
      ProbeWithinText(text, "(:goal");
      ProbeWithinText(text, "(define");
      ProbeWithinText(text, "problem");
    }
  }

  /** Only the first `ProbeLength` characters decide: two texts that agree
      on them are classified alike, whatever follows. */
  lemma ProbeIgnoresTail(a: string, b: string)
    requires |a| >= ProbeLength && |b| >= ProbeLength
    requires a[..ProbeLength] == b[..ProbeLength]
    ensures LooksLikeProblem(Take(a, ProbeLength)) == LooksLikeProblem(Take(b, ProbeLength))
  {
  }

  /** A problem whose goal section starts after the first `ProbeLength`
      characters is not recognised: the classifier has false negatives. */
  lemma {:induction false} LateGoalMissed(header: string, rest: string)
    requires |header| >= ProbeLength && !Contains(header, "(")
    ensures !LooksLikeProblem(Take(header + rest, ProbeLength))
  {
    var t := Take(header + rest, ProbeLength);
    assert t == header[..ProbeLength];
    if Contains(t, "(:goal") {
      var i :| 0 <= i <= |t| - 6 && OccursAt(t, "(:goal", i);
      assert header[i] == t[i] == '(';
      assert OccursAt(header, "(", i);
    }
  }

  /** The classifier as a test to filter a listing with. */
  function Accepts(fs: FileSystem): Path -> bool {
    p => IsProblemFile(fs, p)
  }

  /** `find_problem_files(directory)`: the `.pddl` entries of the
      directory, in listing order, that the classifier accepts. */
  function ProblemFiles(fs: FileSystem, dir: Path): (files: seq<Path>)
    ensures forall i :: 0 <= i < |files| ==> IsProblemFile(fs, files[i]) && Dirname(files[i]) == dir
    ensures Search.IsSubsequence(files, Glob(fs, dir, "*.pddl"))
  {
    var all := Glob(fs, dir, "*.pddl");
    Search.FilterSound(all, Accepts(fs));
    Search.FilterSubsequence(all, Accepts(fs));
    Search.Filter(all, Accepts(fs))
  }

  /** The loop of `find_problem_files`, appending each accepted file. */
  method FindProblemFiles(fs: FileSystem, dir: Path) returns (files: seq<Path>)
    ensures files == ProblemFiles(fs, dir)
    ensures forall i :: 0 <= i < |files| ==> IsProblemFile(fs, files[i])
    ensures Search.IsSubsequence(files, Glob(fs, dir, "*.pddl"))
  {
    var all := Glob(fs, dir, "*.pddl");
    files := [];
    var k := 0;
    while k < |all|
      invariant 0 <= k <= |all|
      invariant files + Search.Filter(all[k..], Accepts(fs)) == ProblemFiles(fs, dir)
    {
      AcceptStep(fs, all, k, files);
      if IsProblemFile(fs, all[k]) {
        files := files + [all[k]];
      }
      k := k + 1;
    }
    assert all[k..] == [];
  }

  /** One step of the loop: the file at `k` is appended exactly when the
      classifier accepts it, and what remains to be filtered shrinks by
      that file. */
  lemma AcceptStep(fs: FileSystem, all: seq<Path>, k: nat, files: seq<Path>)
    requires k < |all|
    ensures (if IsProblemFile(fs, all[k]) then files + [all[k]] else files) + Search.Filter(all[k + 1..], Accepts(fs))
            == files + Search.Filter(all[k..], Accepts(fs))
  {
    Search.FilterStep(all, Accepts(fs), k);
    var rest := Search.Filter(all[k + 1..], Accepts(fs));
    if IsProblemFile(fs, all[k]) {
      assert (files + [all[k]]) + rest == files + ([all[k]] + rest);
    } else {
      assert [] + rest == rest;
    }
  }

  /** Everything found is a `.pddl` file of the directory. */
  lemma ProblemFilesArePddl(fs: FileSystem, dir: Path, i: nat)
    requires i < |ProblemFiles(fs, dir)|
    ensures Dirname(ProblemFiles(fs, dir)[i]) == dir
    ensures EndsWith(Basename(ProblemFiles(fs, dir)[i]), ".pddl")
  {
    PddlPattern();
    FilteredStarSuffix(fs, dir, "*.pddl", ".pddl", Accepts(fs), i);
  }

  /** The pattern is a star followed by a plain suffix. */
  lemma PddlPattern()
    ensures "*.pddl" == ['*'] + ".pddl" && !HasMagic(".pddl")
  {
    assert forall k :: 0 <= k < |".pddl"| ==> ".pddl"[k] != '*' && ".pddl"[k] != '?';
  }

  lemma FilteredStarSuffix(fs: FileSystem, dir: Path, pattern: string, lit: string, test: Path -> bool, i: nat)
    requires pattern == ['*'] + lit && !HasMagic(lit)
    requires i < |Search.Filter(Glob(fs, dir, pattern), test)|
    ensures Dirname(Search.Filter(Glob(fs, dir, pattern), test)[i]) == dir
    ensures EndsWith(Basename(Search.Filter(Glob(fs, dir, pattern), test)[i]), lit)
  {
    var all := Glob(fs, dir, pattern);
    var p := Search.Filter(all, test)[i];
    Search.FilterSound(all, test);
    var k :| 0 <= k < |all| && all[k] == p;
    GlobStarSuffix(fs, dir, lit, k);
  }

  /** Conversely, every readable `.pddl` file of the listing that passes the
      test is found. */
  lemma ProblemFilesComplete(fs: FileSystem, dir: Path, name: string)
    requires name in Listing(fs, dir) && !IsHidden(name) && EndsWith(name, ".pddl")
    requires IsProblemFile(fs, Join(dir, name))
    ensures Join(dir, name) in ProblemFiles(fs, dir)
  {
    assert "*.pddl" == ['*'] + ".pddl";
    MatchStarSuffix(".pddl", name);
    var pred := n => Match("*.pddl", n) && (IsHidden("*.pddl") || !IsHidden(n));
    assert pred(name);
    var names := Search.Filter(Listing(fs, dir), pred);
    var k :| 0 <= k < |Listing(fs, dir)| && Listing(fs, dir)[k] == name;
    assert pred(Listing(fs, dir)[k]);
    Search.FilterComplete(Listing(fs, dir), pred);
    assert name in names;
    var j :| 0 <= j < |names| && names[j] == name;
    var all := Glob(fs, dir, "*.pddl");
    assert all[j] == Join(dir, name);
    Search.FilterComplete(all, Accepts(fs));
    assert Accepts(fs)(all[j]);
  }
}
