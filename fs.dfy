/** The part of the operating system the driver looks at: a tree of named
    entries, each a directory with an ordered listing or a file whose text
    can be read (or not), and `glob.glob` over one directory. */
module Fs {
  import opened Wrappers
  import opened Text
  import Search

  /** A path as its sequence of components; `os.path.join(d, name)` is
      `d + [name]`. The empty path is the working directory. */
  type Path = seq<string>

  datatype Node =
    | File(content: Option<string>)  // None: opening or decoding raises
    | Dir(children: seq<string>)     // entry names in `os.listdir` order

  datatype FileSystem = FileSystem(entries: map<Path, Node>)

  /** Every name a directory lists is an entry of the tree. */
  ghost predicate WellFormed(fs: FileSystem) {
    forall d, name :: d in fs.entries && fs.entries[d].Dir? && name in fs.entries[d].children
      ==> d + [name] in fs.entries
  }

  function Join(dir: Path, name: string): (p: Path)
    ensures Dirname(p) == dir && Basename(p) == name
  {
    dir + [name]
  }

  /** `os.path.dirname` */
  function Dirname(p: Path): Path {
    if p == [] then [] else p[..|p| - 1]
  }

  /** `os.path.basename` */
  function Basename(p: Path): string {
    if p == [] then "" else p[|p| - 1]
  }

  /** `os.path.exists`, true of files and directories alike. */
  predicate Exists(fs: FileSystem, p: Path) {
    p in fs.entries
  }

  /** `os.path.isfile` */
  predicate IsFile(fs: FileSystem, p: Path) {
    p in fs.entries && fs.entries[p].File?
  }

  /** `os.path.isdir` */
  predicate IsDir(fs: FileSystem, p: Path) {
    p in fs.entries && fs.entries[p].Dir?
  }

  /** `os.listdir`, with a missing directory listing nothing. */
  function Listing(fs: FileSystem, dir: Path): seq<string> {
    if IsDir(fs, dir) then fs.entries[dir].children else []
  }

  /** `open(p).read()`: the text, or None where Python raises (no such
      file, a directory, no permission, undecodable bytes). */
  function ReadAll(fs: FileSystem, p: Path): (r: Option<string>)
    ensures r.Some? ==> IsFile(fs, p)
  {
    if IsFile(fs, p) then fs.entries[p].content else None
  }

  // ---------------------------------------------------------------------
  // fnmatch and glob

  predicate HasMagic(pattern: string) {
    '*' in pattern || '?' in pattern
  }

  predicate IsHidden(name: string) {
    name != [] && name[0] == '.'
  }

  /** `fnmatch.fnmatchcase(name, pattern)`: `*` matches any run of
      characters, `?` any one character, everything else itself. */
  predicate Match(pattern: string, name: string)
    decreases |pattern| + |name|
  {
    if pattern == [] then name == []
    else if pattern[0] == '*' then Match(pattern[1..], name) || (name != [] && Match(pattern, name[1..]))
    else name != [] && (pattern[0] == '?' || pattern[0] == name[0]) && Match(pattern[1..], name[1..])
  }

  /** The names a wildcard pattern selects from a listing, in listing
      order; a leading `*` or `?` does not select hidden names. */
  function Selected(names: seq<string>, pattern: string): (r: seq<string>)
    ensures forall i :: 0 <= i < |r| ==> r[i] in names && Match(pattern, r[i])
    ensures forall i :: 0 <= i < |r| ==> IsHidden(pattern) || !IsHidden(r[i])
    ensures forall n :: n in names && Match(pattern, n) && (IsHidden(pattern) || !IsHidden(n)) ==> n in r
    ensures Search.IsSubsequence(r, names)
  {
    var keep := n => Match(pattern, n) && (IsHidden(pattern) || !IsHidden(n));
    Search.FilterSound(names, keep);
    Search.FilterComplete(names, keep);
    Search.FilterSubsequence(names, keep);
    Search.Filter(names, keep)
  }

  /** `glob.glob(os.path.join(dir, pattern))` for a pattern without a
      separator: a pattern with no wildcard is an existence test; one with
      wildcards lists the directory. */
  function Glob(fs: FileSystem, dir: Path, pattern: string): (r: seq<Path>)
    ensures forall i :: 0 <= i < |r| ==> Dirname(r[i]) == dir
    ensures !HasMagic(pattern) ==> r == (if Exists(fs, Join(dir, pattern)) then [Join(dir, pattern)] else [])
    ensures HasMagic(pattern) ==> forall n :: n in Listing(fs, dir) && Match(pattern, n) && (IsHidden(pattern) || !IsHidden(n))
                                   ==> Join(dir, n) in r
    ensures HasMagic(pattern) ==> var names := Selected(Listing(fs, dir), pattern);
                                  |r| == |names| && forall i :: 0 <= i < |r| ==> r[i] == Join(dir, names[i])
  {
    if !HasMagic(pattern) then
      (if Exists(fs, Join(dir, pattern)) then [Join(dir, pattern)] else [])
    else
      var names := Selected(Listing(fs, dir), pattern);
      var r := seq(|names|, i requires 0 <= i < |names| => Join(dir, names[i]));
      assert forall n :: n in names ==> Join(dir, n) in r by {
        forall n | n in names
          ensures Join(dir, n) in r
        {
          var i :| 0 <= i < |names| && names[i] == n;
          assert r[i] == Join(dir, n);
        }
      }
      r
  }

  /** A wildcard pattern lists names of the directory that it matches. */
  lemma GlobSelects(fs: FileSystem, dir: Path, pattern: string, i: nat)
    requires HasMagic(pattern) && i < |Glob(fs, dir, pattern)|
    ensures Basename(Glob(fs, dir, pattern)[i]) in Listing(fs, dir)
    ensures Match(pattern, Basename(Glob(fs, dir, pattern)[i]))
  {
  }

  /** In a well-formed tree every glob hit exists. */
  lemma GlobHitsExist(fs: FileSystem, dir: Path, pattern: string, i: nat)
    requires WellFormed(fs)
    requires i < |Glob(fs, dir, pattern)|
    ensures Exists(fs, Glob(fs, dir, pattern)[i])
  {
    if HasMagic(pattern) {
      var p := Glob(fs, dir, pattern)[i];
      assert p == dir + [Basename(p)];
    }
  }

  // ---------------------------------------------------------------------
  // What the patterns the driver uses select

  /** A pattern without wildcards matches only itself. */
  lemma {:induction false} MatchLiteral(pattern: string, name: string)
    requires !HasMagic(pattern)
    ensures Match(pattern, name) <==> name == pattern
  {
    if pattern != [] && name != [] {
      MatchLiteral(pattern[1..], name[1..]);
      assert pattern == [pattern[0]] + pattern[1..];
      assert name == [name[0]] + name[1..];
    }
  }

  /** `*` followed by a literal selects exactly the names that end with the
      literal: `*.pddl` selects the names ending in `.pddl`. */
  lemma {:induction false} MatchStarSuffix(lit: string, name: string)
    requires !HasMagic(lit)
    ensures Match(['*'] + lit, name) <==> EndsWith(name, lit)
    decreases |name|
  {
    var p := ['*'] + lit;
    assert p[1..] == lit;
    MatchLiteral(lit, name);
    if name != [] {
      MatchStarSuffix(lit, name[1..]);
      if |lit| <= |name[1..]| {
        assert name[1..][|name[1..]| - |lit|..] == name[|name| - |lit|..];
      }
    }
  }

  /** A glob of `*` followed by a literal lists only names of the directory that end with
      `lit`. */
  lemma GlobStarSuffix(fs: FileSystem, dir: Path, lit: string, i: nat)
    requires !HasMagic(lit) && i < |Glob(fs, dir, ['*'] + lit)|
    ensures Dirname(Glob(fs, dir, ['*'] + lit)[i]) == dir
    ensures EndsWith(Basename(Glob(fs, dir, ['*'] + lit)[i]), lit)
  {
    assert HasMagic(['*'] + lit) by { assert (['*'] + lit)[0] == '*'; }
    GlobSelects(fs, dir, ['*'] + lit, i);
    MatchStarSuffix(lit, Basename(Glob(fs, dir, ['*'] + lit)[i]));
  }

  lemma {:induction false} MatchLiteralPrefix(lit: string, rest: string, name: string)
    requires !HasMagic(lit) && StartsWith(name, lit) && Match(rest, name[|lit|..])
    ensures Match(lit + rest, name)
  {
    if lit != [] {
      assert (lit + rest)[1..] == lit[1..] + rest;
      assert name[1..][|lit[1..]|..] == name[|lit|..];
      MatchLiteralPrefix(lit[1..], rest, name[1..]);
    } else {
      assert lit + rest == rest;
    }
  }

  lemma {:induction false} MatchStarSkip(rest: string, name: string, k: nat)
    requires k <= |name| && Match(rest, name[k..])
    ensures Match(['*'] + rest, name)
    decreases k
  {
    assert (['*'] + rest)[1..] == rest;
    if k > 0 {
      assert name[1..][k - 1..] == name[k..];
      MatchStarSkip(rest, name[1..], k - 1);
    }
  }

  /** `*` + `x` + `d` + `s` selects nothing that `*` + `d` + `*` + `s`
      misses, for literals `x`, `d`, `s`. */
  lemma StarInfixSubsumed(x: string, d: string, s: string, name: string)
    requires !HasMagic(x) && !HasMagic(d) && !HasMagic(s)
    requires Match(['*'] + (x + d + s), name)
    ensures Match(['*'] + (d + (['*'] + s)), name)
  {
    var lit := x + d + s;
    assert !HasMagic(lit) by {
      assert forall c :: c in lit ==> c in x || c in d || c in s;
    }
    assert EndsWith(name, lit) by {
      MatchStarSuffix(lit, name);
    }
    var k := |name| - |lit|;
    var tail := name[k + |x|..];
    assert tail == d + s by {
      assert name[k..] == lit;
      assert name[k..][|x|..] == tail;
    }
    assert Match(['*'] + s, tail[|d|..]) by {
      assert tail[|d|..] == s;
      MatchStarSuffix(s, s);
    }
    assert Match(d + (['*'] + s), tail) by {
      MatchLiteralPrefix(d, ['*'] + s, tail);
    }
    MatchStarSkip(d + (['*'] + s), name, k + |x|);
  }

  /** Every name `*.domain.pddl` selects is also selected by
      `*domain*.pddl`, which the resolver tries first, so the former can
      never be the first pattern to hit. */
  lemma DotDomainSubsumed(name: string)
    requires Match("*.domain.pddl", name)
    ensures Match("*domain*.pddl", name)
  {
    assert "*.domain.pddl" == ['*'] + ("." + "domain" + ".pddl");
    assert !HasMagic(".") && !HasMagic("domain") && !HasMagic(".pddl");
    StarInfixSubsumed(".", "domain", ".pddl", name);
    assert ['*'] + ("domain" + (['*'] + ".pddl")) == "*domain*.pddl";
  }
}
