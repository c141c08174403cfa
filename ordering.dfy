/** The order in which a domain's problems are run, and how many of them
    (benchmark_pddl.py: `problem_sort_key`, `problem_files.sort`, and the
    truncation to `--max-problems`). */
module Ordering {
  import opened Text
  import opened Fs
  import Search

  /** What `problem_sort_key` returns: the first number in the file name
      (as an `int`), or the file name itself (as a `str`). */
  datatype SortKey = Num(n: nat) | Name(s: string)

  /** `problem_sort_key`: `re.findall(r'\d+', name)[0]` read as a number
      when the name has a digit, else the name. The first element of
      `findall` is the maximal digit run that starts at the first digit. */
  function KeyOf(p: Path): (k: SortKey)
    ensures k.Num? <==> exists i :: 0 <= i < |Basename(p)| && IsDigit(Basename(p)[i])
    ensures k.Name? ==> k.s == Basename(p)
  {
    var name := Basename(p);
    var i := Search.First(name, IsDigit);
    if i < |name| then Num(DigitsAt(name, i)) else Name(name)
  }

  /** A file name made of a digit-free head, a run of digits and a tail
      that does not start with a digit is keyed by the value of the run. */
  lemma KeyOfNumbered(dir: Path, head: string, digits: string, tail: string)
    requires forall c :: c in head ==> !IsDigit(c)
    requires digits != [] && AllDigits(digits)
    requires tail == [] || !IsDigit(tail[0])
    ensures KeyOf(Join(dir, head + digits + tail)) == Num(DigitsValue(digits))
  {
    var name := head + digits + tail;
    var i := |head|;
    assert name[i..i + |digits|] == digits;
    assert i + |digits| < |name| ==> name[i + |digits|] == tail[0];
    assert name[i] == digits[0];
    assert Search.First(name, IsDigit) == i by {
      forall k | 0 <= k < i
        ensures !IsDigit(name[k])
      {
        assert name[k] == head[k];
      }
    }
    ReadDigitsAt(name, i, digits);
  }

  /** In particular a name with the number `n` written out is keyed by
      `n`. */
  lemma KeyOfNumberedText(dir: Path, head: string, n: nat, tail: string)
    requires forall c :: c in head ==> !IsDigit(c)
    requires tail == [] || !IsDigit(tail[0])
    ensures KeyOf(Join(dir, head + NatText(n) + tail)) == Num(n)
  {
    KeyOfNumbered(dir, head, NatText(n), tail);
    NatTextRoundTrip(n);
  }

  /** The order Python's `<` gives keys of one kind: numbers by value,
      names by code points. A list with keys of both kinds is never
      ordered (comparing an `int` with a `str` raises), so the order put on
      mixed pairs here decides nothing. */
  predicate KeyLe(a: SortKey, b: SortKey) {
    match (a, b)
    case (Num(x), Num(y)) => x <= y
    case (Name(x), Name(y)) => LexLe(x, y)
    case (Num(_), Name(_)) => true
    case (Name(_), Num(_)) => false
  }

  lemma KeyLeTotal(a: SortKey, b: SortKey)
    ensures KeyLe(a, b) || KeyLe(b, a)
  {
    if a.Name? && b.Name? {
      LexLeTotal(a.s, b.s);
    }
  }

  lemma KeyLeTransitive(a: SortKey, b: SortKey, c: SortKey)
    requires KeyLe(a, b) && KeyLe(b, c)
    ensures KeyLe(a, c)
  {
    if a.Name? && b.Name? && c.Name? {
      LexLeTransitive(a.s, b.s, c.s);
    }
  }

  /** Python's `<` is defined between two keys exactly when they are of
      one kind. */
  predicate Comparable(a: SortKey, b: SortKey) {
    a.Num? == b.Num?
  }

  /** Some problem is keyed by a number and another by its name: sorting
      raises `TypeError`. Otherwise every two keys are comparable, and the
      list has at least two problems when it is mixed. */
  predicate MixedKeys<T>(xs: seq<T>, key: T -> SortKey)
    ensures !MixedKeys(xs, key) <==> forall i, j :: 0 <= i < |xs| && 0 <= j < |xs| ==> Comparable(key(xs[i]), key(xs[j]))
    ensures MixedKeys(xs, key) ==> |xs| >= 2
  {
    (exists i :: 0 <= i < |xs| && key(xs[i]).Num?) && (exists j :: 0 <= j < |xs| && key(xs[j]).Name?)
  }

  /** The keys `key` gives the elements never decrease along `xs`. */
  predicate Sorted<T>(xs: seq<T>, key: T -> SortKey) {
    forall i, j :: 0 <= i < j < |xs| ==> KeyLe(key(xs[i]), key(xs[j]))
  }

  // ---------------------------------------------------------------------
  // The stable sort

  /** `x` placed after every element whose key is not greater than its
      own, that is, before the first element with a greater key. */
  function Insert<T>(x: T, ys: seq<T>, key: T -> SortKey): (r: seq<T>)
    ensures |r| == |ys| + 1
  {
    if ys == [] then [x]
    else if !KeyLe(key(ys[0]), key(x)) then [x] + ys
    else
      assert ys == [ys[0]] + ys[1..];
      [ys[0]] + Insert(x, ys[1..], key)
  }

  /** `list.sort(key=...)`: a stable sort by key, here the insertion of
      each element in turn into the sorted prefix. */
  function Sort<T>(xs: seq<T>, key: T -> SortKey): (r: seq<T>)
    ensures |r| == |xs|
  {
    if xs == [] then []
    else Insert(xs[|xs| - 1], Sort(xs[..|xs| - 1], key), key)
  }

  /** The sort orders by key. */
  lemma {:induction false} SortSorts<T>(xs: seq<T>, key: T -> SortKey)
    ensures Sorted(Sort(xs, key), key)
  {
    if xs != [] {
      SortSorts(xs[..|xs| - 1], key);
      InsertKeepsSorted(xs[|xs| - 1], Sort(xs[..|xs| - 1], key), key);
    }
  }

  lemma {:induction false} InsertPermutes<T>(x: T, ys: seq<T>, key: T -> SortKey)
    ensures multiset(Insert(x, ys, key)) == multiset(ys) + multiset{x}
  {
    if ys != [] && KeyLe(key(ys[0]), key(x)) {
      InsertPermutes(x, ys[1..], key);
      assert ys == [ys[0]] + ys[1..];
    }
  }

  /** The sort keeps every element, as often as it occurs. */
  lemma {:induction false} SortPermutes<T>(xs: seq<T>, key: T -> SortKey)
    ensures multiset(Sort(xs, key)) == multiset(xs)
  {
    if xs != [] {
      var init := xs[..|xs| - 1];
      SortPermutes(init, key);
      InsertPermutes(xs[|xs| - 1], Sort(init, key), key);
      assert xs == init + [xs[|xs| - 1]];
    }
  }

  /** Inserting into a sorted list keeps it sorted. */
  lemma {:induction false} InsertKeepsSorted<T>(x: T, ys: seq<T>, key: T -> SortKey)
    requires Sorted(ys, key)
    ensures Sorted(Insert(x, ys, key), key)
  {
    var r := Insert(x, ys, key);
    if ys == [] {
    } else if !KeyLe(key(ys[0]), key(x)) {
      KeyLeTotal(key(ys[0]), key(x));
      forall i, j | 0 <= i < j < |r|
        ensures KeyLe(key(r[i]), key(r[j]))
      {
        if i == 0 && j > 1 {
          KeyLeTransitive(key(x), key(ys[0]), key(ys[j - 1]));
        }
      }
    } else {
      var tail := Insert(x, ys[1..], key);
      InsertKeepsSorted(x, ys[1..], key);
      InsertPermutes(x, ys[1..], key);
      forall i, j | 0 <= i < j < |r|
        ensures KeyLe(key(r[i]), key(r[j]))
      {
        if i == 0 {
          assert r[j] in multiset(ys[1..]) + multiset{x} by {
            assert r[j] == tail[j - 1];
          }
          if r[j] != x {
            var k :| 0 <= k < |ys[1..]| && ys[1..][k] == r[j];
            assert ys[k + 1] == r[j];
          }
        }
      }
    }
  }

  /** Insertion as the loop performs it: at the first position whose key
      is greater than the inserted one. */
  lemma {:induction false} InsertAt<T>(x: T, ys: seq<T>, key: T -> SortKey, j: nat)
    requires j <= |ys|
    requires forall m :: 0 <= m < j ==> KeyLe(key(ys[m]), key(x))
    requires j == |ys| || !KeyLe(key(ys[j]), key(x))
    ensures Insert(x, ys, key) == ys[..j] + [x] + ys[j..]
  {
    if j == 0 {
      assert ys[..0] + [x] + ys[0..] == [x] + ys;
    } else {
      InsertAt(x, ys[1..], key, j - 1);
      assert Insert(x, ys, key) == [ys[0]] + Insert(x, ys[1..], key);
      assert ys[..j] == [ys[0]] + ys[1..][..j - 1];
      assert ys[j..] == ys[1..][j - 1..];
    }
  }

  /** `list.sort(key=key)`, as `problem_files.sort(key=problem_sort_key)`
      calls it. */
  method SortByKey<T>(xs: seq<T>, key: T -> SortKey) returns (ys: seq<T>)
    ensures ys == Sort(xs, key)
  {
    ys := [];
    var k := 0;
    while k < |xs|
      invariant 0 <= k <= |xs|
      invariant ys == Sort(xs[..k], key)
    {
      var x := xs[k];
      var j := 0;
      while j < |ys| && KeyLe(key(ys[j]), key(x))
        invariant 0 <= j <= |ys|
        invariant forall m :: 0 <= m < j ==> KeyLe(key(ys[m]), key(x))
      {
        j := j + 1;
      }
      InsertAt(x, ys, key, j);
      ys := ys[..j] + [x] + ys[j..];
      assert xs[..k + 1][..k] == xs[..k];
      k := k + 1;
    }
    assert xs[..k] == xs;
  }

  // ---------------------------------------------------------------------
  // Stability

  /** The elements whose key is `k`, in list order. */
  function WithKey<T>(xs: seq<T>, key: T -> SortKey, k: SortKey): (r: seq<T>)
    ensures |r| <= |xs|
  {
    if xs == [] then []
    else (if key(xs[0]) == k then [xs[0]] else []) + WithKey(xs[1..], key, k)
  }

  lemma {:induction false} WithKeyConcat<T>(a: seq<T>, b: seq<T>, key: T -> SortKey, k: SortKey)
    ensures WithKey(a + b, key, k) == WithKey(a, key, k) + WithKey(b, key, k)
  {
    if a == [] {
      assert a + b == b;
    } else {
      var head := if key(a[0]) == k then [a[0]] else [];
      assert (a + b)[0] == a[0] && (a + b)[1..] == a[1..] + b;
      assert WithKey(a + b, key, k) == head + WithKey(a[1..] + b, key, k);
      WithKeyConcat(a[1..], b, key, k);
      assert head + (WithKey(a[1..], key, k) + WithKey(b, key, k))
             == (head + WithKey(a[1..], key, k)) + WithKey(b, key, k);
    }
  }

  lemma {:induction false} InsertStable<T>(x: T, ys: seq<T>, key: T -> SortKey, k: SortKey)
    requires Sorted(ys, key)
    ensures WithKey(Insert(x, ys, key), key, k) == WithKey(ys, key, k) + WithKey([x], key, k)
  {
    assert WithKey([x], key, k) == if key(x) == k then [x] else [];
    if ys == [] {
    } else if !KeyLe(key(ys[0]), key(x)) {
      WithKeyConcat([x], ys, key, k);
      if key(x) == k {
        NoneWithKey(ys, key, k);
      }
    } else {
      SortedTail(ys, key);
      InsertStable(x, ys[1..], key, k);
      var head := if key(ys[0]) == k then [ys[0]] else [];
      var rest := Insert(x, ys[1..], key);
      assert WithKey(Insert(x, ys, key), key, k) == head + WithKey(rest, key, k) by {
        var r := Insert(x, ys, key);
        assert r == [ys[0]] + rest;
        assert r[0] == ys[0] && r[1..] == rest;
      }
      ConcatAssoc(head, WithKey(ys[1..], key, k), WithKey([x], key, k));
    }
  }

  lemma ConcatAssoc<T>(a: seq<T>, b: seq<T>, c: seq<T>)
    ensures a + (b + c) == (a + b) + c
  {
  }

  /** The tail of a sorted list is sorted. */
  lemma SortedTail<T>(ys: seq<T>, key: T -> SortKey)
    requires Sorted(ys, key) && ys != []
    ensures Sorted(ys[1..], key)
  {
    forall i, j | 0 <= i < j < |ys[1..]|
      ensures KeyLe(key(ys[1..][i]), key(ys[1..][j]))
    {
      assert ys[1..][i] == ys[i + 1] && ys[1..][j] == ys[j + 1];
    }
  }

  /** In a sorted list whose first key is greater than `k`, no element has
      key `k`. */
  lemma NoneWithKey<T>(ys: seq<T>, key: T -> SortKey, k: SortKey)
    requires Sorted(ys, key) && ys != [] && !KeyLe(key(ys[0]), k)
    ensures WithKey(ys, key, k) == []
  {
    KeyLeTotal(key(ys[0]), key(ys[0]));
    forall i | 0 <= i < |ys|
      ensures key(ys[i]) != k
    {
      if i > 0 {
        assert KeyLe(key(ys[0]), key(ys[i]));
      }
    }
    NoneKept(ys, key, k);
  }

  lemma {:induction false} NoneKept<T>(xs: seq<T>, key: T -> SortKey, k: SortKey)
    requires forall i :: 0 <= i < |xs| ==> key(xs[i]) != k
    ensures WithKey(xs, key, k) == []
  {
    if xs != [] {
      NoneKept(xs[1..], key, k);
    }
  }

  /** The sort is stable: the elements that share a key keep their
      relative order. */
  lemma {:induction false} SortStable<T>(xs: seq<T>, key: T -> SortKey, k: SortKey)
    ensures WithKey(Sort(xs, key), key, k) == WithKey(xs, key, k)
  {
    if xs != [] {
      var init := xs[..|xs| - 1];
      var x := xs[|xs| - 1];
      SortStable(init, key, k);
      SortSorts(init, key);
      InsertStable(x, Sort(init, key), key, k);
      assert xs == init + [x];
      WithKeyConcat(init, [x], key, k);
    }
  }

  // ---------------------------------------------------------------------
  // Truncation

  /** Python's `xs[:m]`: a negative bound counts from the end. */
  function Truncate<T>(xs: seq<T>, m: int): (r: seq<T>)
    ensures |r| <= |xs| && r == xs[..|r|]
    ensures 0 <= m ==> |r| == if m < |xs| then m else |xs|
    ensures m < 0 ==> |r| == if |xs| + m > 0 then |xs| + m else 0
  {
    if m >= 0 then (if m < |xs| then xs[..m] else xs)
    else if |xs| + m > 0 then xs[..|xs| + m] else []
  }

  /** A non-negative bound keeps at most that many problems, and truncating
      twice with it changes nothing more. */
  lemma TruncateBound<T>(xs: seq<T>, m: int)
    requires m >= 0
    ensures |Truncate(xs, m)| <= m
    ensures Truncate(Truncate(xs, m), m) == Truncate(xs, m)
  {
  }

  /** A negative bound drops that many problems from the end; 0 drops all. */
  lemma TruncateNegative<T>(xs: seq<T>, m: int)
    requires m < 0 && -m <= |xs|
    ensures Truncate(xs, m) + xs[|xs| + m..] == xs
  {
  }

  // ---------------------------------------------------------------------
  // What the key order gives on typical names

  /** Three elements keyed 2, 10 and 1 come out keyed 1, 2, 10. */
  lemma SortThreeNumbers<T>(a: T, b: T, c: T, key: T -> SortKey)
    requires key(a) == Num(2) && key(b) == Num(10) && key(c) == Num(1)
    ensures Sort([a, b, c], key) == [c, a, b]
  {
    assert [a, b, c][..2] == [a, b] && [a, b][..1] == [a] && [a][..0] == [];
    assert [a][1..] == [];
    assert Sort([a], key) == [a];
    assert Insert(b, [a], key) == [a] + Insert(b, [], key);
    assert Sort([a, b], key) == [a, b];
  }

  /** Two elements with equal keys keep their order. */
  lemma SortEqualKeys<T>(a: T, b: T, key: T -> SortKey)
    requires key(a) == key(b)
    ensures Sort([a, b], key) == [a, b]
  {
    KeyLeTotal(key(a), key(a));
    assert [a, b][..1] == [a] && [a][..0] == [] && [a][1..] == [];
    assert Sort([a], key) == [a];
    assert Insert(b, [a], key) == [a] + Insert(b, [], key);
  }

  /** How the example names are spelled. */
  lemma ExampleSpellings()
    ensures "pb2.pddl" == "pb" + "2" + ".pddl"
    ensures "pb10.pddl" == "pb" + "10" + ".pddl"
    ensures "pb1.pddl" == "pb" + "1" + ".pddl"
    ensures "p01.pddl" == "p" + "01" + ".pddl"
    ensures "p1.pddl" == "p" + "1" + ".pddl"
    ensures DigitsValue("10") == 10 && DigitsValue("01") == 1
  {
    assert "10"[..1] == "1";
    assert "01"[..1] == "0";
  }

  lemma Pb2Key(dir: Path)
    ensures KeyOf(Join(dir, "pb2.pddl")) == Num(2)
  {
    ExampleSpellings();
    KeyOfNumbered(dir, "pb", "2", ".pddl");
  }

  lemma Pb10Key(dir: Path)
    ensures KeyOf(Join(dir, "pb10.pddl")) == Num(10)
  {
    ExampleSpellings();
    KeyOfNumbered(dir, "pb", "10", ".pddl");
  }

  lemma Pb1Key(dir: Path)
    ensures KeyOf(Join(dir, "pb1.pddl")) == Num(1)
  {
    ExampleSpellings();
    KeyOfNumbered(dir, "pb", "1", ".pddl");
  }

  /** `pb10` comes after `pb2`: names are ordered by their number, not by
      their text. */
  lemma NumericOrder(dir: Path)
    ensures Sort([Join(dir, "pb2.pddl"), Join(dir, "pb10.pddl"), Join(dir, "pb1.pddl")], KeyOf)
            == [Join(dir, "pb1.pddl"), Join(dir, "pb2.pddl"), Join(dir, "pb10.pddl")]
  {
    Pb2Key(dir);
    Pb10Key(dir);
    Pb1Key(dir);
    SortThreeNumbers(Join(dir, "pb2.pddl"), Join(dir, "pb10.pddl"), Join(dir, "pb1.pddl"), KeyOf);
  }

  /** `p01` and `p1` share the key 1 and keep the order of the listing. */
  lemma EqualNumbersKeepListingOrder(dir: Path)
    ensures var p01, p1 := Join(dir, "p01.pddl"), Join(dir, "p1.pddl");
            Sort([p01, p1], KeyOf) == [p01, p1] && Sort([p1, p01], KeyOf) == [p1, p01]
  {
    var p01, p1 := Join(dir, "p01.pddl"), Join(dir, "p1.pddl");
    assert KeyOf(p01) == KeyOf(p1) by {
      P01Key(dir);
      P1Key(dir);
    }
    SortEqualKeys(p01, p1, KeyOf);
    SortEqualKeys(p1, p01, KeyOf);
  }

  lemma P01Key(dir: Path)
    ensures KeyOf(Join(dir, "p01.pddl")) == Num(1)
  {
    ExampleSpellings();
    KeyOfNumbered(dir, "p", "01", ".pddl");
  }

  lemma P1Key(dir: Path)
    ensures KeyOf(Join(dir, "p1.pddl")) == Num(1)
  {
    ExampleSpellings();
    KeyOfNumbered(dir, "p", "1", ".pddl");
  }
}
