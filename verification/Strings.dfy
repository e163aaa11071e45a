/** Strings as the relay compares, lower-cases and sorts them. Case mapping is ASCII. */
module Strings {
  function LowerChar(c: char): char {
    if 'A' <= c <= 'Z' then c - 'A' + 'a' else c
  }

  /** strings.ToLower. */
  function ToLower(s: string): (r: string)
    ensures |r| == |s|
    ensures forall i | 0 <= i < |s| :: r[i] == LowerChar(s[i])
  {
    if s == "" then "" else [LowerChar(s[0])] + ToLower(s[1..])
  }

  lemma ToLowerIdempotent(s: string)
    ensures ToLower(ToLower(s)) == ToLower(s)
  {
  }

  /** The same character but for the case of an ASCII letter. */
  predicate SameLetter(c: char, d: char) {
    c == d || ('A' <= c <= 'Z' && d as int == c as int + 32) || ('A' <= d <= 'Z' && c as int == d as int + 32)
  }

  /** Two strings lower to the same one exactly when they differ in letter case only; a lowered string has
      no upper-case letter. */
  lemma LowerEqualIff(a: string, b: string)
    ensures ToLower(a) == ToLower(b) <==> |a| == |b| && forall i | 0 <= i < |a| :: SameLetter(a[i], b[i])
    ensures forall i | 0 <= i < |a| :: !('A' <= ToLower(a)[i] <= 'Z') && SameLetter(a[i], ToLower(a)[i])
  {
    forall i | 0 <= i < |a|
      ensures !('A' <= ToLower(a)[i] <= 'Z') && SameLetter(a[i], ToLower(a)[i])
      ensures i < |b| ==> (ToLower(a)[i] == ToLower(b)[i] <==> SameLetter(a[i], b[i]))
    {
      LowerCharIff(a[i], a[i]);
      if i < |b| {
        LowerCharIff(a[i], b[i]);
      }
      hide LowerChar, SameLetter;
    }
    hide LowerChar, SameLetter;
  }

  lemma LowerCharIff(c: char, d: char)
    ensures LowerChar(c) == LowerChar(d) <==> SameLetter(c, d)
    ensures !('A' <= LowerChar(c) <= 'Z') && SameLetter(c, LowerChar(c))
  {
  }

  /** Byte-wise lexicographic order, as sort.Strings uses it. */
  predicate Leq(a: string, b: string) {
    a == "" || (b != "" && (a[0] < b[0] || (a[0] == b[0] && Leq(a[1..], b[1..]))))
  }

  lemma {:induction false} LeqTotal(a: string, b: string)
    ensures Leq(a, b) || Leq(b, a)
  {
    if a != "" && b != "" && a[0] == b[0] {
      LeqTotal(a[1..], b[1..]);
    }
  }

  lemma {:induction false} LeqAntisymmetric(a: string, b: string)
    requires Leq(a, b) && Leq(b, a)
    ensures a == b
  {
    if a != "" {
      LeqAntisymmetric(a[1..], b[1..]);
      assert a == [a[0]] + a[1..] && b == [b[0]] + b[1..];
    }
  }

  lemma {:induction false} LeqTransitive(a: string, b: string, c: string)
    requires Leq(a, b) && Leq(b, c)
    ensures Leq(a, c)
  {
    if a != "" && a[0] == b[0] == c[0] {
      LeqTransitive(a[1..], b[1..], c[1..]);
    }
  }

  /** At the first difference the smaller character decides, and a prefix comes first. */
  lemma {:induction false} LeqIff(a: string, b: string)
    ensures Leq(a, b) <==> a <= b || exists k | 0 <= k < |a| && k < |b| :: a[..k] == b[..k] && a[k] < b[k]
  {
    if a != "" && b != "" {
      if a[0] == b[0] {
        LeqIff(a[1..], b[1..]);
        SameFirst(a, b);
      } else {
        assert a[0] < b[0] ==> a[..0] == b[..0] && a[0] < b[0];
      }
    }
  }

  /** Order and prefix are decided behind an equal first character. */
  lemma SameFirst(a: string, b: string)
    requires a != "" && b != "" && a[0] == b[0]
    ensures a <= b <==> a[1..] <= b[1..]
    ensures (exists k | 0 <= k < |a| && k < |b| :: a[..k] == b[..k] && a[k] < b[k]) <==>
              exists k | 0 <= k < |a| - 1 && k < |b| - 1 :: a[1..][..k] == b[1..][..k] && a[1..][k] < b[1..][k]
  {
    assert a == [a[0]] + a[1..] && b == [b[0]] + b[1..];
    if k :| 0 <= k < |a| && k < |b| && a[..k] == b[..k] && a[k] < b[k] {
      assert k > 0;
      assert a[1..][..k - 1] == a[..k][1..] && b[1..][..k - 1] == b[..k][1..];
      assert a[1..][k - 1] < b[1..][k - 1];
    }
    if k :| 0 <= k < |a| - 1 && k < |b| - 1 && a[1..][..k] == b[1..][..k] && a[1..][k] < b[1..][k] {
      assert a[..k + 1] == [a[0]] + a[1..][..k] && b[..k + 1] == [b[0]] + b[1..][..k];
      assert a[k + 1] < b[k + 1];
    }
  }

  ghost predicate Sorted(xs: seq<string>) {
    forall i, j | 0 <= i < j < |xs| :: Leq(xs[i], xs[j])
  }

  ghost predicate Distinct(xs: seq<string>) {
    forall i, j | 0 <= i < j < |xs| :: xs[i] != xs[j]
  }

  ghost function Elements(xs: seq<string>): set<string> {
    set x | x in xs
  }

  ghost function Lowered(xs: seq<string>): set<string> {
    set x | x in xs :: ToLower(x)
  }

  /** The sorted, duplicate-free list of a set is unique, so "the sorted list" is well defined. */
  lemma {:induction false} SortedListUnique(xs: seq<string>, ys: seq<string>)
    requires Sorted(xs) && Distinct(xs) && Sorted(ys) && Distinct(ys) && Elements(xs) == Elements(ys)
    ensures xs == ys
  {
    assert ys != [] ==> ys[0] in Elements(ys);
    if xs != [] {
      assert xs[0] in Elements(ys) && xs[0] in ys;
      assert ys != [];
      assert ys[0] in Elements(xs) && ys[0] in xs;
      assert xs[0] == ys[0] by {
        var i :| 0 <= i < |ys| && ys[i] == xs[0];
        var j :| 0 <= j < |xs| && xs[j] == ys[0];
        if i != 0 && j != 0 {
          assert Leq(ys[0], ys[i]) && Leq(xs[0], xs[j]);
          LeqAntisymmetric(xs[0], ys[0]);
        }
      }
      TailElements(xs);
      TailElements(ys);
      SortedListUnique(xs[1..], ys[1..]);
      assert xs == [xs[0]] + xs[1..] && ys == [ys[0]] + ys[1..];
    }
  }

  lemma TailElements(xs: seq<string>)
    requires xs != [] && Distinct(xs)
    ensures Elements(xs[1..]) == Elements(xs) - {xs[0]}
  {
  }

  // ---------------------------------------------------------------- sort.Strings over a set

  /** Inserts a string not yet in a sorted list. */
  function Insert(x: string, xs: seq<string>): seq<string> {
    if xs == [] || Leq(x, xs[0]) then [x] + xs else [xs[0]] + Insert(x, xs[1..])
  }

  lemma {:induction false} InsertElements(x: string, xs: seq<string>)
    ensures forall y :: y in Insert(x, xs) <==> y == x || y in xs
  {
    if xs != [] && !Leq(x, xs[0]) {
      InsertElements(x, xs[1..]);
      assert xs == [xs[0]] + xs[1..];
    }
  }

  lemma {:induction false} InsertKeepsSorted(x: string, xs: seq<string>)
    requires Sorted(xs) && Distinct(xs) && x !in xs
    ensures Sorted(Insert(x, xs)) && Distinct(Insert(x, xs))
  {
    if xs == [] {
    } else if Leq(x, xs[0]) {
      forall j | 0 <= j < |xs|
        ensures Leq(x, xs[j])
      {
        if j > 0 {
          LeqTransitive(x, xs[0], xs[j]);
        }
      }
    } else {
      LeqTotal(x, xs[0]);
      var rest := Insert(x, xs[1..]);
      InsertKeepsSorted(x, xs[1..]);
      InsertElements(x, xs[1..]);
      forall j | 0 <= j < |rest|
        ensures Leq(xs[0], rest[j]) && xs[0] != rest[j]
      {
        assert rest[j] in rest;
        if rest[j] != x {
          var i :| 0 <= i < |xs| - 1 && xs[1..][i] == rest[j];
          assert rest[j] == xs[i + 1];
        }
      }
    }
  }

  /** Collecting a set into a list and sorting it. */
  method SortedKeys(keys: set<string>) returns (xs: seq<string>)
    ensures Sorted(xs) && Distinct(xs) && Elements(xs) == keys
  {
    xs := [];
    var rest := keys;
    while rest != {}
      invariant rest <= keys
      invariant Sorted(xs) && Distinct(xs) && Elements(xs) == keys - rest
      decreases |rest|
    {
      var x :| x in rest;
      assert x !in Elements(xs);
      InsertKeepsSorted(x, xs);
      InsertElements(x, xs);
      assert Elements(Insert(x, xs)) == Elements(xs) + {x};
      xs := Insert(x, xs);
      rest := rest - {x};
    }
  }
}
