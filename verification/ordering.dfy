/** The standard library's stable sort, as far as the program relies on it. */
module Ordering {
  /** Puts x in front of the first element that does not come before it. */
  function Insert<T>(x: T, s: seq<T>, less: (T, T) -> bool): seq<T> {
    if s == [] || !less(s[0], x) then [x] + s
    else [s[0]] + Insert(x, s[1..], less)
  }

  function Sort<T>(s: seq<T>, less: (T, T) -> bool): seq<T> {
    if s == [] then [] else Insert(s[0], Sort(s[1..], less), less)
  }

  /** less tells any two different elements of s apart and orders them transitively. */
  ghost predicate TotalOn<T>(s: set<T>, less: (T, T) -> bool) {
    && (forall x, y {:trigger less(x, y)} :: x in s && y in s && x != y ==> less(x, y) == !less(y, x))
    && (forall x, y, z {:trigger less(x, y), less(y, z)} ::
          x in s && y in s && z in s && less(x, y) && less(y, z) ==> less(x, z))
  }

  function Elements<T>(s: seq<T>): set<T> {
    set x | x in s
  }

  lemma {:induction false} InsertPermutes<T>(x: T, s: seq<T>, less: (T, T) -> bool)
    ensures multiset(Insert(x, s, less)) == multiset{x} + multiset(s)
  {
    if s != [] && less(s[0], x) {
      InsertPermutes(x, s[1..], less);
      assert s == [s[0]] + s[1..];
    }
  }

  lemma {:induction false} SortPermutes<T>(s: seq<T>, less: (T, T) -> bool)
    ensures multiset(Sort(s, less)) == multiset(s)
    ensures |Sort(s, less)| == |s|
    ensures forall x :: x in Sort(s, less) <==> x in s
  {
    if s != [] {
      SortPermutes(s[1..], less);
      InsertPermutes(s[0], Sort(s[1..], less), less);
      assert s == [s[0]] + s[1..];
    }
    assert |multiset(Sort(s, less))| == |multiset(s)|;
    forall x ensures x in Sort(s, less) <==> x in s {
      assert x in multiset(Sort(s, less)) <==> x in multiset(s);
    }
  }

  /** No element comes before one that stands earlier. */
  ghost predicate Sorted<T>(s: seq<T>, less: (T, T) -> bool) {
    forall i, j :: 0 <= i < j < |s| ==> !less(s[j], s[i])
  }

  /** less may leave elements tied, as the collation of equal names does. */
  ghost predicate WeakOrder<T(!new)>(less: (T, T) -> bool) {
    && (forall x, y {:trigger less(x, y)} :: less(x, y) ==> !less(y, x))
    && (forall x, y, z {:trigger less(x, y), less(x, z)} {:trigger less(x, z), less(y, z)} ::
          less(x, z) ==> less(x, y) || less(y, z))
  }

  lemma {:induction false} InsertSorts<T(!new)>(x: T, s: seq<T>, less: (T, T) -> bool)
    requires Sorted(s, less) && WeakOrder(less)
    ensures Sorted(Insert(x, s, less), less)
  {
    var r := Insert(x, s, less);
    if s == [] || !less(s[0], x) {
      forall j | 0 <= j < |s| ensures !less(s[j], x) {
        assert !less(s[j], s[0]);
      }
    } else {
      var rest := s[1..];
      InsertSorts(x, rest, less);
      InsertPermutes(x, rest, less);
      forall j | 1 <= j < |r| ensures !less(r[j], s[0]) {
        assert r[j] in multiset(r[1..]);
        assert r[j] == x || r[j] in rest;
      }
    }
  }

  lemma {:induction false} SortSorts<T(!new)>(s: seq<T>, less: (T, T) -> bool)
    requires WeakOrder(less)
    ensures Sorted(Sort(s, less), less)
  {
    if s != [] {
      SortSorts(s[1..], less);
      InsertSorts(s[0], Sort(s[1..], less), less);
    }
  }

  lemma {:induction false} InsertCommutes<T>(x: T, y: T, s: seq<T>, less: (T, T) -> bool)
    requires TotalOn({x, y} + Elements(s), less)
    ensures Insert(x, Insert(y, s, less), less) == Insert(y, Insert(x, s, less), less)
  {
    if x == y {
    } else if s == [] {
      assert Insert(y, s, less) == [y] && Insert(x, s, less) == [x];
    } else {
      var rest := s[1..];
      assert Elements(rest) <= Elements(s) && s[0] in Elements(s);
      InsertCommutes(x, y, rest, less);
      var a, b := Insert(x, s, less), Insert(y, s, less);
      assert less(x, y) == !less(y, x);
      assert less(s[0], x) ==> a[0] == s[0] && a[1..] == Insert(x, rest, less);
      assert less(s[0], y) ==> b[0] == s[0] && b[1..] == Insert(y, rest, less);
      assert !less(s[0], x) ==> a[0] == x && a[1..] == s;
      assert !less(s[0], y) ==> b[0] == y && b[1..] == s;
    }
  }

  function Without<T>(s: seq<T>, i: nat): seq<T>
    requires i < |s|
  {
    s[..i] + s[i + 1..]
  }

  lemma TotalOnPart<T>(part: set<T>, s: set<T>, less: (T, T) -> bool)
    requires part <= s && TotalOn(s, less)
    ensures TotalOn(part, less)
  {
  }

  lemma {:induction false} SortExtracts<T>(s: seq<T>, i: nat, less: (T, T) -> bool)
    requires i < |s| && TotalOn(Elements(s), less)
    ensures Sort(s, less) == Insert(s[i], Sort(Without(s, i), less), less)
  {
    hide TotalOn, Insert;
    if i == 0 {
      assert Without(s, 0) == s[1..];
    } else {
      var rest := s[1..];
      TotalOnPart(Elements(rest), Elements(s), less);
      SortExtracts(rest, i - 1, less);
      assert Without(s, i)[1..] == Without(rest, i - 1) && Without(s, i)[0] == s[0];
      var tail := Sort(Without(rest, i - 1), less);
      SortPermutes(Without(rest, i - 1), less);
      TotalOnPart({s[0], s[i]} + Elements(tail), Elements(s), less);
      InsertCommutes(s[0], s[i], tail, less);
    }
  }

  ghost predicate NoRepeats<T(!new)>(s: seq<T>) {
    forall i, j :: 0 <= i < j < |s| ==> s[i] != s[j]
  }

  lemma {:induction false} OnceIn<T(!new)>(s: seq<T>, x: T)
    requires NoRepeats(s)
    ensures multiset(s)[x] <= 1
  {
    if s != [] {
      assert s == [s[0]] + s[1..];
      OnceIn(s[1..], x);
      assert x in multiset(s[1..]) <==> x in s[1..];
    }
  }

  lemma NoRepeatsPermuted<T(!new)>(a: seq<T>, b: seq<T>)
    requires NoRepeats(a) && multiset(a) == multiset(b)
    ensures NoRepeats(b)
  {
    forall i, j | 0 <= i < j < |b| ensures b[i] != b[j] {
      if b[i] == b[j] {
        WithoutDropsOne(b, i);
        assert Without(b, i)[j - 1] == b[j];
        assert multiset(a)[b[i]] >= 2;
        OnceIn(a, b[i]);
      }
    }
  }

  /** Lists without repeats and with the same elements are permutations of each other. */
  lemma SameMultiset<T(!new)>(a: seq<T>, b: seq<T>)
    requires NoRepeats(a) && NoRepeats(b) && forall x :: x in a <==> x in b
    ensures multiset(a) == multiset(b)
  {
    forall x ensures multiset(a)[x] == multiset(b)[x] {
      OnceIn(a, x);
      OnceIn(b, x);
      assert x in multiset(a) <==> x in a;
      assert x in multiset(b) <==> x in b;
    }
  }

  lemma SameElements<T>(a: seq<T>, b: seq<T>)
    requires multiset(a) == multiset(b)
    ensures Elements(a) == Elements(b) && |a| == |b|
  {
    forall x ensures x in a <==> x in b {
      assert x in multiset(a) <==> x in multiset(b);
    }
    assert |multiset(a)| == |multiset(b)|;
  }

  lemma WithoutDropsOne<T>(s: seq<T>, i: nat)
    requires i < |s|
    ensures multiset(s) == multiset{s[i]} + multiset(Without(s, i))
  {
    assert s == s[..i] + [s[i]] + s[i + 1..];
  }

  /** Sorting forgets the order of arrival. */
  lemma {:induction false} SortUnique<T>(a: seq<T>, b: seq<T>, less: (T, T) -> bool)
    requires multiset(a) == multiset(b) && TotalOn(Elements(a), less)
    ensures Sort(a, less) == Sort(b, less)
  {
    hide TotalOn, Insert;
    SameElements(a, b);
    if a != [] {
      assert a[0] in Elements(b);
      var i :| 0 <= i < |b| && b[i] == a[0];
      SortExtracts(b, i, less);
      WithoutDropsOne(b, i);
      WithoutDropsOne(a, 0);
      assert Without(a, 0) == a[1..];
      assert multiset(Without(b, i)) == multiset(b) - multiset{a[0]};
      assert multiset(a) - multiset{a[0]} == multiset(a[1..]);
      TotalOnPart(Elements(a[1..]), Elements(a), less);
      SortUnique(a[1..], Without(b, i), less);
    }
  }
}
