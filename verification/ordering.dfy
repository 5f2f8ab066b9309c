/** Orders, stable sorting and sorted enumeration, as the Rust standard library provides
    them to the repository (`Ord` on byte and character strings, `sort_by`, `BTreeMap` and
    `BTreeSet` iteration). */
module Ordering {

  ghost predicate TotalPreorder<T(!new)>(le: (T, T) -> bool) {
    && (forall x, y :: le(x, y) || le(y, x))
    && (forall x, y, z :: le(x, y) && le(y, z) ==> le(x, z))
  }

  ghost predicate TotalOrder<T(!new)>(le: (T, T) -> bool) {
    TotalPreorder(le) && forall x, y :: le(x, y) && le(y, x) ==> x == y
  }

  ghost predicate Sorted<T>(le: (T, T) -> bool, s: seq<T>) {
    forall i, j :: 0 <= i < j < |s| ==> le(s[i], s[j])
  }

  ghost predicate Distinct<T>(s: seq<T>) {
    forall i, j :: 0 <= i < j < |s| ==> s[i] != s[j]
  }

  lemma ConcatAssoc<T>(a: seq<T>, b: seq<T>, c: seq<T>)
    ensures (a + b) + c == a + (b + c)
  {
  }

  // ----- Permutations -----

  lemma TailsPermute<T>(a: seq<T>, b: seq<T>)
    requires a != [] && b != [] && a[0] == b[0] && multiset(a) == multiset(b)
    ensures multiset(a[1..]) == multiset(b[1..])
  {
    MultisetTail(a);
    MultisetTail(b);
  }

  lemma PermutationLength<T>(a: seq<T>, b: seq<T>)
    requires multiset(a) == multiset(b)
    ensures |a| == |b|
  {
    assert |multiset(a)| == |a| && |multiset(b)| == |b|;
  }

  lemma MultisetWithout<T>(s: seq<T>, i: nat)
    requires i < |s|
    ensures multiset(s[..i] + s[i + 1..]) == multiset(s) - multiset{s[i]}
  {
    assert s == s[..i] + ([s[i]] + s[i + 1..]);
  }

  lemma MultisetTail<T>(s: seq<T>)
    requires s != []
    ensures multiset(s[1..]) == multiset(s) - multiset{s[0]}
  {
    assert s == [s[0]] + s[1..];
  }

  lemma PermutationIndex<T>(a: seq<T>, b: seq<T>, i: nat) returns (j: nat)
    requires multiset(a) == multiset(b) && i < |a|
    ensures j < |b| && b[j] == a[i]
  {
    assert a[i] in multiset(a);
    assert a[i] in b;
    j :| 0 <= j < |b| && b[j] == a[i];
  }

  function Map<T, U>(f: T -> U, s: seq<T>): (r: seq<U>)
    ensures |r| == |s|
  {
    seq(|s|, i requires 0 <= i < |s| => f(s[i]))
  }

  lemma MapAt<T, U>(f: T -> U, s: seq<T>, i: nat)
    requires i < |s|
    ensures Map(f, s)[i] == f(s[i])
  {
  }

  lemma MapSplit<T, U>(f: T -> U, s: seq<T>, j: nat)
    requires j < |s|
    ensures multiset(Map(f, s)) == multiset{f(s[j])} + multiset(Map(f, s[..j] + s[j + 1..]))
  {
    var without := s[..j] + s[j + 1..];
    assert Map(f, without) == Map(f, s)[..j] + Map(f, s)[j + 1..];
    MultisetWithout(Map(f, s), j);
  }

  lemma MapHead<T, U>(f: T -> U, s: seq<T>)
    requires s != []
    ensures multiset(Map(f, s)) == multiset{f(s[0])} + multiset(Map(f, s[1..]))
  {
    assert Map(f, s) == [f(s[0])] + Map(f, s[1..]);
  }

  /** Permuting a list permutes its images. */
  lemma {:induction false} MapPermutes<T, U>(f: T -> U, a: seq<T>, b: seq<T>)
    requires multiset(a) == multiset(b)
    ensures multiset(Map(f, a)) == multiset(Map(f, b))
  {
    PermutationLength(a, b);
    if a != [] {
      hide Map;
      var j := PermutationIndex(a, b, 0);
      var rest := b[..j] + b[j + 1..];
      assert multiset(a[1..]) == multiset(rest) by {
        MultisetTail(a);
        MultisetWithout(b, j);
      }
      MapPermutes(f, a[1..], rest);
      MapSplit(f, b, j);
      MapHead(f, a);
    }
  }

  lemma DistinctCount<T>(a: seq<T>, i: nat, j: nat)
    requires i < j < |a| && a[i] == a[j]
    ensures multiset(a)[a[i]] >= 2
  {
    MultisetWithout(a, j);
    var rest := a[..j] + a[j + 1..];
    assert rest[i] == a[i];
    assert a[i] in multiset(rest);
  }

  /** Having no repeated element is a property of the multiset. */
  lemma {:induction false} DistinctOnce<T>(a: seq<T>, x: T)
    requires Distinct(a)
    ensures multiset(a)[x] <= 1
  {
    if a != [] {
      MultisetTail(a);
      DistinctOnce(a[1..], x);
      assert a == [a[0]] + a[1..];
      if x == a[0] { assert x !in a[1..]; }
    }
  }

  lemma DistinctPermutes<T>(a: seq<T>, b: seq<T>)
    requires Distinct(a) && multiset(a) == multiset(b)
    ensures Distinct(b)
  {
    forall i, j | 0 <= i < j < |b| ensures b[i] != b[j] {
      DistinctOnce(a, b[i]);
      if b[i] == b[j] { DistinctCount(b, i, j); }
    }
  }

  lemma SortedHeads<T(!new)>(le: (T, T) -> bool, a: seq<T>, b: seq<T>)
    requires TotalOrder(le) && Sorted(le, a) && Sorted(le, b) && multiset(a) == multiset(b)
    requires a != [] && b != []
    ensures a[0] == b[0]
  {
    var i := PermutationIndex(a, b, 0);
    var j := PermutationIndex(b, a, 0);
    assert le(a[0], a[j]) && le(b[0], b[i]);
  }

  /** Two sorted arrangements of one multiset are equal. */
  lemma {:induction false} SortedUnique<T(!new)>(le: (T, T) -> bool, a: seq<T>, b: seq<T>)
    requires TotalOrder(le) && Sorted(le, a) && Sorted(le, b) && multiset(a) == multiset(b)
    ensures a == b
  {
    PermutationLength(a, b);
    if a != [] {
      SortedHeads(le, a, b);
      hide TotalOrder;
      MultisetTail(a);
      MultisetTail(b);
      SortedUnique(le, a[1..], b[1..]);
      assert a == [a[0]] + a[1..] && b == [b[0]] + b[1..];
    }
  }

  // ----- Stable sorting -----

  /** Places `x` before the first element that is not strictly smaller. */
  function Insert<T>(le: (T, T) -> bool, x: T, s: seq<T>): seq<T> {
    if s == [] || le(x, s[0]) then [x] + s else [s[0]] + Insert(le, x, s[1..])
  }

  /** `slice::sort_by`: a stable sort. */
  function SortBy<T>(le: (T, T) -> bool, s: seq<T>): seq<T> {
    if s == [] then [] else Insert(le, s[0], SortBy(le, s[1..]))
  }

  predicate Equiv<T>(le: (T, T) -> bool, x: T, y: T) {
    le(x, y) && le(y, x)
  }

  /** The elements of `s` that compare equal to `k`, in their order in `s`. */
  function ClassOf<T>(le: (T, T) -> bool, k: T, s: seq<T>): seq<T> {
    if s == [] then [] else (if Equiv(le, k, s[0]) then [s[0]] else []) + ClassOf(le, k, s[1..])
  }

  lemma {:induction false} InsertPermutes<T>(le: (T, T) -> bool, x: T, s: seq<T>)
    ensures multiset(Insert(le, x, s)) == multiset{x} + multiset(s)
  {
    if !(s == [] || le(x, s[0])) {
      InsertPermutes(le, x, s[1..]);
      assert s == [s[0]] + s[1..];
    }
  }

  lemma {:induction false} InsertSorts<T(!new)>(le: (T, T) -> bool, x: T, s: seq<T>)
    requires TotalPreorder(le) && Sorted(le, s)
    ensures Sorted(le, Insert(le, x, s))
  {
    if !(s == [] || le(x, s[0])) {
      var tail := Insert(le, x, s[1..]);
      InsertSorts(le, x, s[1..]);
      InsertPermutes(le, x, s[1..]);
      forall y | y in tail ensures le(s[0], y) {
        assert y in multiset(tail);
        assert y == x || y in s[1..];
      }
    }
  }

  lemma {:induction false} InsertClass<T(!new)>(le: (T, T) -> bool, x: T, s: seq<T>, k: T)
    requires TotalPreorder(le)
    ensures ClassOf(le, k, Insert(le, x, s)) == (if Equiv(le, k, x) then [x] else []) + ClassOf(le, k, s)
  {
    if s == [] || le(x, s[0]) {
      assert ([x] + s)[1..] == s;
    } else {
      var tail := Insert(le, x, s[1..]);
      InsertClass(le, x, s[1..], k);
      assert ([s[0]] + tail)[1..] == tail;
      var rest := ClassOf(le, k, s[1..]);
      assert [] + rest == rest && [] + ([x] + rest) == [x] + rest && [] + ([s[0]] + rest) == [s[0]] + rest;
      if Equiv(le, k, x) {
        assert !Equiv(le, k, s[0]);
        assert ClassOf(le, k, s) == rest;
      } else {
        assert ClassOf(le, k, tail) == rest;
      }
    }
  }

  /** `SortBy` sorts, permutes, and never reorders elements that compare equal. */
  lemma {:induction false} SortIsStable<T(!new)>(le: (T, T) -> bool, s: seq<T>)
    requires TotalPreorder(le)
    ensures Sorted(le, SortBy(le, s))
    ensures multiset(SortBy(le, s)) == multiset(s)
    ensures forall k :: ClassOf(le, k, SortBy(le, s)) == ClassOf(le, k, s)
  {
    if s != [] {
      var rest := SortBy(le, s[1..]);
      SortIsStable(le, s[1..]);
      InsertPermutes(le, s[0], rest);
      InsertSorts(le, s[0], rest);
      assert s == [s[0]] + s[1..];
      forall k ensures ClassOf(le, k, SortBy(le, s)) == ClassOf(le, k, s) {
        InsertClass(le, s[0], rest, k);
      }
    }
  }

  /** Sorting by a key sorts and permutes the keys. */
  lemma SortedImages<T(!new), U>(f: T -> U, le: (T, T) -> bool, leKey: (U, U) -> bool, s: seq<T>)
    requires TotalPreorder(le) && forall x, y :: le(x, y) ==> leKey(f(x), f(y))
    ensures Sorted(leKey, Map(f, SortBy(le, s)))
    ensures multiset(Map(f, SortBy(le, s))) == multiset(Map(f, s)) && |SortBy(le, s)| == |s|
  {
    SortIsStable(le, s);
    var sorted := SortBy(le, s);
    hide SortBy, TotalPreorder;
    MapPermutes(f, sorted, s);
    PermutationLength(sorted, s);
    var keys := Map(f, sorted);
    forall i, j | 0 <= i < j < |keys| ensures leKey(keys[i], keys[j]) {
      assert le(sorted[i], sorted[j]);
    }
  }

  lemma {:induction false} ClassMember<T(!new)>(le: (T, T) -> bool, k: T, s: seq<T>, i: nat)
    requires i < |s| && Equiv(le, k, s[i])
    ensures ClassOf(le, k, s) != []
  {
    if i > 0 { ClassMember(le, k, s[1..], i - 1); }
  }

  lemma {:induction false} ClassWitness<T(!new)>(le: (T, T) -> bool, k: T, s: seq<T>) returns (i: nat)
    requires ClassOf(le, k, s) != []
    ensures i < |s| && Equiv(le, k, s[i])
  {
    if Equiv(le, k, s[0]) { i := 0; } else { i := ClassWitness(le, k, s[1..]); i := i + 1; }
  }

  /** A sorted sequence is determined by its classes: there is only one stable sort. */
  lemma {:induction false} StableSortUnique<T(!new)>(le: (T, T) -> bool, a: seq<T>, b: seq<T>)
    requires TotalPreorder(le) && Sorted(le, a) && Sorted(le, b)
    requires forall k :: ClassOf(le, k, a) == ClassOf(le, k, b)
    ensures a == b
  {
    if a != [] {
      ClassMember(le, a[0], a, 0);
      var i := ClassWitness(le, a[0], b);
      ClassMember(le, b[0], b, 0);
      var j := ClassWitness(le, b[0], a);
      assert le(b[0], b[i]) && le(a[0], a[j]);
      assert Equiv(le, a[0], b[0]);
      assert ClassOf(le, a[0], a)[0] == a[0] && ClassOf(le, a[0], b)[0] == b[0];
      forall k ensures ClassOf(le, k, a[1..]) == ClassOf(le, k, b[1..]) {
        var head := if Equiv(le, k, a[0]) then [a[0]] else [];
        assert ClassOf(le, k, a) == head + ClassOf(le, k, a[1..]);
        assert ClassOf(le, k, b) == head + ClassOf(le, k, b[1..]);
        assert (head + ClassOf(le, k, a[1..]))[|head|..] == ClassOf(le, k, a[1..]);
        assert (head + ClassOf(le, k, b[1..]))[|head|..] == ClassOf(le, k, b[1..]);
      }
      StableSortUnique(le, a[1..], b[1..]);
      assert a == [a[0]] + a[1..] && b == [b[0]] + b[1..];
    }
  }

  /** Elements that compare equal come in the same order. */
  ghost predicate SameClasses<T(!new)>(le: (T, T) -> bool, a: seq<T>, b: seq<T>) {
    forall k :: ClassOf(le, k, a) == ClassOf(le, k, b)
  }

  /** Whatever algorithm `sort_by` uses, being sorted and stable leaves it no choice: its result
      is that of the insertion sort. */
  lemma SortByIsTheStableSort<T(!new)>(le: (T, T) -> bool, s: seq<T>, r: seq<T>)
    requires TotalPreorder(le)
    ensures Sorted(le, r) && SameClasses(le, r, s) <==> r == SortBy(le, s)
  {
    SortIsStable(le, s);
    var sorted := SortBy(le, s);
    if Sorted(le, r) && SameClasses(le, r, s) {
      forall k ensures ClassOf(le, k, r) == ClassOf(le, k, sorted) {}
      StableSortUnique(le, r, sorted);
    }
  }

  // ----- Sorted sets -----

  ghost predicate IsLeast<T>(le: (T, T) -> bool, m: T, s: set<T>) {
    m in s && forall y :: y in s ==> le(m, y)
  }

  lemma {:induction false} LeastExists<T(!new)>(le: (T, T) -> bool, s: set<T>)
    requires TotalPreorder(le) && s != {}
    ensures exists m :: IsLeast(le, m, s)
    decreases s
  {
    var x :| x in s;
    var rest := s - {x};
    if rest == {} {
      assert s == {x} && IsLeast(le, x, s);
    } else {
      LeastExists(le, rest);
      var n :| IsLeast(le, n, rest);
      assert s == {x} + rest;
      assert IsLeast(le, if le(x, n) then x else n, s);
    }
  }

  function Least<T(==, !new)>(le: (T, T) -> bool, s: set<T>): (m: T)
    requires TotalOrder(le) && s != {}
    ensures IsLeast(le, m, s)
  {
    LeastExists(le, s);
    assert exists m :: m in s && forall y :: y in s ==> le(m, y);
    var m :| m in s && forall y :: y in s ==> le(m, y);
    m
  }

  lemma LeastFirst<T(!new)>(le: (T, T) -> bool, s: set<T>, m: T, rest: seq<T>)
    requires IsLeast(le, m, s) && Sorted(le, rest) && Distinct(rest) && |rest| == |s - {m}|
    requires forall x :: x in rest <==> x in s - {m}
    ensures Sorted(le, [m] + rest) && Distinct([m] + rest) && |[m] + rest| == |s|
    ensures forall x :: x in [m] + rest <==> x in s
  {
    assert forall i :: 0 <= i < |rest| ==> rest[i] in s - {m};
  }

  /** Iteration order of a `BTreeSet`, and of the keys of a `BTreeMap`. */
  function SortedSet<T(==, !new)>(le: (T, T) -> bool, s: set<T>): (r: seq<T>)
    requires TotalOrder(le)
    ensures forall x :: x in r <==> x in s
    ensures Sorted(le, r) && Distinct(r)
    ensures |r| == |s|
    decreases s
  {
    if s == {} then [] else
      var m := Least(le, s);
      var rest := SortedSet(le, s - {m});
      LeastFirst(le, s, m, rest);
      [m] + rest
  }

  // ----- Lexicographic order -----

  ghost predicate StrictOrder<T(!new)>(lt: (T, T) -> bool) {
    && (forall x, y :: lt(x, y) || lt(y, x) || x == y)
    && (forall x, y :: lt(x, y) ==> !lt(y, x))
    && (forall x, y, z :: lt(x, y) && lt(y, z) ==> lt(x, z))
  }

  /** Slice and string comparison. */
  predicate LexLe<T(==)>(lt: (T, T) -> bool, a: seq<T>, b: seq<T>) {
    a == [] || (b != [] && (lt(a[0], b[0]) || (a[0] == b[0] && LexLe(lt, a[1..], b[1..]))))
  }

  lemma {:induction false} LexTotal<T(!new)>(lt: (T, T) -> bool, a: seq<T>, b: seq<T>)
    requires StrictOrder(lt)
    ensures LexLe(lt, a, b) || LexLe(lt, b, a)
    ensures LexLe(lt, a, b) && LexLe(lt, b, a) ==> a == b
  {
    if a != [] && b != [] {
      LexTotal(lt, a[1..], b[1..]);
      assert a == [a[0]] + a[1..] && b == [b[0]] + b[1..];
    }
  }

  lemma {:induction false} LexTransitive<T(!new)>(lt: (T, T) -> bool, a: seq<T>, b: seq<T>, c: seq<T>)
    requires StrictOrder(lt) && LexLe(lt, a, b) && LexLe(lt, b, c)
    ensures LexLe(lt, a, c)
  {
    if a != [] && a[0] == b[0] == c[0] { LexTransitive(lt, a[1..], b[1..], c[1..]); }
  }

  /** Equal up to position `i`, lexicographic order decides at `i`. */
  lemma {:induction false} LexAt<T(!new)>(lt: (T, T) -> bool, a: seq<T>, b: seq<T>, i: nat)
    requires StrictOrder(lt) && LexLe(lt, a, b)
    requires i < |a| && i < |b| && a[..i] == b[..i]
    ensures a[i] == b[i] || lt(a[i], b[i])
  {
    if i > 0 {
      assert a[0] == a[..i][0] == b[..i][0] == b[0];
      assert a[1..][..i - 1] == a[..i][1..] == b[..i][1..] == b[1..][..i - 1];
      LexAt(lt, a[1..], b[1..], i - 1);
    }
  }

  predicate CharLt(x: char, y: char) { x < y }

  /** `str` ordering: by Unicode scalar value, which is also the order of the UTF-8 bytes. */
  predicate StrLe(a: string, b: string) { LexLe(CharLt, a, b) }

  lemma StrLeIsTotalOrder()
    ensures TotalOrder(StrLe)
  {
    assert StrictOrder(CharLt);
    forall a, b ensures StrLe(a, b) || StrLe(b, a)
      ensures StrLe(a, b) && StrLe(b, a) ==> a == b
    {
      LexTotal(CharLt, a, b);
    }
    forall a, b, c | StrLe(a, b) && StrLe(b, c) ensures StrLe(a, c) {
      LexTransitive(CharLt, a, b, c);
    }
  }
}
