/**
 The contract of `Array.prototype.sort`: sorted by the comparison, nothing lost or added, and what
 compares equal stays in its old order. There is only one such arrangement.
 */
module StableSort {

  ghost predicate TotalPreorder<T(!new)>(le: (T, T) -> bool) {
    && (forall x, y :: le(x, y) || le(y, x))
    && (forall x, y, z :: le(x, y) && le(y, z) ==> le(x, z))
  }

  function Insert<T>(x: T, s: seq<T>, le: (T, T) -> bool): seq<T> {
    if s == [] || le(x, s[0]) then [x] + s else [s[0]] + Insert(x, s[1..], le)
  }

  function Sort<T>(s: seq<T>, le: (T, T) -> bool): seq<T> {
    if s == [] then [] else Insert(s[0], Sort(s[1..], le), le)
  }

  ghost predicate Sorted<T>(s: seq<T>, le: (T, T) -> bool) {
    forall i, j :: 0 <= i < j < |s| ==> le(s[i], s[j])
  }

  /** The elements that compare equal to `x`, in order. */
  function Class<T>(s: seq<T>, x: T, le: (T, T) -> bool): seq<T> {
    if s == [] then []
    else (if le(s[0], x) && le(x, s[0]) then [s[0]] else []) + Class(s[1..], x, le)
  }

  lemma {:induction false} InsertPermutes<T>(x: T, s: seq<T>, le: (T, T) -> bool)
    ensures multiset(Insert(x, s, le)) == multiset(s) + multiset{x}
  {
    if s != [] && !le(x, s[0]) {
      InsertPermutes(x, s[1..], le);
      assert s == [s[0]] + s[1..];
    }
  }

  lemma {:induction false} SortPermutes<T>(s: seq<T>, le: (T, T) -> bool)
    ensures multiset(Sort(s, le)) == multiset(s)
  {
    if s != [] {
      SortPermutes(s[1..], le);
      InsertPermutes(s[0], Sort(s[1..], le), le);
      assert s == [s[0]] + s[1..];
    }
  }

  lemma {:induction false} InsertSorts<T(!new)>(x: T, s: seq<T>, le: (T, T) -> bool)
    requires TotalPreorder(le) && Sorted(s, le)
    ensures Sorted(Insert(x, s, le), le)
  {
    if s != [] && !le(x, s[0]) {
      var rest := Insert(x, s[1..], le);
      InsertSorts(x, s[1..], le);
      InsertPermutes(x, s[1..], le);
      forall j | 0 <= j < |rest| ensures le(s[0], rest[j]) {
        assert rest[j] in multiset(rest);
        assert rest[j] == x || rest[j] in s[1..];
      }
    }
  }

  lemma {:induction false} InsertClass<T(!new)>(x: T, s: seq<T>, y: T, le: (T, T) -> bool)
    requires TotalPreorder(le)
    ensures Class(Insert(x, s, le), y, le) == Class([x] + s, y, le)
  {
    assert ([x] + s)[1..] == s;
    if s != [] && !le(x, s[0]) {
      var first, rest := s[0], s[1..];
      InsertClass(x, rest, y, le);
      assert ([x] + rest)[1..] == rest;
      assert ([first] + Insert(x, rest, le))[1..] == Insert(x, rest, le);
    }
  }

  /** The sorted list is sorted, is a permutation, and keeps the order of what compares equal. */
  lemma {:induction false} SortIsStable<T(!new)>(s: seq<T>, le: (T, T) -> bool)
    requires TotalPreorder(le)
    ensures Sorted(Sort(s, le), le)
    ensures multiset(Sort(s, le)) == multiset(s)
    ensures forall y :: Class(Sort(s, le), y, le) == Class(s, y, le)
  {
    if s != [] {
      SortIsStable(s[1..], le);
      InsertSorts(s[0], Sort(s[1..], le), le);
      InsertPermutes(s[0], Sort(s[1..], le), le);
      assert s == [s[0]] + s[1..];
      forall y ensures Class(Sort(s, le), y, le) == Class(s, y, le) {
        InsertClass(s[0], Sort(s[1..], le), y, le);
        assert ([s[0]] + Sort(s[1..], le))[1..] == Sort(s[1..], le);
      }
    }
  }

  lemma {:induction false} ClassAppend<T>(a: seq<T>, b: seq<T>, y: T, le: (T, T) -> bool)
    ensures Class(a + b, y, le) == Class(a, y, le) + Class(b, y, le)
  {
    if a == [] {
      assert a + b == b;
    } else {
      assert (a + b)[1..] == a[1..] + b;
      ClassAppend(a[1..], b, y, le);
    }
  }

  lemma ClassLast<T>(s: seq<T>, x: T, y: T, le: (T, T) -> bool)
    ensures Class(s + [x], y, le) == Class(s, y, le) + if le(x, y) && le(y, x) then [x] else []
  {
    ClassAppend(s, [x], y, le);
    assert [x][1..] == [];
  }

  lemma {:induction false} ClassMembers<T(!new)>(s: seq<T>, y: T, le: (T, T) -> bool)
    ensures forall x :: x in Class(s, y, le) <==> x in s && le(x, y) && le(y, x)
  {
    if s != [] {
      ClassMembers(s[1..], y, le);
      assert s == [s[0]] + s[1..];
    }
  }

  /** Two sorted lists with the same classes are the same list. */
  lemma {:induction false} SortedUnique<T(!new)>(a: seq<T>, b: seq<T>, le: (T, T) -> bool)
    requires TotalPreorder(le) && Sorted(a, le) && Sorted(b, le)
    requires forall y :: Class(a, y, le) == Class(b, y, le)
    ensures a == b
  {
    if a == [] {
      if b != [] {
        SameFirst(b, a, le);
      }
    } else {
      SameFirst(a, b, le);
      forall y ensures Class(a[1..], y, le) == Class(b[1..], y, le) {
        var own := if le(a[0], y) && le(y, a[0]) then [a[0]] else [];
        assert own + Class(a[1..], y, le) == Class(a, y, le) == Class(b, y, le) == own + Class(b[1..], y, le);
        assert (own + Class(a[1..], y, le))[|own|..] == Class(a[1..], y, le);
        assert (own + Class(b[1..], y, le))[|own|..] == Class(b[1..], y, le);
      }
      SortedUnique(a[1..], b[1..], le);
      assert a == [a[0]] + a[1..] && b == [b[0]] + b[1..];
    }
  }

  lemma SameFirst<T(!new)>(a: seq<T>, b: seq<T>, le: (T, T) -> bool)
    requires TotalPreorder(le) && Sorted(a, le) && Sorted(b, le)
    requires forall y :: Class(a, y, le) == Class(b, y, le)
    requires a != []
    ensures b != [] && a[0] == b[0]
  {
    var x := a[0];
    ClassMembers(a, x, le);
    ClassMembers(b, x, le);
    assert x in Class(a, x, le) && x in b;
    ClassMembers(a, b[0], le);
    ClassMembers(b, b[0], le);
    assert b[0] in Class(b, b[0], le) && b[0] in a;
    assert le(x, b[0]) && le(b[0], x);
    assert Class(a, x, le)[0] == x && Class(b, x, le)[0] == b[0];
  }

  /** Whatever is sorted and has the classes of `s` is the stable sort of `s`. */
  lemma StableSortUnique<T(!new)>(r: seq<T>, s: seq<T>, le: (T, T) -> bool)
    requires TotalPreorder(le) && Sorted(r, le)
    requires forall y :: Class(r, y, le) == Class(s, y, le)
    ensures r == Sort(s, le)
  {
    SortIsStable(s, le);
    SortedUnique(r, Sort(s, le), le);
  }

  /** Sorted, and nothing compares equal to anything after it. */
  ghost predicate StrictlySorted<T>(s: seq<T>, le: (T, T) -> bool) {
    forall i, j :: 0 <= i < j < |s| ==> le(s[i], s[j]) && !le(s[j], s[i])
  }

  /** Where nothing compares equal, a sorted permutation is the only one. */
  lemma {:induction false} SortedPermutationUnique<T>(a: seq<T>, b: seq<T>, le: (T, T) -> bool)
    requires StrictlySorted(a, le) && Sorted(b, le)
    requires multiset(a) == multiset(b)
    ensures a == b
  {
    assert |multiset(a)| == |a| && |multiset(b)| == |b|;
    if a != [] {
      SameLeast(a, b, le);
      WithoutFirst(a);
      WithoutFirst(b);
      SortedPermutationUnique(a[1..], b[1..], le);
    }
  }

  lemma SameLeast<T>(a: seq<T>, b: seq<T>, le: (T, T) -> bool)
    requires a != [] && b != [] && StrictlySorted(a, le) && Sorted(b, le)
    requires multiset(a) == multiset(b)
    ensures a[0] == b[0]
  {
    assert a[0] in multiset(b) && b[0] in multiset(a);
    var i :| 0 <= i < |b| && b[i] == a[0];
    var j :| 0 <= j < |a| && a[j] == b[0];
  }

  lemma WithoutFirst<T>(s: seq<T>)
    requires s != []
    ensures multiset(s[1..]) == multiset(s) - multiset{s[0]}
    ensures s == [s[0]] + s[1..]
  {
    assert s == [s[0]] + s[1..];
  }
}
