/** Text order and sorting.  Sorting is a library call in the program; here it is the
    function `Sort`, together with the facts the other modules need about it: it permutes,
    it orders, and it has only one possible outcome when equal keys mean equal elements. */
module Ordering {

  /** Byte-wise lexicographic order on strings. */
  predicate TextLe(a: string, b: string)
  {
    a == [] || (b != [] && (a[0] < b[0] || (a[0] == b[0] && TextLe(a[1..], b[1..]))))
  }

  lemma {:induction false} TextLeTotal(a: string, b: string)
    ensures TextLe(a, b) || TextLe(b, a)
  {
    if a != [] && b != [] && a[0] == b[0] {
      TextLeTotal(a[1..], b[1..]);
    }
  }

  lemma {:induction false} TextLeAntisymmetric(a: string, b: string)
    requires TextLe(a, b) && TextLe(b, a)
    ensures a == b
  {
    if a != [] && b != [] {
      TextLeAntisymmetric(a[1..], b[1..]);
      assert a == [a[0]] + a[1..] && b == [b[0]] + b[1..];
    }
  }

  lemma {:induction false} TextLeTransitive(a: string, b: string, c: string)
    requires TextLe(a, b) && TextLe(b, c)
    ensures TextLe(a, c)
  {
    if a != [] && a[0] == b[0] == c[0] {
      TextLeTransitive(a[1..], b[1..], c[1..]);
    }
  }

  /** Something filed under a text identifier. */
  datatype Keyed<+V> = Keyed(id: string, value: V)

  predicate ById<V>(a: Keyed<V>, b: Keyed<V>)
  {
    TextLe(a.id, b.id)
  }

  ghost predicate DistinctIds<V>(s: seq<Keyed<V>>)
  {
    forall i, j :: 0 <= i < j < |s| ==> s[i].id != s[j].id
  }

  function Ids<V>(s: seq<Keyed<V>>): set<string>
  {
    set i | 0 <= i < |s| :: s[i].id
  }

  lemma IdsAppend<V>(s: seq<Keyed<V>>, u: Keyed<V>)
    ensures Ids(s + [u]) == Ids(s) + {u.id}
  {
    forall x | x in Ids(s) + {u.id} ensures x in Ids(s + [u]) {
      if x in Ids(s) {
        var i :| 0 <= i < |s| && s[i].id == x;
        assert (s + [u])[i].id == x;
      } else {
        assert (s + [u])[|s|].id == x;
      }
    }
  }

  ghost predicate TotalPreorder<T(!new)>(le: (T, T) -> bool)
  {
    && (forall a, b :: le(a, b) || le(b, a))
    && (forall a, b, c :: le(a, b) && le(b, c) ==> le(a, c))
  }

  lemma ByIdIsTotalPreorder<V(!new)>()
    ensures TotalPreorder<Keyed<V>>(ById)
  {
    forall a: Keyed<V>, b: Keyed<V> ensures ById(a, b) || ById(b, a) {
      TextLeTotal(a.id, b.id);
    }
    forall a: Keyed<V>, b: Keyed<V>, c: Keyed<V> | ById(a, b) && ById(b, c) ensures ById(a, c) {
      TextLeTransitive(a.id, b.id, c.id);
    }
  }

  ghost predicate Sorted<T>(s: seq<T>, le: (T, T) -> bool)
  {
    forall i, j :: 0 <= i < j < |s| ==> le(s[i], s[j])
  }

  function Insert<T>(x: T, s: seq<T>, le: (T, T) -> bool): seq<T>
  {
    if s == [] then [x]
    else if le(x, s[0]) then [x] + s
    else [s[0]] + Insert(x, s[1..], le)
  }

  /** Stable insertion sort. */
  function Sort<T>(s: seq<T>, le: (T, T) -> bool): seq<T>
  {
    if s == [] then [] else Insert(s[0], Sort(s[1..], le), le)
  }

  lemma {:induction false} InsertPermutes<T>(x: T, s: seq<T>, le: (T, T) -> bool)
    ensures multiset(Insert(x, s, le)) == multiset{x} + multiset(s)
  {
    if s != [] && !le(x, s[0]) {
      InsertPermutes(x, s[1..], le);
      assert s == [s[0]] + s[1..];
    }
  }

  lemma {:induction false} SortPermutes<T>(s: seq<T>, le: (T, T) -> bool)
    ensures multiset(Sort(s, le)) == multiset(s)
    ensures |Sort(s, le)| == |s|
  {
    if s != [] {
      SortPermutes(s[1..], le);
      InsertPermutes(s[0], Sort(s[1..], le), le);
      assert s == [s[0]] + s[1..];
    }
    assert |Sort(s, le)| == |multiset(Sort(s, le))| == |multiset(s)| == |s|;
  }

  lemma SameMembers<T>(a: seq<T>, b: seq<T>)
    requires multiset(a) == multiset(b)
    ensures |a| == |b|
    ensures forall x :: x in a <==> x in b
  {
    assert |multiset(a)| == |a| && |multiset(b)| == |b|;
    forall x ensures x in a <==> x in b {
      assert x in a <==> x in multiset(a);
    }
  }

  lemma SortMembers<T>(s: seq<T>, le: (T, T) -> bool)
    ensures forall x :: x in Sort(s, le) <==> x in s
  {
    SortPermutes(s, le);
    SameMembers(Sort(s, le), s);
  }

  lemma {:induction false} InsertSorted<T(!new)>(x: T, s: seq<T>, le: (T, T) -> bool)
    requires TotalPreorder(le) && Sorted(s, le)
    ensures Sorted(Insert(x, s, le), le)
  {
    if s == [] {
    } else if le(x, s[0]) {
    } else {
      InsertSorted(x, s[1..], le);
      InsertPermutes(x, s[1..], le);
      var r := Insert(x, s[1..], le);
      SameMembers(r, [x] + s[1..]);
      forall j | 0 <= j < |r| ensures le(s[0], r[j]) {
        assert r[j] in r;
      }
    }
  }

  lemma {:induction false} SortSorted<T(!new)>(s: seq<T>, le: (T, T) -> bool)
    requires TotalPreorder(le)
    ensures Sorted(Sort(s, le), le)
  {
    if s != [] {
      SortSorted(s[1..], le);
      InsertSorted(s[0], Sort(s[1..], le), le);
    }
  }

  /** On the members of `s`, being ordered both ways means being equal. */
  /** The elements that the order does not tell from `x`. */
  ghost function Peers<T>(s: seq<T>, le: (T, T) -> bool, x: T): seq<T>
  {
    if s == [] then [] else (if le(s[0], x) && le(x, s[0]) then [s[0]] else []) + Peers(s[1..], le, x)
  }

  lemma {:induction false} InsertIsStable<T(!new)>(y: T, s: seq<T>, le: (T, T) -> bool, x: T)
    requires TotalPreorder(le)
    ensures Peers(Insert(y, s, le), le, x) == Peers([y] + s, le, x)
  {
    assert ([y] + s)[1..] == s;
    if s != [] && !le(y, s[0]) {
      InsertIsStable(y, s[1..], le, x);
      assert ([y] + s[1..])[1..] == s[1..];
      assert Insert(y, s, le) == [s[0]] + Insert(y, s[1..], le);
      assert ([s[0]] + Insert(y, s[1..], le))[1..] == Insert(y, s[1..], le);
    }
  }

  /** Elements that the order does not tell apart keep the order they came in. */
  lemma {:induction false} SortIsStable<T(!new)>(s: seq<T>, le: (T, T) -> bool, x: T)
    requires TotalPreorder(le)
    ensures Peers(Sort(s, le), le, x) == Peers(s, le, x)
  {
    if s != [] {
      SortIsStable(s[1..], le, x);
      InsertIsStable(s[0], Sort(s[1..], le), le, x);
      assert ([s[0]] + Sort(s[1..], le))[1..] == Sort(s[1..], le);
      assert [s[0]] + s[1..] == s;
    }
  }

  ghost predicate Antisymmetric<T>(s: seq<T>, le: (T, T) -> bool)
  {
    forall a, b :: a in s && b in s && le(a, b) && le(b, a) ==> a == b
  }

  lemma HeadIsLeast<T(!new)>(s: seq<T>, x: T, le: (T, T) -> bool)
    requires TotalPreorder(le) && Sorted(s, le) && x in s
    ensures le(s[0], x)
  {
    var i :| 0 <= i < |s| && s[i] == x;
    if i == 0 {
      assert le(x, x) || le(x, x);
    }
  }

  /** An ordered arrangement is determined by its contents. */
  lemma {:induction false} SortedUnique<T(!new)>(a: seq<T>, b: seq<T>, le: (T, T) -> bool)
    requires TotalPreorder(le)
    requires Sorted(a, le) && Sorted(b, le)
    requires multiset(a) == multiset(b)
    requires Antisymmetric(a, le)
    ensures a == b
  {
    hide TotalPreorder, Sorted, Antisymmetric;
    SameMembers(a, b);
    if a != [] {
      SortedHeadsAgree(a, b, le);
      TailStays(a, le);
      TailStays(b, le);
      assert a == [a[0]] + a[1..] && b == [b[0]] + b[1..];
      assert multiset(a[1..]) == multiset(a) - multiset{a[0]};
      assert multiset(b[1..]) == multiset(b) - multiset{b[0]};
      SortedUnique(a[1..], b[1..], le);
    }
  }

  lemma TailStays<T>(a: seq<T>, le: (T, T) -> bool)
    requires a != [] && Sorted(a, le)
    ensures Sorted(a[1..], le)
    ensures Antisymmetric(a, le) ==> Antisymmetric(a[1..], le)
  {
  }

  lemma SortedHeadsAgree<T(!new)>(a: seq<T>, b: seq<T>, le: (T, T) -> bool)
    requires TotalPreorder(le)
    requires Sorted(a, le) && Sorted(b, le)
    requires |a| == |b| > 0 && forall x :: x in a <==> x in b
    requires Antisymmetric(a, le)
    ensures a[0] == b[0]
  {
    assert a[0] in b && b[0] in a;
    HeadIsLeast(a, b[0], le);
    HeadIsLeast(b, a[0], le);
  }

  lemma DistinctIdsAntisymmetric<V>(s: seq<Keyed<V>>)
    requires DistinctIds(s)
    ensures Antisymmetric(s, ById)
  {
    forall a, b | a in s && b in s && ById(a, b) && ById(b, a) ensures a == b {
      TextLeAntisymmetric(a.id, b.id);
    }
  }

  /** Sorting by identifier forgets the arrangement it started from. */
  lemma SortAgrees<V(!new)>(a: seq<Keyed<V>>, b: seq<Keyed<V>>)
    requires multiset(a) == multiset(b) && DistinctIds(a)
    ensures Sort(a, ById) == Sort(b, ById)
  {
    ByIdIsTotalPreorder<V>();
    SortPermutes(a, ById);
    SortPermutes(b, ById);
    SortSorted(a, ById);
    SortSorted(b, ById);
    DistinctIdsAntisymmetric(a);
    SortMembers(a, ById);
    SortedUnique(Sort(a, ById), Sort(b, ById), ById);
  }

  /** Sorting what is already sorted changes nothing. */
  lemma SortIdempotent<V(!new)>(a: seq<Keyed<V>>)
    requires DistinctIds(a)
    ensures Sort(Sort(a, ById), ById) == Sort(a, ById)
  {
    SortPermutes(a, ById);
    SortAgrees(a, Sort(a, ById));
  }

  /** Distinctness of identifiers is a property of the contents, not of the arrangement. */
  lemma DistinctIdsPermute<V>(a: seq<Keyed<V>>, b: seq<Keyed<V>>)
    requires multiset(a) == multiset(b) && DistinctIds(a)
    ensures DistinctIds(b)
  {
    forall i, j | 0 <= i < j < |b| ensures b[i].id != b[j].id {
      if b[i].id == b[j].id {
        assert b[i] in multiset(b) && b[j] in multiset(b);
        assert b[i] in a && b[j] in a;
        assert b[i] == b[j];
        OccursTwice(b, i, j);
        DistinctOccursOnce(a, b[i]);
      }
    }
  }

  lemma DistinctOccursOnce<V>(a: seq<Keyed<V>>, u: Keyed<V>)
    requires DistinctIds(a)
    ensures multiset(a)[u] <= 1
  {
    forall i, j | 0 <= i < j < |a| ensures a[i] != a[j] {
      assert a[i].id != a[j].id;
    }
    OccursOnce(a, u);
  }

  lemma {:induction false} OccursOnce<T>(a: seq<T>, u: T)
    requires forall i, j :: 0 <= i < j < |a| ==> a[i] != a[j]
    ensures multiset(a)[u] <= 1
  {
    if a != [] {
      assert a == [a[0]] + a[1..];
      OccursOnce(a[1..], u);
      if a[0] == u {
        assert u !in a[1..];
      }
    }
  }

  lemma OccursTwice<T>(b: seq<T>, i: nat, j: nat)
    requires i < j < |b| && b[i] == b[j]
    ensures multiset(b)[b[i]] >= 2
  {
    assert b == b[..i] + [b[i]] + b[i + 1..j] + [b[j]] + b[j + 1..];
  }

  ghost predicate Distinct<T>(s: seq<T>)
  {
    forall i, j :: 0 <= i < j < |s| ==> s[i] != s[j]
  }

  lemma DistinctAppend<T>(s: seq<T>, k: T)
    requires Distinct(s) && k !in s
    ensures Distinct(s + [k])
  {
  }

  /** The sequence lists each member of the set once, in order. */
  ghost predicate Lists<T(!new)>(keys: seq<T>, s: set<T>, le: (T, T) -> bool)
  {
    Sorted(keys, le) && Distinct(keys) && forall k :: k in keys <==> k in s
  }

  lemma DistinctPermutes<T>(a: seq<T>, b: seq<T>)
    requires Distinct(a) && Distinct(b) && forall k :: k in a <==> k in b
    ensures multiset(a) == multiset(b)
  {
    forall k ensures multiset(a)[k] == multiset(b)[k] {
      OccursOnce(a, k);
      OccursOnce(b, k);
      assert k in a <==> multiset(a)[k] > 0;
      assert k in b <==> multiset(b)[k] > 0;
    }
  }

  lemma ListedOnce<T(!new)>(a: seq<T>, b: seq<T>, s: set<T>, le: (T, T) -> bool)
    requires Lists(a, s, le) && Lists(b, s, le)
    requires TotalPreorder(le) && Antisymmetric(a, le)
    ensures a == b
  {
    DistinctPermutes(a, b);
    SortedUnique(a, b, le);
  }

  lemma SortedLists<T(!new)>(keys: seq<T>, s: set<T>, le: (T, T) -> bool)
    requires Distinct(keys) && (forall k :: k in keys <==> k in s) && TotalPreorder(le)
    ensures Lists(Sort(keys, le), s, le)
  {
    var sorted := Sort(keys, le);
    SortSorted(keys, le);
    SortPermutes(keys, le);
    SortMembers(keys, le);
    forall i, j | 0 <= i < j < |sorted| ensures sorted[i] != sorted[j] {
      if sorted[i] == sorted[j] {
        OccursTwice(sorted, i, j);
        OccursOnce(keys, sorted[i]);
      }
    }
  }

  /** List the set in any order. */
  method Enumerate<T(==)>(s: set<T>) returns (keys: seq<T>)
    ensures Distinct(keys) && forall k :: k in keys <==> k in s
  {
    keys := [];
    var rest := s;
    while rest != {}
      invariant rest <= s && Distinct(keys) && forall k :: k in keys <==> k in s - rest
    {
      var k :| k in rest;
      DistinctAppend(keys, k);
      keys := keys + [k];
      rest := rest - {k};
    }
  }

  lemma {:induction false} SomeListing<T(!new)>(s: set<T>, le: (T, T) -> bool)
    requires TotalPreorder(le)
    ensures exists keys :: Lists(keys, s, le)
    decreases s
  {
    if s == {} {
      assert Lists([], s, le);
    } else {
      var x :| x in s;
      SomeListing(s - {x}, le);
      var rest :| Lists(rest, s - {x}, le);
      DistinctAppend(rest, x);
      SortedLists(rest + [x], s, le);
    }
  }

  /** The members of the set, in order. */
  ghost function Arranged<T(!new)>(s: set<T>, le: (T, T) -> bool): (keys: seq<T>)
    requires TotalPreorder(le)
    ensures Lists(keys, s, le)
  {
    SomeListing(s, le);
    var keys :| Lists(keys, s, le);
    keys
  }

  lemma TextLeIsTotalPreorder()
    ensures TotalPreorder(TextLe)
  {
    forall a: string, b: string ensures TextLe(a, b) || TextLe(b, a) {
      TextLeTotal(a, b);
    }
    forall a: string, b: string, c: string | TextLe(a, b) && TextLe(b, c) ensures TextLe(a, c) {
      TextLeTransitive(a, b, c);
    }
  }

  lemma TextsAntisymmetric(s: seq<string>)
    ensures Antisymmetric(s, TextLe)
  {
    forall a, b | a in s && b in s && TextLe(a, b) && TextLe(b, a) ensures a == b {
      TextLeAntisymmetric(a, b);
    }
  }
}
