/** Arranging the per-weekday records of the grouping pass back into feed
    order: collecting a map's values, the `sort_by` on the record sequence
    number, and the fact that the sorted arrangement is unique. Generic in the
    record type; `key` extracts the sequence number. */
module Ordering {

  predicate Ascending<R>(s: seq<R>, key: R -> int) {
    forall i, j :: 0 <= i < j < |s| ==> key(s[i]) <= key(s[j])
  }

  predicate StrictlyAscending<R>(s: seq<R>, key: R -> int) {
    forall i, j :: 0 <= i < j < |s| ==> key(s[i]) < key(s[j])
  }

  /** No two positions share a key. */
  predicate DistinctKeys<R>(s: seq<R>, key: R -> int) {
    forall i, j :: 0 <= i < |s| && 0 <= j < |s| && i != j ==> key(s[i]) != key(s[j])
  }

  // ---------------------------------------------------------------------
  // `HashMap::into_values().collect()`

  /** The values stored under `ks`, in the order of `ks`. */
  function ValuesIn<K, V(!new)>(m: map<K, V>, ks: seq<K>): (r: seq<V>)
    ensures forall v :: v in r <==> exists i :: 0 <= i < |ks| && ks[i] in m && m[ks[i]] == v
    decreases |ks|
  {
    if ks == [] then []
    else
      var rest := ValuesIn(m, ks[1..]);
      assert forall i :: 1 <= i < |ks| ==> ks[1..][i - 1] == ks[i];
      if ks[0] in m then [m[ks[0]]] + rest else rest
  }

  /** Values under distinct keys with distinct sequence numbers give a
      collection without repeated sequence numbers. */
  lemma {:induction false} ValuesInDistinct<K, V(!new)>(m: map<K, V>, ks: seq<K>, key: V -> int)
    requires forall i, j :: 0 <= i < j < |ks| ==> ks[i] != ks[j]
    requires forall k, l :: k in m && l in m && k != l ==> key(m[k]) != key(m[l])
    ensures DistinctKeys(ValuesIn(m, ks), key)
    decreases |ks|
  {
    if ks != [] {
      var tail := ks[1..];
      ValuesInDistinct(m, tail, key);
      if ks[0] in m {
        var r := ValuesIn(m, ks);
        var rest := ValuesIn(m, tail);
        assert r == [m[ks[0]]] + rest;
        forall j | 0 <= j < |rest| ensures key(m[ks[0]]) != key(rest[j]) {
          assert rest[j] in rest;
          var i :| 0 <= i < |tail| && tail[i] in m && m[tail[i]] == rest[j];
          assert tail[i] == ks[i + 1];
        }
        forall i, j | 0 <= i < |r| && 0 <= j < |r| && i != j ensures key(r[i]) != key(r[j]) {
          if i > 0 && j > 0 {
            assert r[i] == rest[i - 1] && r[j] == rest[j - 1];
          } else if i == 0 {
            assert r[j] == rest[j - 1];
          } else {
            assert r[i] == rest[i - 1];
          }
        }
      }
    }
  }

  // ---------------------------------------------------------------------
  // `sort_by` on the sequence number

  /** Insertion of one record into an ascending run, after every record
      whose key is not larger (so equal keys keep their order). */
  function Insert<R>(s: seq<R>, x: R, key: R -> int): (r: seq<R>)
    requires Ascending(s, key)
    ensures Ascending(r, key)
    ensures multiset(r) == multiset(s) + multiset{x}
    ensures StrictlyAscending(s, key) && (forall y :: y in s ==> key(y) != key(x)) ==>
              StrictlyAscending(r, key)
    decreases |s|
  {
    if s == [] then [x]
    else if key(x) < key(s[0]) then
      InsertFront(s, x, key);
      [x] + s
    else
      var rest := Insert(s[1..], x, key);
      InsertHead(s, x, key, rest);
      [s[0]] + rest
  }

  /** A record with a smaller key than the head goes in front. */
  lemma InsertFront<R>(s: seq<R>, x: R, key: R -> int)
    requires s != [] && Ascending(s, key) && key(x) < key(s[0])
    ensures Ascending([x] + s, key)
    ensures multiset([x] + s) == multiset(s) + multiset{x}
    ensures StrictlyAscending(s, key) ==> StrictlyAscending([x] + s, key)
  {
    assert forall j :: 0 <= j < |s| ==> key(s[0]) <= key(s[j]);
    HeadThenRun(x, s, key, false);
    if StrictlyAscending(s, key) {
      HeadThenRun(x, s, key, true);
    }
  }

  /** What a permutation of `t` plus `x` holds. */
  lemma MembersOfInsertion<R>(rest: seq<R>, t: seq<R>, x: R)
    requires multiset(rest) == multiset(t) + multiset{x}
    ensures forall j :: 0 <= j < |rest| ==> rest[j] == x || exists p :: 0 <= p < |t| && t[p] == rest[j]
  {
    forall j | 0 <= j < |rest| && rest[j] != x
      ensures exists p :: 0 <= p < |t| && t[p] == rest[j]
    {
      assert rest[j] in multiset(rest);
      assert rest[j] in multiset(t);
    }
  }

  /** Every record of the tail, and the inserted one, is at least the head. */
  lemma InsertHeadBound<R>(s: seq<R>, x: R, key: R -> int, rest: seq<R>, strict: bool)
    requires s != [] && key(s[0]) <= key(x)
    requires multiset(rest) == multiset(s[1..]) + multiset{x}
    requires !strict ==> Ascending(s, key)
    requires strict ==> StrictlyAscending(s, key) && key(s[0]) != key(x)
    ensures forall j :: 0 <= j < |rest| ==>
              if strict then key(s[0]) < key(rest[j]) else key(s[0]) <= key(rest[j])
  {
    MembersOfInsertion(rest, s[1..], x);
    forall j | 0 <= j < |rest| && rest[j] != x
      ensures if strict then key(s[0]) < key(rest[j]) else key(s[0]) <= key(rest[j])
    {
      var p :| 0 <= p < |s[1..]| && s[1..][p] == rest[j];
      assert s[p + 1] == rest[j];
    }
  }

  /** The head of an ascending run stays first when a larger record is
      inserted into its tail. */
  lemma InsertHead<R>(s: seq<R>, x: R, key: R -> int, rest: seq<R>)
    requires s != [] && Ascending(s, key) && key(s[0]) <= key(x)
    requires Ascending(rest, key) && multiset(rest) == multiset(s[1..]) + multiset{x}
    requires StrictlyAscending(s, key) && (forall y :: y in s ==> key(y) != key(x)) ==>
               StrictlyAscending(rest, key)
    ensures Ascending([s[0]] + rest, key)
    ensures multiset([s[0]] + rest) == multiset(s) + multiset{x}
    ensures StrictlyAscending(s, key) && (forall y :: y in s ==> key(y) != key(x)) ==>
              StrictlyAscending([s[0]] + rest, key)
  {
    assert s == [s[0]] + s[1..];
    var r := [s[0]] + rest;
    InsertHeadBound(s, x, key, rest, false);
    HeadThenRun(s[0], rest, key, false);
    if StrictlyAscending(s, key) && (forall y :: y in s ==> key(y) != key(x)) {
      assert s[0] in s;
      InsertHeadBound(s, x, key, rest, true);
      HeadThenRun(s[0], rest, key, true);
    }
  }

  /** A head no larger than an ascending run extends it. */
  lemma HeadThenRun<R>(h: R, rest: seq<R>, key: R -> int, strict: bool)
    requires if strict then StrictlyAscending(rest, key) else Ascending(rest, key)
    requires forall j :: 0 <= j < |rest| ==>
               if strict then key(h) < key(rest[j]) else key(h) <= key(rest[j])
    ensures if strict then StrictlyAscending([h] + rest, key) else Ascending([h] + rest, key)
  {
    var r := [h] + rest;
    forall i, j | 0 <= i < j < |r|
      ensures if strict then key(r[i]) < key(r[j]) else key(r[i]) <= key(r[j])
    {
      if i > 0 {
        assert r[i] == rest[i - 1];
      }
      assert r[j] == rest[j - 1];
    }
  }

  /** Sorting by key: the result is ascending and a permutation of the input;
      keys that were distinct come out strictly ascending. */
  method SortByKey<R>(s: seq<R>, key: R -> int) returns (r: seq<R>)
    ensures Ascending(r, key)
    ensures multiset(r) == multiset(s)
    ensures DistinctKeys(s, key) ==> StrictlyAscending(r, key)
  {
    r := [];
    var i := 0;
    while i < |s|
      invariant 0 <= i <= |s|
      invariant Ascending(r, key)
      invariant multiset(r) == multiset(s[..i])
      invariant DistinctKeys(s, key) ==> StrictlyAscending(r, key)
    {
      if DistinctKeys(s, key) {
        KeyNotTaken(s, i, r, key);
      }
      r := Insert(r, s[i], key);
      assert s[..i + 1] == s[..i] + [s[i]];
      i := i + 1;
    }
    assert s[..i] == s;
  }

  /** With distinct keys, the next record's key is not among the records taken so far. */
  lemma KeyNotTaken<R>(s: seq<R>, i: nat, r: seq<R>, key: R -> int)
    requires i < |s| && DistinctKeys(s, key) && multiset(r) == multiset(s[..i])
    ensures forall y :: y in r ==> key(y) != key(s[i])
  {
    forall y | y in r ensures key(y) != key(s[i]) {
      assert y in multiset(s[..i]);
      var p :| 0 <= p < i && s[..i][p] == y;
    }
  }

  lemma NonEmptyHasMember<R>(b: seq<R>)
    requires b != []
    ensures exists x :: x in b
  {
    assert b[0] in b;
  }

  /** With the same head, a member of one strictly ascending tail is a member of the other's tail. */
  lemma SameTails<R>(a: seq<R>, b: seq<R>, key: R -> int)
    requires a != [] && b != [] && a[0] == b[0]
    requires StrictlyAscending(a, key) && forall x :: x in a ==> x in b
    ensures forall x :: x in a[1..] ==> x in b[1..]
  {
    forall x | x in a[1..] ensures x in b[1..] {
      var p :| 1 <= p < |a| && a[p] == x;
      assert x in b;
      var q :| 0 <= q < |b| && b[q] == x;
      assert key(a[0]) < key(a[p]);
      assert q != 0;
      assert b[1..][q - 1] == x;
    }
  }

  lemma SameMembersNonEmpty<R>(a: seq<R>, b: seq<R>)
    requires a != [] && forall x :: x in a <==> x in b
    ensures b != []
  {
    assert a[0] in b;
  }

  /** Two strictly ascending sequences with the same elements start alike. */
  lemma SameHead<R>(a: seq<R>, b: seq<R>, key: R -> int)
    requires a != [] && b != [] && StrictlyAscending(a, key) && StrictlyAscending(b, key)
    requires forall x :: x in a <==> x in b
    ensures a[0] == b[0]
  {
    assert a[0] in b;
    var j :| 0 <= j < |b| && b[j] == a[0];
    assert b[0] in a;
    var i :| 0 <= i < |a| && a[i] == b[0];
    assert key(a[0]) <= key(a[i]);
    assert key(b[0]) <= key(b[j]);
    assert j == 0;
  }

  /** Two strictly ascending sequences with the same elements are equal: the
      arrangement of records by sequence number is unique, whatever order the
      map handed them out in. */
  lemma {:induction false} StrictlySortedUnique<R>(a: seq<R>, b: seq<R>, key: R -> int)
    requires StrictlyAscending(a, key) && StrictlyAscending(b, key)
    requires forall x :: x in a <==> x in b
    ensures a == b
    decreases |a|
  {
    if a == [] {
      if b != [] {
        NonEmptyHasMember(b);
        assert false;
      }
    } else {
      SameMembersNonEmpty(a, b);
      SameHead(a, b, key);
      SameTails(a, b, key);
      SameTails(b, a, key);
      StrictlySortedUnique(a[1..], b[1..], key);
      assert a == [a[0]] + a[1..] && b == [b[0]] + b[1..];
    }
  }
}
