/** The meaning of the repositories' derived queries over a store of records:
    selecting the records that satisfy a filter, and ordering them by a key. */
module Query {

  predicate NoDup<T(==)>(s: seq<T>) {
    forall i, j :: 0 <= i < j < |s| ==> s[i] != s[j]
  }

  /** `key` does not decrease along `s`. */
  predicate SortedBy<T>(s: seq<T>, key: T -> int) {
    forall i, j :: 0 <= i < j < |s| ==> key(s[i]) <= key(s[j])
  }

  /** Keys of `after` are those of `before`, and every record except the one at `id` is untouched. */
  predicate OnlyChangedAt<R(==)>(before: map<string, R>, after: map<string, R>, id: string) {
    && before.Keys == after.Keys
    && forall k :: k in before && k != id ==> after[k] == before[k]
  }

  lemma SortedCons<T>(h: T, t: seq<T>, key: T -> int)
    requires SortedBy(t, key)
    requires forall y :: y in t ==> key(h) <= key(y)
    ensures SortedBy([h] + t, key)
  {
    var r := [h] + t;
    forall i, j | 0 <= i < j < |r| ensures key(r[i]) <= key(r[j]) {
      if i == 0 { assert r[j] == t[j - 1]; assert r[j] in t; } else { assert r[i] == t[i - 1] && r[j] == t[j - 1]; }
    }
  }

  lemma SortedTail<T>(s: seq<T>, key: T -> int)
    requires SortedBy(s, key) && s != []
    ensures SortedBy(s[1..], key)
    ensures forall y :: y in s ==> key(s[0]) <= key(y)
  {
    var rest := s[1..];
    forall i, j | 0 <= i < j < |rest| ensures key(rest[i]) <= key(rest[j]) {
      assert rest[i] == s[i + 1] && rest[j] == s[j + 1];
    }
    forall y | y in s ensures key(s[0]) <= key(y) {
      var j :| 0 <= j < |s| && s[j] == y;
      if j > 0 { assert key(s[0]) <= key(s[j]); }
    }
  }

  /** A lower bound of `rest` and of `x` bounds every element of a permutation of `rest` plus `x`. */
  lemma LowerBoundOfInserted<T>(h: T, rest: seq<T>, x: T, tail: seq<T>, key: T -> int)
    requires multiset(tail) == multiset(rest) + multiset{x}
    requires forall y :: y in rest ==> key(h) <= key(y)
    requires key(h) <= key(x)
    ensures forall y :: y in tail ==> key(h) <= key(y)
  {
    forall y | y in tail ensures key(h) <= key(y) {
      assert y in multiset(tail);
      if y != x {
        assert y in multiset(rest);
      }
    }
  }

  /** Inserts `x` into the sorted sequence `s` before the first element with a larger key. */
  function InsertBy<T>(s: seq<T>, x: T, key: T -> int): (r: seq<T>)
    requires SortedBy(s, key)
    ensures SortedBy(r, key)
    ensures multiset(r) == multiset(s) + multiset{x}
  {
    if s == [] then [x]
    else
      SortedTail(s, key);
      if key(x) <= key(s[0]) then
        SortedCons(x, s, key);
        [x] + s
      else
        var rest := s[1..];
        var tail := InsertBy(rest, x, key);
        assert s == [s[0]] + rest;
        assert forall y :: y in rest ==> y in s;
        LowerBoundOfInserted(s[0], rest, x, tail, key);
        SortedCons(s[0], tail, key);
        [s[0]] + tail
  }

  /** The elements of `s` ordered by `key`; elements with equal keys may come in any order. */
  function SortBy<T>(s: seq<T>, key: T -> int): (r: seq<T>)
    ensures SortedBy(r, key)
    ensures multiset(r) == multiset(s)
  {
    if s == [] then []
    else
      assert s == [s[0]] + s[1..];
      InsertBy(SortBy(s[1..], key), s[0], key)
  }

  /** In a sequence without duplicates every element occurs once. */
  lemma {:induction false} NoDupOccursOnce<T>(s: seq<T>, x: T)
    requires NoDup(s)
    ensures multiset(s)[x] <= 1
  {
    if s != [] {
      assert s == [s[0]] + s[1..];
      NoDupOccursOnce(s[1..], x);
      assert s[0] !in s[1..];
    }
  }

  /** Two sequences with the same elements, counted with multiplicity, agree on having no duplicates. */
  lemma PermutationKeepsNoDup<T>(a: seq<T>, b: seq<T>)
    requires multiset(a) == multiset(b)
    requires NoDup(a)
    ensures NoDup(b)
  {
    forall i, j | 0 <= i < j < |b| ensures b[i] != b[j] {
      if b[i] == b[j] {
        assert b == b[..i] + [b[i]] + b[i + 1..j] + [b[j]] + b[j + 1..];
        assert multiset(b)[b[i]] >= 2;
        NoDupOccursOnce(a, b[i]);
        assert false;
      }
    }
  }

  /** Every record of `m` that satisfies `keep`, each once, in some order. */
  method Select<T(==)>(m: map<string, T>, keep: T -> bool) returns (r: seq<T>)
    ensures forall x :: x in r <==> x in m.Values && keep(x)
    ensures NoDup(r)
  {
    var rest := set x | x in m.Values && keep(x);
    ghost var all := rest;
    r := [];
    while rest != {}
      invariant rest <= all
      invariant forall x :: x in r <==> x in all && x !in rest
      invariant NoDup(r)
      decreases |rest|
    {
      var x :| x in rest;
      r := r + [x];
      rest := rest - {x};
    }
  }

  /** The records of `m` that satisfy `keep`, each once, ordered by `key`. */
  method SelectSorted<T(==)>(m: map<string, T>, keep: T -> bool, key: T -> int) returns (r: seq<T>)
    ensures forall x :: x in r <==> x in m.Values && keep(x)
    ensures NoDup(r)
    ensures SortedBy(r, key)
  {
    var found := Select(m, keep);
    r := SortBy(found, key);
    PermutationKeepsNoDup(found, r);
    assert forall x :: x in r <==> x in multiset(found);
  }
}
