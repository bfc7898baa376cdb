/** Dictionaries from keys to counts, and lists of counts in general. */
module Tallies {
  /** An entry of a dictionary from keys to counts. A dictionary lists its entries in insertion order. */
  datatype Entry<K> = Entry(key: K, count: int)

  function Bump<K(==)>(cache: seq<Entry<K>>, key: K, n: int): seq<Entry<K>>
  {
    if cache == [] then [Entry(key, n)]
    else if cache[0].key == key then [Entry(key, cache[0].count + n)] + cache[1..]
    else [cache[0]] + Bump(cache[1..], key, n)
  }

  /** What a list of entries counts for one key, over all its mentions. */
  function Count<K(==)>(entries: seq<Entry<K>>, key: K): int
  {
    if entries == [] then 0 else (if entries[0].key == key then entries[0].count else 0) + Count(entries[1..], key)
  }

  function Relabel<K, S>(entries: seq<Entry<K>>, f: K -> S): seq<Entry<S>>
  {
    if entries == [] then [] else [Entry(f(entries[0].key), entries[0].count)] + Relabel(entries[1..], f)
  }

  predicate UniqueKeys<K(==)>(entries: seq<Entry<K>>)
  {
    forall i, j :: 0 <= i < j < |entries| ==> entries[i].key != entries[j].key
  }

  lemma {:induction false} CountConcat<K>(a: seq<Entry<K>>, b: seq<Entry<K>>, key: K)
    ensures Count(a + b, key) == Count(a, key) + Count(b, key)
  {
    if a == [] {
      assert a + b == b;
    } else {
      assert (a + b)[1..] == a[1..] + b;
      CountConcat(a[1..], b, key);
    }
  }

  lemma {:induction false} CountBump<K>(cache: seq<Entry<K>>, key: K, n: int, other: K)
    ensures Count(Bump(cache, key, n), other) == Count(cache, other) + (if key == other then n else 0)
  {
    if cache != [] && cache[0].key != key {
      assert Bump(cache, key, n)[1..] == Bump(cache[1..], key, n);
      CountBump(cache[1..], key, n, other);
    }
  }

  lemma {:induction false} RelabelBump<K, S>(cache: seq<Entry<K>>, f: K -> S, key: K, n: int, subject: S)
    ensures Count(Relabel(Bump(cache, key, n), f), subject) ==
            Count(Relabel(cache, f), subject) + (if f(key) == subject then n else 0)
  {
    if cache != [] && cache[0].key != key {
      assert Bump(cache, key, n)[1..] == Bump(cache[1..], key, n);
      RelabelBump(cache[1..], f, key, n, subject);
    }
  }

  lemma {:induction false} BumpKeys<K>(cache: seq<Entry<K>>, key: K, n: int)
    requires UniqueKeys(cache)
    ensures UniqueKeys(Bump(cache, key, n))
    ensures forall i :: 0 <= i < |Bump(cache, key, n)| ==>
              || Bump(cache, key, n)[i].key == key
              || exists j :: 0 <= j < |cache| && cache[j].key == Bump(cache, key, n)[i].key
  {
    if cache != [] && cache[0].key != key {
      var rest := cache[1..];
      BumpKeys(rest, key, n);
      var bumped := Bump(rest, key, n);
      forall i | 0 <= i < |bumped|
        ensures bumped[i].key != cache[0].key
        ensures bumped[i].key == key || exists j :: 0 <= j < |cache| && cache[j].key == bumped[i].key
      {
        if bumped[i].key != key {
          var j :| 0 <= j < |rest| && rest[j].key == bumped[i].key;
          assert cache[j + 1].key == bumped[i].key;
        }
      }
    }
  }

  lemma {:induction false} RelabelSnoc<K, S>(entries: seq<Entry<K>>, f: K -> S)
    requires entries != []
    ensures var n := |entries| - 1;
            Relabel(entries, f) == Relabel(entries[..n], f) + [Entry(f(entries[n].key), entries[n].count)]
  {
    var n := |entries| - 1;
    if n > 0 {
      assert entries[..n][1..] == entries[1..][..n - 1];
      RelabelSnoc(entries[1..], f);
    }
  }

  lemma {:induction false} WithoutOne<K>(entries: seq<Entry<K>>, j: nat, key: K)
    requires j < |entries|
    ensures Count(entries, key) == Count(entries[..j] + entries[j + 1..], key) +
            (if entries[j].key == key then entries[j].count else 0)
  {
    if j == 0 {
      assert entries[..0] + entries[1..] == entries[1..];
    } else {
      assert (entries[..j] + entries[j + 1..])[1..] == entries[1..][..j - 1] + entries[1..][j..];
      WithoutOne(entries[1..], j - 1, key);
    }
  }

  lemma RemoveOne<T>(a: seq<T>, j: nat)
    requires j < |a|
    ensures multiset(a[..j] + a[j + 1..]) == multiset(a) - multiset{a[j]}
  {
    assert a == a[..j] + ([a[j]] + a[j + 1..]);
  }

  /** A permutation of a non-empty list holds its first element somewhere. */
  lemma FirstIn<T>(a: seq<T>, b: seq<T>) returns (j: nat)
    requires a != [] && multiset(a) == multiset(b)
    ensures j < |b| && b[j] == a[0] && multiset(a[..0] + a[1..]) == multiset(b[..j] + b[j + 1..])
  {
    assert a[0] in multiset(b);
    j :| j < |b| && b[j] == a[0];
    RemoveOne(a, 0);
    RemoveOne(b, j);
  }

  /** Counts do not depend on order. */
  lemma {:induction false} CountIgnoresOrder<K>(a: seq<Entry<K>>, b: seq<Entry<K>>, key: K)
    requires multiset(a) == multiset(b)
    ensures Count(a, key) == Count(b, key)
    decreases |a|
  {
    if a == [] {
      assert |multiset(b)| == |b|;
    } else {
      var j := FirstIn(a, b);
      WithoutOne(a, 0, key);
      WithoutOne(b, j, key);
      CountIgnoresOrder(a[..0] + a[1..], b[..j] + b[j + 1..], key);
    }
  }
}
