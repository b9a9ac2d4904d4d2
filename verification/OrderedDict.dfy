/** Insertion-ordered dictionaries, as `collections.OrderedDict` keeps them: entries in order, one per
    key. */
module OrderedDict {
  import opened Outcomes

  datatype Entry<K, V> = Entry(key: K, value: V)

  function Keys<K, V>(entries: seq<Entry<K, V>>): seq<K> {
    seq(|entries|, i requires 0 <= i < |entries| => entries[i].key)
  }

  predicate UniqueKeys<K(==), V>(entries: seq<Entry<K, V>>) {
    forall i, j :: 0 <= i < j < |entries| ==> entries[i].key != entries[j].key
  }

  predicate HasKey<K(==), V>(entries: seq<Entry<K, V>>, key: K) {
    exists i :: 0 <= i < |entries| && entries[i].key == key
  }

  function Lookup<K(==), V>(entries: seq<Entry<K, V>>, key: K): Option<V> {
    if entries == [] then None
    else if entries[0].key == key then Some(entries[0].value)
    else Lookup(entries[1..], key)
  }

  /** `del entries[key]`, if it is there. */
  function Without<K(==), V>(entries: seq<Entry<K, V>>, key: K): seq<Entry<K, V>> {
    if entries == [] then []
    else (if entries[0].key == key then [] else [entries[0]]) + Without(entries[1..], key)
  }

  /** The value last, as after storing it and `move_to_end`. */
  function AtEnd<K(==), V>(entries: seq<Entry<K, V>>, key: K, value: V): seq<Entry<K, V>> {
    Without(entries, key) + [Entry(key, value)]
  }

  /** The newest `n` elements. */
  function Newest<T>(s: seq<T>, n: nat): seq<T> {
    if |s| <= n then s else s[|s| - n..]
  }

  lemma {:induction false} LookupFinds<K, V>(entries: seq<Entry<K, V>>, key: K)
    ensures Lookup(entries, key).Some? <==> HasKey(entries, key)
    ensures Lookup(entries, key).Some? ==>
      exists i :: 0 <= i < |entries| && entries[i] == Entry(key, Lookup(entries, key).value)
    ensures forall i ::
      0 <= i < |entries| && entries[i].key == key && (forall k :: 0 <= k < i ==> entries[k].key != key) ==>
      Lookup(entries, key) == Some(entries[i].value)
  {
    if entries != [] {
      LookupFinds(entries[1..], key);
      assert forall i :: 1 <= i < |entries| ==> entries[i] == entries[1..][i - 1];
    }
  }

  lemma {:induction false} WithoutKeeps<K, V>(entries: seq<Entry<K, V>>, key: K)
    ensures forall e :: e in Without(entries, key) <==> e in entries && e.key != key
  {
    if entries != [] {
      WithoutKeeps(entries[1..], key);
      assert entries == [entries[0]] + entries[1..];
    }
  }

  lemma WithoutMember<K, V>(entries: seq<Entry<K, V>>, key: K, e: Entry<K, V>)
    requires e in Without(entries, key)
    ensures e in entries && e.key != key
    ensures HasKey(entries, e.key)
  {
    WithoutKeeps(entries, key);
    var i :| 0 <= i < |entries| && entries[i] == e;
    assert entries[i].key == e.key;
  }

  lemma {:induction false} WithoutAbsent<K, V>(entries: seq<Entry<K, V>>, key: K)
    requires !HasKey(entries, key)
    ensures Without(entries, key) == entries
  {
    if entries != [] {
      assert forall i :: 0 <= i < |entries[1..]| ==> entries[1..][i] == entries[i + 1];
      WithoutAbsent(entries[1..], key);
    }
  }

  lemma UniqueTail<K, V>(entries: seq<Entry<K, V>>)
    requires UniqueKeys(entries) && entries != []
    ensures UniqueKeys(entries[1..]) && !HasKey(entries[1..], entries[0].key)
  {
    var rest := entries[1..];
    assert forall i :: 0 <= i < |rest| ==> rest[i] == entries[i + 1];
  }

  /** Where the key is, and what is left without it. */
  lemma {:induction false} WithoutSplits<K, V>(entries: seq<Entry<K, V>>, i: nat)
    requires UniqueKeys(entries) && i < |entries|
    ensures Without(entries, entries[i].key) == entries[..i] + entries[i + 1..]
    ensures Lookup(entries, entries[i].key) == Some(entries[i].value)
  {
    UniqueTail(entries);
    var rest := entries[1..];
    if i == 0 {
      WithoutAbsent(rest, entries[0].key);
    } else {
      assert rest[i - 1] == entries[i];
      WithoutSplits(rest, i - 1);
      assert entries[..i] + entries[i + 1..] == [entries[0]] + (rest[..i - 1] + rest[i..]);
    }
  }

  lemma SplicedUnique<K, V>(entries: seq<Entry<K, V>>, i: nat, value: V)
    requires UniqueKeys(entries) && i < |entries|
    ensures UniqueKeys(entries[..i] + entries[i + 1..] + [Entry(entries[i].key, value)])
    ensures UniqueKeys(entries[..i] + entries[i + 1..])
  {
    var left := entries[..i] + entries[i + 1..];
    assert forall k :: 0 <= k < |left| ==> left[k] == entries[if k < i then k else k + 1];
  }

  /** Moving a key to the end keeps the keys unique. */
  lemma AtEndUnique<K, V>(entries: seq<Entry<K, V>>, key: K, value: V)
    requires UniqueKeys(entries)
    ensures UniqueKeys(AtEnd(entries, key, value)) && UniqueKeys(Without(entries, key))
    ensures |AtEnd(entries, key, value)| == if HasKey(entries, key) then |entries| else |entries| + 1
  {
    if HasKey(entries, key) {
      var i :| 0 <= i < |entries| && entries[i].key == key;
      WithoutSplits(entries, i);
      SplicedUnique(entries, i, value);
    } else {
      WithoutAbsent(entries, key);
    }
  }

  lemma NewestUnique<K, V>(entries: seq<Entry<K, V>>, n: nat)
    requires UniqueKeys(entries)
    ensures UniqueKeys(Newest(entries, n))
  {
    var d := |entries| - |Newest(entries, n)|;
    assert forall i :: 0 <= i < |entries| - d ==> Newest(entries, n)[i] == entries[d + i];
  }

  lemma {:induction false} WithoutShorter<K, V>(entries: seq<Entry<K, V>>, key: K)
    ensures |Without(entries, key)| <= |entries|
  {
    if entries != [] {
      WithoutShorter(entries[1..], key);
    }
  }

  // ----- Keys in the order of their latest use

  function Drop<K(==)>(keys: seq<K>, key: K): seq<K> {
    if keys == [] then [] else (if keys[0] == key then [] else [keys[0]]) + Drop(keys[1..], key)
  }

  /** The key becomes the most recently used. */
  function Use<K(==)>(keys: seq<K>, key: K): seq<K> {
    Drop(keys, key) + [key]
  }

  predicate NoRepeats<K(==)>(keys: seq<K>) {
    keys == [] || (keys[0] !in keys[1..] && NoRepeats(keys[1..]))
  }

  lemma {:induction false} DropMembers<K>(keys: seq<K>, key: K)
    ensures forall k :: k in Drop(keys, key) <==> k in keys && k != key
  {
    if keys != [] {
      DropMembers(keys[1..], key);
      assert keys == [keys[0]] + keys[1..];
    }
  }

  lemma {:induction false} DropAbsent<K>(keys: seq<K>, key: K)
    requires key !in keys
    ensures Drop(keys, key) == keys
  {
    if keys != [] {
      DropAbsent(keys[1..], key);
      assert keys == [keys[0]] + keys[1..];
    }
  }

  lemma PrependNew<K>(key: K, keys: seq<K>)
    requires NoRepeats(keys) && key !in keys
    ensures NoRepeats([key] + keys)
  {
    assert ([key] + keys)[1..] == keys;
  }

  /** Where no key repeats, one occurrence at most is dropped. */
  lemma {:induction false} DropOne<K>(keys: seq<K>, key: K)
    requires NoRepeats(keys)
    ensures |Drop(keys, key)| >= |keys| - 1 && NoRepeats(Drop(keys, key))
  {
    if keys != [] {
      var rest := keys[1..];
      DropOne(rest, key);
      DropMembers(rest, key);
      if keys[0] == key {
        DropAbsent(rest, key);
        assert Drop(keys, key) == rest;
      } else {
        PrependNew(keys[0], Drop(rest, key));
      }
    }
  }

  lemma {:induction false} UseKeepsOne<K>(keys: seq<K>, key: K)
    requires NoRepeats(keys) && key !in keys
    ensures NoRepeats(keys + [key])
  {
    if keys != [] {
      assert (keys + [key])[1..] == keys[1..] + [key];
      UseKeepsOne(keys[1..], key);
    }
  }

  lemma NewestOfLonger<T>(x: T, s: seq<T>, n: nat)
    requires |s| >= n
    ensures Newest([x] + s, n) == Newest(s, n)
  {
  }

  lemma NewestPushed<T>(s: seq<T>, n: nat, x: T)
    requires n >= 1
    ensures Newest(s + [x], n) == Newest(Newest(s, n) + [x], n)
  {
  }

  lemma {:induction false} NewestIn<T>(s: seq<T>, n: nat)
    ensures forall x :: x in Newest(s, n) ==> x in s
  {
  }

  lemma NewestTail<K>(keys: seq<K>, n: nat)
    requires |keys| > n
    ensures Newest(keys, n) == Newest(keys[1..], n)
  {
    NewestOfLonger(keys[0], keys[1..], n);
    assert keys == [keys[0]] + keys[1..];
  }

  lemma UseHead<K>(keys: seq<K>, key: K)
    requires keys != []
    ensures Use(keys, key) == if keys[0] == key then Use(keys[1..], key) else [keys[0]] + Use(keys[1..], key)
  {
    if keys[0] != key {
      assert [keys[0]] + Drop(keys[1..], key) + [key] == [keys[0]] + (Drop(keys[1..], key) + [key]);
    }
  }

  lemma UseNew<K>(keys: seq<K>, key: K, n: nat)
    requires key !in keys && n >= 1
    ensures Newest(Use(keys, key), n) == Newest(Use(Newest(keys, n), key), n)
  {
    NewestIn(keys, n);
    DropAbsent(keys, key);
    DropAbsent(Newest(keys, n), key);
    NewestPushed(keys, n, key);
  }

  /** Using a key and keeping the newest is the same as keeping the newest before as well. */
  lemma {:induction false} NewestUse<K>(keys: seq<K>, key: K, n: nat)
    requires NoRepeats(keys) && n >= 1
    ensures Newest(Use(keys, key), n) == Newest(Use(Newest(keys, n), key), n)
  {
    if |keys| > n {
      NewestTail(keys, n);
      UseHead(keys, key);
      if keys[0] == key {
        UseNew(keys[1..], key, n);
      } else {
        DropOne(keys[1..], key);
        NewestOfLonger(keys[0], Use(keys[1..], key), n);
        NewestUse(keys[1..], key, n);
      }
    }
  }

  lemma {:induction false} KeysWithout<K, V>(entries: seq<Entry<K, V>>, key: K)
    ensures Keys(Without(entries, key)) == Drop(Keys(entries), key)
  {
    if entries != [] {
      KeysWithout(entries[1..], key);
      assert Keys(entries)[1..] == Keys(entries[1..]);
    }
  }

  lemma KeysAtEnd<K, V>(entries: seq<Entry<K, V>>, key: K, value: V)
    ensures Keys(AtEnd(entries, key, value)) == Use(Keys(entries), key)
  {
    KeysWithout(entries, key);
    assert Keys(AtEnd(entries, key, value)) == Keys(Without(entries, key)) + [key];
  }
}
