/** `SchemaCache` of `security/schema.py`: a bounded cache of reflection results, least recently used
    first, whose entries expire. Its operations run under one lock, so a history is a sequence of
    them; the clock is read inside. */
module SchemaCache {
  import opened Outcomes
  import opened OrderedDict

  /** A cached value and when it was stored. */
  datatype Stored<V> = Stored(at: real, value: V)

  type Entries<K, V> = seq<Entry<K, Stored<V>>>

  // ----- The operations

  function Fetch<K(==), V>(ttl: real, entries: Entries<K, V>, key: K, now: real): (Entries<K, V>, Option<V>) {
    var found := Lookup(entries, key);
    if found.None? then (entries, None)
    else if now - found.value.at >= ttl then (Without(entries, key), None)
    else (AtEnd(entries, key, found.value), Some(found.value.value))
  }

  function Store<K(==), V>(max: nat, entries: Entries<K, V>, key: K, value: V, now: real): Entries<K, V> {
    Newest(AtEnd(entries, key, Stored(now, value)), max)
  }

  /** The cache object. */
  class Cache<K(==), V> {
    const max: nat
    const ttl: real
    var entries: Entries<K, V>

    constructor (max: nat, ttl: real)
      ensures this.max == max && this.ttl == ttl && entries == []
    {
      this.max, this.ttl := max, ttl;
      entries := [];
    }

    method Get(key: K, now: real) returns (hit: Option<V>)
      modifies this
      ensures (entries, hit) == Fetch(ttl, old(entries), key, now)
    {
      var entry := Lookup(entries, key);
      if entry.None? {
        return None;
      }
      if now - entry.value.at >= ttl {
        entries := Without(entries, key);
        return None;
      }
      entries := AtEnd(entries, key, entry.value);
      return Some(entry.value.value);
    }

    method Put(key: K, value: V, now: real)
      modifies this
      ensures entries == Store(max, old(entries), key, value, now)
    {
      entries := AtEnd(entries, key, Stored(now, value));
      ghost var grown := entries;
      while |entries| > max
        invariant |entries| <= |grown| && entries == grown[|grown| - |entries|..]
        invariant |entries| >= max || entries == grown
        decreases |entries|
      {
        entries := entries[1..];
      }
    }
  }

  // ----- Histories

  datatype Event<K, V> = Put(key: K, value: V, at: real) | Get(key: K, at: real)

  function Apply<K(==), V>(max: nat, ttl: real, entries: Entries<K, V>, e: Event<K, V>): Entries<K, V> {
    match e
    case Put(key, value, at) => Store(max, entries, key, value, at)
    case Get(key, at) => Fetch(ttl, entries, key, at).0
  }

  function After<K(==), V>(max: nat, ttl: real, h: seq<Event<K, V>>): Entries<K, V> {
    if h == [] then [] else Apply(max, ttl, After(max, ttl, h[..|h| - 1]), h[|h| - 1])
  }

  /** What the cache answers after `h`. */
  function Answer<K(==), V>(max: nat, ttl: real, h: seq<Event<K, V>>, key: K, now: real): Option<V> {
    Fetch(ttl, After(max, ttl, h), key, now).1
  }

  // ----- What the history says, without the cache's own order

  /** The last value put under `key`. */
  function LastPut<K(==), V>(h: seq<Event<K, V>>, key: K): Option<Stored<V>> {
    if h == [] then None
    else
      var e := h[|h| - 1];
      if e.Put? && e.key == key then Some(Stored(e.at, e.value)) else LastPut(h[..|h| - 1], key)
  }

  /** The last event of `h` puts a key or finds it. */
  predicate Touches<K(==), V>(max: nat, ttl: real, h: seq<Event<K, V>>)
    requires h != []
  {
    var e := h[|h| - 1];
    e.Put? || Answer(max, ttl, h[..|h| - 1], e.key, e.at).Some?
  }

  /** The other keys put or hit since `key` last was. */
  function Others<K(==), V>(max: nat, ttl: real, h: seq<Event<K, V>>, key: K): set<K> {
    if h == [] then {}
    else
      var before := h[..|h| - 1];
      if !Touches(max, ttl, h) then Others(max, ttl, before, key)
      else if h[|h| - 1].key == key then {}
      else Others(max, ttl, before, key) + {h[|h| - 1].key}
  }

  // ----- The invariants

  /** Every entry is the last put of its key. */
  ghost predicate Current<K, V>(h: seq<Event<K, V>>, entries: Entries<K, V>) {
    forall i :: 0 <= i < |entries| ==> LastPut(h, entries[i].key) == Some(entries[i].value)
  }

  /** Whatever comes after an entry has been used after it. */
  ghost predicate Ordered<K, V>(others: K -> set<K>, entries: Entries<K, V>) {
    forall i, j :: 0 <= i < j < |entries| ==> entries[j].key in others(entries[i].key)
  }

  ghost function OthersOf<K, V>(max: nat, ttl: real, h: seq<Event<K, V>>): K -> set<K> {
    (key: K) => Others(max, ttl, h, key)
  }

  lemma LookupIsEntry<K, V>(entries: Entries<K, V>, key: K)
    ensures Lookup(entries, key).Some? ==> Entry(key, Lookup(entries, key).value) in entries
    ensures Lookup(entries, key).None? ==> !HasKey(entries, key)
  {
    LookupFinds(entries, key);
  }

  lemma NewestMembers<T>(s: seq<T>, n: nat)
    ensures forall x :: x in Newest(s, n) ==> x in s
  {
  }

  /** An operation adds only what it puts, and removes the old entry of that key. */
  lemma ApplyMembers<K, V>(max: nat, ttl: real, entries: Entries<K, V>, e: Event<K, V>, i: nat)
    requires i < |Apply(max, ttl, entries, e)|
    ensures var x := Apply(max, ttl, entries, e)[i];
      (x in entries && (e.Put? ==> x.key != e.key)) || (e.Put? && x == Entry(e.key, Stored(e.at, e.value)))
  {
    var x := Apply(max, ttl, entries, e)[i];
    WithoutKeeps(entries, e.key);
    LookupIsEntry(entries, e.key);
    if e.Put? {
      NewestMembers(AtEnd(entries, e.key, Stored(e.at, e.value)), max);
    }
    assert x in Apply(max, ttl, entries, e);
    var s := if e.Put? then Stored(e.at, e.value)
      else if Lookup(entries, e.key).Some? then Lookup(entries, e.key).value else Stored(e.at, x.value.value);
    assert x in AtEnd(entries, e.key, s) ==> x in Without(entries, e.key) || x == Entry(e.key, s);
    if x in Without(entries, e.key) {
      WithoutMember(entries, e.key, x);
    }
  }

  lemma {:induction false} EntriesAreCurrent<K, V>(max: nat, ttl: real, h: seq<Event<K, V>>)
    ensures Current(h, After(max, ttl, h))
  {
    if h != [] {
      var before, e := h[..|h| - 1], h[|h| - 1];
      EntriesAreCurrent(max, ttl, before);
      var entries, after := After(max, ttl, before), After(max, ttl, h);
      forall i | 0 <= i < |after|
        ensures LastPut(h, after[i].key) == Some(after[i].value)
      {
        ApplyMembers(max, ttl, entries, e, i);
      }
    }
  }

  lemma {:induction false} EntriesAreUnique<K, V>(max: nat, ttl: real, h: seq<Event<K, V>>)
    ensures UniqueKeys(After(max, ttl, h)) && |After(max, ttl, h)| <= max
  {
    if h != [] {
      var before, e := h[..|h| - 1], h[|h| - 1];
      EntriesAreUnique(max, ttl, before);
      var entries := After(max, ttl, before);
      match e {
        case Put(key, value, at) =>
          AtEndUnique(entries, key, Stored(at, value));
          NewestUnique(AtEnd(entries, key, Stored(at, value)), max);
        case Get(key, at) =>
          var found := Lookup(entries, key);
          if found.Some? {
            AtEndUnique(entries, key, found.value);
            LookupFinds(entries, key);
            WithoutShorter(entries, key);
          }
      }
    }
  }

  /** MAIN RESULT. A hit answers with the last value put under the key, put less than the time to live
      ago; and the cache never has more entries than it may. */
  lemma HitIsTheLastPut<K, V>(max: nat, ttl: real, h: seq<Event<K, V>>, key: K, now: real)
    ensures |After(max, ttl, h)| <= max
    ensures var hit := Answer(max, ttl, h, key, now);
      hit.Some? ==>
        LastPut(h, key).Some? && LastPut(h, key).value.value == hit.value && now - LastPut(h, key).value.at < ttl
  {
    EntriesAreUnique(max, ttl, h);
    EntriesAreCurrent(max, ttl, h);
    LookupIsEntry(After(max, ttl, h), key);
  }

  // ----- Retention

  /** Moving the entry at `i` to the end keeps the order of use, if `others'` records the use. */
  lemma UseKeepsOrder<K, V>(others: K -> set<K>, others': K -> set<K>, entries: Entries<K, V>, key: K, s: Stored<V>)
    requires UniqueKeys(entries) && Ordered(others, entries)
    requires forall k: K | HasKey(entries, k) && k != key :: others(k) + {key} <= others'(k)
    ensures Ordered(others', AtEnd(entries, key, s))
  {
    var rest := Without(entries, key);
    WithoutKeepsOrder(others, entries, key);
    WithoutKeeps(entries, key);
    forall i, j | 0 <= i < j <= |rest|
      ensures AtEnd(entries, key, s)[j].key in others'(AtEnd(entries, key, s)[i].key)
    {
      var x := rest[i];
      assert x in rest;
      WithoutMember(entries, key, x);
      assert others(x.key) + {key} <= others'(x.key);
      assert j < |rest| ==> rest[j].key in others(x.key);
    }
  }

  lemma WithoutKeepsOrder<K, V>(others: K -> set<K>, entries: Entries<K, V>, key: K)
    requires UniqueKeys(entries) && Ordered(others, entries)
    ensures Ordered(others, Without(entries, key))
  {
    if HasKey(entries, key) {
      var p :| 0 <= p < |entries| && entries[p].key == key;
      WithoutSplits(entries, p);
      var rest := entries[..p] + entries[p + 1..];
      assert forall k :: 0 <= k < |rest| ==> rest[k] == entries[if k < p then k else k + 1];
    } else {
      WithoutAbsent(entries, key);
    }
  }

  lemma NewestKeepsOrder<K, V>(others: K -> set<K>, entries: Entries<K, V>, n: nat)
    requires Ordered(others, entries)
    ensures Ordered(others, Newest(entries, n))
  {
    var kept := Newest(entries, n);
    var d := |entries| - |kept|;
    forall i, j | 0 <= i < j < |kept|
      ensures kept[j].key in others(kept[i].key)
    {
      assert kept[i] == entries[d + i] && kept[j] == entries[d + j];
    }
  }

  /** The entries are in the order of their latest use. */
  lemma {:induction false} EntriesAreOrdered<K, V>(max: nat, ttl: real, h: seq<Event<K, V>>)
    ensures Ordered(OthersOf(max, ttl, h), After(max, ttl, h))
  {
    if h != [] {
      var before, e := h[..|h| - 1], h[|h| - 1];
      EntriesAreOrdered(max, ttl, before);
      EntriesAreUnique(max, ttl, before);
      var entries := After(max, ttl, before);
      var others, others' := OthersOf(max, ttl, before), OthersOf(max, ttl, h);
      if Touches(max, ttl, h) {
        var s := if e.Put? then Stored(e.at, e.value) else Lookup(entries, e.key).value;
        UseKeepsOrder(others, others', entries, e.key, s);
        NewestKeepsOrder(others', AtEnd(entries, e.key, s), max);
      } else {
        assert forall k :: others(k) == others'(k);
        WithoutKeepsOrder(others, entries, e.key);
      }
    }
  }

  function KeySet<K, V>(entries: Entries<K, V>): set<K> {
    set i | 0 <= i < |entries| :: entries[i].key
  }

  lemma {:induction false} KeySetSize<K, V>(entries: Entries<K, V>)
    requires UniqueKeys(entries)
    ensures |KeySet(entries)| == |entries|
  {
    if entries != [] {
      UniqueTail(entries);
      KeySetSize(entries[1..]);
      assert KeySet(entries) == {entries[0].key} + KeySet(entries[1..]) by {
        forall k | k in KeySet(entries)
          ensures k in {entries[0].key} + KeySet(entries[1..])
        {
          var i :| 0 <= i < |entries| && entries[i].key == k;
          if i > 0 {
            assert entries[1..][i - 1].key == k;
          }
        }
        forall i | 0 <= i < |entries[1..]|
          ensures entries[1..][i].key in KeySet(entries)
        {
          assert entries[i + 1].key in KeySet(entries);
        }
      }
    }
  }

  lemma SubsetSize<K>(a: set<K>, b: set<K>)
    requires a <= b
    ensures |a| <= |b|
  {
    if a != {} {
      var x :| x in a;
      SubsetSize(a - {x}, b - {x});
    }
  }

  /** An entry that the cap drops has at least `max` others after it. */
  lemma DroppedHasManyOthers<K, V>(others: K -> set<K>, grown: Entries<K, V>, max: nat, i: nat)
    requires UniqueKeys(grown) && Ordered(others, grown) && i < |grown| - max
    ensures |others(grown[i].key)| >= max
  {
    var kept := Newest(grown, max);
    NewestUnique(grown, max);
    KeySetSize(kept);
    var d := |grown| - |kept|;
    forall k | k in KeySet(kept)
      ensures k in others(grown[i].key)
    {
      var j :| 0 <= j < |kept| && kept[j].key == k;
      assert grown[d + j].key == k;
    }
    SubsetSize(KeySet(kept), others(grown[i].key));
  }

  lemma NewestHas<K, V>(grown: Entries<K, V>, max: nat, key: K)
    requires HasKey(grown, key)
    ensures HasKey(Newest(grown, max), key) || exists i :: 0 <= i < |grown| - max && grown[i].key == key
  {
    var i :| 0 <= i < |grown| && grown[i].key == key;
    var d := |grown| - |Newest(grown, max)|;
    if i >= d {
      assert Newest(grown, max)[i - d].key == key;
    }
  }

  lemma AtEndHas<K, V>(entries: Entries<K, V>, key: K, s: Stored<V>, k: K)
    ensures HasKey(AtEnd(entries, key, s), k) <==> k == key || HasKey(entries, k)
    ensures k != key ==> (HasKey(Without(entries, key), k) <==> HasKey(entries, k))
  {
    WithoutKeeps(entries, key);
    var grown, rest := AtEnd(entries, key, s), Without(entries, key);
    if k == key {
      assert grown[|rest|].key == key;
    }
    if i :| 0 <= i < |entries| && entries[i].key == k && k != key {
      assert entries[i] in rest && entries[i] in grown;
    }
    if i :| 0 <= i < |rest| && rest[i].key == k {
      assert rest[i] in rest && grown[i].key == k;
    }
    if i :| 0 <= i < |grown| && grown[i].key == k && k != key {
      assert grown[i] in rest;
    }
  }

  /** What one `put` does to a key that is there or was pushed out. */
  lemma PutRetains<K, V>(max: nat, ttl: real, h: seq<Event<K, V>>, key: K)
    requires h != [] && h[|h| - 1].Put?
    requires HasKey(After(max, ttl, h[..|h| - 1]), key) || h[|h| - 1].key == key
    ensures HasKey(After(max, ttl, h), key) || |Others(max, ttl, h, key)| >= max
  {
    var before, e := h[..|h| - 1], h[|h| - 1];
    var entries, s := After(max, ttl, before), Stored(e.at, e.value);
    var grown := AtEnd(entries, e.key, s);
    AtEndHas(entries, e.key, s, key);
    NewestHas(grown, max, key);
    if !HasKey(Newest(grown, max), key) {
      var i :| 0 <= i < |grown| - max && grown[i].key == key;
      EntriesAreUnique(max, ttl, before);
      EntriesAreOrdered(max, ttl, before);
      AtEndUnique(entries, e.key, s);
      UseKeepsOrder(OthersOf(max, ttl, before), OthersOf(max, ttl, h), entries, e.key, s);
      DroppedHasManyOthers(OthersOf(max, ttl, h), grown, max, i);
    }
  }

  /** A key whose last put has not expired is there, unless enough others came since. */
  lemma {:induction false} Retained<K, V>(max: nat, ttl: real, h: seq<Event<K, V>>, key: K, now: real)
    requires forall i :: 0 <= i < |h| ==> h[i].at <= now
    requires LastPut(h, key).Some? && now - LastPut(h, key).value.at < ttl
    ensures HasKey(After(max, ttl, h), key) || |Others(max, ttl, h, key)| >= max
  {
    var before, e := h[..|h| - 1], h[|h| - 1];
    if e.Put? && e.key == key {
      PutRetains(max, ttl, h, key);
    } else {
      Retained(max, ttl, before, key, now);
      SubsetSize(Others(max, ttl, before, key), Others(max, ttl, before, key) + {e.key});
      var entries := After(max, ttl, before);
      LookupIsEntry(entries, e.key);
      if e.Put? {
        if HasKey(entries, key) {
          PutRetains(max, ttl, h, key);
        }
      } else {
        GetRetains(max, ttl, h, key, now);
      }
    }
  }

  lemma GetRetains<K, V>(max: nat, ttl: real, h: seq<Event<K, V>>, key: K, now: real)
    requires h != [] && h[|h| - 1].Get? && h[|h| - 1].at <= now
    requires LastPut(h, key).Some? && now - LastPut(h, key).value.at < ttl
    ensures HasKey(After(max, ttl, h[..|h| - 1]), key) ==> HasKey(After(max, ttl, h), key)
    ensures !HasKey(After(max, ttl, h[..|h| - 1]), key) ==> Touches(max, ttl, h) ==> h[|h| - 1].key != key
  {
    var before, e := h[..|h| - 1], h[|h| - 1];
    var entries := After(max, ttl, before);
    LookupIsEntry(entries, e.key);
    LookupFinds(entries, e.key);
    EntriesAreCurrent(max, ttl, before);
    if Lookup(entries, e.key).Some? {
      AtEndHas(entries, e.key, Lookup(entries, e.key).value, key);
    }
  }

  /** MAIN RESULT. A key put less than the time to live ago is found as long as fewer than `max` other
      keys were put or hit since it last was. */
  lemma RecentKeyHits<K, V>(max: nat, ttl: real, h: seq<Event<K, V>>, key: K, now: real)
    requires forall i :: 0 <= i < |h| ==> h[i].at <= now
    requires LastPut(h, key).Some? && now - LastPut(h, key).value.at < ttl
    requires |Others(max, ttl, h, key)| < max
    ensures Answer(max, ttl, h, key, now) == Some(LastPut(h, key).value.value)
  {
    Retained(max, ttl, h, key, now);
    EntriesAreCurrent(max, ttl, h);
    LookupFinds(After(max, ttl, h), key);
    LookupIsEntry(After(max, ttl, h), key);
  }

  // ----- What is cached, from the history alone

  /** What was last put under the key has expired. */
  predicate Expired<K(==), V>(ttl: real, h: seq<Event<K, V>>, key: K, now: real) {
    LastPut(h, key).Some? && now - LastPut(h, key).value.at >= ttl
  }

  /** The keys put or hit, in the order of their last put or hit: a lookup that finds its key expired
      drops it, and a put keeps the newest `max`. */
  function Recent<K(==), V>(max: nat, ttl: real, h: seq<Event<K, V>>): seq<K> {
    if h == [] then []
    else
      var before := h[..|h| - 1];
      var keys := Recent(max, ttl, before);
      match h[|h| - 1]
      case Put(key, _, _) => Newest(Use(keys, key), max)
      case Get(key, at) =>
        if key !in keys then keys
        else if Expired(ttl, before, key, at) then Drop(keys, key)
        else Use(keys, key)
  }

  lemma KeysHave<K, V>(entries: Entries<K, V>, key: K)
    ensures HasKey(entries, key) <==> key in Keys(entries)
  {
    if i :| 0 <= i < |entries| && entries[i].key == key {
      assert Keys(entries)[i] == key;
    }
  }

  lemma NewestKeys<K, V>(entries: Entries<K, V>, n: nat)
    ensures Keys(Newest(entries, n)) == Newest(Keys(entries), n)
  {
  }

  /** MAIN RESULT. After every history the cached keys are exactly those that the history says, in that
      order. */
  lemma {:induction false} CacheIsRecent<K, V>(max: nat, ttl: real, h: seq<Event<K, V>>)
    ensures Keys(After(max, ttl, h)) == Recent(max, ttl, h)
  {
    if h != [] {
      var before, e := h[..|h| - 1], h[|h| - 1];
      CacheIsRecent(max, ttl, before);
      var entries := After(max, ttl, before);
      match e {
        case Put(key, value, at) =>
          KeysAtEnd(entries, key, Stored(at, value));
          NewestKeys(AtEnd(entries, key, Stored(at, value)), max);
        case Get(key, at) =>
          FetchedKeys(max, ttl, before, key, at);
      }
    }
  }

  lemma FetchedKeys<K, V>(max: nat, ttl: real, h: seq<Event<K, V>>, key: K, at: real)
    ensures var entries := After(max, ttl, h);
      var keys := Keys(entries);
      Keys(Fetch(ttl, entries, key, at).0) ==
        if key !in keys then keys else if Expired(ttl, h, key, at) then Drop(keys, key) else Use(keys, key)
  {
    var entries := After(max, ttl, h);
    KeysHave(entries, key);
    LookupFinds(entries, key);
    LookupIsEntry(entries, key);
    EntriesAreCurrent(max, ttl, h);
    KeysWithout(entries, key);
    if Lookup(entries, key).Some? {
      KeysAtEnd(entries, key, Lookup(entries, key).value);
    }
  }

  /** MAIN RESULT. A lookup is a hit exactly when the history has the key cached and its last put has not
      expired. */
  lemma HitExactly<K, V>(max: nat, ttl: real, h: seq<Event<K, V>>, key: K, now: real)
    ensures Answer(max, ttl, h, key, now) ==
      if key in Recent(max, ttl, h) && LastPut(h, key).Some? && !Expired(ttl, h, key, now)
      then Some(LastPut(h, key).value.value) else None
  {
    var entries := After(max, ttl, h);
    CacheIsRecent(max, ttl, h);
    KeysHave(entries, key);
    LookupFinds(entries, key);
    LookupIsEntry(entries, key);
    EntriesAreCurrent(max, ttl, h);
  }

  lemma AfterMore<K, V>(max: nat, ttl: real, h: seq<Event<K, V>>, e: Event<K, V>)
    ensures After(max, ttl, h + [e]) == Apply(max, ttl, After(max, ttl, h), e)
  {
    assert (h + [e])[..|h + [e]| - 1] == h;
  }

  /** A lookup without an answer leaves the key absent, and every other entry in its place. */
  lemma MissLeavesTheOthers<K, V>(max: nat, ttl: real, h: seq<Event<K, V>>, key: K, at: real)
    requires Answer(max, ttl, h, key, at).None?
    ensures After(max, ttl, h + [Get(key, at)]) == Without(After(max, ttl, h), key)
    ensures !HasKey(After(max, ttl, h + [Get(key, at)]), key)
  {
    var entries := After(max, ttl, h);
    AfterMore(max, ttl, h, Get(key, at));
    LookupFinds(entries, key);
    assert After(max, ttl, h + [Get(key, at)]) == Fetch(ttl, entries, key, at).0;
    if Lookup(entries, key).None? {
      WithoutAbsent(entries, key);
    }
    forall i | 0 <= i < |Without(entries, key)|
      ensures Without(entries, key)[i].key != key
    {
      WithoutMember(entries, key, Without(entries, key)[i]);
    }
  }

  /** MAIN RESULT. A lookup that finds its key expired frees the place: a new key put next pushes nothing
      out of the cache. */
  lemma ExpiryFreesAPlace<K, V>(max: nat, ttl: real, h: seq<Event<K, V>>, key: K, at: real, other: K, value: V,
                                 later: real)
    requires HasKey(After(max, ttl, h), key) && Answer(max, ttl, h, key, at).None?
    ensures var h' := h + [Get(key, at)] + [Put(other, value, later)];
      && After(max, ttl, h') == AtEnd(Without(After(max, ttl, h), key), other, Stored(later, value))
      && forall k :: k != key && HasKey(After(max, ttl, h), k) ==> HasKey(After(max, ttl, h'), k)
  {
    var entries := After(max, ttl, h);
    var left := Without(entries, key);
    MissLeavesTheOthers(max, ttl, h, key, at);
    AfterMore(max, ttl, h + [Get(key, at)], Put(other, value, later));
    EntriesAreUnique(max, ttl, h);
    AtEndUnique(entries, key, Stored(later, value));
    AtEndUnique(left, other, Stored(later, value));
    assert |left| < |entries| by {
      var i :| 0 <= i < |entries| && entries[i].key == key;
      WithoutSplits(entries, i);
    }
    forall k | k != key && HasKey(entries, k)
      ensures HasKey(AtEnd(left, other, Stored(later, value)), k)
    {
      AtEndHas(entries, key, Stored(later, value), k);
      AtEndHas(left, other, Stored(later, value), k);
    }
  }
}
