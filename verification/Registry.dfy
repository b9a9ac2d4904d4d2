/** `db/registry.py`: the bounded cache of database engines. Engines are created and dropped from the
    cache under the lock and disposed after it is released, so the calls of several threads
    interleave. An engine is an opaque number, counted in the order of creation. */
module Registry {
  import opened Outcomes
  import opened OrderedDict

  /** A server alias and a database. */
  type EngineKey = (string, Option<string>)
  type Engine = nat
  type Thread = nat

  type Cache = seq<Entry<EngineKey, Engine>>

  /** An engine that a thread has taken out of the cache and has still to dispose. */
  datatype Held = Held(thread: Thread, engine: Engine)

  /** `answers` has the engine that the latest `get` of a thread returns, until it calls `dispose`. */
  datatype State = State(cache: Cache, created: nat, held: seq<Held>, disposed: seq<Engine>,
                         answers: map<Thread, Engine>)

  // ----- The locked sections

  /** The engine to return, the new cache, the new count of engines and the engine evicted. */
  datatype Fetched = Fetched(engine: Engine, cache: Cache, created: nat, evicted: Option<Engine>)

  function LockedGet(capacity: nat, cache: Cache, created: nat, key: EngineKey): Fetched {
    var found := Lookup(cache, key);
    if found.Some? then Fetched(found.value, AtEnd(cache, key, found.value), created, None)
    else
      var grown := AtEnd(cache, key, created);
      if |grown| > capacity then Fetched(created, grown[1..], created + 1, Some(grown[0].value))
      else Fetched(created, grown, created + 1, None)
  }

  function Engines(cache: Cache): seq<Engine> {
    seq(|cache|, i requires 0 <= i < |cache| => cache[i].value)
  }

  // ----- Interleavings

  /** What one thread does next. `Get` and `Clear` are the locked sections of `get` and `dispose`;
      `Release` disposes one engine outside the lock. A `get` for an unknown alias, or one whose engine
      cannot be created, changes nothing and is no step. */
  datatype Step = Get(thread: Thread, key: EngineKey) | Clear(thread: Thread) | Release(thread: Thread)

  predicate Holds(held: seq<Held>, thread: Thread) {
    exists i :: 0 <= i < |held| && held[i].thread == thread
  }

  function HeldBy(thread: Thread, engines: seq<Engine>): seq<Held> {
    seq(|engines|, i requires 0 <= i < |engines| => Held(thread, engines[i]))
  }

  /** The position of the first engine held by `thread`. */
  function FirstHeld(held: seq<Held>, thread: Thread): (i: nat)
    requires Holds(held, thread)
    ensures i < |held| && held[i].thread == thread
    ensures forall k :: 0 <= k < i ==> held[k].thread != thread
  {
    if held[0].thread == thread then 0
    else
      assert exists i :: 0 <= i < |held[1..]| && held[1..][i].thread == thread by {
        var i :| 0 <= i < |held| && held[i].thread == thread;
        assert held[1..][i - 1] == held[i];
      }
      1 + FirstHeld(held[1..], thread)
  }

  /** A thread finishes a call before it starts another; a step it cannot take changes nothing. */
  function Next(capacity: nat, s: State, step: Step): State {
    match step
    case Get(thread, key) =>
      if Holds(s.held, thread) then s
      else
        var f := LockedGet(capacity, s.cache, s.created, key);
        s.(cache := f.cache, created := f.created, answers := s.answers[thread := f.engine],
           held := s.held + (if f.evicted.Some? then [Held(thread, f.evicted.value)] else []))
    case Clear(thread) =>
      if Holds(s.held, thread) then s
      else s.(cache := [], held := s.held + HeldBy(thread, Engines(s.cache)), answers := s.answers - {thread})
    case Release(thread) =>
      if !Holds(s.held, thread) then s
      else
        var i := FirstHeld(s.held, thread);
        s.(held := s.held[..i] + s.held[i + 1..], disposed := s.disposed + [s.held[i].engine])
  }

  function Start(): State {
    State([], 0, [], [], map[])
  }

  function Run(capacity: nat, steps: seq<Step>): State {
    if steps == [] then Start() else Next(capacity, Run(capacity, steps[..|steps| - 1]), steps[|steps| - 1])
  }

  // ----- Conservation

  function HeldEngines(held: seq<Held>): seq<Engine> {
    seq(|held|, i requires 0 <= i < |held| => held[i].engine)
  }

  /** Everything that has been created. */
  function Made(n: nat): multiset<Engine> {
    if n == 0 then multiset{} else Made(n - 1) + multiset{n - 1}
  }

  lemma {:induction false} MadeOnce(n: nat, e: Engine)
    ensures Made(n)[e] == if e < n then 1 else 0
  {
    if n > 0 {
      MadeOnce(n - 1, e);
    }
  }

  /** Where the engines are. */
  function Everywhere(s: State): multiset<Engine> {
    multiset(Engines(s.cache)) + multiset(HeldEngines(s.held)) + multiset(s.disposed)
  }

  ghost predicate NotItsOwn(s: State) {
    forall thread :: thread in s.answers ==> Held(thread, s.answers[thread]) !in s.held
  }

  ghost predicate Conserved(capacity: nat, s: State) {
    && UniqueKeys(s.cache) && |s.cache| <= capacity
    && Everywhere(s) == Made(s.created)
    && NotItsOwn(s)
  }

  lemma MovedEngines(cache: Cache, key: EngineKey, i: nat)
    requires UniqueKeys(cache) && i < |cache| && cache[i].key == key
    ensures multiset(Engines(AtEnd(cache, key, cache[i].value))) == multiset(Engines(cache))
    ensures |AtEnd(cache, key, cache[i].value)| == |cache|
  {
    WithoutSplits(cache, i);
    var e := Engines(cache);
    assert Engines(AtEnd(cache, key, cache[i].value)) == e[..i] + e[i + 1..] + [e[i]];
    assert e == e[..i] + [e[i]] + e[i + 1..];
  }

  /** What a locked section moves: what was cached or created is cached or evicted. */
  ghost predicate Moves(before: Cache, created: nat, f: Fetched) {
    multiset(Engines(f.cache)) + (if f.evicted.Some? then multiset{f.evicted.value} else multiset{})
    == multiset(Engines(before)) + (if f.created == created then multiset{} else multiset{created})
  }

  lemma HitMoves(capacity: nat, cache: Cache, created: nat, key: EngineKey)
    requires UniqueKeys(cache) && |cache| <= capacity && Lookup(cache, key).Some?
    ensures var f := LockedGet(capacity, cache, created, key);
      |f.cache| == |cache| && f.created == created && Moves(cache, created, f)
  {
    LookupFinds(cache, key);
    var i :| 0 <= i < |cache| && cache[i] == Entry(key, Lookup(cache, key).value);
    MovedEngines(cache, key, i);
  }

  lemma MissMoves(capacity: nat, cache: Cache, created: nat, key: EngineKey)
    requires |cache| <= capacity && capacity >= 1 && Lookup(cache, key).None?
    ensures var f := LockedGet(capacity, cache, created, key);
      |f.cache| <= capacity && f.engine == created && f.created == created + 1 && Moves(cache, created, f)
  {
    LookupFinds(cache, key);
    WithoutAbsent(cache, key);
    var grown := AtEnd(cache, key, created);
    assert Engines(grown) == Engines(cache) + [created];
    if |grown| > capacity {
      FirstOut(grown);
    }
  }

  lemma FirstOut(cache: Cache)
    requires cache != []
    ensures multiset(Engines(cache)) == multiset{cache[0].value} + multiset(Engines(cache[1..]))
  {
    assert Engines(cache) == [cache[0].value] + Engines(cache[1..]);
  }

  lemma LockedGetUnique(capacity: nat, cache: Cache, created: nat, key: EngineKey)
    requires UniqueKeys(cache) && |cache| <= capacity && capacity >= 1
    ensures var f := LockedGet(capacity, cache, created, key);
      UniqueKeys(f.cache) && f.cache != [] && f.cache[|f.cache| - 1] == Entry(key, f.engine)
  {
    var found := Lookup(cache, key);
    AtEndUnique(cache, key, if found.Some? then found.value else created);
    if found.None? {
      var grown := AtEnd(cache, key, created);
      UniqueTail(grown);
    }
  }

  lemma HeldAppend(a: seq<Held>, b: seq<Held>)
    ensures multiset(HeldEngines(a + b)) == multiset(HeldEngines(a)) + multiset(HeldEngines(b))
  {
    assert HeldEngines(a + b) == HeldEngines(a) + HeldEngines(b);
  }

  lemma GetConserves(capacity: nat, s: State, thread: Thread, key: EngineKey)
    requires Conserved(capacity, s) && capacity >= 1 && !Holds(s.held, thread)
    ensures Conserved(capacity, Next(capacity, s, Get(thread, key)))
  {
    var f := LockedGet(capacity, s.cache, s.created, key);
    LockedGetUnique(capacity, s.cache, s.created, key);
    if Lookup(s.cache, key).Some? {
      HitMoves(capacity, s.cache, s.created, key);
    } else {
      MissMoves(capacity, s.cache, s.created, key);
    }
    var more := if f.evicted.Some? then [Held(thread, f.evicted.value)] else [];
    HeldAppend(s.held, more);
    assert HeldEngines(more) == if f.evicted.Some? then [f.evicted.value] else [];
    var s' := Next(capacity, s, Get(thread, key));
    GetConservesEngines(s, s', f, more);
    EvictedIsNotReturned(s', thread, f);
  }

  lemma Regroup(a': multiset<Engine>, evicted: multiset<Engine>, held: multiset<Engine>, disposed: multiset<Engine>,
                a: multiset<Engine>, made: multiset<Engine>)
    requires a' + evicted == a + made
    ensures a' + (held + evicted) + disposed == (a + held + disposed) + made
  {
    assert a' + (held + evicted) + disposed == (a' + evicted) + held + disposed;
  }

  lemma GetConservesEngines(s: State, s': State, f: Fetched, more: seq<Held>)
    requires Everywhere(s) == Made(s.created) && Moves(s.cache, s.created, f)
    requires f.created == s.created || f.created == s.created + 1
    requires multiset(HeldEngines(more)) == if f.evicted.Some? then multiset{f.evicted.value} else multiset{}
    requires multiset(HeldEngines(s.held + more)) == multiset(HeldEngines(s.held)) + multiset(HeldEngines(more))
    requires s'.cache == f.cache && s'.created == f.created && s'.held == s.held + more && s'.disposed == s.disposed
    ensures Everywhere(s') == Made(s'.created)
  {
    var made := if f.created == s.created then multiset{} else multiset{s.created};
    Regroup(multiset(Engines(f.cache)), multiset(HeldEngines(more)), multiset(HeldEngines(s.held)),
            multiset(s.disposed), multiset(Engines(s.cache)), made);
    assert Made(s'.created) == Made(s.created) + made;
  }

  /** An engine in the cache is not also held. */
  lemma EvictedIsNotReturned(s: State, thread: Thread, f: Fetched)
    requires Everywhere(s) == Made(s.created) && s.cache != [] && s.cache[|s.cache| - 1].value == f.engine
    ensures Held(thread, f.engine) !in s.held
  {
    MadeOnce(s.created, f.engine);
    assert Engines(s.cache)[|s.cache| - 1] == f.engine;
    assert multiset(Engines(s.cache))[f.engine] >= 1;
    assert multiset(HeldEngines(s.held))[f.engine] == 0;
    forall i | 0 <= i < |s.held|
      ensures s.held[i].engine != f.engine
    {
      assert HeldEngines(s.held)[i] in HeldEngines(s.held);
    }
  }

  lemma ClearConserves(capacity: nat, s: State, thread: Thread)
    requires Conserved(capacity, s) && !Holds(s.held, thread)
    ensures Conserved(capacity, Next(capacity, s, Clear(thread)))
  {
    var taken := HeldBy(thread, Engines(s.cache));
    HeldAppend(s.held, taken);
    assert HeldEngines(taken) == Engines(s.cache);
    assert Engines([]) == [];
  }

  lemma HeldRemoved(held: seq<Held>, i: nat)
    requires i < |held|
    ensures multiset(HeldEngines(held)) == multiset(HeldEngines(held[..i] + held[i + 1..])) + multiset{held[i].engine}
  {
    var e := HeldEngines(held);
    assert HeldEngines(held[..i] + held[i + 1..]) == e[..i] + e[i + 1..];
    assert e == e[..i] + [e[i]] + e[i + 1..];
  }

  lemma ReleaseConserves(capacity: nat, s: State, thread: Thread)
    requires Conserved(capacity, s) && Holds(s.held, thread)
    ensures Conserved(capacity, Next(capacity, s, Release(thread)))
  {
    var i := FirstHeld(s.held, thread);
    HeldRemoved(s.held, i);
    var s' := Next(capacity, s, Release(thread));
    assert multiset(s'.disposed) == multiset(s.disposed) + multiset{s.held[i].engine};
    assert forall h :: h in s'.held ==> h in s.held;
  }

  lemma {:induction false} RunConserves(capacity: nat, steps: seq<Step>)
    requires capacity >= 1
    ensures Conserved(capacity, Run(capacity, steps))
  {
    if steps != [] {
      var s, step := Run(capacity, steps[..|steps| - 1]), steps[|steps| - 1];
      RunConserves(capacity, steps[..|steps| - 1]);
      match step
      case Get(thread, key) => if !Holds(s.held, thread) { GetConserves(capacity, s, thread, key); }
      case Clear(thread) => if !Holds(s.held, thread) { ClearConserves(capacity, s, thread); }
      case Release(thread) => if Holds(s.held, thread) { ReleaseConserves(capacity, s, thread); }
    } else {
      assert Everywhere(Start()) == multiset{};
    }
  }

  /** How often an engine is in a sequence. */
  function Times(engines: seq<Engine>, e: Engine): nat {
    multiset(engines)[e]
  }

  /** MAIN RESULT. Whatever the interleaving, every engine ever created is in exactly one place, once:
      cached, held by one thread for disposal, or disposed. The cache never exceeds its capacity and
      has one engine for a key. */
  lemma RegistryConservation(capacity: nat, steps: seq<Step>, e: Engine)
    requires capacity >= 1
    ensures var s := Run(capacity, steps);
      && Times(Engines(s.cache), e) + Times(HeldEngines(s.held), e) + Times(s.disposed, e)
         == (if e < s.created then 1 else 0)
      && |s.cache| <= capacity
      && forall i, j :: 0 <= i < j < |s.cache| ==> s.cache[i].key != s.cache[j].key
  {
    RunConserves(capacity, steps);
    var s := Run(capacity, steps);
    MadeOnce(s.created, e);
    assert Everywhere(s)[e] == Times(Engines(s.cache), e) + Times(HeldEngines(s.held), e) + Times(s.disposed, e);
  }

  /** MAIN RESULT. The engine that a `get` disposes is not the one it returns. */
  lemma GetKeepsItsEngine(capacity: nat, steps: seq<Step>, thread: Thread)
    requires capacity >= 1
    ensures var s := Run(capacity, steps);
      thread in s.answers && Holds(s.held, thread) ==> s.held[FirstHeld(s.held, thread)].engine != s.answers[thread]
  {
    RunConserves(capacity, steps);
    var s := Run(capacity, steps);
    if Holds(s.held, thread) {
      assert s.held[FirstHeld(s.held, thread)] in s.held;
    }
  }

  lemma OneEntry(a: EngineKey, b: EngineKey, x: Engine, y: Engine)
    requires a != b
    ensures Lookup([Entry(a, x)], b) == None && AtEnd([Entry(a, x)], b, y) == [Entry(a, x), Entry(b, y)]
  {
    var one := [Entry(a, x)];
    assert one[1..] == [];
    WithoutAbsent(one, b);
  }

  /** Another thread may: with room for one engine, thread 1 is given engine 0, and thread 2 disposes it
      while thread 1 still uses it. */
  lemma ReturnedEngineMayBeDisposed(a: EngineKey, b: EngineKey)
    requires a != b
    ensures var s := Run(1, [Get(1, a), Get(2, b), Release(2)]);
      1 in s.answers && s.answers[1] == 0 && s.disposed == [0]
  {
    var steps := [Get(1, a), Get(2, b), Release(2)];
    assert steps[..2] == [Get(1, a), Get(2, b)] && steps[..2][..1] == [Get(1, a)] && steps[..2][..1][..0] == [];
    var s0, first := Start(), [Get(1, a)];
    assert Run(1, first[..0]) == s0;
    var s1, s2 := Run(1, first), Run(1, steps[..2]);
    assert s1 == Next(1, s0, Get(1, a)) && !Holds(s0.held, 1);
    assert s1.cache == [Entry(a, 0)] && s1.held == [];
    OneEntry(a, b, 0, 1);
    assert s2 == Next(1, s1, Get(2, b)) && !Holds(s1.held, 2);
    assert s2.held == [Held(2, 0)] && s2.disposed == [];
    assert s2.held[0].thread == 2;
    assert Run(1, steps) == Next(1, s2, Release(2));
  }

  // ----- Least recently used

  /** The keys asked for since the last `dispose`, each once, in the order of their latest use. */
  function Recent(capacity: nat, steps: seq<Step>): seq<EngineKey> {
    if steps == [] then []
    else
      var n := |steps| - 1;
      var before := Recent(capacity, steps[..n]);
      if Holds(Run(capacity, steps[..n]).held, steps[n].thread) then before
      else
        match steps[n]
        case Get(_, key) => Use(before, key)
        case Clear(_) => []
        case Release(_) => before
  }

  /** The locked section of `get` uses the key and keeps the newest. */
  lemma GetUses(capacity: nat, cache: Cache, created: nat, key: EngineKey)
    requires capacity >= 1 && UniqueKeys(cache) && |cache| <= capacity
    ensures Keys(LockedGet(capacity, cache, created, key).cache) == Newest(Use(Keys(cache), key), capacity)
  {
    var f := LockedGet(capacity, cache, created, key);
    KeysAtEnd(cache, key, f.engine);
    AtEndUnique(cache, key, f.engine);
    LookupFinds(cache, key);
  }

  /** MAIN RESULT. At every moment the cached keys are exactly the `capacity` most recently used keys
      since the last `dispose`, in the order of use. */
  lemma {:induction false} CacheIsLeastRecentlyUsed(capacity: nat, steps: seq<Step>)
    requires capacity >= 1
    ensures NoRepeats(Recent(capacity, steps))
    ensures Keys(Run(capacity, steps).cache) == Newest(Recent(capacity, steps), capacity)
  {
    if steps != [] {
      var n := |steps| - 1;
      var s, step, before := Run(capacity, steps[..n]), steps[n], Recent(capacity, steps[..n]);
      CacheIsLeastRecentlyUsed(capacity, steps[..n]);
      if step.Get? && !Holds(s.held, step.thread) {
        RunConserves(capacity, steps[..n]);
        GetUses(capacity, s.cache, s.created, step.key);
        NewestUse(before, step.key, capacity);
        DropMembers(before, step.key);
        DropOne(before, step.key);
        UseKeepsOne(Drop(before, step.key), step.key);
      }
    }
  }

  // ----- Engines in use

  /** Engine `e` was created, and is cached under `key` if at all. */
  ghost predicate Tracks(cache: Cache, created: nat, key: EngineKey, e: Engine) {
    e < created && forall x :: x in cache && x.value == e ==> x.key == key
  }

  /** Where the entries of the cache come from after the locked section of `get`. */
  lemma LockedGetEntries(capacity: nat, cache: Cache, created: nat, used: EngineKey)
    ensures var f := LockedGet(capacity, cache, created, used);
      && (forall x :: x in f.cache ==> x in cache || x == Entry(used, f.engine))
      && (f.engine == created || Entry(used, f.engine) in cache)
  {
    var f := LockedGet(capacity, cache, created, used);
    LookupFinds(cache, used);
    WithoutKeeps(cache, used);
    var grown := AtEnd(cache, used, f.engine);
    assert f.cache == grown || (|grown| > 0 && f.cache == grown[1..]);
    forall x | x in f.cache
      ensures x in cache || x == Entry(used, f.engine)
    {
      assert x in grown;
      if x in Without(cache, used) {
        WithoutMember(cache, used, x);
      }
    }
  }

  lemma SameKeySameEntry(cache: Cache, key: EngineKey, e: Engine)
    requires UniqueKeys(cache) && Entry(key, e) in cache && key in Keys(cache)
    ensures forall x :: x in cache && x.key == key ==> x == Entry(key, e)
    ensures Lookup(cache, key) == Some(e)
  {
    var i :| 0 <= i < |cache| && cache[i] == Entry(key, e);
    WithoutSplits(cache, i);
  }

  lemma KeysHave(cache: Cache, key: EngineKey)
    ensures key in Keys(cache) <==> exists x :: x in cache && x.key == key
  {
    var keys := Keys(cache);
    if key in keys {
      var i :| 0 <= i < |keys| && keys[i] == key;
      assert cache[i] in cache;
    }
    if x :| x in cache && x.key == key {
      var i :| 0 <= i < |cache| && cache[i] == x;
      assert keys[i] == key;
    }
  }

  /** The locked section keeps a cached engine exactly as long as its key, and brings none back. */
  lemma LockedGetLeaves(capacity: nat, cache: Cache, created: nat, used: EngineKey, key: EngineKey, e: Engine)
    requires capacity >= 1 && UniqueKeys(cache) && |cache| <= capacity && Tracks(cache, created, key, e)
    ensures var f := LockedGet(capacity, cache, created, used);
      && Tracks(f.cache, f.created, key, e)
      && (Entry(key, e) in cache ==> (Entry(key, e) in f.cache <==> key in Keys(f.cache)))
      && (Entry(key, e) !in cache ==> Entry(key, e) !in f.cache)
  {
    var f := LockedGet(capacity, cache, created, used);
    LockedGetEntries(capacity, cache, created, used);
    KeysHave(f.cache, key);
    KeysHave(cache, key);
    if Entry(key, e) in cache {
      SameKeySameEntry(cache, key, e);
    }
  }

  ghost predicate HasEngine(s: State, key: EngineKey, e: Engine) {
    Entry(key, e) in s.cache
  }

  lemma StepLeaves(capacity: nat, s: State, step: Step, key: EngineKey, e: Engine)
    requires capacity >= 1 && Conserved(capacity, s) && Tracks(s.cache, s.created, key, e)
    ensures var s' := Next(capacity, s, step);
      && Tracks(s'.cache, s'.created, key, e)
      && (HasEngine(s, key, e) ==> (HasEngine(s', key, e) <==> key in Keys(s'.cache)))
      && (!HasEngine(s, key, e) ==> !HasEngine(s', key, e))
  {
    KeysHave(s.cache, key);
    if step.Get? {
      LockedGetLeaves(capacity, s.cache, s.created, step.key, key, e);
    }
  }

  lemma RunStep(capacity: nat, steps: seq<Step>, m: nat)
    requires m < |steps|
    ensures Run(capacity, steps[..m + 1]) == Next(capacity, Run(capacity, steps[..m]), steps[m])
  {
    assert steps[..m + 1][..m] == steps[..m];
  }

  /** Whether engine `e` is cached after `m` steps. */
  ghost predicate HasAfter(capacity: nat, steps: seq<Step>, m: nat, key: EngineKey, e: Engine)
    requires m <= |steps|
  {
    HasEngine(Run(capacity, steps[..m]), key, e)
  }

  ghost predicate TracksAfter(capacity: nat, steps: seq<Step>, m: nat, key: EngineKey, e: Engine)
    requires m <= |steps|
  {
    Tracks(Run(capacity, steps[..m]).cache, Run(capacity, steps[..m]).created, key, e)
  }

  predicate KeyAfter(capacity: nat, steps: seq<Step>, m: nat, key: EngineKey)
    requires m <= |steps|
  {
    key in Keys(Run(capacity, steps[..m]).cache)
  }

  lemma AfterStep(capacity: nat, steps: seq<Step>, m: nat, key: EngineKey, e: Engine)
    requires capacity >= 1 && m < |steps| && TracksAfter(capacity, steps, m, key, e)
    ensures TracksAfter(capacity, steps, m + 1, key, e)
    ensures HasAfter(capacity, steps, m, key, e) ==>
      (HasAfter(capacity, steps, m + 1, key, e) <==> KeyAfter(capacity, steps, m + 1, key))
    ensures !HasAfter(capacity, steps, m, key, e) ==> !HasAfter(capacity, steps, m + 1, key, e)
  {
    RunConserves(capacity, steps[..m]);
    RunStep(capacity, steps, m);
    StepLeaves(capacity, Run(capacity, steps[..m]), steps[m], key, e);
  }

  lemma {:induction false} TracksOn(capacity: nat, steps: seq<Step>, g: nat, m: nat, key: EngineKey, e: Engine)
    requires capacity >= 1 && g <= m <= |steps| && TracksAfter(capacity, steps, g, key, e)
    ensures TracksAfter(capacity, steps, m, key, e)
    decreases m
  {
    if m > g {
      TracksOn(capacity, steps, g, m - 1, key, e);
      assert (m - 1) + 1 == m;
      AfterStep(capacity, steps, m - 1, key, e);
    }
  }

  /** What is there stays as long as the condition holds; what is not there does not come back. */
  ghost predicate GoesOn(has: nat -> bool, held: nat -> bool, j: nat) {
    if has(j) then has(j + 1) == held(j + 1) else !has(j + 1)
  }

  /** What is there as long as a condition holds, and does not come back, is there iff the condition
      held throughout. */
  lemma {:induction false} Throughout(has: nat -> bool, held: nat -> bool, g: nat, m: nat)
    requires g <= m && has(g) && held(g)
    requires forall j :: g <= j < m ==> GoesOn(has, held, j)
    ensures has(m) <==> forall j :: g <= j <= m ==> held(j)
    decreases m
  {
    if m > g {
      assert GoesOn(has, held, m - 1);
      Throughout(has, held, g, m - 1);
    }
  }

  /** An engine cached under its key after `g` steps stays exactly as long as the key. */
  lemma EngineStays(capacity: nat, steps: seq<Step>, g: nat, m: nat, key: EngineKey, e: Engine)
    requires capacity >= 1 && g <= m <= |steps| && TracksAfter(capacity, steps, g, key, e)
        && HasAfter(capacity, steps, g, key, e)
    ensures HasAfter(capacity, steps, m, key, e) <==> forall j :: g <= j <= m ==> KeyAfter(capacity, steps, j, key)
  {
    StaysThroughout(capacity, steps, g, m, key, e);
    KeyAtMeans(capacity, steps, key, g, m);
    assert HasAt(capacity, steps, key, e)(m) == HasAfter(capacity, steps, m, key, e);
  }

  lemma StaysThroughout(capacity: nat, steps: seq<Step>, g: nat, m: nat, key: EngineKey, e: Engine)
    requires capacity >= 1 && g <= m <= |steps| && TracksAfter(capacity, steps, g, key, e)
        && HasAfter(capacity, steps, g, key, e)
    ensures var has, held := HasAt(capacity, steps, key, e), KeyAt(capacity, steps, key);
      has(m) <==> forall j :: g <= j <= m ==> held(j)
  {
    var has, held := HasAt(capacity, steps, key, e), KeyAt(capacity, steps, key);
    HasItsKey(Run(capacity, steps[..g]), key, e);
    forall j | g <= j < m
      ensures GoesOn(has, held, j)
    {
      StepAt(capacity, steps, g, j, key, e);
    }
    Throughout(has, held, g, m);
  }

  lemma StepAt(capacity: nat, steps: seq<Step>, g: nat, j: nat, key: EngineKey, e: Engine)
    requires capacity >= 1 && g <= j < |steps| && TracksAfter(capacity, steps, g, key, e)
    ensures GoesOn(HasAt(capacity, steps, key, e), KeyAt(capacity, steps, key), j)
  {
    TracksOn(capacity, steps, g, j, key, e);
    AfterStep(capacity, steps, j, key, e);
  }

  ghost function HasAt(capacity: nat, steps: seq<Step>, key: EngineKey, e: Engine): nat -> bool {
    (j: nat) => j <= |steps| && HasAfter(capacity, steps, j, key, e)
  }

  ghost function KeyAt(capacity: nat, steps: seq<Step>, key: EngineKey): nat -> bool {
    (j: nat) => j <= |steps| && KeyAfter(capacity, steps, j, key)
  }

  lemma KeyAtMeans(capacity: nat, steps: seq<Step>, key: EngineKey, g: nat, m: nat)
    requires m <= |steps|
    ensures (forall j :: g <= j <= m ==> KeyAt(capacity, steps, key)(j)) <==> forall j :: g <= j <= m ==>
      KeyAfter(capacity, steps, j, key)
  {
    assert forall j: nat :: g <= j <= m ==> KeyAt(capacity, steps, key)(j) == KeyAfter(capacity, steps, j, key);
  }

  lemma HasItsKey(s: State, key: EngineKey, e: Engine)
    ensures HasEngine(s, key, e) ==> key in Keys(s.cache)
  {
    KeysHave(s.cache, key);
  }

  /** Where a `get` puts the engine that it gives. */
  lemma EngineGiven(capacity: nat, s: State, thread: Thread, key: EngineKey)
    requires capacity >= 1 && Conserved(capacity, s) && !Holds(s.held, thread)
    ensures var s' := Next(capacity, s, Get(thread, key));
      && thread in s'.answers
      && Tracks(s'.cache, s'.created, key, s'.answers[thread]) && HasEngine(s', key, s'.answers[thread])
  {
    LockedGetUnique(capacity, s.cache, s.created, key);
    GetConserves(capacity, s, thread, key);
    var s' := Next(capacity, s, Get(thread, key));
    EngineHasOneKey(s', |s'.cache| - 1);
  }

  /** In a conserved state an engine is cached once. */
  lemma EngineHasOneKey(s: State, i: nat)
    requires Everywhere(s) == Made(s.created) && i < |s.cache|
    ensures Tracks(s.cache, s.created, s.cache[i].key, s.cache[i].value)
  {
    var e, engines := s.cache[i].value, Engines(s.cache);
    MadeOnce(s.created, e);
    assert engines[i] == e && e in multiset(engines);
    forall x | x in s.cache && x.value == e
      ensures x.key == s.cache[i].key
    {
      var j :| 0 <= j < |s.cache| && s.cache[j] == x;
      assert engines[j] == e;
      Twice(engines, i, j);
    }
  }

  lemma Twice(engines: seq<Engine>, i: nat, j: nat)
    requires i < |engines| && j < |engines| && engines[i] == engines[j]
    ensures i != j ==> multiset(engines)[engines[i]] >= 2
  {
    if i < j {
      assert engines == engines[..i] + [engines[i]] + engines[i + 1..j] + [engines[j]] + engines[j + 1..];
    } else if j < i {
      assert engines == engines[..j] + [engines[j]] + engines[j + 1..i] + [engines[i]] + engines[i + 1..];
    }
  }

  /** A created engine is cached iff it is neither held nor disposed. */
  lemma CachedOrGone(capacity: nat, s: State, key: EngineKey, e: Engine)
    requires Conserved(capacity, s) && Tracks(s.cache, s.created, key, e)
    ensures HasEngine(s, key, e) <==> Times(HeldEngines(s.held), e) == 0 && Times(s.disposed, e) == 0
  {
    MadeOnce(s.created, e);
    assert Everywhere(s)[e] == Times(Engines(s.cache), e) + Times(HeldEngines(s.held), e) + Times(s.disposed, e);
    var engines := Engines(s.cache);
    if HasEngine(s, key, e) {
      var i :| 0 <= i < |s.cache| && s.cache[i] == Entry(key, e);
      assert engines[i] == e && e in multiset(engines);
    }
    if e in engines {
      var i :| 0 <= i < |engines| && engines[i] == e;
      assert s.cache[i] in s.cache;
    }
    assert Times(engines, e) > 0 <==> e in engines;
  }

  /** MAIN RESULT. The engine that a `get` returns is neither held for disposal nor disposed exactly as
      long as its key has been among the `capacity` most recently used ever since, `dispose` included. */
  lemma EngineStaysUsable(capacity: nat, steps: seq<Step>, g: nat)
    requires capacity >= 1 && g < |steps| && steps[g].Get? && !Holds(Run(capacity, steps[..g]).held, steps[g].thread)
    ensures steps[g].thread in Run(capacity, steps[..g + 1]).answers
    ensures var s, e := Run(capacity, steps), Run(capacity, steps[..g + 1]).answers[steps[g].thread];
      Times(HeldEngines(s.held), e) == 0 && Times(s.disposed, e) == 0 <==>
      forall m :: g < m <= |steps| ==> steps[g].key in Newest(Recent(capacity, steps[..m]), capacity)
  {
    var n, key, s := |steps|, steps[g].key, Run(capacity, steps[..g]);
    RunConserves(capacity, steps[..g]);
    RunStep(capacity, steps, g);
    EngineGiven(capacity, s, steps[g].thread, key);
    var e := Run(capacity, steps[..g + 1]).answers[steps[g].thread];
    EngineStays(capacity, steps, g + 1, n, key, e);
    TracksOn(capacity, steps, g + 1, n, key, e);
    EngineGone(capacity, steps, key, e);
    forall m | g < m <= n
      ensures KeyAfter(capacity, steps, m, key) <==> key in Newest(Recent(capacity, steps[..m]), capacity)
    {
      CacheIsLeastRecentlyUsed(capacity, steps[..m]);
    }
  }

  lemma EngineGone(capacity: nat, steps: seq<Step>, key: EngineKey, e: Engine)
    requires capacity >= 1 && TracksAfter(capacity, steps, |steps|, key, e)
    ensures HasAfter(capacity, steps, |steps|, key, e) <==>
      Times(HeldEngines(Run(capacity, steps).held), e) == 0 && Times(Run(capacity, steps).disposed, e) == 0
  {
    assert steps[..|steps|] == steps;
    RunConserves(capacity, steps);
    CachedOrGone(capacity, Run(capacity, steps), key, e);
  }

  // ----- The registry object

  class EngineRegistry {
    const capacity: nat
    var engines: Cache
    var created: nat
    var disposed: seq<Engine>

    constructor (capacity: nat)
      ensures this.capacity == capacity && engines == [] && created == 0 && disposed == []
    {
      this.capacity := capacity;
      engines, created, disposed := [], 0, [];
    }

    /** The part of `get` under the lock. */
    method Fetch(key: EngineKey) returns (engine: Engine, evicted: Option<Engine>)
      modifies this
      ensures Fetched(engine, engines, created, evicted) == LockedGet(capacity, old(engines), old(created), key)
      ensures disposed == old(disposed)
    {
      evicted := None;
      var found := Lookup(engines, key);
      if found.Some? {
        engines := AtEnd(engines, key, found.value);
        return found.value, None;
      }
      engine := created;
      created := created + 1;
      engines := AtEnd(engines, key, engine);
      if |engines| > capacity {
        evicted := Some(engines[0].value);
        engines := engines[1..];
      }
    }

    method DisposeEngine(engine: Engine)
      modifies this
      ensures disposed == old(disposed) + [engine] && engines == old(engines) && created == old(created)
    {
      disposed := disposed + [engine];
    }

    /** `get`, when no other thread comes between: one `Get` step, and one `Release` if it evicts. */
    method Get(key: EngineKey) returns (engine: Engine)
      modifies this
      ensures var f := LockedGet(capacity, old(engines), old(created), key);
        && engine == f.engine && engines == f.cache && created == f.created
        && disposed == old(disposed) + if f.evicted.Some? then [f.evicted.value] else []
    {
      var evicted;
      engine, evicted := Fetch(key);
      if evicted.Some? {
        DisposeEngine(evicted.value);
      }
    }

    /** `dispose`: everything cached is disposed, oldest first, and nothing stays cached. */
    method Dispose()
      modifies this
      ensures engines == [] && created == old(created) && disposed == old(disposed) + Engines(old(engines))
    {
      var taken := Engines(engines);
      engines := [];
      var i := 0;
      while i < |taken|
        invariant 0 <= i <= |taken| && engines == [] && created == old(created)
        invariant disposed == old(disposed) + taken[..i]
      {
        DisposeEngine(taken[i]);
        i := i + 1;
      }
    }
  }
}
