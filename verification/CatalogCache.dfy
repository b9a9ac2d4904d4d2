/** `ReflectedCatalog` of `security/schema.py`: catalogs that answer from one shared cache, or reflect
    the database and store what they find. The cache is locked for each lookup and each store but not
    between them, so the calls of several threads interleave; reflection may give a different result
    every time. */
module CatalogCache {
  import opened Outcomes
  import opened OrderedDict
  import opened SchemaCache

  type Thread = nat

  /** A call on the catalog of an alias and a database. */
  datatype Request = ListTables(alias: string, database: string)
                   | ListColumns(alias: string, database: string, schema: string, table: string)

  datatype Reflected = TableList(tables: seq<(string, string)>) | ColumnList(columns: seq<string>)

  type CacheKey = seq<string>

  function Key(r: Request): CacheKey {
    match r
    case ListTables(alias, database) => [alias, database, "tables"]
    case ListColumns(alias, database, schema, table) => [alias, database, "columns", schema, table]
  }

  /** Different calls have different keys, whatever the names. */
  lemma KeysNeverCollide(a: Request, b: Request)
    ensures Key(a) == Key(b) <==> a == b
  {
    var x, y := Key(a), Key(b);
    if x == y {
      assert |x| == |y| && x[0] == y[0] && x[1] == y[1];
      if a.ListColumns? {
        assert b.ListColumns? && x[3] == y[3] && x[4] == y[4];
      }
    }
  }

  predicate Fits(r: Request, v: Reflected) {
    r.ListTables? <==> v.TableList?
  }

  // ----- Interleavings

  /** Where a call is: it missed the cache, or it has reflected and will store. */
  datatype Task = Missed(request: Request) | Found(request: Request, value: Reflected)

  datatype Reflection = Reflection(request: Request, value: Reflected)

  /** `hitAt` has the time of the lookup when the answer came from the cache. */
  datatype Reply = Reply(request: Request, value: Reflected, hitAt: Option<real>)

  /** `history`, `reflections` and `replies` record what happened. */
  datatype State = State(
    entries: Entries<CacheKey, Reflected>,
    tasks: map<Thread, Task>,
    history: seq<Event<CacheKey, Reflected>>,
    reflections: seq<Reflection>,
    replies: seq<Reply>)

  /** `Ask` looks the key up; `Reflect` queries the database, which may have no such table; `Finish`
      stores the result and returns it. */
  datatype Step =
    | Ask(thread: Thread, request: Request, at: real)
    | Reflect(thread: Thread, found: Option<Reflected>)
    | Finish(thread: Thread, at: real)

  function Next(max: nat, ttl: real, s: State, step: Step): State {
    match step
    case Ask(thread, request, at) =>
      if thread in s.tasks then s
      else
        var (entries, hit) := Fetch(ttl, s.entries, Key(request), at);
        var asked := s.(entries := entries, history := s.history + [Get(Key(request), at)]);
        if hit.Some? then asked.(replies := s.replies + [Reply(request, hit.value, Some(at))])
        else asked.(tasks := s.tasks[thread := Missed(request)])
    case Reflect(thread, found) =>
      if thread !in s.tasks || !s.tasks[thread].Missed? then s
      else if found.None? then s.(tasks := s.tasks - {thread})
      else
        var request := s.tasks[thread].request;
        if !Fits(request, found.value) then s
        else s.(tasks := s.tasks[thread := Found(request, found.value)],
                reflections := s.reflections + [Reflection(request, found.value)])
    case Finish(thread, at) =>
      if thread !in s.tasks || !s.tasks[thread].Found? then s
      else
        var task := s.tasks[thread];
        s.(entries := Store(max, s.entries, Key(task.request), task.value, at),
           history := s.history + [Put(Key(task.request), task.value, at)],
           tasks := s.tasks - {thread},
           replies := s.replies + [Reply(task.request, task.value, None)])
  }

  function Run(max: nat, ttl: real, steps: seq<Step>): State {
    if steps == [] then State([], map[], [], [], [])
    else Next(max, ttl, Run(max, ttl, steps[..|steps| - 1]), steps[|steps| - 1])
  }

  // ----- What every run keeps

  ghost predicate ReflectedFor(s: State, key: CacheKey, value: Reflected) {
    exists k :: 0 <= k < |s.reflections| && Key(s.reflections[k].request) == key && s.reflections[k].value == value
  }

  /** Everything stored was reflected under the same key. */
  ghost predicate StoresReflections(s: State) {
    forall i :: 0 <= i < |s.history| && s.history[i].Put? ==> ReflectedFor(s, s.history[i].key, s.history[i].value)
  }

  ghost predicate TasksReflected(s: State) {
    forall thread :: thread in s.tasks && s.tasks[thread].Found? ==>
                       ReflectedFor(s, Key(s.tasks[thread].request), s.tasks[thread].value)
  }

  ghost predicate StoredRecently(ttl: real, h: seq<Event<CacheKey, Reflected>>, key: CacheKey, value: Reflected,
                                 at: real) {
    exists i :: 0 <= i < |h| && h[i].Put? && h[i].key == key && h[i].value == value && at - h[i].at < ttl
  }

  ghost predicate GoodReply(ttl: real, s: State, r: Reply) {
    && ReflectedFor(s, Key(r.request), r.value)
    && (r.hitAt.Some? ==> StoredRecently(ttl, s.history, Key(r.request), r.value, r.hitAt.value))
  }

  ghost predicate Kept(max: nat, ttl: real, s: State) {
    && s.entries == After(max, ttl, s.history)
    && StoresReflections(s) && TasksReflected(s)
    && (forall i :: 0 <= i < |s.replies| ==> GoodReply(ttl, s, s.replies[i]))
  }

  lemma {:induction false} LastPutIsAPut<K, V>(h: seq<Event<K, V>>, key: K) returns (i: nat)
    requires LastPut(h, key).Some?
    ensures i < |h| && h[i] == Put(key, LastPut(h, key).value.value, LastPut(h, key).value.at)
  {
    var e := h[|h| - 1];
    if e.Put? && e.key == key {
      return |h| - 1;
    }
    i := LastPutIsAPut(h[..|h| - 1], key);
  }

  /** What was reflected or stored stays so. */
  lemma RecordsGrow(ttl: real, s: State, s': State)
    requires s.reflections <= s'.reflections && s.history <= s'.history
    ensures forall key, value :: ReflectedFor(s, key, value) ==> ReflectedFor(s', key, value)
    ensures forall r :: GoodReply(ttl, s, r) ==> GoodReply(ttl, s', r)
  {
    forall key, value | ReflectedFor(s, key, value)
      ensures ReflectedFor(s', key, value)
    {
      var k :| 0 <= k < |s.reflections| && Key(s.reflections[k].request) == key && s.reflections[k].value == value;
      assert s'.reflections[k] == s.reflections[k];
    }
    forall r | GoodReply(ttl, s, r) && r.hitAt.Some?
      ensures StoredRecently(ttl, s'.history, Key(r.request), r.value, r.hitAt.value)
    {
      var i :| 0 <= i < |s.history| && s.history[i].Put? && s.history[i].key == Key(r.request)
        && s.history[i].value == r.value
            && r.hitAt.value - s.history[i].at < ttl;
      assert s'.history[i] == s.history[i];
    }
  }

  lemma HitKeeps(max: nat, ttl: real, s: State, request: Request, at: real)
    requires Kept(max, ttl, s) && Fetch(ttl, s.entries, Key(request), at).1.Some?
    ensures GoodReply(ttl, s, Reply(request, Fetch(ttl, s.entries, Key(request), at).1.value, Some(at)))
  {
    HitIsTheLastPut(max, ttl, s.history, Key(request), at);
    var i := LastPutIsAPut(s.history, Key(request));
  }

  /** The lookup of `Ask` is the next event of the history. */
  lemma AskRecords(max: nat, ttl: real, s: State, thread: Thread, request: Request, at: real)
    requires Kept(max, ttl, s) && thread !in s.tasks
    ensures var s' := Next(max, ttl, s, Ask(thread, request, at));
      && s'.entries == After(max, ttl, s'.history) && StoresReflections(s') && TasksReflected(s')
  {
    var s' := Next(max, ttl, s, Ask(thread, request, at));
    AfterMore(max, ttl, s.history, Get(Key(request), at));
    assert s'.history == s.history + [Get(Key(request), at)] && s'.reflections == s.reflections;
    StoresMore(s, s');
  }

  /** Lookups add nothing that is stored. */
  lemma StoresMore(s: State, s': State)
    requires StoresReflections(s) && s'.reflections == s.reflections && |s'.history| == |s.history| + 1
    requires s.history <= s'.history && s'.history[|s.history|].Get?
    ensures StoresReflections(s')
  {
    forall i | 0 <= i < |s'.history| && s'.history[i].Put?
      ensures ReflectedFor(s', s'.history[i].key, s'.history[i].value)
    {
      assert s'.history[i] == s.history[i] && ReflectedFor(s, s.history[i].key, s.history[i].value);
    }
  }

  lemma AskKeeps(max: nat, ttl: real, s: State, thread: Thread, request: Request, at: real)
    requires Kept(max, ttl, s) && thread !in s.tasks
    ensures Kept(max, ttl, Next(max, ttl, s, Ask(thread, request, at)))
  {
    var s' := Next(max, ttl, s, Ask(thread, request, at));
    AskRecords(max, ttl, s, thread, request, at);
    RecordsGrow(ttl, s, s');
    if Fetch(ttl, s.entries, Key(request), at).1.Some? {
      HitKeeps(max, ttl, s, request, at);
    }
    forall i | 0 <= i < |s'.replies|
      ensures GoodReply(ttl, s', s'.replies[i])
    {
      assert i < |s.replies| ==> s'.replies[i] == s.replies[i];
    }
  }

  lemma FinishKeeps(max: nat, ttl: real, s: State, thread: Thread, at: real)
    requires Kept(max, ttl, s) && thread in s.tasks && s.tasks[thread].Found?
    ensures Kept(max, ttl, Next(max, ttl, s, Finish(thread, at)))
  {
    var s' := Next(max, ttl, s, Finish(thread, at));
    FinishRecords(max, ttl, s, thread, at);
    RecordsGrow(ttl, s, s');
    forall i | 0 <= i < |s'.replies|
      ensures GoodReply(ttl, s', s'.replies[i])
    {
      assert i < |s.replies| ==> s'.replies[i] == s.replies[i];
    }
  }

  /** What `Finish` stores is the next event of the history, and was reflected. */
  lemma FinishRecords(max: nat, ttl: real, s: State, thread: Thread, at: real)
    requires Kept(max, ttl, s) && thread in s.tasks && s.tasks[thread].Found?
    ensures var s' := Next(max, ttl, s, Finish(thread, at));
      && s'.entries == After(max, ttl, s'.history) && StoresReflections(s') && TasksReflected(s')
  {
    var s' := Next(max, ttl, s, Finish(thread, at));
    var task := s.tasks[thread];
    AfterMore(max, ttl, s.history, Put(Key(task.request), task.value, at));
    assert s'.history == s.history + [Put(Key(task.request), task.value, at)] && s'.reflections == s.reflections;
    StoresOneMore(s, s');
    forall other | other in s'.tasks && s'.tasks[other].Found?
      ensures ReflectedFor(s', Key(s'.tasks[other].request), s'.tasks[other].value)
    {
      assert other in s.tasks && ReflectedFor(s, Key(s.tasks[other].request), s.tasks[other].value);
    }
  }

  lemma StoresOneMore(s: State, s': State)
    requires StoresReflections(s) && s'.reflections == s.reflections && |s'.history| == |s.history| + 1
    requires s.history <= s'.history && s'.history[|s.history|].Put?
    requires ReflectedFor(s, s'.history[|s.history|].key, s'.history[|s.history|].value)
    ensures StoresReflections(s')
  {
    forall i | 0 <= i < |s'.history| && s'.history[i].Put?
      ensures ReflectedFor(s', s'.history[i].key, s'.history[i].value)
    {
      assert i < |s.history| ==> s'.history[i] == s.history[i];
      assert ReflectedFor(s, s'.history[i].key, s'.history[i].value);
    }
  }

  lemma ReflectKeeps(max: nat, ttl: real, s: State, thread: Thread, found: Option<Reflected>)
    requires Kept(max, ttl, s)
    ensures Kept(max, ttl, Next(max, ttl, s, Reflect(thread, found)))
  {
    var s' := Next(max, ttl, s, Reflect(thread, found));
    RecordsGrow(ttl, s, s');
    if thread in s'.tasks && s'.tasks[thread].Found? && s' != s {
      assert s'.reflections[|s.reflections|] == Reflection(s'.tasks[thread].request, s'.tasks[thread].value);
    }
  }

  lemma {:induction false} RunKeeps(max: nat, ttl: real, steps: seq<Step>)
    ensures Kept(max, ttl, Run(max, ttl, steps))
  {
    if steps != [] {
      var s, step := Run(max, ttl, steps[..|steps| - 1]), steps[|steps| - 1];
      RunKeeps(max, ttl, steps[..|steps| - 1]);
      match step
      case Ask(thread, request, at) => if thread !in s.tasks { AskKeeps(max, ttl, s, thread, request, at); }
      case Reflect(thread, found) => ReflectKeeps(max, ttl, s, thread, found);
      case Finish(thread, at) =>
        if thread in s.tasks && s.tasks[thread].Found? { FinishKeeps(max, ttl, s, thread, at); }
    }
  }

  /** MAIN RESULT. Whatever the interleaving, every answer of a catalog was produced by reflection for
      that same alias, database, schema and table, and one from the cache was stored less than the time
      to live before it was found. */
  lemma CatalogAgreesWithReflection(max: nat, ttl: real, steps: seq<Step>, i: nat)
    requires i < |Run(max, ttl, steps).replies|
    ensures var s := Run(max, ttl, steps); var r := s.replies[i];
      && Reflection(r.request, r.value) in s.reflections
      && (r.hitAt.Some? ==> StoredRecently(ttl, s.history, Key(r.request), r.value, r.hitAt.value))
  {
    RunKeeps(max, ttl, steps);
    var s := Run(max, ttl, steps);
    var r := s.replies[i];
    assert GoodReply(ttl, s, r);
    var k :| 0 <= k < |s.reflections| && Key(s.reflections[k].request) == Key(r.request)
      && s.reflections[k].value == r.value;
    KeysNeverCollide(s.reflections[k].request, r.request);
    assert s.reflections[k] in s.reflections;
  }

  /** MAIN RESULT. Whatever the interleaving, a call is answered from the cache exactly when the history
      has its key cached and unexpired, with what was last stored under it; any other call goes on to
      reflect. */
  lemma AskAnswers(max: nat, ttl: real, steps: seq<Step>, thread: Thread, request: Request, at: real)
    requires thread !in Run(max, ttl, steps).tasks
    ensures var s, s' := Run(max, ttl, steps), Run(max, ttl, steps + [Ask(thread, request, at)]);
      var h, key := s.history, Key(request);
      if key in Recent(max, ttl, h) && LastPut(h, key).Some? && !Expired(ttl, h, key, at)
      then s'.tasks == s.tasks && s'.replies == s.replies + [Reply(request, LastPut(h, key).value.value, Some(at))]
      else s'.tasks == s.tasks[thread := Missed(request)] && s'.replies == s.replies
  {
    var s := Run(max, ttl, steps);
    var all := steps + [Ask(thread, request, at)];
    assert all[..|all| - 1] == steps;
    RunKeeps(max, ttl, steps);
    HitExactly(max, ttl, s.history, Key(request), at);
  }

  /** What a call has reflected is stored and answered, and answers the same call again while it has not
      expired. */
  lemma StoredAnswersAgain(max: nat, ttl: real, steps: seq<Step>, thread: Thread, at: real, other: Thread, later: real)
    requires var s := Run(max, ttl, steps); thread in s.tasks && s.tasks[thread].Found?
    requires other == thread || other !in Run(max, ttl, steps).tasks
    requires max >= 1 && later - at < ttl
    ensures var s := Run(max, ttl, steps);
      var request, value := s.tasks[thread].request, s.tasks[thread].value;
      Run(max, ttl, steps + [Finish(thread, at)] + [Ask(other, request, later)]).replies ==
      s.replies + [Reply(request, value, None)] + [Reply(request, value, Some(later))]
  {
    var s := Run(max, ttl, steps);
    var request, value := s.tasks[thread].request, s.tasks[thread].value;
    var stored := steps + [Finish(thread, at)];
    assert stored[..|stored| - 1] == steps;
    var s' := Run(max, ttl, stored);
    assert s' == Next(max, ttl, s, Finish(thread, at));
    assert s'.history == s.history + [Put(Key(request), value, at)];
    assert s'.history[..|s'.history| - 1] == s.history;
    var used := Use(Recent(max, ttl, s.history), Key(request));
    assert Recent(max, ttl, s'.history) == Newest(used, max);
    assert used[|used| - 1] == Key(request) && Newest(used, max)[|Newest(used, max)| - 1] == Key(request);
    AskAnswers(max, ttl, stored, other, request, later);
  }

  // ----- The catalog object

  class ReflectedCatalog {
    const cache: Cache<CacheKey, Reflected>
    const alias: string
    const database: string

    constructor (cache: Cache<CacheKey, Reflected>, alias: string, database: string)
      ensures this.cache == cache && this.alias == alias && this.database == database
    {
      this.cache, this.alias, this.database := cache, alias, database;
    }

    /** One call with no other thread in between; `reflect` is what the database would say. */
    method Answer(request: Request, reflect: Option<Reflected>, askedAt: real,
                  storedAt: real) returns (r: Result<Reflected>)
      modifies cache
      ensures var (entries, hit) := Fetch(cache.ttl, old(cache.entries), Key(request), askedAt);
        if hit.Some? then r == Ok(hit.value) && cache.entries == entries
        else if reflect.None? then r == Rejected(TableGone) && cache.entries == entries
        else r == Ok(reflect.value) && cache.entries == Store(cache.max, entries, Key(request), reflect.value, storedAt)
    {
      var cached := cache.Get(Key(request), askedAt);
      if cached.None? {
        if reflect.None? {
          return Rejected(TableGone);
        }
        cached := reflect;
        cache.Put(Key(request), reflect.value, storedAt);
      }
      return Ok(cached.value);
    }
  }
}
