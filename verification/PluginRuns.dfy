/** Plugin state over whole runs: any number of plugins writing, draining, loading and evicting
    while entities come and go. The question throughout is whether what the cache answers is
    what the tables will hold once the queues are drained. */
module PluginRuns {
  import opened Prelude
  import opened PluginState

  // The cache, each plugin's queue, the tables, the connected entities, and which scopes have
  // been loaded into the cache.
  datatype State = State(
    cache: map<string, Bytes>, queues: map<PluginId, seq<Write>>, durable: Durable, entities: Entities,
    loaded: set<Scope>)

  function QueueOf(s: State, p: PluginId): seq<Write> {
    if p in s.queues then s.queues[p] else []
  }

  datatype Event =
    | Set(plugin: PluginId, scope: Scope, key: string, value: Bytes)
    | Drain(plugin: PluginId)
    | Enter(entity: string, character: CharacterId)
    | Load(scope: Scope)
    | Depart(entity: string)
    | Evict(entity: string)

  function Drained(s: State, p: PluginId): State {
    s.(queues := s.queues[p := []], durable := Replayed(s.entities, s.durable, QueueOf(s, p)))
  }

  function Departed(s: State, entity: string): State {
    s.(entities := s.entities - {entity}, loaded := s.loaded - {Character(entity)})
  }

  ghost predicate Step(s: State, e: Event, s': State) {
    match e
    case Set(p, scope, key, value) =>
      s' == s.(cache := s.cache[CacheKey(scope, key) := value],
               queues := if scope.Entity? then s.queues else s.queues[p := QueueOf(s, p) + [Write(scope, key, value)]])
    case Drain(p) => s' == Drained(s, p)
    case Enter(entity, character) => s' == s.(entities := s.entities[entity := character])
    case Load(scope) =>
      var row := RowOf(s.entities, scope);
      && row.Some? && Hydrated(s.cache, s'.cache, s.durable, scope, row.value)
      && s' == s.(cache := s'.cache, loaded := s.loaded + {scope})
    case Depart(entity) => s' == Departed(s, entity)
    case Evict(entity) => s' == s.(cache := Evicted(s.cache, entity))
  }

  function Cached(s: State, scope: Scope, key: string): Option<Bytes> {
    Lookup(s.cache, CacheKey(scope, key))
  }

  function Stored(s: State, row: Row, key: string): Option<Bytes> {
    Lookup(s.durable, (row, key))
  }

  function Pending(s: State, p: PluginId, row: Row, key: string): Option<Bytes> {
    QueuedFor(s.entities, QueueOf(s, p), row, key)
  }

  // Every queue that holds a write for the row ends with the value, and if none does the
  // table holds it.
  ghost predicate RowSettled(s: State, row: Row, key: string, value: Option<Bytes>) {
    && (forall p :: Pending(s, p, row, key).Some? ==> Pending(s, p, row, key) == value)
    && ((forall p :: Pending(s, p, row, key).None?) ==> Stored(s, row, key) == value)
  }

  function DrainedAll(s: State, order: seq<PluginId>): State {
    if order == [] then s else Drained(DrainedAll(s, order[..|order| - 1]), order[|order| - 1])
  }

  ghost predicate DrainsEveryQueue(s: State, order: seq<PluginId>) {
    forall p :: p in s.queues ==> p in order
  }

  // What the table holds after draining in an order.
  function DrainedValue(s: State, order: seq<PluginId>, row: Row, key: string): Option<Bytes> {
    Stored(DrainedAll(s, order), row, key)
  }

  // One drain, seen from one row and key.
  lemma DrainEffect(s: State, p: PluginId, row: Row, key: string)
    ensures var s' := Drained(s, p);
            && s'.entities == s.entities && s'.cache == s.cache && s'.loaded == s.loaded
            && Stored(s', row, key)
               == (if Pending(s, p, row, key).Some? then Pending(s, p, row, key) else Stored(s, row, key))
            && Pending(s', p, row, key).None?
            && forall q :: q != p ==> Pending(s', q, row, key) == Pending(s, q, row, key)
  {
    hide Replayed;
    ReplayedAt(s.entities, s.durable, QueueOf(s, p), row, key);
  }

  lemma DrainKeepsSettled(s: State, p: PluginId, row: Row, key: string, value: Option<Bytes>)
    requires RowSettled(s, row, key, value)
    ensures RowSettled(Drained(s, p), row, key, value)
  {
    hide Drained, Stored, Pending;
    DrainEffect(s, p, row, key);
    var s' := Drained(s, p);
    forall q | Pending(s', q, row, key).Some? ensures Pending(s', q, row, key) == value {
      assert q != p && Pending(s, q, row, key).Some?;
    }
    if forall q :: Pending(s', q, row, key).None? {
      if Pending(s, p, row, key).None? {
        forall q ensures Pending(s, q, row, key).None? {
          assert Pending(s', q, row, key).None?;
        }
      }
    }
  }

  // What a sequence of drains does not touch, and what it empties.
  lemma {:induction false} DrainsEmpty(s: State, order: seq<PluginId>, p: PluginId)
    ensures DrainedAll(s, order).entities == s.entities
    ensures p in order ==> QueueOf(DrainedAll(s, order), p) == []
    ensures p !in order ==> QueueOf(DrainedAll(s, order), p) == QueueOf(s, p)
  {
    hide Replayed;
    if order != [] {
      DrainsEmpty(s, order[..|order| - 1], p);
    }
  }

  lemma {:induction false} DrainsKeepSettled(s: State, order: seq<PluginId>, row: Row, key: string,
          value: Option<Bytes>)
    requires RowSettled(s, row, key, value)
    ensures RowSettled(DrainedAll(s, order), row, key, value)
  {
    hide RowSettled, Drained;
    if order != [] {
      var n := |order| - 1;
      DrainsKeepSettled(s, order[..n], row, key, value);
      DrainKeepsSettled(DrainedAll(s, order[..n]), order[n], row, key, value);
    }
  }

  lemma Enumerated(plugins: set<PluginId>) returns (order: seq<PluginId>)
    ensures forall p :: p in order <==> p in plugins
    decreases plugins
  {
    if plugins == {} {
      order := [];
    } else {
      assert (forall x :: x !in plugins) ==> plugins == {};
      var p :| p in plugins;
      var rest := Enumerated(plugins - {p});
      order := rest + [p];
    }
  }

  ghost predicate EveryDrainGives(s: State, row: Row, key: string, value: Option<Bytes>) {
    forall order :: DrainsEveryQueue(s, order) ==> DrainedValue(s, order, row, key) == value
  }

  // Draining every queue, in whatever order, leaves a value in the table exactly when the row
  // is settled on it.
  lemma DrainsAgreeExactlyWhen(s: State, row: Row, key: string, value: Option<Bytes>)
    ensures EveryDrainGives(s, row, key, value) <==> RowSettled(s, row, key, value)
  {
    hide Drained, DrainedAll, DrainedValue, Stored, Pending;
    if RowSettled(s, row, key, value) {
      forall order | DrainsEveryQueue(s, order) ensures DrainedValue(s, order, row, key) == value {
        SettledDrains(s, order, row, key, value);
      }
    } else if p :| Pending(s, p, row, key).Some? && Pending(s, p, row, key) != value {
      var others := Enumerated(s.queues.Keys - {p});
      LastDrainWins(s, others, p, row, key);
      assert DrainsEveryQueue(s, others + [p]);
    } else {
      var order := Enumerated(s.queues.Keys);
      assert DrainsEveryQueue(s, order);
      UnqueuedDrains(s, order, row, key);
    }
  }

  lemma SettledDrains(s: State, order: seq<PluginId>, row: Row, key: string, value: Option<Bytes>)
    requires RowSettled(s, row, key, value) && DrainsEveryQueue(s, order)
    ensures DrainedValue(s, order, row, key) == value
  {
    hide DrainedAll;
    DrainsKeepSettled(s, order, row, key, value);
    var s' := DrainedAll(s, order);
    forall p ensures Pending(s', p, row, key).None? {
      DrainsEmpty(s, order, p);
    }
  }

  lemma LastDrainWins(s: State, others: seq<PluginId>, p: PluginId, row: Row, key: string)
    requires p !in others && Pending(s, p, row, key).Some?
    ensures DrainedValue(s, others + [p], row, key) == Pending(s, p, row, key)
  {
    hide Drained, QueuedFor;
    var before := DrainedAll(s, others);
    assert (others + [p])[..|others|] == others;
    DrainsEmpty(s, others, p);
    DrainEffect(before, p, row, key);
  }

  lemma {:induction false} UnqueuedDrains(s: State, order: seq<PluginId>, row: Row, key: string)
    requires forall p :: Pending(s, p, row, key).None?
    ensures DrainedValue(s, order, row, key) == Stored(s, row, key)
  {
    hide Drained;
    if order != [] {
      var n := |order| - 1;
      var before := DrainedAll(s, order[..n]);
      UnqueuedDrains(s, order[..n], row, key);
      DrainsEmpty(s, order[..n], order[n]);
      assert Pending(s, order[n], row, key).None?;
      DrainEffect(before, order[n], row, key);
    }
  }

  // What the cache answers for a scope is what its row is settled on.
  ghost predicate Settled(s: State, scope: Scope, key: string)
    requires RowOf(s.entities, scope).Some?
  {
    RowSettled(s, RowOf(s.entities, scope).value, key, Cached(s, scope, key))
  }

  predicate Kept(s: State, scope: Scope, key: string) {
    scope in s.loaded || Cached(s, scope, key).Some?
  }

  // Loaded scopes have ids without a colon, and rows.
  ghost predicate Named(s: State) {
    forall scope :: scope in s.loaded ==> Plain(scope) && RowOf(s.entities, scope).Some?
  }

  // Every cached value of a scope that has a row is settled, and of a loaded scope every key
  // is, cached or not.
  ghost predicate Agrees(s: State) {
    && Named(s)
    && (forall scope, key :: Plain(scope) && RowOf(s.entities, scope).Some? && Kept(s, scope, key) ==>
        Settled(s, scope, key))
  }

  // Ids are free of colons, and an entity comes with an id that has not been used before.
  ghost predicate Expected(s: State, e: Event) {
    match e
    case Set(p, scope, key, value) => Plain(scope)
    case Drain(_) => true
    case Enter(entity, character) => ':' !in entity && entity !in s.entities && Unused(s, Character(entity))
    case Load(scope) => Plain(scope)
    case Depart(_) => true
    case Evict(entity) => ':' !in entity
  }

  ghost predicate Unused(s: State, scope: Scope) {
    && (forall key :: Cached(s, scope, key).None?)
    && (forall p, w :: w in QueueOf(s, p) ==> w.scope != scope)
  }

  // No other plugin has a different value queued for the row.
  ghost predicate NoRival(s: State, p: PluginId, row: Row, key: string, value: Bytes) {
    forall q :: q != p && Pending(s, q, row, key).Some? ==> Pending(s, q, row, key) == Some(value)
  }

  // Another scope that stands for the same row: a second connection of the character.
  predicate Twin(s: State, t: Scope, scope: Scope) {
    t != scope && Plain(t) && RowOf(s.entities, t).Some? && RowOf(s.entities, t) == RowOf(s.entities, scope)
  }

  // No queued value of the scope's row differs from a stored one or has no cache entry.
  ghost predicate NothingNewer(s: State, scope: Scope, key: string)
    requires RowOf(s.entities, scope).Some?
  {
    var row := RowOf(s.entities, scope).value;
    forall p :: Pending(s, p, row, key).Some? ==>
      if Stored(s, row, key).Some? then Pending(s, p, row, key) == Stored(s, row, key) else Cached(s, scope, key).Some?
  }

  // What each event must meet. A value is set with no rival queued, and no twin holding
  // another value; a scope is loaded when nothing newer is queued; what a departing entity
  // queued is not what a twin of it goes by; and entries are evicted that are loaded no more,
  // or empty throughout.
  ghost predicate Orderly(s: State, e: Event) {
    match e
    case Set(p, scope, key, value) =>
      RowOf(s.entities, scope).Some? ==>
        && NoRival(s, p, RowOf(s.entities, scope).value, key, value)
        && forall t :: Twin(s, t, scope) && Kept(s, t, key) ==> Cached(s, t, key) == Some(value)
    case Drain(_) => true
    case Enter(_, _) => true
    case Load(scope) => RowOf(s.entities, scope).Some? ==> forall key :: NothingNewer(s, scope, key)
    case Depart(entity) =>
      forall t, key :: Twin(s, t, Character(entity)) && Kept(s, t, key) ==>
        RowSettled(Departed(s, entity), RowOf(s.entities, t).value, key, Cached(s, t, key))
    case Evict(entity) =>
      Character(entity) in s.loaded && RowOf(s.entities, Character(entity)).Some? ==>
        forall key :: RowSettled(s, RowOf(s.entities, Character(entity)).value, key, None)
  }

  // A write, seen from any row and key, and from any scope.
  lemma SetEffect(s: State, e: Event, s': State, row: Row, k: string)
    requires e.Set? && Step(s, e, s')
    ensures s'.entities == s.entities && s'.loaded == s.loaded && Stored(s', row, k) == Stored(s, row, k)
    ensures forall q :: q != e.plugin ==> Pending(s', q, row, k) == Pending(s, q, row, k)
    ensures Pending(s', e.plugin, row, k)
         == if RowOf(s.entities, e.scope) == Some(row) && k == e.key then Some(e.value)
            else Pending(s, e.plugin, row, k)
  {
    hide CacheKey;
    var queue := QueueOf(s, e.plugin);
    assert (queue + [Write(e.scope, e.key, e.value)])[..|queue|] == queue;
  }

  lemma SetCached(s: State, e: Event, s': State, scope: Scope, k: string)
    requires e.Set? && Step(s, e, s') && Plain(e.scope) && Plain(scope)
    ensures Cached(s', scope, k) == if (scope, k) == (e.scope, e.key) then Some(e.value) else Cached(s, scope, k)
  {
    hide CacheKey;
    CacheKeyInjective(scope, k, e.scope, e.key);
  }

  // A write settles its row on a value exactly when the value is the written one and has no
  // rival, and disturbs no other row or key.
  lemma SetSettlesExactlyWhen(s: State, e: Event, s': State, row: Row, k: string, value: Option<Bytes>)
    requires e.Set? && Step(s, e, s')
    ensures RowOf(s.entities, e.scope) == Some(row) && k == e.key ==>
              (RowSettled(s', row, k, value) <==> value == Some(e.value) && NoRival(s, e.plugin, row, k, e.value))
    ensures RowOf(s.entities, e.scope) != Some(row) || k != e.key ==>
              (RowSettled(s', row, k, value) <==> RowSettled(s, row, k, value))
  {
    hide Step, Stored, Pending;
    SetEffect(s, e, s', row, k);
    if RowOf(s.entities, e.scope) == Some(row) && k == e.key {
      assert Pending(s', e.plugin, row, k) == Some(e.value);
      forall q | q != e.plugin ensures Pending(s', q, row, k) == Pending(s, q, row, k) {
      }
    } else {
      SamePending(s, s', row, k, value);
    }
  }

  lemma SamePending(s: State, s': State, row: Row, k: string, value: Option<Bytes>)
    requires forall q :: Pending(s', q, row, k) == Pending(s, q, row, k)
    requires Stored(s', row, k) == Stored(s, row, k)
    ensures RowSettled(s', row, k, value) <==> RowSettled(s, row, k, value)
  {
    hide Pending, Stored;
  }

  lemma SetAgrees(s: State, e: Event, s': State)
    requires Agrees(s) && e.Set? && Step(s, e, s') && Expected(s, e)
    ensures Agrees(s') <==> Orderly(s, e)
  {
    hide RowSettled, NoRival, Cached, Step, Pending;
    SetEffect(s, e, s', ZoneRow(""), "");
    forall t, k | Plain(t) && RowOf(s.entities, t).Some?
      ensures Cached(s', t, k) == if (t, k) == (e.scope, e.key) then Some(e.value) else Cached(s, t, k)
      ensures Settled(s', t, k) <==>
              if RowOf(s.entities, e.scope) == RowOf(s.entities, t) && k == e.key
              then Cached(s', t, k) == Some(e.value) && NoRival(s, e.plugin, RowOf(s.entities, t).value, k, e.value)
              else RowSettled(s, RowOf(s.entities, t).value, k, Cached(s', t, k))
    {
      SetCached(s, e, s', t, k);
      SetSettlesExactlyWhen(s, e, s', RowOf(s.entities, t).value, k, Cached(s', t, k));
    }
    if RowOf(s.entities, e.scope).Some? && Agrees(s') {
      assert Kept(s', e.scope, e.key) && Settled(s', e.scope, e.key);
      forall t | Twin(s, t, e.scope) && Kept(s, t, e.key) ensures Cached(s, t, e.key) == Some(e.value) {
        assert Kept(s', t, e.key) && Settled(s', t, e.key);
      }
    }
    if Orderly(s, e) {
      forall t, k | Plain(t) && RowOf(s'.entities, t).Some? && Kept(s', t, k) ensures Settled(s', t, k) {
        if (t, k) != (e.scope, e.key) {
          assert Kept(s, t, k) && Settled(s, t, k);
          if RowOf(s.entities, e.scope) == RowOf(s.entities, t) && k == e.key {
            assert Twin(s, t, e.scope);
          }
        }
      }
    }
  }

  lemma DrainAgrees(s: State, p: PluginId)
    requires Agrees(s)
    ensures Agrees(Drained(s, p))
  {
    hide RowSettled, Drained, Cached;
    var s' := Drained(s, p);
    DrainEffect(s, p, ZoneRow(""), "");
    SameCached(s, s');
    forall t, k | Plain(t) && RowOf(s'.entities, t).Some? && Kept(s', t, k) ensures Settled(s', t, k) {
      assert Kept(s, t, k) && Settled(s, t, k);
      DrainKeepsSettled(s, p, RowOf(s.entities, t).value, k, Cached(s, t, k));
    }
  }

  lemma SameCached(s: State, s': State)
    requires s'.cache == s.cache
    ensures forall t, k :: Cached(s', t, k) == Cached(s, t, k)
  {
  }

  // What a load caches of any scope.
  lemma LoadEffect(s: State, loading: Scope, s': State, scope: Scope, k: string)
    requires Step(s, Load(loading), s') && Plain(loading) && Plain(scope)
    ensures var stored := Stored(s, RowOf(s.entities, loading).value, k);
            Cached(s', scope, k) == if scope == loading && stored.Some? then stored else Cached(s, scope, k)
  {
    hide CacheKey;
    if scope != loading {
      forall l ensures CacheKey(loading, l) != CacheKey(scope, k) {
        CacheKeyInjective(loading, l, scope, k);
      }
    }
  }

  lemma LoadKeeps(s: State, loading: Scope, s': State)
    requires Step(s, Load(loading), s')
    ensures RowOf(s.entities, loading).Some? && s'.entities == s.entities && s'.loaded == s.loaded + {loading}
    ensures forall row, k, value :: RowSettled(s', row, k, value) <==> RowSettled(s, row, k, value)
  {
    hide Hydrated;
    forall row, k, value ensures RowSettled(s', row, k, value) <==> RowSettled(s, row, k, value) {
      hide RowSettled, QueuedFor;
      SamePending(s, s', row, k, value);
    }
  }

  // A load leaves a key of its scope settled exactly when nothing newer is queued for it.
  lemma LoadSettlesExactlyWhen(s: State, scope: Scope, s': State, key: string)
    requires Agrees(s) && Step(s, Load(scope), s') && Plain(scope)
    ensures s'.entities == s.entities && RowOf(s.entities, scope).Some?
    ensures Settled(s', scope, key) <==> NothingNewer(s, scope, key)
  {
    hide Cached, Stored, Pending, Step;
    LoadEffect(s, scope, s', scope, key);
    LoadKeeps(s, scope, s');
    if Cached(s, scope, key).Some? {
      assert Kept(s, scope, key) && Settled(s, scope, key);
    }
  }

  lemma LoadAgrees(s: State, scope: Scope, s': State)
    requires Agrees(s) && Step(s, Load(scope), s') && Plain(scope)
    ensures Agrees(s') <==> Orderly(s, Load(scope))
  {
    hide RowSettled, NothingNewer, Cached, Step;
    LoadKeeps(s, scope, s');
    forall key ensures Settled(s', scope, key) <==> NothingNewer(s, scope, key) {
      LoadSettlesExactlyWhen(s, scope, s', key);
    }
    if Agrees(s') {
      forall key ensures NothingNewer(s, scope, key) {
        assert Kept(s', scope, key) && Settled(s', scope, key);
      }
    }
    if Orderly(s, Load(scope)) {
      forall t, k | Plain(t) && RowOf(s'.entities, t).Some? && Kept(s', t, k) ensures Settled(s', t, k) {
        if t != scope {
          LoadEffect(s, scope, s', t, k);
          assert Kept(s, t, k) && Settled(s, t, k);
        } else {
          assert NothingNewer(s, scope, k);
        }
      }
    }
  }

  // A change of the connected entities is not felt by a row none of whose queued writes it
  // touches.
  lemma {:induction false} OthersQueued(before: Entities, after: Entities, queue: seq<Write>, row: Row, key: string)
    requires forall w :: w in queue ==> (RowOf(after, w.scope) == Some(row) <==> RowOf(before, w.scope) == Some(row))
    ensures QueuedFor(after, queue, row, key) == QueuedFor(before, queue, row, key)
  {
    if queue != [] {
      assert queue[|queue| - 1] in queue;
      OthersQueued(before, after, queue[..|queue| - 1], row, key);
    }
  }

  lemma EnterAgrees(s: State, entity: string, character: CharacterId)
    requires Agrees(s) && Expected(s, Enter(entity, character))
    ensures Agrees(s.(entities := s.entities[entity := character]))
  {
    hide RowSettled, Cached, QueuedFor;
    var s' := s.(entities := s.entities[entity := character]);
    SameCached(s, s');
    forall t, k | Plain(t) && RowOf(s'.entities, t).Some? && Kept(s', t, k) ensures Settled(s', t, k) {
      assert t == Character(entity) ==> t !in s.loaded && Cached(s, t, k).None?;
      assert RowOf(s'.entities, t) == RowOf(s.entities, t) && Kept(s, t, k) && Settled(s, t, k);
      var row := RowOf(s.entities, t).value;
      forall p ensures Pending(s', p, row, k) == Pending(s, p, row, k) {
        OthersQueued(s.entities, s'.entities, QueueOf(s, p), row, k);
      }
      SamePending(s, s', row, k, Cached(s, t, k));
    }
  }

  lemma DepartAgrees(s: State, entity: string)
    requires Agrees(s)
    ensures Agrees(Departed(s, entity)) <==> Orderly(s, Depart(entity))
  {
    hide RowSettled, Cached, QueuedFor;
    var s' := Departed(s, entity);
    SameCached(s, s');
    forall t, k | Twin(s, t, Character(entity)) && Kept(s, t, k)
      ensures RowOf(s'.entities, t) == RowOf(s.entities, t) && Kept(s', t, k)
    {
    }
    if Agrees(s') {
      forall t, key | Twin(s, t, Character(entity)) && Kept(s, t, key)
        ensures RowSettled(s', RowOf(s.entities, t).value, key, Cached(s, t, key))
      {
        assert Settled(s', t, key);
      }
    }
    if Orderly(s, Depart(entity)) {
      forall t, k | Plain(t) && RowOf(s'.entities, t).Some? && Kept(s', t, k) ensures Settled(s', t, k) {
        assert RowOf(s'.entities, t) == RowOf(s.entities, t) && t != Character(entity);
        assert Kept(s, t, k) && Settled(s, t, k);
        if !Twin(s, t, Character(entity)) {
          DepartElsewhere(s, entity, t, k);
        }
      }
    }
  }

  lemma DepartElsewhere(s: State, entity: string, t: Scope, k: string)
    requires RowOf(s.entities, t).Some? && (RowOf(s.entities, t) != RowOf(s.entities, Character(entity)))
    ensures var row := RowOf(s.entities, t).value;
            RowSettled(Departed(s, entity), row, k, Cached(s, t, k)) <==> RowSettled(s, row, k, Cached(s, t, k))
  {
    hide RowSettled, Cached, QueuedFor;
    var s' := Departed(s, entity);
    var row := RowOf(s.entities, t).value;
    forall p ensures Pending(s', p, row, k) == Pending(s, p, row, k) {
      OthersQueued(s.entities, s'.entities, QueueOf(s, p), row, k);
    }
    SamePending(s, s', row, k, Cached(s, t, k));
  }

  lemma PrefixOnlyItsOwn(s: Scope, scope: Scope, k: string)
    requires Plain(s) && Plain(scope)
    ensures Prefix(s) <= CacheKey(scope, k) <==> s == scope
  {
    var entry := CacheKey(scope, k);
    if Prefix(s) <= entry {
      var l := entry[|Prefix(s)|..];
      assert entry == CacheKey(s, l);
      CacheKeyInjective(s, l, scope, k);
    }
  }

  lemma EvictEffect(s: State, entity: string, scope: Scope, k: string)
    requires ':' !in entity && Plain(scope)
    ensures Cached(s.(cache := Evicted(s.cache, entity)), scope, k)
         == if scope == Character(entity) || scope == Entity(entity) then None else Cached(s, scope, k)
  {
    PrefixOnlyItsOwn(Character(entity), scope, k);
    PrefixOnlyItsOwn(Entity(entity), scope, k);
  }

  lemma EvictAgrees(s: State, entity: string)
    requires Agrees(s) && ':' !in entity
    ensures Agrees(s.(cache := Evicted(s.cache, entity))) <==> Orderly(s, Evict(entity))
  {
    hide Cached, Evicted, QueuedFor;
    var s' := s.(cache := Evicted(s.cache, entity));
    var own := Character(entity);
    forall row, k, value ensures RowSettled(s', row, k, value) <==> RowSettled(s, row, k, value) {
      hide RowSettled;
      SamePending(s, s', row, k, value);
    }
    EvictVerdict(s, s', entity);
  }

  lemma EvictVerdict(s: State, s': State, entity: string)
    requires Agrees(s) && ':' !in entity && s' == s.(cache := Evicted(s.cache, entity))
    requires forall row, k, value :: RowSettled(s', row, k, value) <==> RowSettled(s, row, k, value)
    ensures Agrees(s') <==> Orderly(s, Evict(entity))
  {
    hide Cached, Evicted, RowSettled;
    var own := Character(entity);
    forall t, k | Plain(t) && RowOf(s.entities, t).Some?
      ensures Cached(s', t, k) == if t == own then None else Cached(s, t, k)
    {
      EvictEffect(s, entity, t, k);
    }
    if Agrees(s') && own in s.loaded && RowOf(s.entities, own).Some? {
      forall key ensures RowSettled(s, RowOf(s.entities, own).value, key, None) {
        assert Kept(s', own, key) && Settled(s', own, key);
      }
    }
    if Orderly(s, Evict(entity)) {
      forall t, k | Plain(t) && RowOf(s'.entities, t).Some? && Kept(s', t, k) ensures Settled(s', t, k) {
        assert t != own ==> Kept(s, t, k) && Settled(s, t, k);
      }
    }
  }

  // A step keeps the agreement exactly when the event is orderly.
  lemma StepAgreesExactlyWhen(s: State, e: Event, s': State)
    requires Agrees(s) && Step(s, e, s') && Expected(s, e)
    ensures Agrees(s') <==> Orderly(s, e)
  {
    hide Agrees, Hydrated, Evicted, Replayed, RowSettled, Drained, Departed;
    match e
    case Set(_, _, _, _) => SetAgrees(s, e, s');
    case Drain(p) => DrainAgrees(s, p);
    case Enter(entity, character) => EnterAgrees(s, entity, character);
    case Load(scope) => LoadAgrees(s, scope, s');
    case Depart(entity) => DepartAgrees(s, entity);
    case Evict(entity) => EvictAgrees(s, entity);
  }

  ghost predicate Run(states: seq<State>, events: seq<Event>) {
    && |states| == |events| + 1 && states[0] == State(map[], map[], states[0].durable, map[], {})
    && forall i :: 0 <= i < |events| ==> Step(states[i], events[i], states[i + 1]) && Expected(states[i], events[i])
  }

  ghost predicate AlwaysAgrees(states: seq<State>) {
    forall i :: 0 <= i < |states| ==> Agrees(states[i])
  }

  ghost predicate AllOrderly(states: seq<State>, events: seq<Event>)
    requires |states| == |events| + 1
  {
    forall i :: 0 <= i < |events| ==> Orderly(states[i], events[i])
  }

  // Over every run from empty queues and an empty cache, by any number of plugins and with any
  // number of connections for a character: cache and tables agree throughout exactly when
  // every event is orderly.
  lemma {:induction false} RunAgreesExactlyWhen(states: seq<State>, events: seq<Event>)
    requires Run(states, events)
    ensures AlwaysAgrees(states) <==> AllOrderly(states, events)
    decreases |events|
  {
    hide Step, Expected, Orderly, Agrees;
    if events == [] {
      StartAgrees(states[0].durable);
    } else {
      var n := |events| - 1;
      var before := states[..|events|];
      RunAgreesExactlyWhen(before, events[..n]);
      assert AlwaysAgrees(states) <==> AlwaysAgrees(before) && Agrees(states[n + 1]);
      assert AllOrderly(states, events) <==> AllOrderly(before, events[..n]) && Orderly(states[n], events[n]);
      if AlwaysAgrees(before) {
        assert before[n] == states[n] && Agrees(states[n]);
        StepAgreesExactlyWhen(states[n], events[n], states[n + 1]);
      }
    }
  }

  lemma StartAgrees(durable: Durable)
    ensures Agrees(State(map[], map[], durable, map[], {}))
  {
  }

  // A read gives what the row will hold once every queue is drained, in whatever order.
  ghost predicate ReadIsEffective(s: State, scope: Scope, key: string) {
    RowOf(s.entities, scope).Some? && EveryDrainGives(s, RowOf(s.entities, scope).value, key, Cached(s, scope, key))
  }

  // So after every run of orderly events a read of a loaded scope is such a value, and so is
  // any other cached value of a scope that has a row.
  lemma ReadsAreEffective(states: seq<State>, events: seq<Event>, scope: Scope, key: string)
    requires Run(states, events) && AllOrderly(states, events)
    requires var s := states[|events|];
             Plain(scope) && (scope in s.loaded || (Cached(s, scope, key).Some? && RowOf(s.entities, scope).Some?))
    ensures ReadIsEffective(states[|events|], scope, key)
  {
    hide Step, Orderly, RowSettled, EveryDrainGives, Cached;
    RunAgreesExactlyWhen(states, events);
    var s := states[|events|];
    assert Agrees(s) && Kept(s, scope, key) && Settled(s, scope, key);
    DrainsAgreeExactlyWhen(s, RowOf(s.entities, scope).value, key, Cached(s, scope, key));
  }

  // A plugin that writes a zone's state while it is itself being loaded, before the zone's
  // stored state is, reads the older value back although its write is still on its way.
  lemma WriteBeforeLoadIsHidden(zone: string, key: string, stored: Bytes, written: Bytes, p: PluginId)
    returns (s: State, loaded: State)
    requires ':' !in zone && stored != written
    ensures var start := State(map[], map[], map[(ZoneRow(zone), key) := stored], map[], {});
            && Agrees(start) && Step(start, Set(p, Zone(zone), key, written), s)
            && Orderly(start, Set(p, Zone(zone), key, written))
            && Step(s, Load(Zone(zone)), loaded)
    ensures Cached(loaded, Zone(zone), key) == Some(stored) && Pending(loaded, p, ZoneRow(zone), key) == Some(written)
  {
    var scope, row := Zone(zone), ZoneRow(zone);
    var entry := CacheKey(scope, key);
    StartAgrees(map[(row, key) := stored]);
    s := State(map[entry := written], map[p := [Write(scope, key, written)]], map[(row, key) := stored], map[], {});
    loaded := s.(cache := map[entry := stored], loaded := {scope});
    SameScopeInjective(scope, key);
    assert [] + [Write(scope, key, written)] == [Write(scope, key, written)];
    assert Hydrated(s.cache, loaded.cache, s.durable, scope, row);
  }

  // Two plugins writing one key can leave the tables with a value the cache no longer has,
  // and nothing queued to correct it: their queues drain in whatever order their hooks run.
  lemma TwoWritersDisagree(zone: string, key: string, first: Bytes, second: Bytes)
    returns (states: seq<State>, events: seq<Event>)
    requires first != second
    ensures |events| == 4 && |states| == 5 && forall i :: 0 <= i < 4 ==> Step(states[i], events[i], states[i + 1])
    ensures states[0] == State(map[], map[], map[], map[], {})
    ensures var s := states[4];
            && QueueOf(s, 1) == QueueOf(s, 2) == []
            && Cached(s, Zone(zone), key) == Some(second) && s.durable == map[(ZoneRow(zone), key) := first]
  {
    hide CacheKey;
    var scope, row := Zone(zone), ZoneRow(zone);
    var entry := CacheKey(scope, key);
    var one, two := Write(scope, key, first), Write(scope, key, second);
    events := [Set(1, scope, key, first), Set(2, scope, key, second), Drain(2), Drain(1)];
    var s0 := State(map[], map[], map[], map[], {});
    var s1 := s0.(cache := map[entry := first], queues := map[1 := [one]]);
    var s2 := s1.(cache := map[entry := second], queues := map[1 := [one], 2 := [two]]);
    var s3 := s2.(queues := map[1 := [one], 2 := []], durable := map[(row, key) := second]);
    var s4 := s3.(queues := map[1 := [], 2 := []], durable := map[(row, key) := first]);
    states := [s0, s1, s2, s3, s4];
    assert [] + [one] == [one] && [] + [two] == [two];
    assert Step(s0, events[0], s1) && Step(s1, events[1], s2);
    assert Replayed(map[], s2.durable, [two]) == s3.durable;
    assert Replayed(map[], s3.durable, [one]) == s4.durable;
    assert Step(s2, events[2], s3) && Step(s3, events[3], s4);
  }

  // A write still queued when its entity departs is gone: draining drops it, and the next
  // session of the character loads the older value.
  lemma DepartureLosesWrite(entity: string, next: string, c: CharacterId, key: string, value: Bytes, p: PluginId)
    returns (states: seq<State>, events: seq<Event>)
    requires ':' !in entity && ':' !in next && entity != next
    ensures |states| == |events| + 1 && Agrees(states[0]) && states[0].entities == map[entity := c]
    ensures forall i :: 0 <= i < |events| ==> Step(states[i], events[i], states[i + 1])
    ensures events == [Set(p, Character(entity), key, value), Depart(entity), Drain(p), Enter(next, c)]
    ensures var s := states[4];
            && QueueOf(s, p) == [] && RowOf(s.entities, Character(next)) == Some(CharacterRow(c))
            && Stored(s, CharacterRow(c), key) == None
  {
    var scope := Character(entity);
    var w := Write(scope, key, value);
    var s0 := State(map[], map[], map[], map[entity := c], {});
    var s1 := s0.(cache := map[CacheKey(scope, key) := value], queues := map[p := [w]]);
    var s2 := s1.(entities := map[]);
    var s3 := s2.(queues := map[p := []]);
    var s4 := s3.(entities := map[next := c]);
    states := [s0, s1, s2, s3, s4];
    events := [Set(p, scope, key, value), Depart(entity), Drain(p), Enter(next, c)];
    assert [] + [w] == [w];
    assert Step(s0, events[0], s1);
    assert s1.entities - {entity} == map[];
    assert Step(s1, events[1], s2);
    assert Replayed(map[], map[], [w]) == map[];
    assert Step(s2, events[2], s3) && Step(s3, events[3], s4);
  }

  // Two connections of one character, as a bound realm admits them, share its row: what one of
  // them writes and reads back is overwritten by the other, even within one plugin's queue.
  lemma TwoConnectionsDisagree(a: string, b: string, c: CharacterId, key: string, first: Bytes, second: Bytes)
    returns (states: seq<State>, events: seq<Event>)
    requires ':' !in a && ':' !in b && a != b && first != second
    ensures Run(states, events)
    ensures events == [Enter(a, c), Enter(b, c), Set(1, Character(a), key, first), Set(1, Character(b), key, second),
                       Drain(1)]
    ensures var s := states[5];
            && QueueOf(s, 1) == []
            && RowOf(s.entities, Character(a)) == RowOf(s.entities, Character(b)) == Some(CharacterRow(c))
            && Cached(s, Character(a), key) == Some(first) && Stored(s, CharacterRow(c), key) == Some(second)
  {
    hide CacheKey, Replayed;
    var one, two := Write(Character(a), key, first), Write(Character(b), key, second);
    events := [Enter(a, c), Enter(b, c), Set(1, Character(a), key, first), Set(1, Character(b), key, second),
               Drain(1)];
    var s0 := State(map[], map[], map[], map[], {});
    var s1 := s0.(entities := map[a := c]);
    var s2 := s1.(entities := map[a := c, b := c]);
    var s3 := s2.(cache := map[CacheKey(Character(a), key) := first], queues := map[1 := [one]]);
    var s4 := s3.(cache := s3.cache[CacheKey(Character(b), key) := second], queues := map[1 := [one, two]]);
    var s5 := s4.(queues := map[1 := []], durable := map[(CharacterRow(c), key) := second]);
    states := [s0, s1, s2, s3, s4, s5];
    CacheKeyInjective(Character(a), key, Character(b), key);
    SharedRow(a, b, c, key, first, second);
    assert [] + [one] == [one] && [one] + [two] == [one, two];
    assert Step(s0, events[0], s1) && Step(s1, events[1], s2) && Step(s2, events[2], s3);
    assert Step(s3, events[3], s4) && Step(s4, events[4], s5);
  }

  lemma SharedRow(a: string, b: string, c: CharacterId, key: string, first: Bytes, second: Bytes)
    ensures Replayed(map[a := c, b := c], map[], [Write(Character(a), key, first), Write(Character(b), key, second)])
         == map[(CharacterRow(c), key) := second]
  {
    var entities: Entities := map[a := c, b := c];
    var one, two := Write(Character(a), key, first), Write(Character(b), key, second);
    assert [one, two][..1] == [one] && [one][..0] == [];
    assert Replayed(entities, map[], [one]) == map[(CharacterRow(c), key) := first];
  }
}
