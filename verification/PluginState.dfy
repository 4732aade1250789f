/** Plugin-scoped state: a shared cache that answers every read, a write-behind queue per
    plugin, and the durable tables the queues are drained into. */
module PluginState {
  import opened Prelude

  type Bytes = seq<int>
  type PluginId = int

  datatype Scope = Character(id: string) | Entity(id: string) | Zone(id: string)

  datatype Write = Write(scope: Scope, key: string, value: Bytes)

  type CharacterId = int

  // A row of the durable tables belongs to a character or to a zone.
  datatype Row = CharacterRow(id: CharacterId) | ZoneRow(zone: string)

  type Durable = map<(Row, string), Bytes>

  // Which character each connected entity is.
  type Entities = map<string, CharacterId>

  // Where a scope's state is stored: nowhere for an entity, nor for a character scope whose
  // entity is not connected.
  function RowOf(entities: Entities, scope: Scope): Option<Row> {
    match scope
    case Character(id) => if id in entities then Some(CharacterRow(entities[id])) else None
    case Entity(_) => None
    case Zone(id) => Some(ZoneRow(id))
  }

  function Prefix(scope: Scope): string {
    match scope
    case Character(id) => "character:" + id + ":"
    case Entity(id) => "entity:" + id + ":"
    case Zone(id) => "zone:" + id + ":"
  }

  function CacheKey(scope: Scope, key: string): string {
    Prefix(scope) + key
  }

  predicate Plain(scope: Scope) {
    ':' !in scope.id
  }

  function Kind(scope: Scope): nat {
    match scope case Character(_) => 0 case Entity(_) => 1 case Zone(_) => 2
  }

  lemma LongerIdDiffers(i: string, j: string, k: string, l: string)
    requires |i| < |j| && ':' !in j
    ensures i + ":" + k != j + ":" + l
  {
    assert (i + ":" + k)[|i|] == ':' && (j + ":" + l)[|i|] == j[|i|];
  }

  // The id's part of a cache key ends at the first colon after it.
  lemma PlainIdsSplit(i: string, j: string, k: string, l: string)
    requires ':' !in i && ':' !in j && i + ":" + k == j + ":" + l
    ensures i == j && k == l
  {
    var left, right := i + ":" + k, j + ":" + l;
    if |i| < |j| {
      LongerIdDiffers(i, j, k, l);
    } else if |j| < |i| {
      LongerIdDiffers(j, i, l, k);
    } else {
      assert i == left[..|i|] == right[..|j|] == j;
      assert k == left[|i| + 1..] == right[|j| + 1..] == l;
    }
  }

  lemma KindsDiffer(s: Scope, k: string, t: Scope, l: string)
    requires CacheKey(s, k) == CacheKey(t, l)
    ensures Kind(s) == Kind(t)
  {
    assert CacheKey(s, k)[0] == "cez"[Kind(s)];
    assert CacheKey(t, l)[0] == "cez"[Kind(t)];
  }

  function Rest(scope: Scope, key: string): string {
    scope.id + ":" + key
  }

  function Head(kind: nat): string {
    if kind == 0 then "character:" else if kind == 1 then "entity:" else "zone:"
  }

  lemma KeyIsHeadAndRest(s: Scope, k: string)
    ensures CacheKey(s, k) == Head(Kind(s)) + Rest(s, k)
  {
    var head := Head(Kind(s));
    assert Prefix(s) == head + s.id + ":";
    assert head + s.id + ":" + k == head + (s.id + ":" + k);
  }

  lemma SameHead(head: string, x: string, y: string)
    ensures head + x == head + y <==> x == y
  {
    assert (head + x)[|head|..] == x && (head + y)[|head|..] == y;
  }

  lemma CacheKeyRest(s: Scope, k: string, t: Scope, l: string)
    requires Kind(s) == Kind(t)
    ensures CacheKey(s, k) == CacheKey(t, l) <==> Rest(s, k) == Rest(t, l)
  {
    hide *;
    KeyIsHeadAndRest(s, k);
    KeyIsHeadAndRest(t, l);
    SameHead(Head(Kind(s)), Rest(s, k), Rest(t, l));
  }

  // Among ids without a colon, no two states share a cache entry.
  lemma CacheKeyInjective(s: Scope, k: string, t: Scope, l: string)
    requires Plain(s) && Plain(t)
    ensures CacheKey(s, k) == CacheKey(t, l) <==> s == t && k == l
  {
    if CacheKey(s, k) == CacheKey(t, l) {
      KindsDiffer(s, k, t, l);
      CacheKeyRest(s, k, t, l);
      PlainIdsSplit(s.id, t.id, k, l);
    }
  }

  // Two scopes of a kind can collide exactly when one's id, with the colon after it, begins
  // the other's.
  lemma CollideExactlyWhen(s: Scope, t: Scope)
    requires s != t && Kind(s) == Kind(t)
    ensures (exists k, l :: CacheKey(s, k) == CacheKey(t, l)) <==> s.id + ":" <= t.id + ":" || t.id + ":" <= s.id + ":"
  {
    var i, j := s.id + ":", t.id + ":";
    if i <= j {
      Collides(s, t);
    } else if j <= i {
      Collides(t, s);
      var k, l :| CacheKey(t, k) == CacheKey(s, l);
      assert CacheKey(s, l) == CacheKey(t, k);
    }
    if exists k, l :: CacheKey(s, k) == CacheKey(t, l) {
      var k, l :| CacheKey(s, k) == CacheKey(t, l);
      CacheKeyRest(s, k, t, l);
      assert i <= Rest(s, k) && j <= Rest(t, l);
    }
  }

  lemma Collides(s: Scope, t: Scope)
    requires Kind(s) == Kind(t) && s.id + ":" <= t.id + ":"
    ensures exists k, l :: CacheKey(s, k) == CacheKey(t, l)
  {
    var k := (t.id + ":")[|s.id| + 1..];
    assert Rest(s, k) == t.id + ":" == Rest(t, "");
    CacheKeyRest(s, k, t, "");
    assert CacheKey(s, k) == CacheKey(t, "");
  }

  // The value last queued for a key of a row, through any scope that stands for the row: two
  // connected entities can be one character.
  function QueuedFor(entities: Entities, queue: seq<Write>, row: Row, key: string): Option<Bytes> {
    if queue == [] then None
    else
      var w := queue[|queue| - 1];
      if RowOf(entities, w.scope) == Some(row) && w.key == key then Some(w.value)
      else QueuedFor(entities, queue[..|queue| - 1], row, key)
  }

  // The value last queued for a key through one scope.
  function Queued(queue: seq<Write>, scope: Scope, key: string): Option<Bytes> {
    if queue == [] then None
    else
      var w := queue[|queue| - 1];
      if w.scope == scope && w.key == key then Some(w.value) else Queued(queue[..|queue| - 1], scope, key)
  }

  function Lookup<K, V>(m: map<K, V>, k: K): Option<V> {
    if k in m then Some(m[k]) else None
  }

  // The tables after the writes of a queue, in order; writes without a row are dropped.
  function Replayed(entities: Entities, durable: Durable, queue: seq<Write>): Durable {
    if queue == [] then durable
    else
      var w := queue[|queue| - 1];
      var before := Replayed(entities, durable, queue[..|queue| - 1]);
      var row := RowOf(entities, w.scope);
      if row.None? then before else before[(row.value, w.key) := w.value]
  }

  lemma {:induction false} ReplayedAt(entities: Entities, durable: Durable, queue: seq<Write>, row: Row, key: string)
    ensures var last := QueuedFor(entities, queue, row, key);
            Lookup(Replayed(entities, durable, queue), (row, key))
            == if last.Some? then last else Lookup(durable, (row, key))
  {
    if queue != [] {
      ReplayedAt(entities, durable, queue[..|queue| - 1], row, key);
    }
  }

  // Every queued write has a row, which ends with the value last queued for it.
  ghost predicate AllStored(entities: Entities, durable: Durable, queue: seq<Write>) {
    forall w :: w in queue ==>
      var row := RowOf(entities, w.scope);
      && row.Some? && QueuedFor(entities, queue, row.value, w.key).Some?
      && Lookup(Replayed(entities, durable, queue), (row.value, w.key)) == QueuedFor(entities, queue, row.value, w.key)
  }

  // Draining loses nothing exactly when no queued write is for a character whose entity is no
  // longer connected.
  lemma NothingLostExactlyWhen(entities: Entities, durable: Durable, queue: seq<Write>)
    requires forall w :: w in queue ==> !w.scope.Entity?
    ensures AllStored(entities, durable, queue)
       <==> forall w :: w in queue && w.scope.Character? ==> w.scope.id in entities
  {
    hide Replayed, QueuedFor;
    forall w | w in queue && RowOf(entities, w.scope).Some?
      ensures var row := RowOf(entities, w.scope).value;
              && QueuedFor(entities, queue, row, w.key).Some?
              && Lookup(Replayed(entities, durable, queue), (row, w.key)) == QueuedFor(entities, queue, row, w.key)
    {
      WriteIsQueued(entities, queue, w);
      ReplayedAt(entities, durable, queue, RowOf(entities, w.scope).value, w.key);
    }
  }

  lemma {:induction false} WriteIsQueued(entities: Entities, queue: seq<Write>, w: Write)
    requires w in queue && RowOf(entities, w.scope).Some?
    ensures QueuedFor(entities, queue, RowOf(entities, w.scope).value, w.key).Some?
  {
    var n := |queue| - 1;
    if queue[n] != w {
      assert w in queue[..n];
      WriteIsQueued(entities, queue[..n], w);
    }
  }

  // What one scope last queued is what its row ends with exactly when no other scope of the
  // row queued a different value after it.
  lemma OwnValueStoredExactlyWhen(entities: Entities, durable: Durable, queue: seq<Write>, scope: Scope, key: string)
    requires RowOf(entities, scope).Some? && Queued(queue, scope, key).Some?
    ensures Lookup(Replayed(entities, durable, queue), (RowOf(entities, scope).value, key)) == Queued(queue, scope, key)
       <==> !OverwrittenByAnother(entities, queue, scope, key)
  {
    hide Replayed, Lookup;
    ReplayedAt(entities, durable, queue, RowOf(entities, scope).value, key);
    LaterWrite(entities, queue, scope, key);
  }

  predicate OverwrittenByAnother(entities: Entities, queue: seq<Write>, scope: Scope, key: string) {
    if queue == [] then false
    else
      var w := queue[|queue| - 1];
      if w.key == key && RowOf(entities, w.scope) == RowOf(entities, scope)
      then w.scope != scope && Some(w.value) != Queued(queue, scope, key)
      else OverwrittenByAnother(entities, queue[..|queue| - 1], scope, key)
  }

  lemma {:induction false} LaterWrite(entities: Entities, queue: seq<Write>, scope: Scope, key: string)
    requires RowOf(entities, scope).Some? && Queued(queue, scope, key).Some?
    ensures QueuedFor(entities, queue, RowOf(entities, scope).value, key).Some?
    ensures QueuedFor(entities, queue, RowOf(entities, scope).value, key) == Queued(queue, scope, key)
       <==> !OverwrittenByAnother(entities, queue, scope, key)
  {
    var n := |queue| - 1;
    var w := queue[n];
    if w.key != key || RowOf(entities, w.scope) != RowOf(entities, scope) {
      LaterWrite(entities, queue[..n], scope, key);
    }
  }

  class PluginStateStore {
    var durable: Durable

    constructor ()
      ensures durable == map[]
    {
      durable := map[];
    }

    method SetCharacterState(id: CharacterId, key: string, value: Bytes)
      modifies this
      ensures durable == old(durable)[(CharacterRow(id), key) := value]
    {
      durable := durable[(CharacterRow(id), key) := value];
    }

    method SetZoneState(zone: string, key: string, value: Bytes)
      modifies this
      ensures durable == old(durable)[(ZoneRow(zone), key) := value]
    {
      durable := durable[(ZoneRow(zone), key) := value];
    }

    // `character_state` and `zone_state`: every key stored for the row.
    method StateOf(row: Row) returns (state: map<string, Bytes>)
      ensures forall key :: Lookup(state, key) == Lookup(durable, (row, key))
    {
      state := map rk | rk in durable && rk.0 == row :: rk.1 := durable[rk];
    }

    // Drained writes are stored in call order; one for an entity that is not connected is
    // dropped with a warning.
    method ApplyWrites(entities: Entities, writes: seq<Write>)
      modifies this
      ensures durable == Replayed(entities, old(durable), writes)
    {
      for n := 0 to |writes|
        invariant durable == Replayed(entities, old(durable), writes[..n])
      {
        assert writes[..n + 1][..n] == writes[..n];
        var w := writes[n];
        match w.scope {
          case Character(id) =>
            if id in entities {
              SetCharacterState(entities[id], w.key, w.value);
            }
          case Zone(zone) => SetZoneState(zone, w.key, w.value);
          case Entity(_) =>
        }
      }
      assert writes[..|writes|] == writes;
    }
  }

  class PluginStateCache {
    var entries: map<string, Bytes>

    constructor ()
      ensures entries == map[]
    {
      entries := map[];
    }

    // What a zone's start and a character's join load.
    method Hydrate(scope: Scope, state: map<string, Bytes>)
      modifies this
      ensures Overlaid(old(entries), entries, scope, state, state.Keys)
    {
      hide Overlaid;
      var todo, done := state.Keys, {};
      NothingOverlaid(entries, scope, state);
      while todo != {}
        invariant todo !! done && todo + done == state.Keys
        invariant Overlaid(old(entries), entries, scope, state, done)
        decreases |todo|
      {
        var key :| key in todo;
        OverlayOne(old(entries), entries, scope, state, done, key);
        entries := entries[CacheKey(scope, key) := state[key]];
        todo, done := todo - {key}, done + {key};
      }
      assert done == state.Keys;
    }

    // What a leaving connection drops.
    method Evict(id: string)
      modifies this
      ensures entries == Evicted(old(entries), id)
    {
      entries := map entry |
        entry in entries && !(Prefix(Character(id)) <= entry) && !(Prefix(Entity(id)) <= entry) :: entries[entry];
    }
  }

  // The state of a scope laid over the cache, for the keys in `done`.
  ghost predicate Overlaid(before: map<string, Bytes>, entries: map<string, Bytes>, scope: Scope,
          state: map<string, Bytes>, done: set<string>)
    requires done <= state.Keys
  {
    && (forall k :: Lookup(entries, CacheKey(scope, k))
                 == if k in done then Some(state[k]) else Lookup(before, CacheKey(scope, k)))
    && (forall entry :: (forall k :: CacheKey(scope, k) != entry) ==> Lookup(entries, entry) == Lookup(before, entry))
  }

  lemma NothingOverlaid(entries: map<string, Bytes>, scope: Scope, state: map<string, Bytes>)
    ensures Overlaid(entries, entries, scope, state, {})
  {
  }

  lemma OverlayOne(before: map<string, Bytes>, entries: map<string, Bytes>, scope: Scope, state: map<string, Bytes>,
          done: set<string>, key: string)
    requires done <= state.Keys && key in state && Overlaid(before, entries, scope, state, done)
    ensures Overlaid(before, entries[CacheKey(scope, key) := state[key]], scope, state, done + {key})
  {
    hide CacheKey;
    SameScopeInjective(scope, key);
  }

  lemma SameScopeInjective(scope: Scope, key: string)
    ensures forall k :: CacheKey(scope, k) == CacheKey(scope, key) ==> k == key
  {
    forall k | CacheKey(scope, k) == CacheKey(scope, key) ensures k == key {
      assert CacheKey(scope, k)[|Prefix(scope)|..] == k && CacheKey(scope, key)[|Prefix(scope)|..] == key;
    }
  }

  // One plugin instance's side: the shared cache and its own queue.
  class PluginCallbacks {
    const cache: PluginStateCache
    var pending: seq<Write>

    constructor (cache: PluginStateCache)
      ensures this.cache == cache && pending == []
    {
      this.cache, pending := cache, [];
    }

    method PluginStateGet(scope: Scope, key: string) returns (r: Option<Bytes>)
      ensures r == Lookup(cache.entries, CacheKey(scope, key))
    {
      r := if CacheKey(scope, key) in cache.entries then Some(cache.entries[CacheKey(scope, key)]) else None;
    }

    method PluginStateSet(scope: Scope, key: string, value: Bytes)
      modifies this, cache
      ensures cache.entries == old(cache.entries)[CacheKey(scope, key) := value]
      ensures pending == if scope.Entity? then old(pending) else old(pending) + [Write(scope, key, value)]
    {
      cache.entries := cache.entries[CacheKey(scope, key) := value];
      if !scope.Entity? {
        pending := pending + [Write(scope, key, value)];
      }
    }

    method DrainPendingStateWrites() returns (writes: seq<Write>)
      modifies this
      ensures writes == old(pending) && pending == []
    {
      writes, pending := pending, [];
    }
  }

  // What loading a scope leaves in the cache: its stored values, over whatever was there.
  ghost predicate Hydrated(cache: map<string, Bytes>, cache': map<string, Bytes>, durable: Durable, scope: Scope,
          row: Row)
  {
    && (forall k :: Lookup(cache', CacheKey(scope, k))
                 == if (row, k) in durable then Some(durable[(row, k)]) else Lookup(cache, CacheKey(scope, k)))
    && (forall entry :: (forall k :: CacheKey(scope, k) != entry) ==> Lookup(cache', entry) == Lookup(cache, entry))
  }

  // A leaving connection's entries go, by prefix.
  function Evicted(cache: map<string, Bytes>, id: string): map<string, Bytes> {
    map entry | entry in cache && !(Prefix(Character(id)) <= entry) && !(Prefix(Entity(id)) <= entry) :: cache[entry]
  }

  method LoadScope(store: PluginStateStore, cache: PluginStateCache, scope: Scope, row: Row)
    modifies cache
    ensures Hydrated(old(cache.entries), cache.entries, store.durable, scope, row)
  {
    hide CacheKey;
    var state := store.StateOf(row);
    cache.Hydrate(scope, state);
    forall k ensures Lookup(cache.entries, CacheKey(scope, k))
                  == if (row, k) in store.durable then Some(store.durable[(row, k)])
                     else Lookup(old(cache.entries), CacheKey(scope, k))
    {
      assert Lookup(state, k) == Lookup(store.durable, (row, k));
    }
  }

  method DrainAndApply(plugin: PluginCallbacks, store: PluginStateStore, entities: Entities)
    modifies plugin, store
    ensures plugin.pending == [] && store.durable == Replayed(entities, old(store.durable), old(plugin.pending))
  {
    var writes := plugin.DrainPendingStateWrites();
    store.ApplyWrites(entities, writes);
  }
}
