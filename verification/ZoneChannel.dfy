/** Ensuring a zone channel: find it, insert it unless there is one, find it again. Callers
    interleave between these statements in any order. */
module ZoneChannel {
  import opened Prelude

  type ChannelId = int

  datatype Key = Key(zone: Option<string>, category: string)

  // The zone channels by id, the primary key.
  type Channels = map<ChannelId, Key>

  datatype Refusal = RacedAndLost

  predicate Exists(channels: Channels, key: Key) {
    exists id :: id in channels && channels[id] == key
  }

  // A query for the key may return any of its rows; no zone equals no zone.
  predicate Finds(channels: Channels, key: Key, r: Option<ChannelId>) {
    if r.Some? then r.value in channels && channels[r.value] == key else !Exists(channels, key)
  }

  // What an insert conflicts with: its id, or its key in the unique index. An index whose
  // nulls are distinct sees no conflict between rows without a zone.
  predicate Conflicts(nullsDistinct: bool, channels: Channels, id: ChannelId, key: Key) {
    id in channels || (Exists(channels, key) && !(nullsDistinct && key.zone.None?))
  }

  class ChatStore {
    var channels: Channels

    constructor ()
      ensures channels == map[]
    {
      channels := map[];
    }

    method FindZoneChannel(zone: Option<string>, category: string) returns (r: Option<ChannelId>)
      ensures Finds(channels, Key(zone, category), r)
    {
      if id :| id in channels && channels[id] == Key(zone, category) {
        return Some(id);
      }
      r := None;
    }

    // `INSERT … ON CONFLICT DO NOTHING`, under the index that treats nulls as equal.
    method InsertZoneChannel(id: ChannelId, zone: Option<string>, category: string) returns (inserted: bool)
      modifies this
      ensures inserted <==> !Conflicts(false, old(channels), id, Key(zone, category))
      ensures inserted <==> id !in old(channels)
                            && forall i :: i in old(channels) ==>
                                 old(channels)[i].zone != zone || old(channels)[i].category != category
      ensures channels == if inserted then old(channels)[id := Key(zone, category)] else old(channels)
    {
      if id in channels {
        return false;
      }
      var existing := FindZoneChannel(zone, category);
      if existing.Some? {
        FoundExists(channels, Key(zone, category), existing.value);
        return false;
      }
      channels := channels[id := Key(zone, category)];
      inserted := true;
    }

    // The three statements with nobody in between.
    method EnsureZoneChannel(zone: Option<string>, category: string, newId: ChannelId)
      returns (r: Result<ChannelId, Refusal>)
      modifies this
      ensures r.Err? <==> newId in old(channels) && !Exists(old(channels), Key(zone, category))
      ensures r.Ok? ==> Finds(channels, Key(zone, category), Some(r.value))
      ensures Exists(old(channels), Key(zone, category)) || r.Err? ==> channels == old(channels)
      ensures !Exists(old(channels), Key(zone, category)) && r.Ok? ==>
                r.value == newId && channels == old(channels)[newId := Key(zone, category)]
    {
      var existing := FindZoneChannel(zone, category);
      if existing.Some? {
        FoundExists(channels, Key(zone, category), existing.value);
        return Ok(existing.value);
      }
      var inserted := InsertZoneChannel(newId, zone, category);
      if inserted {
        return Ok(newId);
      }
      var found := FindZoneChannel(zone, category);
      // With nobody in between, an insert is refused only for its id.
      assert found.None? by {
        if found.Some? {
          FoundExists(channels, Key(zone, category), found.value);
        }
      }
      r := Err(RacedAndLost);
    }
  }

  lemma FoundExists(channels: Channels, key: Key, id: ChannelId)
    requires Finds(channels, key, Some(id))
    ensures Exists(channels, key)
  {
    assert id in channels && channels[id] == key;
  }

  // Where one caller stands between its statements.
  datatype Progress = Started | Missed | Lost | Done(id: ChannelId) | Failed

  datatype Caller = Caller(key: Key, newId: ChannelId, progress: Progress)

  datatype State = State(channels: Channels, callers: seq<Caller>)

  // Caller `i` executes its next statement.
  ghost predicate Step(nullsDistinct: bool, s: State, i: int, s': State) {
    && 0 <= i < |s.callers|
    && var c := s.callers[i];
       match c.progress
       case Started =>
         exists r :: Finds(s.channels, c.key, r) && s' == After(s, i, if r.Some? then Done(r.value) else Missed)
       case Missed =>
         if Conflicts(nullsDistinct, s.channels, c.newId, c.key) then s' == After(s, i, Lost)
         else s' == After(s, i, Done(c.newId)).(channels := s.channels[c.newId := c.key])
       case Lost =>
         exists r :: Finds(s.channels, c.key, r) && s' == After(s, i, if r.Some? then Done(r.value) else Failed)
       case Done(_) => false
       case Failed => false
  }

  function After(s: State, i: int, progress: Progress): State
    requires 0 <= i < |s.callers|
  {
    s.(callers := s.callers[i := s.callers[i].(progress := progress)])
  }

  // Ids are freshly generated: no two callers have the same, and none is taken before its
  // caller has inserted it.
  ghost predicate FreshIds(s: State) {
    && (forall i, j :: 0 <= i < j < |s.callers| ==> s.callers[i].newId != s.callers[j].newId)
    && (forall i :: 0 <= i < |s.callers| && (s.callers[i].progress.Started? || s.callers[i].progress.Missed?) ==>
          s.callers[i].newId !in s.channels)
  }

  // One channel per key; whoever is done has it, and whoever lost the insert will find one.
  ghost predicate Sound(s: State) {
    && FreshIds(s)
    && (forall p, q :: p in s.channels && q in s.channels && s.channels[p] == s.channels[q] ==> p == q)
    && (forall i :: 0 <= i < |s.callers| ==> CallerSound(s.channels, s.callers[i]))
  }

  ghost predicate CallerSound(channels: Channels, c: Caller) {
    match c.progress
    case Done(id) => id in channels && channels[id] == c.key
    case Lost => Exists(channels, c.key)
    case Failed => false
    case _ => true
  }

  lemma StepKeepsSound(s: State, i: int, s': State)
    requires Sound(s) && Step(false, s, i, s')
    ensures Sound(s')
  {
    var c := s.callers[i];
    assert CallerSound(s.channels, c);
    match c.progress
    case Missed =>
      if !Conflicts(false, s.channels, c.newId, c.key) {
        forall j | 0 <= j < |s.callers| && j != i ensures CallerSound(s'.channels, s.callers[j]) {
          StaysSound(s.channels, c.newId, c.key, s.callers[j]);
        }
      }
    case _ =>
  }

  lemma StaysSound(channels: Channels, id: ChannelId, key: Key, c: Caller)
    requires id !in channels && CallerSound(channels, c)
    ensures CallerSound(channels[id := key], c)
  {
    if c.progress.Lost? {
      var p :| p in channels && channels[p] == c.key;
      assert p in channels[id := key];
    }
  }

  ghost predicate Run(nullsDistinct: bool, states: seq<State>, schedule: seq<int>) {
    && |states| == |schedule| + 1
    && forall n :: 0 <= n < |schedule| ==> Step(nullsDistinct, states[n], schedule[n], states[n + 1])
  }

  // Under every interleaving of any number of callers: nobody fails, and all who are done
  // with one key have the same id.
  lemma {:induction false} CallersConverge(states: seq<State>, schedule: seq<int>)
    requires Run(false, states, schedule) && Sound(states[0])
    ensures var s := states[|schedule|];
            && Sound(s)
            && (forall i :: 0 <= i < |s.callers| ==> !s.callers[i].progress.Failed?)
            && (forall i, j :: 0 <= i < |s.callers| && 0 <= j < |s.callers|
                               && s.callers[i].progress.Done? && s.callers[j].progress.Done?
                               && s.callers[i].key == s.callers[j].key ==>
                  s.callers[i].progress == s.callers[j].progress)
    decreases |schedule|
  {
    hide Step;
    if schedule != [] {
      var n := |schedule| - 1;
      CallersConverge(states[..|schedule|], schedule[..n]);
      StepKeepsSound(states[n], schedule[n], states[n + 1]);
    }
    SoundAgrees(states[|schedule|]);
  }

  lemma SoundAgrees(s: State)
    requires Sound(s)
    ensures forall i :: 0 <= i < |s.callers| ==> !s.callers[i].progress.Failed?
    ensures forall i, j :: 0 <= i < |s.callers| && 0 <= j < |s.callers|
                           && s.callers[i].progress.Done? && s.callers[j].progress.Done?
                           && s.callers[i].key == s.callers[j].key ==>
              s.callers[i].progress == s.callers[j].progress
  {
    forall i | 0 <= i < |s.callers| ensures !s.callers[i].progress.Failed? {
      assert CallerSound(s.channels, s.callers[i]);
    }
    forall i, j | 0 <= i < |s.callers| && 0 <= j < |s.callers|
                  && s.callers[i].progress.Done? && s.callers[j].progress.Done? && s.callers[i].key == s.callers[j].key
      ensures s.callers[i].progress == s.callers[j].progress
    {
      assert CallerSound(s.channels, s.callers[i]) && CallerSound(s.channels, s.callers[j]);
    }
  }

  // Statements a caller still has to execute, at most.
  function Remaining(p: Progress): nat {
    match p
    case Started => 3
    case Missed => 2
    case Lost => 1
    case _ => 0
  }

  // A caller that is not done can always go on, and each statement brings it closer.
  lemma CallersFinish(s: State, i: int)
    requires Sound(s) && 0 <= i < |s.callers| && !s.callers[i].progress.Done?
    ensures exists s' :: Step(false, s, i, s')
    ensures forall s' :: Step(false, s, i, s') ==> Remaining(s'.callers[i].progress) < Remaining(s.callers[i].progress)
  {
    var c := s.callers[i];
    assert CallerSound(s.channels, c);
    var r := AnyRow(s.channels, c.key);
    match c.progress {
      case Started => assert Step(false, s, i, After(s, i, if r.Some? then Done(r.value) else Missed));
      case Missed =>
        var inserted := After(s, i, Done(c.newId)).(channels := s.channels[c.newId := c.key]);
        assert Step(false, s, i, if Conflicts(false, s.channels, c.newId, c.key) then After(s, i, Lost) else inserted);
      case Lost => assert Step(false, s, i, After(s, i, Done(r.value)));
      case _ =>
    }
  }

  lemma AnyRow(channels: Channels, key: Key) returns (r: Option<ChannelId>)
    ensures Finds(channels, key, r)
  {
    if Exists(channels, key) {
      var id :| id in channels && channels[id] == key;
      r := Some(id);
    } else {
      r := None;
    }
  }

  // An index whose nulls are distinct lets two callers of one zoneless category each create
  // a channel of their own.
  lemma DistinctNullsDiverge(category: string, a: ChannelId, b: ChannelId)
    returns (states: seq<State>, schedule: seq<int>)
    requires a != b
    ensures Run(true, states, schedule) && Sound(states[0]) && |schedule| == 4
    ensures var s := states[4];
            |s.callers| == 2 && s.callers[0].key == s.callers[1].key == Key(None, category)
            && s.callers[0].progress == Done(a) && s.callers[1].progress == Done(b)
  {
    var key := Key(None, category);
    var s0 := State(map[], [Caller(key, a, Started), Caller(key, b, Started)]);
    var s1 := After(s0, 0, Missed);
    var s2 := After(s1, 1, Missed);
    var s3 := After(s2, 0, Done(a)).(channels := map[a := key]);
    var s4 := After(s3, 1, Done(b)).(channels := map[a := key, b := key]);
    assert Finds(map[], key, None);
    states, schedule := [s0, s1, s2, s3, s4], [0, 1, 0, 1];
    assert Step(true, s0, 0, s1) && Step(true, s1, 1, s2) && Step(true, s2, 0, s3) && Step(true, s3, 1, s4);
  }
}
