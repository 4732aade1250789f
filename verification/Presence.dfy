/** Live connections per realm: a sorted set of connection ids scored by the time they expire,
    pruned only when somebody counts. */
module Presence {
  import opened Prelude

  type RealmId = int
  type Time = int
  type Scores = map<string, Time>

  class RealmPresence {
    const ttl: nat
    var sets: map<RealmId, Scores>

    constructor (ttl: nat)
      ensures this.ttl == ttl && sets == map[]
    {
      this.ttl := ttl;
      sets := map[];
    }

    // `ZADD`: adds the member or overwrites its score.
    method Connect(realm: RealmId, id: string, now: Time)
      modifies this
      ensures sets == Applied(ttl, old(sets), Connected(realm, id, now))
    {
      sets := sets[realm := Members(sets, realm)[id := now + ttl]];
    }

    // `ZREM`.
    method Disconnect(realm: RealmId, id: string, now: Time)
      modifies this
      ensures sets == Applied(ttl, old(sets), Disconnected(realm, id, now))
    {
      sets := sets[realm := Members(sets, realm) - {id}];
    }

    // `ZREMRANGEBYSCORE` from minus infinity to now, both ends included, then `ZCARD`.
    method Count(realm: RealmId, now: Time) returns (n: nat)
      modifies this
      ensures sets == Applied(ttl, old(sets), Counted(realm, now))
      ensures n == Answer(old(sets), realm, now)
    {
      var members := Members(sets, realm);
      var kept := map id | id in members && !(members[id] <= now) :: members[id];
      assert kept == Unexpired(members, now);
      sets := sets[realm := kept];
      n := |Members(sets, realm)|;
    }
  }

  datatype Event =
    | Connected(realm: RealmId, id: string, at: Time)
    | Disconnected(realm: RealmId, id: string, at: Time)
    | Counted(realm: RealmId, at: Time)

  function Members(sets: map<RealmId, Scores>, realm: RealmId): Scores {
    if realm in sets then sets[realm] else map[]
  }

  function Applied(ttl: nat, sets: map<RealmId, Scores>, e: Event): map<RealmId, Scores> {
    var members := Members(sets, e.realm);
    sets[e.realm :=
      match e
      case Connected(_, id, at) => members[id := at + ttl]
      case Disconnected(_, id, _) => members - {id}
      case Counted(_, at) => Unexpired(members, at)]
  }

  function Unexpired(members: Scores, now: Time): Scores {
    map id | id in members && members[id] > now :: members[id]
  }

  function Answer(sets: map<RealmId, Scores>, realm: RealmId, now: Time): nat {
    |Unexpired(Members(sets, realm), now)|
  }

  function Run(ttl: nat, history: seq<Event>): map<RealmId, Scores> {
    if history == [] then map[] else Applied(ttl, Run(ttl, history[..|history| - 1]), history[|history| - 1])
  }

  // A connect or disconnect of the connection.
  predicate About(e: Event, realm: RealmId, id: string) {
    !e.Counted? && e.realm == realm && e.id == id
  }

  // The expiry a connection's latest event gives it; none if it left or never came. Counts
  // play no part.
  function Latest(ttl: nat, history: seq<Event>, realm: RealmId, id: string): Option<Time> {
    if history == [] then None
    else
      var e := history[|history| - 1];
      if About(e, realm, id)
      then if e.Connected? then Some(e.at + ttl) else None
      else Latest(ttl, history[..|history| - 1], realm, id)
  }

  predicate Live(ttl: nat, history: seq<Event>, realm: RealmId, id: string, now: Time) {
    var expiry := Latest(ttl, history, realm, id);
    expiry.Some? && expiry.value > now
  }

  function LiveIds(ttl: nat, history: seq<Event>, realm: RealmId, now: Time): set<string> {
    set e | e in history && e.Connected? && e.realm == realm && Live(ttl, history, realm, e.id, now) :: e.id
  }

  predicate ClockRuns(history: seq<Event>) {
    forall i, j :: 0 <= i < j < |history| ==> history[i].at <= history[j].at
  }

  // One event, seen from one connection.
  lemma OneEvent(ttl: nat, sets: map<RealmId, Scores>, e: Event, realm: RealmId, id: string)
    ensures var before, after := Members(sets, realm), Members(Applied(ttl, sets, e), realm);
            if e.realm != realm then after == before
            else if e.Counted? then
              && (id in after <==> id in before && before[id] > e.at)
              && (id in after ==> after[id] == before[id])
            else if e.id == id then
              && (id in after <==> e.Connected?)
              && (id in after ==> after[id] == e.at + ttl)
            else (id in after <==> id in before) && (id in after ==> after[id] == before[id])
  {
  }

  // After its latest event, a connection's realm was counted at or past the given expiry.
  predicate CountedPast(history: seq<Event>, realm: RealmId, id: string, expiry: Time) {
    history != [] &&
    var e := history[|history| - 1];
    && !About(e, realm, id)
    && ((e.Counted? && e.realm == realm && e.at >= expiry)
        || CountedPast(history[..|history| - 1], realm, id, expiry))
  }

  // Whatever the clock does, the set holds exactly the latest expiries that no count has
  // passed since.
  lemma {:induction false} SetFollowsHistory(ttl: nat, history: seq<Event>, realm: RealmId, id: string)
    ensures var members := Members(Run(ttl, history), realm);
            var latest := Latest(ttl, history, realm, id);
            && (id in members <==> latest.Some? && !CountedPast(history, realm, id, latest.value))
            && (id in members ==> latest == Some(members[id]))
  {
    hide Members, Applied;
    if history != [] {
      var n := |history| - 1;
      SetFollowsHistory(ttl, history[..n], realm, id);
      OneEvent(ttl, Run(ttl, history[..n]), history[n], realm, id);
    } else {
      NobodyYet(realm);
    }
  }

  lemma NobodyYet(realm: RealmId)
    ensures Members(map[], realm) == map[]
  {
  }

  lemma {:induction false} LiveIsListed(ttl: nat, history: seq<Event>, realm: RealmId, id: string)
    ensures Latest(ttl, history, realm, id).Some? ==>
              exists e :: e in history && e.Connected? && e.realm == realm && e.id == id
  {
    if history != [] {
      var n := |history| - 1;
      LiveIsListed(ttl, history[..n], realm, id);
      assert history[n] in history;
      assert forall e :: e in history[..n] ==> e in history;
    }
  }

  // Live connections that an earlier count has already dropped.
  function Missed(ttl: nat, history: seq<Event>, realm: RealmId, now: Time): set<string> {
    set id | id in LiveIds(ttl, history, realm, now)
             && Latest(ttl, history, realm, id).Some?
             && CountedPast(history, realm, id, Latest(ttl, history, realm, id).value)
  }

  lemma AnswerIsLiveLessMissed(ttl: nat, history: seq<Event>, realm: RealmId, now: Time)
    ensures Unexpired(Members(Run(ttl, history), realm), now).Keys
         == LiveIds(ttl, history, realm, now) - Missed(ttl, history, realm, now)
  {
    hide Run, Latest, CountedPast;
    var unexpired := Unexpired(Members(Run(ttl, history), realm), now);
    forall id ensures id in unexpired <==> id in LiveIds(ttl, history, realm, now) - Missed(ttl, history, realm, now) {
      SetFollowsHistory(ttl, history, realm, id);
      LiveIsListed(ttl, history, realm, id);
    }
  }

  // For every history under any clock, a count is the number of connections whose latest
  // event is a connect that has not expired exactly when none of them was passed over, since
  // that event, by a count of its realm at or past its expiry.
  lemma CountIsLiveExactlyWhen(ttl: nat, history: seq<Event>, realm: RealmId, now: Time)
    ensures Answer(Run(ttl, history), realm, now) == |LiveIds(ttl, history, realm, now)|
       <==> forall id :: Live(ttl, history, realm, id, now) ==>
              !CountedPast(history, realm, id, Latest(ttl, history, realm, id).value)
  {
    hide Run, Latest, CountedPast;
    var unexpired := Unexpired(Members(Run(ttl, history), realm), now);
    var live, missed := LiveIds(ttl, history, realm, now), Missed(ttl, history, realm, now);
    AnswerIsLiveLessMissed(ttl, history, realm, now);
    assert |unexpired| == |unexpired.Keys|;
    assert missed <= live && |live - missed| == |live| - |missed|;
    forall id ensures Live(ttl, history, realm, id, now) ==> id in live {
      LiveIsListed(ttl, history, realm, id);
    }
    if |missed| == 0 {
      assert missed == {};
      forall id | Live(ttl, history, realm, id, now)
        ensures !CountedPast(history, realm, id, Latest(ttl, history, realm, id).value)
      {
        assert id !in missed;
      }
    } else {
      assert (forall x :: x !in missed) ==> missed == {};
      var id :| id in missed;
      assert Live(ttl, history, realm, id, now);
    }
  }

  // Under a clock that does not run backwards every count is right: whatever earlier counts
  // pruned makes no difference.
  lemma CountIsLive(ttl: nat, history: seq<Event>, realm: RealmId, now: Time)
    requires ClockRuns(history) && forall e :: e in history ==> e.at <= now
    ensures Answer(Run(ttl, history), realm, now) == |LiveIds(ttl, history, realm, now)|
  {
    hide Run, Latest;
    CountIsLiveExactlyWhen(ttl, history, realm, now);
    forall id | Live(ttl, history, realm, id, now)
      ensures !CountedPast(history, realm, id, Latest(ttl, history, realm, id).value)
    {
      NoCountAhead(history, realm, id, Latest(ttl, history, realm, id).value);
    }
  }

  lemma {:induction false} NoCountAhead(history: seq<Event>, realm: RealmId, id: string, expiry: Time)
    requires forall e :: e in history ==> e.at < expiry
    ensures !CountedPast(history, realm, id, expiry)
  {
    if history != [] {
      assert history[|history| - 1] in history;
      NoCountAhead(history[..|history| - 1], realm, id, expiry);
    }
  }

  // The counts of a history can be dropped from it without changing any later answer.
  lemma CountsLeaveNoTrace(ttl: nat, history: seq<Event>, without: seq<Event>, realm: RealmId, now: Time)
    requires ClockRuns(history) && forall e :: e in history ==> e.at <= now
    requires without == Uncounted(history)
    ensures Answer(Run(ttl, without), realm, now) == Answer(Run(ttl, history), realm, now)
  {
    hide Run, Latest, Answer;
    UncountedRuns(history);
    CountIsLive(ttl, history, realm, now);
    CountIsLive(ttl, without, realm, now);
    forall id ensures Latest(ttl, without, realm, id) == Latest(ttl, history, realm, id) {
      UncountedLatest(ttl, history, realm, id);
    }
    forall e: Event | e.Connected? ensures e in without <==> e in history {
      UncountedKeeps(history, e);
    }
    assert LiveIds(ttl, without, realm, now) == LiveIds(ttl, history, realm, now);
  }

  function Uncounted(history: seq<Event>): seq<Event> {
    if history == [] then []
    else
      var n := |history| - 1;
      if history[n].Counted? then Uncounted(history[..n]) else Uncounted(history[..n]) + [history[n]]
  }

  lemma {:induction false} UncountedKeeps(history: seq<Event>, e: Event)
    ensures e in Uncounted(history) <==> e in history && !e.Counted?
  {
    if history != [] {
      var n := |history| - 1;
      UncountedKeeps(history[..n], e);
      assert history == history[..n] + [history[n]];
    }
  }

  lemma {:induction false} UncountedRuns(history: seq<Event>)
    requires ClockRuns(history)
    ensures ClockRuns(Uncounted(history))
    ensures forall e :: e in Uncounted(history) ==> e in history
  {
    if history != [] {
      var n := |history| - 1;
      UncountedRuns(history[..n]);
      assert history == history[..n] + [history[n]];
      forall e | e in history[..n] ensures e.at <= history[n].at {
        var i :| 0 <= i < n && history[i] == e;
      }
      var shorter := Uncounted(history[..n]);
      forall i | 0 <= i < |shorter| ensures shorter[i].at <= history[n].at {
        assert shorter[i] in history[..n];
      }
    }
  }

  lemma {:induction false} UncountedLatest(ttl: nat, history: seq<Event>, realm: RealmId, id: string)
    ensures Latest(ttl, Uncounted(history), realm, id) == Latest(ttl, history, realm, id)
  {
    if history != [] {
      var n := |history| - 1;
      UncountedLatest(ttl, history[..n], realm, id);
      if !history[n].Counted? {
        assert Uncounted(history)[..|Uncounted(history)| - 1] == Uncounted(history[..n]);
      }
    }
  }

  // If the clock steps back after a count, the connection that count pruned is missed.
  lemma ClockSteppedBack(ttl: nat, realm: RealmId, id: string)
    requires ttl > 0
    ensures var history := [Connected(realm, id, 0), Counted(realm, ttl)];
            Answer(Run(ttl, history), realm, 0) == 0 && LiveIds(ttl, history, realm, 0) == {id}
  {
    var history := [Connected(realm, id, 0), Counted(realm, ttl)];
    assert history[..1] == [Connected(realm, id, 0)] && history[..1][..0] == [];
    assert Run(ttl, history[..1]) == map[realm := map[id := ttl]];
    assert Members(Run(ttl, history), realm) == map[];
    assert Latest(ttl, history[..1], realm, id) == Some(ttl);
    assert Connected(realm, id, 0) in history;
  }
}
