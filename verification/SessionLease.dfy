/** The `character_sessions` lease table: one row a character, and the zone-service instance
    whose row it is. Times are Postgres timestamps, in microseconds. */
module SessionLease {
  import opened Prelude

  type CharacterId = int
  type RealmId = int
  type Time = int

  const SECOND: int := 1000000

  datatype Lease = Lease(realm: RealmId, zone: string, leasedAt: Time, expiresAt: Time)

  type Rows = map<CharacterId, Lease>

  datatype LeaseOutcome = Acquired | AlreadyActive

  // `Duration::as_secs`: whole seconds only.
  function Expiry(now: Time, ttl: nat): Time {
    now + ttl / SECOND * SECOND
  }

  // A row gives way to the instance that owns it, or once it has expired.
  predicate CanAcquire(rows: Rows, c: CharacterId, zone: string, now: Time) {
    c !in rows || rows[c].expiresAt < now || rows[c].zone == zone
  }

  predicate CanRenew(rows: Rows, c: CharacterId, zone: string) {
    c in rows && rows[c].zone == zone
  }

  predicate Active(rows: Rows, c: CharacterId, now: Time) {
    c in rows && rows[c].expiresAt > now
  }

  class CharacterSessionLease {
    var rows: Rows

    constructor ()
      ensures rows == map[]
    {
      rows := map[];
    }

    // One conditional upsert.
    method Acquire(c: CharacterId, realm: RealmId, zone: string, ttl: nat, now: Time) returns (outcome: LeaseOutcome)
      modifies this
      ensures outcome == Acquired <==> (c in old(rows) && old(rows)[c].zone != zone ==> old(rows)[c].expiresAt < now)
      ensures rows
           == if outcome == Acquired then old(rows)[c := Lease(realm, zone, now, Expiry(now, ttl))] else old(rows)
    {
      var excluded := Lease(realm, zone, now, Expiry(now, ttl));
      if c !in rows {
        rows := rows[c := excluded];
        return Acquired;
      }
      if rows[c].expiresAt < now || rows[c].zone == excluded.zone {
        rows := rows[c := excluded];
        return Acquired;
      }
      outcome := AlreadyActive;
    }

    // Looks at the holder only, not at the expiry: a lapsed row nobody claimed comes back.
    method Renew(c: CharacterId, zone: string, ttl: nat, now: Time) returns (ok: bool)
      modifies this
      ensures ok <==> c in old(rows) && old(rows)[c].zone == zone
      ensures rows == if ok then old(rows)[c := old(rows)[c].(expiresAt := Expiry(now, ttl))] else old(rows)
    {
      if c in rows && rows[c].zone == zone {
        rows := rows[c := rows[c].(expiresAt := Expiry(now, ttl))];
        return true;
      }
      ok := false;
    }

    method IsActive(c: CharacterId, now: Time) returns (active: bool)
      ensures active <==> c in rows && now < rows[c].expiresAt
    {
      active := c in rows && rows[c].expiresAt > now;
    }

    // Deletes the row, whoever holds it.
    method Release(c: CharacterId)
      modifies this
      ensures rows == old(rows) - {c}
    {
      rows := rows - {c};
    }
  }

  datatype OpenOrBound = Open | Bound

  datatype LoginRefusal = NoSuchRealm | BoundElsewhere | LoggedInElsewhere

  class LoginPolicy {
    const realms: map<RealmId, OpenOrBound>
    const leases: CharacterSessionLease
    const leaseTtl: nat

    constructor (realms: map<RealmId, OpenOrBound>, leases: CharacterSessionLease, leaseTtl: nat)
      ensures this.realms == realms && this.leases == leases && this.leaseTtl == leaseTtl
    {
      this.realms, this.leases, this.leaseTtl := realms, leases, leaseTtl;
    }

    method AuthorizeLogin(c: CharacterId, home: RealmId, target: RealmId, zone: string, now: Time)
      returns (r: Result<(), LoginRefusal>)
      modifies leases
      ensures r.Ok? <==> target in realms
                         && if realms[target].Bound? then home == target
                            else c in old(leases.rows) && old(leases.rows)[c].zone != zone ==>
                                   old(leases.rows)[c].expiresAt < now
      ensures leases.rows == LoginRows(realms, leaseTtl, old(leases.rows), c, target, zone, now)
    {
      if target !in realms {
        return Err(NoSuchRealm);
      }
      match realms[target]
      case Bound =>
        if home != target {
          return Err(BoundElsewhere);
        }
        r := Ok(());
      case Open =>
        var outcome := leases.Acquire(c, target, zone, leaseTtl, now);
        r := if outcome == Acquired then Ok(()) else Err(LoggedInElsewhere);
    }
  }

  // A bound realm takes no lease; an open one takes it for whoever it admits.
  function LoginRows(realms: map<RealmId, OpenOrBound>, ttl: nat, rows: Rows, c: CharacterId, target: RealmId,
          zone: string, now: Time): Rows
  {
    if target in realms && realms[target].Open? && CanAcquire(rows, c, zone, now)
    then rows[c := Lease(target, zone, now, Expiry(now, ttl))]
    else rows
  }

  // What happens to the table, and when. `Release` names who asks for it, which the table
  // does not check.
  datatype Event =
    | Acquire(c: CharacterId, realm: RealmId, zone: string, ttl: nat)
    | Renew(c: CharacterId, zone: string, ttl: nat)
    | Release(c: CharacterId, zone: string)
    | Login(c: CharacterId, home: RealmId, target: RealmId, zone: string)
    | Pass(time: nat)

  // The table, the clock, and until when each instance was last told it holds a character.
  datatype State = State(rows: Rows, now: Time, told: map<(CharacterId, string), Time>)

  function Granted(s: State, c: CharacterId, realm: RealmId, zone: string, ttl: nat): State {
    s.(rows := s.rows[c := Lease(realm, zone, s.now, Expiry(s.now, ttl))],
       told := s.told[(c, zone) := Expiry(s.now, ttl)])
  }

  datatype World = World(realms: map<RealmId, OpenOrBound>, leaseTtl: nat)

  function Step(w: World, s: State, e: Event): State {
    match e
    case Acquire(c, realm, zone, ttl) =>
      if CanAcquire(s.rows, c, zone, s.now) then Granted(s, c, realm, zone, ttl) else s
    case Renew(c, zone, ttl) =>
      if CanRenew(s.rows, c, zone)
      then s.(rows := s.rows[c := s.rows[c].(expiresAt := Expiry(s.now, ttl))],
              told := s.told[(c, zone) := Expiry(s.now, ttl)])
      else s
    case Release(c, zone) => s.(rows := s.rows - {c}, told := s.told - {(c, zone)})
    case Login(c, home, target, zone) =>
      if target in w.realms && w.realms[target].Open? && CanAcquire(s.rows, c, zone, s.now)
      then Granted(s, c, target, zone, w.leaseTtl) else s
    case Pass(time) => s.(now := s.now + time)
  }

  // The store's methods are these steps.
  method Perform(w: World, leases: CharacterSessionLease, policy: LoginPolicy, ghost s: State, e: Event, now: Time)
    requires policy.leases == leases && policy.realms == w.realms && policy.leaseTtl == w.leaseTtl
    requires leases.rows == s.rows && s.now == now
    modifies leases
    ensures leases.rows == Step(w, s, e).rows
  {
    match e
    case Acquire(c, realm, zone, ttl) => var outcome := leases.Acquire(c, realm, zone, ttl, now);
    case Renew(c, zone, ttl) => var ok := leases.Renew(c, zone, ttl, now);
    case Release(c, zone) => leases.Release(c);
    case Login(c, home, target, zone) => var r := policy.AuthorizeLogin(c, home, target, zone, now);
    case Pass(time) =>
  }

  predicate Holds(s: State, c: CharacterId, zone: string) {
    (c, zone) in s.told && s.told[(c, zone)] >= s.now
  }

  // The table agrees with what the instances were told: every row with its holder, and every
  // grant that has not run out with the row.
  ghost predicate Agrees(s: State) {
    && (forall c :: c in s.rows ==> (c, s.rows[c].zone) in s.told && s.told[(c, s.rows[c].zone)] == s.rows[c].expiresAt)
    && (forall c, zone :: Holds(s, c, zone) ==> c in s.rows && s.rows[c].zone == zone)
  }

  // No character is held by two instances at once.
  ghost predicate Exclusive(s: State) {
    forall c, z, z' :: Holds(s, c, z) && Holds(s, c, z') ==> z == z'
  }

  // Only the row's holder releases it, unless there is none or it has run out.
  predicate ReleasedByHolder(s: State, e: Event) {
    e.Release? && e.c in s.rows ==> s.rows[e.c].expiresAt < s.now || s.rows[e.c].zone == e.zone
  }

  // A step keeps the agreement exactly when it is not a release of someone else's live row.
  lemma StepAgrees(w: World, s: State, e: Event)
    requires Agrees(s)
    ensures Agrees(Step(w, s, e)) <==> ReleasedByHolder(s, e)
  {
    var s' := Step(w, s, e);
    if ReleasedByHolder(s, e) {
      forall c, zone | Holds(s', c, zone) ensures c in s'.rows && s'.rows[c].zone == zone {
        assert Holds(s, c, zone) || (c, zone) == (e.c, e.zone);
      }
    } else {
      assert Holds(s', e.c, s.rows[e.c].zone);
    }
  }

  lemma AgreesIsExclusive(s: State)
    requires Agrees(s)
    ensures Exclusive(s)
  {
  }

  function Run(w: World, s: State, events: seq<Event>): State {
    if events == [] then s else Step(w, Run(w, s, events[..|events| - 1]), events[|events| - 1])
  }

  ghost predicate HoldersRelease(w: World, s: State, events: seq<Event>) {
    forall i :: 0 <= i < |events| ==> ReleasedByHolder(Run(w, s, events[..i]), events[i])
  }

  // In every run in which only holders release, under any time-outs, re-acquisitions,
  // renewals of lapsed rows and passing of time, no character is ever held twice.
  lemma {:induction false} NeverTwoHolders(w: World, s: State, events: seq<Event>)
    requires Agrees(s) && HoldersRelease(w, s, events)
    ensures Agrees(Run(w, s, events)) && Exclusive(Run(w, s, events))
  {
    hide Step, Agrees, ReleasedByHolder, Exclusive;
    if events != [] {
      var n := |events| - 1;
      forall i | 0 <= i < n ensures ReleasedByHolder(Run(w, s, events[..n][..i]), events[..n][i]) {
        assert events[..n][..i] == events[..i];
      }
      NeverTwoHolders(w, s, events[..n]);
      assert ReleasedByHolder(Run(w, s, events[..n]), events[n]);
      StepAgrees(w, Run(w, s, events[..n]), events[n]);
    }
    AgreesIsExclusive(Run(w, s, events));
  }

  lemma EmptyAgrees(now: Time)
    ensures Agrees(State(map[], now, map[]))
  {
  }

  // The same from an empty table.
  lemma ReachableNeverTwoHolders(w: World, now: Time, events: seq<Event>)
    requires HoldersRelease(w, State(map[], now, map[]), events)
    ensures Exclusive(Run(w, State(map[], now, map[]), events))
  {
    EmptyAgrees(now);
    NeverTwoHolders(w, State(map[], now, map[]), events);
  }

  // Under the agreement a row counts as active exactly when some instance was told it holds
  // the character until strictly after now. At that very instant the instance still holds
  // it, although it no longer counts as active.
  lemma ActiveIsHeldPast(s: State, c: CharacterId)
    requires Agrees(s)
    ensures Active(s.rows, c, s.now) <==> exists zone :: (c, zone) in s.told && s.told[(c, zone)] > s.now
    ensures Active(s.rows, c, s.now) ==> exists zone :: Holds(s, c, zone)
    ensures !Active(s.rows, c, s.now) ==> forall zone :: Holds(s, c, zone) ==> s.told[(c, zone)] == s.now
  {
    if Active(s.rows, c, s.now) {
      assert Holds(s, c, s.rows[c].zone);
    }
    if zone :| (c, zone) in s.told && s.told[(c, zone)] > s.now {
      assert Holds(s, c, zone);
    }
  }

  // What the store answers when asked.
  method CheckActive(leases: CharacterSessionLease, ghost s: State, c: CharacterId, now: Time) returns (active: bool)
    requires Agrees(s) && leases.rows == s.rows && s.now == now
    ensures active <==> exists zone :: (c, zone) in s.told && s.told[(c, zone)] > now
  {
    ActiveIsHeldPast(s, c);
    active := leases.IsActive(c, now);
  }

  // One release of another instance's live row, and any other instance can then take the
  // character while the first still holds it.
  lemma ForeignReleaseSplits(w: World, s: State, e: Event, realm: RealmId, zone: string, ttl: nat)
    requires Agrees(s) && !ReleasedByHolder(s, e) && zone != s.rows[e.c].zone
    ensures var s' := Step(w, Step(w, s, e), Acquire(e.c, realm, zone, ttl));
            && Holds(s', e.c, s.rows[e.c].zone) && Holds(s', e.c, zone) && !Exclusive(s')
  {
    var s' := Step(w, Step(w, s, e), Acquire(e.c, realm, zone, ttl));
    assert ttl / SECOND >= 0;
    assert Holds(s', e.c, zone) && Holds(s', e.c, s.rows[e.c].zone);
  }

  // A release that the instance makes while it holds the character is by the row's holder.
  predicate ReleasesOwn(s: State, e: Event) {
    e.Release? ==> Holds(s, e.c, e.zone)
  }

  // So it is enough that every instance looks at what it was told before it releases.
  lemma {:induction false} OwnReleasesAreSafe(w: World, s: State, events: seq<Event>)
    requires Agrees(s)
    requires forall i :: 0 <= i < |events| ==> ReleasesOwn(Run(w, s, events[..i]), events[i])
    ensures HoldersRelease(w, s, events) && Exclusive(Run(w, s, events))
  {
    hide Step, Exclusive, Agrees, ReleasesOwn, ReleasedByHolder, Run;
    if events != [] {
      var n := |events| - 1;
      var rest := events[..n];
      forall i | 0 <= i < n ensures ReleasesOwn(Run(w, s, rest[..i]), rest[i]) {
        assert rest[..i] == events[..i];
      }
      OwnReleasesAreSafe(w, s, rest);
      NeverTwoHolders(w, s, rest);
      OwnReleaseByHolder(Run(w, s, rest), events[n]);
      forall i | 0 <= i < |events| ensures ReleasedByHolder(Run(w, s, events[..i]), events[i]) {
        if i < n {
          assert rest[..i] == events[..i] && ReleasedByHolder(Run(w, s, rest[..i]), rest[i]);
        }
      }
    }
    NeverTwoHolders(w, s, events);
  }

  lemma OwnReleaseByHolder(s: State, e: Event)
    requires Agrees(s) && ReleasesOwn(s, e)
    ensures ReleasedByHolder(s, e)
  {
  }

  lemma RunOfFive(w: World, s: State, e0: Event, e1: Event, e2: Event, e3: Event, e4: Event)
    ensures Run(w, s, [e0, e1, e2, e3, e4]) == Step(w, Step(w, Step(w, Step(w, Step(w, s, e0), e1), e2), e3), e4)
  {
    hide Step;
    assert [e0, e1, e2, e3, e4][..4] == [e0, e1, e2, e3] && [e0, e1, e2, e3][..3] == [e0, e1, e2];
    assert [e0, e1, e2][..2] == [e0, e1] && [e0, e1][..1] == [e0] && [e0][..0] == [];
    assert Run(w, s, [e0]) == Step(w, s, e0);
    assert Run(w, s, [e0, e1]) == Step(w, Run(w, s, [e0]), e1);
    assert Run(w, s, [e0, e1, e2]) == Step(w, Run(w, s, [e0, e1]), e2);
  }

  // The lease of an instance lapses and another instance takes the character.
  lemma LapsedAndTaken(w: World, now: Time, c: CharacterId, realm: RealmId, ttl: nat) returns (s: State)
    ensures s == Step(w, Step(w, Step(w, State(map[], now, map[]), Acquire(c, realm, "a", ttl)), Pass(ttl + 1)),
                      Acquire(c, realm, "b", ttl))
    ensures Agrees(s) && c in s.rows && s.rows[c].zone == "b" && !ReleasedByHolder(s, Release(c, "a"))
  {
    var start := State(map[], now, map[]);
    EmptyAgrees(now);
    assert 0 <= ttl / SECOND * SECOND <= ttl;
    var first := Step(w, start, Acquire(c, realm, "a", ttl));
    StepAgrees(w, start, Acquire(c, realm, "a", ttl));
    var lapsed := Step(w, first, Pass(ttl + 1));
    StepAgrees(w, first, Pass(ttl + 1));
    StepAgrees(w, lapsed, Acquire(c, realm, "b", ttl));
    s := Step(w, lapsed, Acquire(c, realm, "b", ttl));
  }

  // From an empty table: the first instance then releases on its way out, and a third can take
  // the character beside the second.
  lemma LateReleaseSplits(w: World, now: Time, c: CharacterId, realm: RealmId, ttl: nat) returns (events: seq<Event>)
    ensures events == [Acquire(c, realm, "a", ttl), Pass(ttl + 1), Acquire(c, realm, "b", ttl), Release(c, "a"),
                       Acquire(c, realm, "c", ttl)]
    ensures var s := Run(w, State(map[], now, map[]), events);
            Holds(s, c, "b") && Holds(s, c, "c") && !Exclusive(s)
  {
    hide Step, Agrees, Exclusive, Holds, ReleasedByHolder;
    events := [Acquire(c, realm, "a", ttl), Pass(ttl + 1), Acquire(c, realm, "b", ttl), Release(c, "a"),
               Acquire(c, realm, "c", ttl)];
    RunOfFive(w, State(map[], now, map[]), events[0], events[1], events[2], events[3], events[4]);
    var s := LapsedAndTaken(w, now, c, realm, ttl);
    ForeignReleaseSplits(w, s, Release(c, "a"), realm, "c", ttl);
  }

  // Whoever is let into an open realm holds the character, and nobody else does; an instance
  // that still holds it keeps everyone else out.
  lemma OpenLoginIsExclusive(w: World, s: State, c: CharacterId, home: RealmId, target: RealmId, zone: string,
          other: string)
    requires Agrees(s) && target in w.realms && w.realms[target].Open? && other != zone
    ensures var s' := Step(w, s, Login(c, home, target, zone));
            && (CanAcquire(s.rows, c, zone, s.now) ==> Holds(s', c, zone) && !Holds(s', c, other))
            && (Holds(s, c, other) ==> !CanAcquire(s.rows, c, zone, s.now) && s' == s)
  {
    assert w.leaseTtl / SECOND >= 0;
    StepAgrees(w, s, Login(c, home, target, zone));
    AgreesIsExclusive(Step(w, s, Login(c, home, target, zone)));
  }

  // An instance takes a character exactly when no row names another instance that has not run
  // out; its own row is no obstacle, so asking again succeeds.
  lemma TakesExactlyWhen(w: World, s: State, c: CharacterId, realm: RealmId, zone: string, ttl: nat)
    ensures var s' := Step(w, s, Acquire(c, realm, zone, ttl));
            && (c in s'.rows && s'.rows[c].zone == zone
                <==> (c in s.rows && s.rows[c].zone != zone ==> s.rows[c].expiresAt < s.now))
            && (c in s.rows && s.rows[c].zone != zone && s.rows[c].expiresAt >= s.now ==> s' == s)
  {
  }

  // An acquisition, a renewal or a login into an open realm by the instance for the time-out.
  predicate AsksFor(w: World, e: Event, c: CharacterId, zone: string, ttl: nat) {
    && !e.Release? && !e.Pass? && e.c == c && e.zone == zone
    && match e
       case Login(_, _, target, _) => target in w.realms && w.realms[target].Open? && w.leaseTtl == ttl
       case _ => e.ttl == ttl
  }

  // Granted, it lasts for the whole seconds of the time-out: until then the character is
  // active, up to and including then nobody else takes it, and afterwards anybody can.
  lemma LeaseLasts(w: World, s: State, e: Event, c: CharacterId, zone: string, ttl: nat, d: nat, rival: Event)
    requires AsksFor(w, e, c, zone, ttl)
    requires c in Step(w, s, e).rows && Step(w, s, e).rows[c].zone == zone
    requires rival.Acquire? && rival.c == c && rival.zone != zone
    ensures var later := Step(w, Step(w, s, e), Pass(d));
            && (Active(later.rows, c, later.now) <==> d < ttl - ttl % 1000000)
            && (Step(w, later, rival).rows[c].zone == rival.zone <==> d > ttl - ttl % 1000000)
            && (d <= ttl - ttl % 1000000 ==> Step(w, later, rival) == later)
  {
    assert ttl == ttl / 1000000 * 1000000 + ttl % 1000000;
  }

  // The same of the store, one call after another.
  method AcquireAndContend(leases: CharacterSessionLease, c: CharacterId, realm: RealmId, zone: string, ttl: nat,
          rival: string, now: Time, d: nat)
    returns (first: LeaseOutcome, active: bool, second: LeaseOutcome)
    requires rival != zone
    modifies leases
    ensures first == Acquired ==>
              && (active <==> d < ttl - ttl % 1000000)
              && (second == Acquired <==> d > ttl - ttl % 1000000)
  {
    assert ttl == ttl / 1000000 * 1000000 + ttl % 1000000;
    first := leases.Acquire(c, realm, zone, ttl, now);
    active := leases.IsActive(c, now + d);
    second := leases.Acquire(c, realm, rival, ttl, now + d);
  }

  // Renewal does not notice that a lease has lapsed: an instance that does not hold the
  // character holds it after renewing exactly when the row is still its own, lapsed and
  // claimed by nobody since.
  lemma RenewalRevivesExactlyWhen(w: World, s: State, c: CharacterId, zone: string, ttl: nat)
    requires Agrees(s) && !Holds(s, c, zone)
    ensures Holds(Step(w, s, Renew(c, zone, ttl)), c, zone) <==> c in s.rows && s.rows[c].zone == zone
    ensures c in s.rows && s.rows[c].zone == zone ==> s.rows[c].expiresAt < s.now
  {
    assert ttl / SECOND >= 0;
  }
}
