/** Party calls that overlap. Nothing locks a party's rows, so a call decides on a count that
    another call's commit can make stale. */
module PartyRaces {
  import opened Prelude
  import opened Party

  type CallId = int

  // How far a call has come: it has looked its characters up, has counted the party and
  // decided, or is over.
  datatype Stage =
    | Joining(party: PartyId, key: string, invitee: CharacterId)
    | Leaving(c: CharacterId, party: PartyId)
    | ReadyToJoin(party: PartyId, invitee: CharacterId)
    | ReadyToFound(newId: PartyId, key: string, inviter: CharacterId, invitee: CharacterId)
    | ReadyToLeave(c: CharacterId, party: PartyId, dissolve: bool)
    | Over

  function LookedUp(schema: Schema, t: Tables, op: Op): Stage
    requires schema != []
  {
    match op
    case Accept(a, b, requested, newId) =>
      if a == b || b in t.members then Over
      else if a in t.members && t.members[a] in t.parties then Joining(t.members[a], t.parties[t.members[a]], b)
      else if Fits(schema, Requested(schema, requested), 2) then ReadyToFound(newId, Requested(schema, requested), a, b)
      else Over
    case Depart(c) => if c in t.members then Leaving(c, t.members[c]) else Over
  }

  function Counted(schema: Schema, t: Tables, stage: Stage): Stage {
    match stage
    case Joining(p, key, b) => if Fits(schema, key, |MembersIn(t, p)| + 1) then ReadyToJoin(p, b) else Over
    case Leaving(c, p) => ReadyToLeave(c, p, |MembersIn(t, p) - {c}| < 2)
    case _ => stage
  }

  // The writes, under the tables' keys: a party's id, a member's party, one party a character.
  function Committed(t: Tables, stage: Stage): Tables {
    match stage
    case ReadyToJoin(p, b) =>
      if p in t.parties && b !in t.members then t.(members := t.members[b := p]) else t
    case ReadyToFound(newId, key, a, b) =>
      if newId in t.parties || a in t.members || b in t.members then t
      else Tables(t.parties[newId := key], t.members[a := newId][b := newId])
    case ReadyToLeave(c, p, dissolve) =>
      var left := if c in MembersIn(t, p) then t.(members := t.members - {c}) else t;
      if dissolve then Dissolved(left, p) else left
    case _ => t
  }

  datatype State = State(t: Tables, calls: map<CallId, Stage>)

  datatype Event = Begin(call: CallId, op: Op) | Count(call: CallId) | Commit(call: CallId)

  function StageOf(s: State, call: CallId): Stage {
    if call in s.calls then s.calls[call] else Over
  }

  function Next(schema: Schema, s: State, e: Event): State
    requires schema != []
  {
    var stage := StageOf(s, e.call);
    match e
    case Begin(call, op) => s.(calls := s.calls[call := LookedUp(schema, s.t, op)])
    case Count(call) => s.(calls := s.calls[call := Counted(schema, s.t, stage)])
    case Commit(call) => State(Committed(s.t, stage), s.calls[call := Over])
  }

  function After(schema: Schema, s: State, events: seq<Event>): State
    requires schema != []
  {
    if events == [] then s else Next(schema, After(schema, s, events[..|events| - 1]), events[|events| - 1])
  }

  lemma AfterPrefix(schema: Schema, s: State, events: seq<Event>, n: nat)
    requires schema != [] && n < |events|
    ensures After(schema, s, events[..n + 1]) == Next(schema, After(schema, s, events[..n]), events[n])
  {
    assert events[..n + 1][..n] == events[..n];
  }

  // A call that nothing overlaps is the step of its operation.
  lemma AloneIsStep(schema: Schema, s: State, call: CallId, op: Op)
    requires schema != [] && Sound(schema, s.t)
    ensures After(schema, s, [Begin(call, op), Count(call), Commit(call)]).t == Step(schema, s.t, op)
  {
    hide *;
    ThreeEvents(schema, s, call, op);
    match op
    case Accept(_, _, _, _) => AcceptsAlone(schema, s.t, op);
    case Depart(c) => DepartsAlone(schema, s.t, c);
  }

  lemma AcceptsAlone(schema: Schema, t: Tables, op: Op)
    requires schema != [] && Sound(schema, t) && op.Accept?
    ensures Committed(t, Counted(schema, t, LookedUp(schema, t, op))) == Step(schema, t, op)
  {
    hide Fits, MembersIn, Requested;
    if op.inviter == op.invitee || op.invitee in t.members {
      assert Counted(schema, t, LookedUp(schema, t, op)) == Over;
    } else if op.inviter in t.members {
      assert t.members[op.inviter] in t.parties;
    }
  }

  lemma ThreeEvents(schema: Schema, s: State, call: CallId, op: Op)
    requires schema != []
    ensures After(schema, s, [Begin(call, op), Count(call), Commit(call)]).t
         == Committed(s.t, Counted(schema, s.t, LookedUp(schema, s.t, op)))
  {
    hide LookedUp, Counted, Committed;
    var events := [Begin(call, op), Count(call), Commit(call)];
    AfterPrefix(schema, s, events, 0);
    AfterPrefix(schema, s, events, 1);
    AfterPrefix(schema, s, events, 2);
    assert events[..3] == events;
  }

  lemma DepartsAlone(schema: Schema, t: Tables, c: CharacterId)
    requires schema != []
    ensures Committed(t, Counted(schema, t, LookedUp(schema, t, Depart(c)))) == Step(schema, t, Depart(c))
  {
    if c in t.members {
      var left := t.(members := t.members - {c});
      assert Dissolved(left, t.members[c]).members == Dissolved(t, t.members[c]).members;
    }
  }

  // What a call waits to commit was decided for two characters and a type that takes two.
  predicate Prepared(schema: Schema, stage: Stage) {
    stage.ReadyToFound? ==> stage.inviter != stage.invitee && Fits(schema, stage.key, 2)
  }

  // The decision is still right for the tables it is written to.
  predicate StillRight(schema: Schema, t: Tables, stage: Stage) {
    match stage
    case ReadyToJoin(p, b) =>
      p in t.parties && b !in t.members ==> Fits(schema, t.parties[p], |MembersIn(t, p)| + 1)
    case ReadyToLeave(c, p, dissolve) =>
      !dissolve && c in MembersIn(t, p) ==> |MembersIn(t, p)| >= 3
    case _ => true
  }

  // A commit keeps floor and cap exactly when its decision is still right.
  lemma CommitKeepsSoundExactlyWhen(schema: Schema, t: Tables, stage: Stage)
    requires Sound(schema, t) && Prepared(schema, stage)
    ensures Sound(schema, Committed(t, stage)) <==> StillRight(schema, t, stage)
  {
    match stage
    case ReadyToJoin(p, b) =>
      if p in t.parties && b !in t.members {
        JoinKeepsExactlyWhen(schema, t, p, b);
      }
    case ReadyToFound(newId, key, a, b) =>
      if newId !in t.parties && a !in t.members && b !in t.members {
        FoundingKeeps(schema, t, newId, key, a, b);
      }
    case ReadyToLeave(c, p, dissolve) =>
      if dissolve {
        DissolvingKeeps(schema, t, c, p);
      } else if c in MembersIn(t, p) {
        RemovalKeepsExactlyWhen(schema, t, c, p);
      }
    case Joining(_, _, _) =>
    case Leaving(_, _) =>
    case Over =>
  }

  lemma OneMore(t: Tables, p: PartyId, b: CharacterId)
    requires b !in t.members
    ensures var t' := t.(members := t.members[b := p]);
            MembersIn(t', p) == MembersIn(t, p) + {b} && |MembersIn(t', p)| == |MembersIn(t, p)| + 1
  {
    hide MembersIn;
    var t' := t.(members := t.members[b := p]);
    var before, after := MembersIn(t, p), MembersIn(t', p);
    forall c ensures c in after <==> c in before || c == b {
    }
    OneLarger(before, after, b);
  }

  lemma OneLarger(before: set<CharacterId>, after: set<CharacterId>, b: CharacterId)
    requires b !in before && forall c :: c in after <==> c in before || c == b
    ensures after == before + {b} && |after| == |before| + 1
  {
    assert forall c :: c in after <==> c in before + {b};
    assert after == before + {b};
  }

  lemma JoinKeepsExactlyWhen(schema: Schema, t: Tables, p: PartyId, b: CharacterId)
    requires Sound(schema, t) && p in t.parties && b !in t.members
    ensures var t' := t.(members := t.members[b := p]);
            Sound(schema, t') <==> Fits(schema, t.parties[p], |MembersIn(t, p)| + 1)
  {
    hide Fits, MembersIn;
    var t' := t.(members := t.members[b := p]);
    OneMore(t, p, b);
    forall q | q != p ensures MembersIn(t', q) == MembersIn(t, q) {
    }
    OnePartyDecides(schema, t, t', p);
  }

  // When one party alone changes, it alone decides.
  lemma OnePartyDecides(schema: Schema, t: Tables, t': Tables, p: PartyId)
    requires Sound(schema, t) && p in t.parties && t'.parties == t.parties
    requires forall c :: c in t'.members ==> t'.members[c] in t'.parties
    requires forall q :: q != p ==> MembersIn(t', q) == MembersIn(t, q)
    ensures Sound(schema, t')
       <==> |MembersIn(t', p)| >= 2 && Fits(schema, t.parties[p], |MembersIn(t', p)|)
  {
    hide Fits, MembersIn;
  }

  lemma FoundingKeeps(schema: Schema, t: Tables, newId: PartyId, key: string, a: CharacterId, b: CharacterId)
    requires Sound(schema, t) && newId !in t.parties && a !in t.members && b !in t.members
    requires a != b && Fits(schema, key, 2)
    ensures Sound(schema, Tables(t.parties[newId := key], t.members[a := newId][b := newId]))
  {
    hide Fits, MembersIn;
    var t' := Tables(t.parties[newId := key], t.members[a := newId][b := newId]);
    assert forall c :: c in t.members ==> t.members[c] != newId;
    forall q ensures MembersIn(t', q) == if q == newId then {a, b} else MembersIn(t, q) {
      assert q == newId ==> MembersIn(t', q) == {a, b};
      assert q != newId ==> MembersIn(t', q) == MembersIn(t, q);
    }
    assert |{a, b}| == 2;
  }

  lemma DissolvingKeeps(schema: Schema, t: Tables, c: CharacterId, p: PartyId)
    requires Sound(schema, t)
    ensures Sound(schema, Committed(t, ReadyToLeave(c, p, true)))
  {
    hide Fits, MembersIn;
    var t' := Committed(t, ReadyToLeave(c, p, true));
    forall q | q != p ensures MembersIn(t', q) == MembersIn(t, q) {
    }
  }

  lemma RemovalKeepsExactlyWhen(schema: Schema, t: Tables, c: CharacterId, p: PartyId)
    requires Sound(schema, t) && c in MembersIn(t, p)
    ensures Sound(schema, t.(members := t.members - {c})) <==> |MembersIn(t, p)| >= 3
  {
    hide Fits, MembersIn;
    var t' := t.(members := t.members - {c});
    assert MembersIn(t', p) == MembersIn(t, p) - {c} && |MembersIn(t', p)| == |MembersIn(t, p)| - 1;
    forall q | q != p ensures MembersIn(t', q) == MembersIn(t, q) {
    }
    ShrunkFits(schema, t.parties[p], |MembersIn(t, p)|, |MembersIn(t, p)| - 1);
    OnePartyDecides(schema, t, t', p);
  }

  ghost predicate AllPrepared(schema: Schema, s: State) {
    forall call :: Prepared(schema, StageOf(s, call))
  }

  lemma NextPrepared(schema: Schema, s: State, e: Event)
    requires schema != [] && AllPrepared(schema, s)
    ensures AllPrepared(schema, Next(schema, s, e))
  {
    hide Fits, MembersIn, Committed;
    var s' := Next(schema, s, e);
    forall call ensures Prepared(schema, StageOf(s', call)) {
      assert Prepared(schema, StageOf(s, call));
    }
  }

  // Whether every commit among the events comes while its decision is still right.
  ghost predicate RightWhenCommitted(schema: Schema, s: State, events: seq<Event>)
    requires schema != []
  {
    forall i :: 0 <= i < |events| && events[i].Commit? ==>
      var before := After(schema, s, events[..i]);
      StillRight(schema, before.t, StageOf(before, events[i].call))
  }

  ghost predicate AlwaysSound(schema: Schema, s: State, events: seq<Event>)
    requires schema != []
  {
    forall i :: 0 <= i <= |events| ==> Sound(schema, After(schema, s, events[..i]).t)
  }

  // Calls may overlap in any way: every party has its floor and cap throughout exactly when
  // each commit comes while its decision is still right.
  lemma {:induction false} OverlappingSoundExactlyWhen(schema: Schema, events: seq<Event>)
    requires schema != []
    ensures var start := State(Tables(map[], map[]), map[]);
            AllPrepared(schema, After(schema, start, events))
            && (AlwaysSound(schema, start, events) <==> RightWhenCommitted(schema, start, events))
  {
    hide Next, Sound, Prepared, StillRight;
    var start := State(Tables(map[], map[]), map[]);
    if events == [] {
      StartIsSound(schema);
    } else {
      var n := |events| - 1;
      var rest := events[..n];
      OverlappingSoundExactlyWhen(schema, rest);
      assert forall i :: 0 <= i <= n ==> rest[..i] == events[..i];
      assert events[..|events|] == events;
      var before := After(schema, start, rest);
      NextPrepared(schema, before, events[n]);
      assert AlwaysSound(schema, start, events)
        <==> AlwaysSound(schema, start, rest) && Sound(schema, After(schema, start, events).t);
      assert RightWhenCommitted(schema, start, events)
        <==> RightWhenCommitted(schema, start, rest)
             && (events[n].Commit? ==> StillRight(schema, before.t, StageOf(before, events[n].call)));
      if AlwaysSound(schema, start, rest) {
        assert rest[..n] == rest && Sound(schema, before.t);
        NextSoundExactlyWhen(schema, before, events[n]);
      }
    }
  }

  lemma StartIsSound(schema: Schema)
    requires schema != []
    ensures var start := State(Tables(map[], map[]), map[]);
            && AllPrepared(schema, start) && AlwaysSound(schema, start, []) && RightWhenCommitted(schema, start, [])
  {
  }

  lemma NextSoundExactlyWhen(schema: Schema, s: State, e: Event)
    requires schema != [] && Sound(schema, s.t) && AllPrepared(schema, s)
    ensures Sound(schema, Next(schema, s, e).t) <==> (e.Commit? ==> StillRight(schema, s.t, StageOf(s, e.call)))
  {
    hide Sound, Prepared, StillRight, Committed, Counted, LookedUp;
    if e.Commit? {
      assert Prepared(schema, StageOf(s, e.call));
      CommitKeepsSoundExactlyWhen(schema, s.t, StageOf(s, e.call));
    }
  }

  // A decision stays right for as long as nobody else joins or leaves the party.
  lemma UncontestedStaysRight(schema: Schema, t: Tables, t': Tables, stage: Stage)
    requires stage.Joining? || stage.Leaving?
    requires MembersIn(t', stage.party) == MembersIn(t, stage.party)
    requires stage.Joining? && stage.party in t'.parties ==> t'.parties[stage.party] == stage.key
    ensures StillRight(schema, t', Counted(schema, t, stage))
  {
    hide Fits, MembersIn;
    match stage
    case Joining(p, key, b) =>
    case Leaving(c, p) =>
      if c in MembersIn(t, p) {
        assert |MembersIn(t, p) - {c}| == |MembersIn(t, p)| - 1;
      }
  }

  // The party a decision is about, once there is one.
  function PartyOf(stage: Stage): Option<PartyId> {
    match stage
    case ReadyToJoin(p, _) => Some(p)
    case ReadyToFound(p, _, _, _) => Some(p)
    case ReadyToLeave(_, p, _) => Some(p)
    case _ => None
  }

  // Right whatever else the tables hold of the characters: the party alone decides.
  predicate RightForParty(schema: Schema, t: Tables, stage: Stage) {
    match stage
    case ReadyToJoin(p, b) => p in t.parties ==> Fits(schema, t.parties[p], |MembersIn(t, p)| + 1)
    case ReadyToLeave(c, p, dissolve) => !dissolve && c in MembersIn(t, p) ==> |MembersIn(t, p)| >= 3
    case _ => true
  }

  // A looked-up type is the type of its party for as long as there is that party.
  predicate TypeHolds(t: Tables, stage: Stage) {
    stage.Joining? && stage.party in t.parties ==> t.parties[stage.party] == stage.key
  }

  // A commit is not felt by any other party.
  lemma CommitElsewhere(t: Tables, stage: Stage, p: PartyId)
    requires PartyOf(stage) != Some(p)
    ensures MembersIn(Committed(t, stage), p) == MembersIn(t, p)
    ensures p in Committed(t, stage).parties <==> p in t.parties
    ensures p in t.parties ==> Committed(t, stage).parties[p] == t.parties[p]
  {
    hide MembersIn;
    assert forall c :: c in MembersIn(Committed(t, stage), p) <==> c in MembersIn(t, p);
  }

  lemma CountedIsRight(schema: Schema, t: Tables, stage: Stage)
    requires TypeHolds(t, stage)
    ensures PartyOf(stage).None? ==> RightForParty(schema, t, Counted(schema, t, stage))
  {
    hide Fits, MembersIn;
    if stage.Leaving? && stage.c in MembersIn(t, stage.party) {
      assert |MembersIn(t, stage.party) - {stage.c}| == |MembersIn(t, stage.party)| - 1;
    }
  }

  // Call `y` has decided on a party when another call commits on it, and does nothing since
  // but count again.
  ghost predicate Disturbed(schema: Schema, s: State, events: seq<Event>, m: nat, i: nat, y: CallId)
    requires schema != []
  {
    && m < i <= |events| && events[m].Commit? && events[m].call != y
    && SameParty(After(schema, s, events[..m]), y, events[m].call)
    && forall n :: m < n < i && events[n].call == y ==> events[n].Count?
  }

  predicate SameParty(s: State, y: CallId, x: CallId) {
    PartyOf(StageOf(s, y)).Some? && PartyOf(StageOf(s, y)) == PartyOf(StageOf(s, x))
  }

  ghost predicate WasDisturbed(schema: Schema, s: State, events: seq<Event>, i: nat, y: CallId)
    requires schema != []
  {
    exists m :: 0 <= m < i && Disturbed(schema, s, events, m, i, y)
  }

  // No call commits on a party on which another call has committed since it counted, and no
  // party is founded under an id that a call has looked up.
  ghost predicate Uncontested(schema: Schema, s: State, events: seq<Event>)
    requires schema != []
  {
    && (forall m, i :: 0 <= m < i < |events| && events[i].Commit? ==>
        !Disturbed(schema, s, events, m, i, events[i].call))
    && (forall i, y :: 0 <= i < |events| && events[i].Commit? ==>
          NewId(After(schema, s, events[..i]), events[i].call, y))
  }

  predicate NewId(s: State, x: CallId, y: CallId) {
    StageOf(s, x).ReadyToFound? && StageOf(s, y).Joining? ==> StageOf(s, y).party != StageOf(s, x).newId
  }

  ghost predicate TypesHold(s: State) {
    forall y :: TypeHolds(s.t, StageOf(s, y))
  }

  lemma NextTypesHold(schema: Schema, s: State, e: Event)
    requires schema != [] && TypesHold(s) && (e.Commit? ==> forall y :: NewId(s, e.call, y))
    ensures TypesHold(Next(schema, s, e))
  {
    hide Fits, MembersIn, Requested;
    var s' := Next(schema, s, e);
    forall y ensures TypeHolds(s'.t, StageOf(s', y)) {
      assert TypeHolds(s.t, StageOf(s, y));
      if e.Commit? {
        assert NewId(s, e.call, y);
        if StageOf(s, y).Joining? && y != e.call {
          TypeStays(s.t, StageOf(s, e.call), StageOf(s, y).party);
        }
      }
    }
  }

  lemma TypeStays(t: Tables, stage: Stage, p: PartyId)
    requires stage.ReadyToFound? ==> stage.newId != p
    ensures p in Committed(t, stage).parties ==> p in t.parties && Committed(t, stage).parties[p] == t.parties[p]
  {
    hide MembersIn;
  }

  // The decision of a call that nobody disturbed is right after one more event.
  lemma RightAfter(schema: Schema, s: State, e: Event, y: CallId)
    requires schema != [] && TypesHold(s) && RightForParty(schema, s.t, StageOf(s, y))
    requires e.Commit? && e.call != y ==> !SameParty(s, y, e.call)
    ensures RightForParty(schema, Next(schema, s, e).t, StageOf(Next(schema, s, e), y))
  {
    hide Fits, MembersIn, Committed, Counted, LookedUp;
    var stage := StageOf(s, y);
    assert TypeHolds(s.t, stage);
    if e.call == y {
      LookedUpIsRight(schema, s.t, e);
      CountedIsRight(schema, s.t, stage);
      CountedTwice(schema, s.t, stage);
    } else if e.Commit? && PartyOf(stage).Some? {
      CommitElsewhere(s.t, StageOf(s, e.call), PartyOf(stage).value);
    }
  }

  lemma LookedUpIsRight(schema: Schema, t: Tables, e: Event)
    requires schema != []
    ensures e.Begin? ==> RightForParty(schema, t, LookedUp(schema, t, e.op))
  {
    hide Fits, MembersIn, Requested;
  }

  lemma CountedTwice(schema: Schema, t: Tables, stage: Stage)
    ensures PartyOf(stage).Some? ==> Counted(schema, t, stage) == stage
  {
    hide Fits, MembersIn;
  }

  // Each call's decision is right or has been disturbed.
  lemma {:induction false} RightUnlessDisturbed(schema: Schema, s: State, events: seq<Event>, i: nat, y: CallId)
    requires schema != [] && i <= |events| && s == State(Tables(map[], map[]), map[])
    requires Uncontested(schema, s, events)
    ensures var now := After(schema, s, events[..i]);
            && TypesHold(now)
            && (RightForParty(schema, now.t, StageOf(now, y)) || WasDisturbed(schema, s, events, i, y))
  {
    hide Next, RightForParty, TypesHold;
    if i == 0 {
      assert events[..0] == [];
      NothingYet(schema, y);
    } else {
      var before := After(schema, s, events[..i - 1]);
      var e := events[i - 1];
      RightUnlessDisturbed(schema, s, events, i - 1, y);
      AfterPrefix(schema, s, events, i - 1);
      if e.Commit? {
        assert forall z :: NewId(before, e.call, z);
      }
      NextTypesHold(schema, before, e);
      StillRightOrDisturbed(schema, s, events, i, y);
    }
  }

  lemma NothingYet(schema: Schema, y: CallId)
    ensures var s := State(Tables(map[], map[]), map[]);
            TypesHold(s) && RightForParty(schema, s.t, StageOf(s, y))
  {
  }

  lemma StillRightOrDisturbed(schema: Schema, s: State, events: seq<Event>, i: nat, y: CallId)
    requires schema != [] && 0 < i <= |events|
    requires var before := After(schema, s, events[..i - 1]);
             && TypesHold(before)
             && (RightForParty(schema, before.t, StageOf(before, y)) || WasDisturbed(schema, s, events, i - 1, y))
    ensures var now := After(schema, s, events[..i]);
            RightForParty(schema, now.t, StageOf(now, y)) || WasDisturbed(schema, s, events, i, y)
  {
    hide RightForParty, TypesHold, Disturbed, Next, PartyOf;
    var before := After(schema, s, events[..i - 1]);
    var e := events[i - 1];
    AfterPrefix(schema, s, events, i - 1);
    if WasDisturbed(schema, s, events, i - 1, y) {
      var m :| 0 <= m < i - 1 && Disturbed(schema, s, events, m, i - 1, y);
      if e.call == y && !e.Count? {
        StartsAfresh(schema, before, e);
      } else {
        DisturbedLonger(schema, s, events, m, i, y);
      }
    } else if e.Commit? && e.call != y && SameParty(before, y, e.call) {
      DisturbedNow(schema, s, events, i, y);
    } else {
      RightAfter(schema, before, e, y);
    }
  }

  lemma StartsAfresh(schema: Schema, s: State, e: Event)
    requires schema != [] && !e.Count?
    ensures RightForParty(schema, Next(schema, s, e).t, StageOf(Next(schema, s, e), e.call))
  {
    hide Fits, MembersIn, Committed, Counted, LookedUp;
    LookedUpIsRight(schema, s.t, e);
  }

  lemma DisturbedLonger(schema: Schema, s: State, events: seq<Event>, m: nat, i: nat, y: CallId)
    requires schema != [] && 0 < i <= |events| && Disturbed(schema, s, events, m, i - 1, y)
    requires events[i - 1].call == y ==> events[i - 1].Count?
    ensures Disturbed(schema, s, events, m, i, y)
  {
    hide After;
  }

  lemma DisturbedNow(schema: Schema, s: State, events: seq<Event>, i: nat, y: CallId)
    requires schema != [] && 0 < i <= |events| && events[i - 1].Commit? && events[i - 1].call != y
    requires SameParty(After(schema, s, events[..i - 1]), y, events[i - 1].call)
    ensures Disturbed(schema, s, events, i - 1, i, y)
  {
    hide After;
  }

  // If nobody else commits on a party between a call's count and its commit, every party has
  // its floor and cap throughout, however else the calls overlap.
  lemma UncontestedStaysSound(schema: Schema, events: seq<Event>)
    requires schema != [] && Uncontested(schema, State(Tables(map[], map[]), map[]), events)
    ensures AlwaysSound(schema, State(Tables(map[], map[]), map[]), events)
  {
    hide AlwaysSound, Next, TypesHold, Fits, MembersIn;
    var s := State(Tables(map[], map[]), map[]);
    forall i | 0 <= i < |events| && events[i].Commit?
      ensures var before := After(schema, s, events[..i]);
              StillRight(schema, before.t, StageOf(before, events[i].call))
    {
      RightUnlessDisturbed(schema, s, events, i, events[i].call);
      assert forall m :: 0 <= m < i ==> !Disturbed(schema, s, events, m, i, events[i].call);
    }
    assert RightWhenCommitted(schema, s, events);
    OverlappingSoundExactlyWhen(schema, events);
  }

  // Two invites accepted at once take any party one short of its cap over it.
  lemma TwoJoinsExceedCap(schema: Schema, t: Tables, a: CharacterId, b: CharacterId, c: CharacterId)
    returns (events: seq<Event>)
    requires schema != [] && Sound(schema, t) && a in t.members && b !in t.members && c !in t.members && b != c
    requires var p := t.members[a];
             Fits(schema, t.parties[p], |MembersIn(t, p)| + 1) && !Fits(schema, t.parties[p], |MembersIn(t, p)| + 2)
    ensures events == [Begin(1, Accept(a, b, "", 0)), Begin(2, Accept(a, c, "", 0)),
                       Count(1), Count(2), Commit(1), Commit(2)]
    ensures var t' := After(schema, State(t, map[]), events).t;
            MembersIn(t', t.members[a]) == MembersIn(t, t.members[a]) + {b, c} && !Sound(schema, t')
  {
    hide Fits, MembersIn, After;
    var p := t.members[a];
    events := [Begin(1, Accept(a, b, "", 0)), Begin(2, Accept(a, c, "", 0)), Count(1), Count(2), Commit(1), Commit(2)];
    SixEvents(schema, t, Accept(a, b, "", 0), Accept(a, c, "", 0));
    var joined := t.(members := t.members[b := p]);
    OneMore(t, p, b);
    OneMore(joined, p, c);
    assert MembersIn(t, p) + {b} + {c} == MembersIn(t, p) + {b, c};
  }

  // Two characters leaving any party of three at once leave the third a party of one.
  lemma TwoLeavesStrandOne(schema: Schema, t: Tables, a: CharacterId, b: CharacterId, c: CharacterId, p: PartyId)
    returns (events: seq<Event>)
    requires schema != [] && Sound(schema, t) && MembersIn(t, p) == {a, b, c} && a != b && b != c && c != a
    ensures events == [Begin(1, Depart(a)), Begin(2, Depart(b)), Count(1), Count(2), Commit(1), Commit(2)]
    ensures var t' := After(schema, State(t, map[]), events).t;
            p in t'.parties && MembersIn(t', p) == {c} && !Sound(schema, t')
  {
    hide Fits, MembersIn, After;
    events := [Begin(1, Depart(a)), Begin(2, Depart(b)), Count(1), Count(2), Commit(1), Commit(2)];
    SixEvents(schema, t, Depart(a), Depart(b));
    assert a in MembersIn(t, p) && b in MembersIn(t, p) && c in MembersIn(t, p);
    assert {a, b, c} - {a} == {b, c} && {a, b, c} - {b} == {a, c} && |{b, c}| == |{a, c}| == 2;
    var once := t.(members := t.members - {a});
    assert MembersIn(once, p) == {b, c};
    var t' := once.(members := once.members - {b});
    assert MembersIn(t', p) == {c};
  }

  lemma SixEvents(schema: Schema, t: Tables, one: Op, two: Op)
    requires schema != []
    ensures After(schema, State(t, map[]), [Begin(1, one), Begin(2, two), Count(1), Count(2), Commit(1), Commit(2)]).t
         == Committed(Committed(t, Counted(schema, t, LookedUp(schema, t, one))),
             Counted(schema, t, LookedUp(schema, t, two)))
  {
    hide LookedUp, Counted, Committed;
    var events := [Begin(1, one), Begin(2, two), Count(1), Count(2), Commit(1), Commit(2)];
    var s := State(t, map[]);
    AfterPrefix(schema, s, events, 0);
    AfterPrefix(schema, s, events, 1);
    AfterPrefix(schema, s, events, 2);
    AfterPrefix(schema, s, events, 3);
    AfterPrefix(schema, s, events, 4);
    AfterPrefix(schema, s, events, 5);
    assert events[..6] == events;
  }

  // A party of three comes about: one invite founds it, a second fills it.
  lemma PartyOfThree() returns (schema: Schema, t: Tables)
    ensures schema == [PartyType("trio", Some(3))]
         && t == Run(schema, Tables(map[], map[]), [Accept(1, 2, "", 9), Accept(1, 3, "", 9)])
    ensures MembersIn(t, 9) == {1, 2, 3} && Sound(schema, t)
  {
    schema := [PartyType("trio", Some(3))];
    var empty := Tables(map[], map[]);
    var ops := [Accept(1, 2, "", 9), Accept(1, 3, "", 9)];
    t := Run(schema, empty, ops);
    PartiesStaySound(schema, ops);
    var pair := Tables(map[9 := "trio"], map[1 := 9, 2 := 9]);
    assert Step(schema, empty, ops[0]) == pair;
    assert MembersIn(pair, 9) == {1, 2};
    TwoOps(schema, empty, ops[0], ops[1]);
    assert t == pair.(members := pair.members[3 := 9]);
  }

  lemma TwoOps(schema: Schema, t: Tables, one: Op, two: Op)
    requires schema != []
    ensures Run(schema, t, [one, two]) == Step(schema, Step(schema, t, one), two)
  {
    hide Step;
    assert [one, two][..1] == [one] && [one][..0] == [];
    assert Run(schema, t, []) == t;
    assert Run(schema, t, [one]) == Step(schema, t, one);
  }
}
