/** Guild calls that overlap. Nothing locks a guild's rows, so a call decides on ranks that
    another call's commit can make stale. */
module GuildRaces {
  import opened Prelude
  import opened Guild

  type CallId = int

  // What a call that has read its accounts' memberships will write.
  datatype Decision =
    | Founding(id: GuildId, info: Info, founder: AccountId)
    | Adding(invitee: AccountId, guild: GuildId)
    | Removing(target: AccountId, guild: GuildId)
    | Moving(target: AccountId, guild: GuildId, rank: string)
    | Dissolving(guild: GuildId)
    | Nothing

  function Decided(schema: Schema, s: Roster, op: Op): Decision
    requires schema != []
  {
    match op
    case Create(a, id, name, realm) =>
      if !Blank(name) && a !in s.members then Founding(id, Info(name, realm), a) else Nothing
    case AcceptInvite(a, b) => if Allowed(schema, s, op) then Adding(b, s.members[a].guild) else Nothing
    case KickOut(a, t) => if Allowed(schema, s, op) then Removing(t, s.members[a].guild) else Nothing
    case ChangeRank(a, t, rank, _) => if Allowed(schema, s, op) then Moving(t, s.members[a].guild, rank) else Nothing
    case Leave(a) =>
      if !Allowed(schema, s, op) then Nothing
      else if IsFounder(schema, s, a) then Dissolving(s.members[a].guild)
      else Removing(a, s.members[a].guild)
    case Disband(a) => if Allowed(schema, s, op) then Dissolving(s.members[a].guild) else Nothing
  }

  predicate MemberOf(s: Roster, a: AccountId, g: GuildId) {
    a in s.members && s.members[a].guild == g
  }

  // The writes, under the tables' keys: a guild's id, a member's guild, one guild an account.
  function Committed(schema: Schema, s: Roster, d: Decision): Roster
    requires schema != []
  {
    match d
    case Founding(id, info, a) =>
      if id in s.guilds || a in s.members then s
      else Roster(s.guilds[id := info], s.members[a := Membership(id, FounderKey(schema))])
    case Adding(b, g) =>
      if g in s.guilds && b !in s.members then s.(members := s.members[b := Membership(g, DefaultKey(schema))]) else s
    case Removing(t, g) => if MemberOf(s, t, g) then s.(members := s.members - {t}) else s
    case Moving(t, g, rank) => if MemberOf(s, t, g) then s.(members := s.members[t := Membership(g, rank)]) else s
    case Dissolving(g) => Dissolved(s, g)
    case Nothing => s
  }

  // A call that nothing overlaps is the step of its operation.
  lemma AloneIsStep(schema: Schema, s: Roster, op: Op)
    requires schema != [] && Sound(schema, s)
    ensures Committed(schema, s, Decided(schema, s, op)) == Step(schema, s, op)
  {
    hide Blank, Resolve, Has;
  }

  // Any rank it will write is declared.
  predicate Prepared(schema: Schema, d: Decision) {
    d.Moving? ==> Resolve(schema, d.rank).Some?
  }

  // The decision takes no guild its last founder, in the roster it is written to.
  predicate StillRight(schema: Schema, s: Roster, d: Decision)
    requires schema != []
  {
    d.Removing? || (d.Moving? && d.rank != FounderKey(schema)) ==> Founders(schema, s, d.guild) != {d.target}
  }

  // A commit keeps every guild founded exactly when its decision is still right.
  lemma CommitKeepsFoundedExactlyWhen(schema: Schema, s: Roster, d: Decision)
    requires SchemaLoaded(schema) && Sound(schema, s) && EveryGuildFounded(schema, s) && Prepared(schema, d)
    ensures Sound(schema, Committed(schema, s, d))
    ensures EveryGuildFounded(schema, Committed(schema, s, d)) <==> StillRight(schema, s, d)
  {
    hide Resolve, Founders;
    FirstAndLastResolve(schema);
    var s' := Committed(schema, s, d);
    forall g | g in s'.guilds && !TakesFounder(schema, s, d, g) ensures Founders(schema, s', g) != {} {
      FounderStays(schema, s, d, g);
    }
    if (d.Removing? || (d.Moving? && d.rank != FounderKey(schema))) && Founders(schema, s, d.guild) == {d.target} {
      LastFounderGoes(schema, s, d);
    }
  }

  predicate TakesFounder(schema: Schema, s: Roster, d: Decision, g: GuildId)
    requires schema != []
  {
    && (d.Removing? || (d.Moving? && d.rank != FounderKey(schema)))
    && d.guild == g && Founders(schema, s, g) == {d.target}
  }

  lemma FounderStays(schema: Schema, s: Roster, d: Decision, g: GuildId)
    requires SchemaLoaded(schema) && Sound(schema, s) && EveryGuildFounded(schema, s)
    requires g in Committed(schema, s, d).guilds && !TakesFounder(schema, s, d, g)
    ensures Founders(schema, Committed(schema, s, d), g) != {}
  {
    hide Resolve, Founders;
    var s' := Committed(schema, s, d);
    if g !in s.guilds {
      assert d.founder in Founders(schema, s', g);
    } else {
      var f := AnyOf(Founders(schema, s, g));
      if (d.Removing? || d.Moving?) && f == d.target && Founders(schema, s, g) != {f} {
        f := Another(Founders(schema, s, g), f);
      }
      assert f in Founders(schema, s', g);
    }
  }

  lemma LastFounderGoes(schema: Schema, s: Roster, d: Decision)
    requires SchemaLoaded(schema) && Sound(schema, s)
    requires d.Removing? || (d.Moving? && d.rank != FounderKey(schema))
    requires Founders(schema, s, d.guild) == {d.target}
    ensures d.guild in Committed(schema, s, d).guilds && Founders(schema, Committed(schema, s, d), d.guild) == {}
  {
    hide Resolve, Founders;
    var s' := Committed(schema, s, d);
    assert d.target in Founders(schema, s, d.guild);
    forall a ensures a !in Founders(schema, s', d.guild) {
      assert a in Founders(schema, s, d.guild) <==> a == d.target;
    }
  }

  datatype State = State(roster: Roster, calls: map<CallId, Decision>)

  datatype Event = Decide(call: CallId, op: Op) | Commit(call: CallId)

  function DecisionOf(s: State, call: CallId): Decision {
    if call in s.calls then s.calls[call] else Nothing
  }

  function Next(schema: Schema, s: State, e: Event): State
    requires schema != []
  {
    match e
    case Decide(call, op) => s.(calls := s.calls[call := Decided(schema, s.roster, op)])
    case Commit(call) => State(Committed(schema, s.roster, DecisionOf(s, call)), s.calls[call := Nothing])
  }

  function After(schema: Schema, s: State, events: seq<Event>): State
    requires schema != []
  {
    if events == [] then s else Next(schema, After(schema, s, events[..|events| - 1]), events[|events| - 1])
  }

  ghost predicate AllPrepared(schema: Schema, s: State) {
    forall call :: Prepared(schema, DecisionOf(s, call))
  }

  lemma NextPrepared(schema: Schema, s: State, e: Event)
    requires schema != [] && AllPrepared(schema, s)
    ensures AllPrepared(schema, Next(schema, s, e))
  {
    hide Blank, Resolve, Has, Committed;
    var s' := Next(schema, s, e);
    forall call ensures Prepared(schema, DecisionOf(s', call)) {
      assert Prepared(schema, DecisionOf(s, call));
    }
  }

  function Empty(): State {
    State(Roster(map[], map[]), map[])
  }

  ghost predicate AlwaysFounded(schema: Schema, events: seq<Event>)
    requires schema != []
  {
    forall i :: 0 <= i <= |events| ==> EveryGuildFounded(schema, After(schema, Empty(), events[..i]).roster)
  }

  // Whether every commit among the events comes while its decision is still right.
  ghost predicate RightWhenCommitted(schema: Schema, events: seq<Event>)
    requires schema != []
  {
    forall i :: 0 <= i < |events| && events[i].Commit? ==>
      var before := After(schema, Empty(), events[..i]);
      StillRight(schema, before.roster, DecisionOf(before, events[i].call))
  }

  // Calls may overlap in any way: every guild has a founder throughout exactly when each
  // commit comes while its decision is still right; the rows are sound either way.
  lemma {:induction false} OverlappingFoundedExactlyWhen(schema: Schema, events: seq<Event>)
    requires SchemaLoaded(schema)
    ensures AllPrepared(schema, After(schema, Empty(), events)) && Sound(schema, After(schema, Empty(), events).roster)
    ensures AlwaysFounded(schema, events) <==> RightWhenCommitted(schema, events)
  {
    hide Next, Sound, Prepared, StillRight, EveryGuildFounded;
    if events == [] {
      EmptyFounded(schema);
      NothingPrepared(schema);
    } else {
      var n := |events| - 1;
      var rest := events[..n];
      OverlappingFoundedExactlyWhen(schema, rest);
      assert forall i :: 0 <= i <= n ==> rest[..i] == events[..i];
      assert events[..|events|] == events;
      var before := After(schema, Empty(), rest);
      NextPrepared(schema, before, events[n]);
      NextSound(schema, before, events[n]);
      assert AlwaysFounded(schema, events)
        <==> AlwaysFounded(schema, rest) && EveryGuildFounded(schema, After(schema, Empty(), events).roster);
      assert RightWhenCommitted(schema, events)
        <==> RightWhenCommitted(schema, rest)
             && (events[n].Commit? ==> StillRight(schema, before.roster, DecisionOf(before, events[n].call)));
      if AlwaysFounded(schema, rest) {
        assert rest[..n] == rest && EveryGuildFounded(schema, before.roster);
        NextFoundedExactlyWhen(schema, before, events[n]);
      }
    }
  }

  lemma NothingPrepared(schema: Schema)
    ensures AllPrepared(schema, Empty())
  {
  }

  lemma NextSound(schema: Schema, s: State, e: Event)
    requires SchemaLoaded(schema) && Sound(schema, s.roster) && AllPrepared(schema, s)
    ensures Sound(schema, Next(schema, s, e).roster)
  {
    hide Resolve, Decided;
    FirstAndLastResolve(schema);
    if e.Commit? {
      assert Prepared(schema, DecisionOf(s, e.call));
    }
  }

  lemma NextFoundedExactlyWhen(schema: Schema, s: State, e: Event)
    requires SchemaLoaded(schema) && Sound(schema, s.roster) && EveryGuildFounded(schema, s.roster)
    requires AllPrepared(schema, s)
    ensures EveryGuildFounded(schema, Next(schema, s, e).roster)
       <==> (e.Commit? ==> StillRight(schema, s.roster, DecisionOf(s, e.call)))
  {
    hide Sound, Prepared, StillRight, Committed, Decided, EveryGuildFounded;
    if e.Commit? {
      assert Prepared(schema, DecisionOf(s, e.call));
      CommitKeepsFoundedExactlyWhen(schema, s.roster, DecisionOf(s, e.call));
    }
  }

  predicate Names(d: Decision) {
    d.Removing? || d.Moving?
  }

  // While the guild's founders are the ones the call saw, its decision takes the last of them
  // exactly when it is a sole founder's own step down.
  lemma UncontestedIsSerial(schema: Schema, s: Roster, s': Roster, op: Op)
    requires SchemaLoaded(schema)
    requires var d := Decided(schema, s, op);
             Names(d) ==> Founders(schema, s', d.guild) == Founders(schema, s, d.guild)
    ensures var d := Decided(schema, s, op);
            StillRight(schema, s', d) <==> !(Names(d) && StepsDown(schema, s, op, d.guild))
  {
    hide Blank, Resolve, Has, Founders;
    var d := Decided(schema, s, op);
    if Names(d) && Founders(schema, s, d.guild) == {d.target} {
      assert d.target in Founders(schema, s, d.guild) && IsFounder(schema, s, d.target);
      assert op.ChangeRank? && IsFounder(schema, s, op.actor) ==> op.actor in Founders(schema, s, d.guild);
    }
  }

  // The event by which a call came to what it has decided.
  ghost predicate DecidedAt(schema: Schema, events: seq<Event>, j: nat, i: nat, call: CallId)
    requires schema != []
  {
    && j < i <= |events| && events[j].Decide? && events[j].call == call
    && DecisionOf(After(schema, Empty(), events[..i]), call)
       == Decided(schema, After(schema, Empty(), events[..j]).roster, events[j].op)
  }

  lemma {:induction false} SomeDecision(schema: Schema, events: seq<Event>, i: nat, call: CallId) returns (j: nat)
    requires schema != [] && 0 < i <= |events|
    requires DecisionOf(After(schema, Empty(), events[..i]), call) != Nothing
    ensures DecidedAt(schema, events, j, i, call)
  {
    hide Decided, Committed;
    assert events[..i][..i - 1] == events[..i - 1] && events[..0] == [];
    if events[i - 1].call == call {
      j := i - 1;
    } else {
      j := SomeDecision(schema, events, i - 1, call);
    }
  }

  // Between a call's decision and its commit nobody changed who founds the guild, and the
  // decision is no sole founder's own step down.
  ghost predicate Uncontested(schema: Schema, events: seq<Event>)
    requires schema != []
  {
    forall j, i :: 0 <= j < i < |events| && events[i].Commit? && DecidedAt(schema, events, j, i, events[i].call) ==>
      var saw, writes := After(schema, Empty(), events[..j]).roster, After(schema, Empty(), events[..i]).roster;
      var d := Decided(schema, saw, events[j].op);
      Names(d) ==> Founders(schema, writes, d.guild) == Founders(schema, saw, d.guild)
                   && !StepsDown(schema, saw, events[j].op, d.guild)
  }

  lemma NothingAtFirst(schema: Schema, events: seq<Event>, call: CallId)
    requires schema != []
    ensures DecisionOf(After(schema, Empty(), events[..0]), call) == Nothing
  {
  }

  // Then every guild keeps a founder, however else the calls overlap.
  lemma UncontestedStaysFounded(schema: Schema, events: seq<Event>)
    requires SchemaLoaded(schema) && Uncontested(schema, events)
    ensures AlwaysFounded(schema, events)
  {
    hide AlwaysFounded, After, Decided, StepsDown, Founders;
    forall i | 0 <= i < |events| && events[i].Commit?
      ensures var before := After(schema, Empty(), events[..i]);
              StillRight(schema, before.roster, DecisionOf(before, events[i].call))
    {
      var before := After(schema, Empty(), events[..i]);
      NothingAtFirst(schema, events, events[i].call);
      if DecisionOf(before, events[i].call) != Nothing {
        var j := SomeDecision(schema, events, i, events[i].call);
        UncontestedIsSerial(schema, After(schema, Empty(), events[..j]).roster, before.roster, events[j].op);
      }
    }
    assert RightWhenCommitted(schema, events);
    OverlappingFoundedExactlyWhen(schema, events);
  }

  // Two founders who demote one another at once leave any guild of theirs without a founder,
  // though neither steps down.
  lemma TwoFoundersDemoteEachOther(schema: Schema, s: Roster, a: AccountId, b: AccountId, g: GuildId)
    returns (one: Op, two: Op)
    requires SchemaLoaded(schema) && Sound(schema, s) && |schema| >= 2 && Has(schema, FounderKey(schema), Demote)
    requires a != b && Founders(schema, s, g) == {a, b}
    ensures one == ChangeRank(a, b, DefaultKey(schema), false) && two == ChangeRank(b, a, DefaultKey(schema), false)
    ensures Allowed(schema, s, one) && Allowed(schema, s, two)
    ensures !StepsDown(schema, s, one, g) && !StepsDown(schema, s, two, g)
    ensures var s' := Committed(schema, Committed(schema, s, Decided(schema, s, one)), Decided(schema, s, two));
            g in s'.guilds && Founders(schema, s', g) == {}
  {
    hide Resolve, Has, Founders;
    one, two := ChangeRank(a, b, DefaultKey(schema), false), ChangeRank(b, a, DefaultKey(schema), false);
    FirstAndLastResolve(schema);
    assert a in Founders(schema, s, g) && b in Founders(schema, s, g);
    var s' := Committed(schema, Committed(schema, s, Decided(schema, s, one)), Decided(schema, s, two));
    forall c ensures c !in Founders(schema, s', g) {
      assert c in Founders(schema, s, g) <==> c == a || c == b;
    }
  }

  function TwoRanks(): Schema {
    [Rank("founder", [Invite, Promote, Demote]), Rank("member", [])]
  }

  function Members(ranks: map<AccountId, string>): Roster {
    Roster(map[9 := Info("guild", 1)], map a | a in ranks :: Membership(9, ranks[a]))
  }

  lemma TwoRanksResolve()
    ensures Resolve(TwoRanks(), "founder") == Some(TwoRanks()[0])
  {
  }

  lemma Created()
    ensures Step(TwoRanks(), Roster(map[], map[]), Create(1, 9, "guild", 1)) == Members(map[1 := "founder"])
  {
    assert "guild"[0] == 'g' && !White('g');
  }

  lemma Invited()
    ensures Step(TwoRanks(), Members(map[1 := "founder"]), AcceptInvite(1, 2))
         == Members(map[1 := "founder", 2 := "member"])
  {
    hide Resolve;
    TwoRanksResolve();
  }

  lemma Promoted()
    ensures Step(TwoRanks(), Members(map[1 := "founder", 2 := "member"]), ChangeRank(1, 2, "founder", true))
         == Members(map[1 := "founder", 2 := "founder"])
  {
    hide Resolve;
    TwoRanksResolve();
  }

  // Such a guild comes about: one account creates it, invites another and makes it a founder.
  lemma TwoFounders() returns (s: Roster)
    ensures SchemaLoaded(TwoRanks())
    ensures s == Run(TwoRanks(), Roster(map[], map[]), [Create(1, 9, "guild", 1), AcceptInvite(1, 2),
                                                        ChangeRank(1, 2, "founder", true)])
    ensures Founders(TwoRanks(), s, 9) == {1, 2}
  {
    s := Members(map[1 := "founder", 2 := "founder"]);
    hide Step, Run;
    ThreeOps(TwoRanks(), Roster(map[], map[]), Create(1, 9, "guild", 1), AcceptInvite(1, 2),
             ChangeRank(1, 2, "founder", true));
    Created();
    Invited();
    Promoted();
  }

  lemma ThreeOps(schema: Schema, s: Roster, one: Op, two: Op, three: Op)
    requires schema != []
    ensures Run(schema, s, [one, two, three]) == Step(schema, Step(schema, Step(schema, s, one), two), three)
  {
    hide Step;
    assert [one, two, three][..2] == [one, two] && [one, two][..1] == [one] && [one][..0] == [];
    assert Run(schema, s, [one]) == Step(schema, s, one);
    assert Run(schema, s, [one, two]) == Step(schema, Run(schema, s, [one]), two);
  }
}
