/** Guild rosters: ranks, and the one rank the core treats specially. Each method is one
    transaction; `Step` is what it commits. */
module Guild {
  import opened Prelude

  type AccountId = int
  type GuildId = int
  type RealmId = int

  datatype Permission = Invite | Kick | Promote | Demote | EditMotd | EditTag | Rename

  datatype Rank = Rank(key: string, permissions: seq<Permission>)

  type Schema = seq<Rank>

  datatype Refusal =
    | EmptyName | AlreadyInGuild | NotInGuild | SelfInvite | UnknownRank | NotPermitted
    | OtherGuild | FounderProtected | MustHandOver | ConstraintViolated

  // What loading demands: some rank, and no key twice.
  predicate SchemaLoaded(schema: Schema) {
    schema != [] && forall i, j :: 0 <= i < j < |schema| ==> schema[i].key != schema[j].key
  }

  // Whoever creates a guild gets the first declared rank, whoever joins the last.
  function FounderKey(schema: Schema): string
    requires schema != []
  {
    schema[0].key
  }

  function DefaultKey(schema: Schema): string
    requires schema != []
  {
    schema[|schema| - 1].key
  }

  function Resolve(schema: Schema, key: string): (r: Option<Rank>)
    ensures r.Some? ==> r.value in schema && r.value.key == key
    ensures r.None? <==> forall rank :: rank in schema ==> rank.key != key
  {
    if schema == [] then None
    else if schema[0].key == key then Some(schema[0])
    else Resolve(schema[1..], key)
  }

  predicate Has(schema: Schema, key: string, permission: Permission) {
    Resolve(schema, key).Some? && permission in Resolve(schema, key).value.permissions
  }

  datatype Info = Info(name: string, realm: RealmId)

  datatype Membership = Membership(guild: GuildId, rank: string)

  // The two tables. A membership row references its guild and goes when the guild goes; an
  // account has at most one.
  datatype Roster = Roster(guilds: map<GuildId, Info>, members: map<AccountId, Membership>)

  // Deleting a guild row cascades to its membership rows.
  function Dissolved(s: Roster, g: GuildId): Roster {
    Roster(s.guilds - {g}, map a | a in s.members && s.members[a].guild != g :: s.members[a])
  }

  datatype Op =
    | Create(actor: AccountId, id: GuildId, name: string, realm: RealmId)
    | AcceptInvite(actor: AccountId, invitee: AccountId)
    | KickOut(actor: AccountId, target: AccountId)
    | ChangeRank(actor: AccountId, target: AccountId, rank: string, up: bool)
    | Leave(actor: AccountId)
    | Disband(actor: AccountId)

  // Promoting and demoting differ only in the permission they ask for.
  function Required(up: bool): Permission {
    if up then Promote else Demote
  }

  predicate IsFounder(schema: Schema, s: Roster, a: AccountId)
    requires schema != []
  {
    a in s.members && s.members[a].rank == FounderKey(schema)
  }

  // The two are members of the same guild.
  predicate Together(s: Roster, a: AccountId, b: AccountId) {
    a in s.members && b in s.members && s.members[a].guild == s.members[b].guild
  }

  predicate Allowed(schema: Schema, s: Roster, op: Op)
    requires schema != []
  {
    match op
    case Create(a, id, name, _) => !Blank(name) && a !in s.members && id !in s.guilds
    case AcceptInvite(a, b) => a != b && b !in s.members && a in s.members && Has(schema, s.members[a].rank, Invite)
    case KickOut(a, t) => Together(s, a, t) && Has(schema, s.members[a].rank, Kick) && !IsFounder(schema, s, t)
    case ChangeRank(a, t, rank, up) =>
      && Resolve(schema, rank).Some? && Together(s, a, t) && Has(schema, s.members[a].rank, Required(up))
      && (rank == FounderKey(schema) || IsFounder(schema, s, t) ==> IsFounder(schema, s, a))
    case Leave(a) =>
      a in s.members && (IsFounder(schema, s, a) ==> forall b :: b in s.members && Together(s, a, b) ==> b == a)
    case Disband(a) => IsFounder(schema, s, a)
  }

  function Step(schema: Schema, s: Roster, op: Op): Roster
    requires schema != []
  {
    if !Allowed(schema, s, op) then s
    else
      match op
      case Create(a, id, name, realm) =>
        Roster(s.guilds[id := Info(name, realm)], s.members[a := Membership(id, FounderKey(schema))])
      case AcceptInvite(a, b) => s.(members := s.members[b := Membership(s.members[a].guild, DefaultKey(schema))])
      case KickOut(_, t) => s.(members := s.members - {t})
      case ChangeRank(_, t, rank, _) => s.(members := s.members[t := s.members[t].(rank := rank)])
      case Leave(a) =>
        if IsFounder(schema, s, a) then Dissolved(s, s.members[a].guild)
        else s.(members := s.members - {a})
      case Disband(a) => Dissolved(s, s.members[a].guild)
  }

  // Why an account may not act on another: what is wrong with its own membership comes first,
  // then what is wrong with the other's.
  function NotActing(schema: Schema, s: Roster, actor: AccountId, target: AccountId, needed: Permission): Refusal {
    if actor !in s.members then NotInGuild
    else if Resolve(schema, s.members[actor].rank).None? then UnknownRank
    else if !Has(schema, s.members[actor].rank, needed) then NotPermitted
    else if target !in s.members then NotInGuild
    else if !Together(s, actor, target) then OtherGuild
    else FounderProtected
  }

  class GuildStore {
    const schema: Schema
    var db: Roster

    constructor (schema: Schema)
      requires SchemaLoaded(schema)
      ensures this.schema == schema && db == Roster(map[], map[])
    {
      this.schema, db := schema, Roster(map[], map[]);
    }

    method NewGuild(founder: AccountId, id: GuildId, name: string, realm: RealmId)
      returns (r: Result<GuildId, Refusal>)
      requires SchemaLoaded(schema)
      modifies this
      ensures var op := Create(founder, id, name, realm);
              (r.Ok? <==> Allowed(schema, old(db), op)) && db == Step(schema, old(db), op) && (r.Ok? ==> r.value == id)
      ensures r.Err? ==>
                r.error == if Blank(name) then EmptyName
                           else if founder in db.members then AlreadyInGuild else ConstraintViolated
    {
      if Blank(name) {
        return Err(EmptyName);
      }
      var tx := db;
      if founder in tx.members {
        return Err(AlreadyInGuild);
      }
      if id in tx.guilds {
        return Err(ConstraintViolated);
      }
      tx := tx.(guilds := tx.guilds[id := Info(name, realm)]);
      tx := tx.(members := tx.members[founder := Membership(id, FounderKey(schema))]);
      db := tx;
      r := Ok(id);
    }

    method AcceptGuildInvite(inviter: AccountId, invitee: AccountId) returns (r: Result<GuildId, Refusal>)
      requires SchemaLoaded(schema)
      modifies this
      ensures var op := AcceptInvite(inviter, invitee);
              (r.Ok? <==> Allowed(schema, old(db), op)) && db == Step(schema, old(db), op)
      ensures r.Ok? ==> invitee in db.members && r.value == db.members[invitee].guild
      ensures r.Err? ==>
                r.error == if inviter == invitee then SelfInvite
                           else if invitee in db.members then AlreadyInGuild
                           else if inviter !in db.members then NotInGuild
                           else if Resolve(schema, db.members[inviter].rank).None? then UnknownRank else NotPermitted
    {
      if inviter == invitee {
        return Err(SelfInvite);
      }
      if invitee in db.members {
        return Err(AlreadyInGuild);
      }
      if inviter !in db.members {
        return Err(NotInGuild);
      }
      var rank := Resolve(schema, db.members[inviter].rank);
      if rank.None? {
        return Err(UnknownRank);
      }
      if Invite !in rank.value.permissions {
        return Err(NotPermitted);
      }
      var guild := db.members[inviter].guild;
      db := db.(members := db.members[invitee := Membership(guild, DefaultKey(schema))]);
      r := Ok(guild);
    }

    method KickMember(actor: AccountId, target: AccountId) returns (r: Result<(), Refusal>)
      requires SchemaLoaded(schema)
      modifies this
      ensures var op := KickOut(actor, target);
              (r.Ok? <==> Allowed(schema, old(db), op)) && db == Step(schema, old(db), op)
      ensures r.Err? ==> r.error == NotActing(schema, db, actor, target, Kick)
    {
      if actor !in db.members {
        return Err(NotInGuild);
      }
      var rank := Resolve(schema, db.members[actor].rank);
      if rank.None? {
        return Err(UnknownRank);
      }
      if Kick !in rank.value.permissions {
        return Err(NotPermitted);
      }
      if target !in db.members {
        return Err(NotInGuild);
      }
      if db.members[target].guild != db.members[actor].guild {
        return Err(OtherGuild);
      }
      if db.members[target].rank == FounderKey(schema) {
        return Err(FounderProtected);
      }
      db := db.(members := db.members - {target});
      r := Ok(());
    }

    method MoveRank(actor: AccountId, target: AccountId, newRank: string, up: bool) returns (r: Result<(), Refusal>)
      requires SchemaLoaded(schema)
      modifies this
      ensures var op := ChangeRank(actor, target, newRank, up);
              (r.Ok? <==> Allowed(schema, old(db), op)) && db == Step(schema, old(db), op)
      ensures r.Err? ==>
                r.error == if Resolve(schema, newRank).None? then UnknownRank
                           else NotActing(schema, db, actor, target, Required(up))
    {
      var resolved := Resolve(schema, newRank);
      if resolved.None? {
        return Err(UnknownRank);
      }
      if actor !in db.members {
        return Err(NotInGuild);
      }
      var actorRank := db.members[actor].rank;
      var rank := Resolve(schema, actorRank);
      if rank.None? {
        return Err(UnknownRank);
      }
      if Required(up) !in rank.value.permissions {
        return Err(NotPermitted);
      }
      if target !in db.members {
        return Err(NotInGuild);
      }
      if db.members[target].guild != db.members[actor].guild {
        return Err(OtherGuild);
      }
      var movesFounderRank := newRank == FounderKey(schema) || db.members[target].rank == FounderKey(schema);
      if movesFounderRank && actorRank != FounderKey(schema) {
        return Err(FounderProtected);
      }
      db := db.(members := db.members[target := db.members[target].(rank := resolved.value.key)]);
      r := Ok(());
    }

    method LeaveGuild(account: AccountId) returns (r: Result<(), Refusal>)
      requires SchemaLoaded(schema)
      modifies this
      ensures (r.Ok? <==> Allowed(schema, old(db), Leave(account))) && db == Step(schema, old(db), Leave(account))
      ensures r.Err? ==> r.error == if account in db.members then MustHandOver else NotInGuild
    {
      if account !in db.members {
        return Err(NotInGuild);
      }
      var guild := db.members[account].guild;
      if db.members[account].rank == FounderKey(schema) {
        var others := set b | b in db.members && db.members[b].guild == guild && b != account;
        if |others| > 0 {
          var b :| b in others;
          assert Together(db, account, b);
          return Err(MustHandOver);
        }
        assert forall b :: Together(db, account, b) && b != account ==> b in others;
        db := Dissolved(db, guild);
      } else {
        db := db.(members := db.members - {account});
      }
      r := Ok(());
    }

    method DisbandGuild(requestedBy: AccountId) returns (r: Result<(), Refusal>)
      requires SchemaLoaded(schema)
      modifies this
      ensures (r.Ok? <==> Allowed(schema, old(db), Disband(requestedBy)))
           && db == Step(schema, old(db), Disband(requestedBy))
      ensures r.Err? ==> r.error == if requestedBy in db.members then FounderProtected else NotInGuild
    {
      if requestedBy !in db.members {
        return Err(NotInGuild);
      }
      if db.members[requestedBy].rank != FounderKey(schema) {
        return Err(FounderProtected);
      }
      db := Dissolved(db, db.members[requestedBy].guild);
      r := Ok(());
    }
  }

  function Founders(schema: Schema, s: Roster, g: GuildId): (r: set<AccountId>)
    requires schema != []
    ensures forall a :: a in r <==> IsFounder(schema, s, a) && s.members[a].guild == g
  {
    set a | a in s.members && s.members[a] == Membership(g, FounderKey(schema))
  }

  // Rows reference guilds and declared ranks.
  predicate Sound(schema: Schema, s: Roster) {
    forall a :: a in s.members ==> s.members[a].guild in s.guilds && Resolve(schema, s.members[a].rank).Some?
  }

  lemma FirstAndLastResolve(schema: Schema)
    requires SchemaLoaded(schema)
    ensures Resolve(schema, FounderKey(schema)).Some? && Resolve(schema, DefaultKey(schema)).Some?
    ensures DefaultKey(schema) == FounderKey(schema) <==> |schema| == 1
  {
    assert schema[0] in schema && schema[|schema| - 1] in schema;
  }

  lemma StepKeepsSound(schema: Schema, s: Roster, op: Op)
    requires SchemaLoaded(schema) && Sound(schema, s)
    ensures Sound(schema, Step(schema, s, op))
  {
    hide Resolve;
    FirstAndLastResolve(schema);
  }

  // Whose membership an operation is about.
  function Subject(op: Op): AccountId {
    match op
    case Create(a, _, _, _) => a
    case AcceptInvite(_, b) => b
    case KickOut(_, t) => t
    case ChangeRank(_, t, _, _) => t
    case Leave(a) => a
    case Disband(a) => a
  }

  // An accepted operation leaves everyone else's membership alone, unless it dissolves their
  // guild; its subject joins at the rank the schema gives newcomers, moves, or is out.
  lemma OnlySubjectMoves(schema: Schema, s: Roster, op: Op, b: AccountId)
    requires SchemaLoaded(schema) && Sound(schema, s) && Allowed(schema, s, op)
    ensures var s' := Step(schema, s, op);
            && (b != Subject(op) ==>
                  if b in s.members && s.members[b].guild in s'.guilds
                  then b in s'.members && s'.members[b] == s.members[b] else b !in s'.members)
            && (op.AcceptInvite? ==> Subject(op) in s'.members && Together(s', op.actor, op.invitee)
                                     && s'.members[Subject(op)].rank == DefaultKey(schema))
            && (op.ChangeRank? ==> Subject(op) in s'.members
                                   && s'.members[Subject(op)] == Membership(s.members[op.actor].guild, op.rank))
            && (op.KickOut? || op.Leave? || op.Disband? ==> Subject(op) !in s'.members)
  {
    hide Blank, Resolve;
  }

  // The account's rank, as the schema declares it, lists the permission.
  predicate RankLists(schema: Schema, s: Roster, a: AccountId, permission: Permission) {
    a in s.members && exists rank :: rank in schema && rank.key == s.members[a].rank && permission in rank.permissions
  }

  lemma {:induction false} ResolvesDeclared(schema: Schema, rank: Rank)
    requires rank in schema && forall i, j :: 0 <= i < j < |schema| ==> schema[i].key != schema[j].key
    ensures Resolve(schema, rank.key) == Some(rank)
  {
    if schema[0] != rank {
      assert rank in schema[1..];
      ResolvesDeclared(schema[1..], rank);
    }
  }

  lemma HasIsListed(schema: Schema, s: Roster, a: AccountId, permission: Permission)
    requires SchemaLoaded(schema)
    ensures a in s.members && Has(schema, s.members[a].rank, permission) <==> RankLists(schema, s, a, permission)
  {
    if RankLists(schema, s, a, permission) {
      var rank :| rank in schema && rank.key == s.members[a].rank && permission in rank.permissions;
      ResolvesDeclared(schema, rank);
    }
  }

  // Another account's membership goes while its guild lives on only by a kick of somebody not
  // a founder, by a member of the guild whose rank lists it; and whoever may kick, can.
  lemma KickedExactlyWhen(schema: Schema, s: Roster, op: Op, x: AccountId)
    requires SchemaLoaded(schema) && Sound(schema, s) && x in s.members
    ensures var s', g := Step(schema, s, op), s.members[x].guild;
            x != op.actor && x !in s'.members && g in s'.guilds
            <==> op.KickOut? && op.target == x && x != op.actor && RankLists(schema, s, op.actor, Kick)
                 && s.members[op.actor].guild == g && s.members[x].rank != schema[0].key
    ensures op.KickOut? && op.target == x && x !in Step(schema, s, op).members ==>
              Step(schema, s, op) == s.(members := s.members - {x})
  {
    hide Resolve, Blank, RankLists, Has;
    HasIsListed(schema, s, op.actor, Kick);
  }

  // An account comes into a guild that was there only by accepting an invitation of a member
  // whose rank lists it, at the last rank; and whoever may invite, can.
  lemma InvitedExactlyWhen(schema: Schema, s: Roster, op: Op, x: AccountId)
    requires SchemaLoaded(schema) && Sound(schema, s) && x !in s.members
    ensures var s' := Step(schema, s, op);
            x in s'.members && s'.members[x].guild in s.guilds
            <==> op.AcceptInvite? && op.invitee == x && x != op.actor && RankLists(schema, s, op.actor, Invite)
    ensures op.AcceptInvite? && op.invitee == x && x in Step(schema, s, op).members ==>
              Step(schema, s, op)
              == s.(members := s.members[x := Membership(s.members[op.actor].guild, schema[|schema| - 1].key)])
  {
    hide Resolve, Blank, RankLists, Has;
    HasIsListed(schema, s, op.actor, Invite);
  }

  predicate Declared(schema: Schema, key: string) {
    exists rank :: rank in schema && rank.key == key
  }

  // A rank changes only by a promotion or a demotion to a declared rank, by a member of the
  // guild whose rank lists the one or the other, and who is a founder if a founder is made or
  // moved; and whoever may, can.
  lemma RankChangesExactlyWhen(schema: Schema, s: Roster, op: Op, x: AccountId)
    requires SchemaLoaded(schema) && Sound(schema, s) && x in s.members
    ensures var s' := Step(schema, s, op);
            x in s'.members && s'.members[x] != s.members[x]
            <==> op.ChangeRank? && op.target == x && op.rank != s.members[x].rank && Declared(schema, op.rank)
                 && RankLists(schema, s, op.actor, if op.up then Promote else Demote)
                 && s.members[op.actor].guild == s.members[x].guild
                 && (op.rank == schema[0].key || s.members[x].rank == schema[0].key ==>
                       s.members[op.actor].rank == schema[0].key)
    ensures op.ChangeRank? && op.target == x && x in Step(schema, s, op).members ==>
              Step(schema, s, op) == s
              || Step(schema, s, op) == s.(members := s.members[x := Membership(s.members[x].guild, op.rank)])
  {
    hide Resolve, Blank, RankLists, Has;
    if op.ChangeRank? {
      HasIsListed(schema, s, op.actor, if op.up then Promote else Demote);
      assert Resolve(schema, op.rank).Some? <==> Declared(schema, op.rank);
    }
  }

  // A guild goes only by its founder's word, with every membership: a founder disbands it, or
  // leaves as its only member.
  lemma GoesExactlyWhen(schema: Schema, s: Roster, op: Op, g: GuildId)
    requires SchemaLoaded(schema) && Sound(schema, s) && g in s.guilds
    ensures var s', a := Step(schema, s, op), op.actor;
            g !in s'.guilds
            <==> a in s.members && s.members[a] == Membership(g, schema[0].key)
                 && (op.Disband? || (op.Leave? && forall b :: b in s.members && s.members[b].guild == g ==> b == a))
    ensures var s' := Step(schema, s, op);
            g !in s'.guilds ==>
              && s'.guilds == s.guilds - {g}
              && forall b :: (b in s'.members <==> b in s.members && s.members[b].guild != g)
                             && (b in s'.members ==> s'.members[b] == s.members[b])
  {
    hide Resolve, Blank, Has;
  }

  // A member who is no founder can always leave, alone.
  lemma LeavesFreely(schema: Schema, s: Roster, a: AccountId)
    requires schema != [] && a in s.members && s.members[a].rank != schema[0].key
    ensures Step(schema, s, Leave(a)) == s.(members := s.members - {a})
  {
  }

  // A guild comes to be exactly when an account in none names it, under a new id, and the
  // account is its one member and founder.
  lemma CreatedExactlyWhen(schema: Schema, s: Roster, a: AccountId, id: GuildId, name: string, realm: RealmId)
    requires SchemaLoaded(schema) && id !in s.guilds
    ensures var s' := Step(schema, s, Create(a, id, name, realm));
            if a !in s.members && exists i :: 0 <= i < |name| && !White(name[i])
            then s' == Roster(s.guilds[id := Info(name, realm)], s.members[a := Membership(id, schema[0].key)])
            else s' == s
  {
  }

  // The founders of an existing guild change only by an act of one of them.
  lemma OnlyFoundersMakeFounders(schema: Schema, s: Roster, op: Op, g: GuildId)
    requires SchemaLoaded(schema) && Sound(schema, s) && g in s.guilds
    requires Founders(schema, Step(schema, s, op), g) != Founders(schema, s, g)
    ensures op.actor in Founders(schema, s, g)
  {
    hide Founders, Blank, Resolve;
    FirstAndLastResolve(schema);
    var s' := Step(schema, s, op);
    if op.actor !in Founders(schema, s, g) {
      forall a ensures a in Founders(schema, s', g) <==> a in Founders(schema, s, g) {
        if op.AcceptInvite? && Allowed(schema, s, op) && |schema| == 1 {
          OnlyRank(schema, s.members[op.actor].rank);
        }
      }
    }
  }

  lemma OnlyRank(schema: Schema, key: string)
    requires |schema| == 1 && Resolve(schema, key).Some?
    ensures key == FounderKey(schema)
  {
  }

  // A guild loses its last founder and lives on exactly when its sole founder moves their own
  // rank to another; whatever else ends a guild takes every membership with it.
  lemma LosesLastFounderExactlyWhen(schema: Schema, s: Roster, op: Op, g: GuildId)
    requires SchemaLoaded(schema) && Sound(schema, s) && g in s.guilds && Founders(schema, s, g) != {}
    ensures var s' := Step(schema, s, op);
            && (g in s'.guilds && Founders(schema, s', g) == {} <==> StepsDown(schema, s, op, g))
            && (g !in s'.guilds ==> forall a :: a in s'.members ==> s'.members[a].guild != g)
  {
    hide Founders, Blank, Resolve;
    FirstAndLastResolve(schema);
    var s' := Step(schema, s, op);
    var founders := Founders(schema, s, g);
    var f := AnyOf(founders);
    if StepsDown(schema, s, op, g) {
      forall a ensures a !in Founders(schema, s', g) {
        assert a in Founders(schema, s, g) <==> a == op.actor;
      }
    } else if op.ChangeRank? && g in s'.guilds {
      if f == op.target && Founders(schema, s, g) == {f} && Allowed(schema, s, op) {
        assert op.actor in Founders(schema, s, g);
        assert f in Founders(schema, s', g);
      } else if f == op.target && Founders(schema, s, g) != {f} {
        var f' := Another(founders, f);
        assert f' in Founders(schema, s', g);
      } else {
        assert f in Founders(schema, s', g);
      }
    } else if g in s'.guilds {
      assert f in Founders(schema, s', g);
    }
  }

  lemma AnyOf(founders: set<AccountId>) returns (f: AccountId)
    requires founders != {}
    ensures f in founders
  {
    assert (forall x :: x !in founders) ==> founders == {};
    f :| f in founders;
  }

  lemma Another(founders: set<AccountId>, f: AccountId) returns (f': AccountId)
    requires f in founders && founders != {f}
    ensures f' in founders && f' != f
  {
    assert (forall x :: x in founders ==> x == f) ==> founders == {f};
    f' :| f' in founders && f' != f;
  }

  predicate StepsDown(schema: Schema, s: Roster, op: Op, g: GuildId)
    requires schema != []
  {
    && op.ChangeRank? && Allowed(schema, s, op)
    && Founders(schema, s, g) == {op.actor} && op.target == op.actor && op.rank != FounderKey(schema)
  }

  ghost predicate EveryGuildFounded(schema: Schema, s: Roster)
    requires schema != []
  {
    forall g :: g in s.guilds ==> Founders(schema, s, g) != {}
  }

  function Run(schema: Schema, s: Roster, ops: seq<Op>): Roster
    requires schema != []
  {
    if ops == [] then s else Step(schema, Run(schema, s, ops[..|ops| - 1]), ops[|ops| - 1])
  }

  ghost predicate NobodyStepsDown(schema: Schema, s: Roster, ops: seq<Op>)
    requires schema != []
  {
    forall i, g :: 0 <= i < |ops| ==> !StepsDown(schema, Run(schema, s, ops[..i]), ops[i], g)
  }

  // In every run without such a step, every guild keeps a founder.
  lemma {:induction false} GuildsStayFounded(schema: Schema, s: Roster, ops: seq<Op>)
    requires SchemaLoaded(schema) && Sound(schema, s) && EveryGuildFounded(schema, s)
    requires NobodyStepsDown(schema, s, ops)
    ensures Sound(schema, Run(schema, s, ops)) && EveryGuildFounded(schema, Run(schema, s, ops))
  {
    hide Step, Sound, StepsDown, Founders;
    if ops != [] {
      var n := |ops| - 1;
      var before := Run(schema, s, ops[..n]);
      forall i, g | 0 <= i < n ensures !StepsDown(schema, Run(schema, s, ops[..n][..i]), ops[..n][i], g) {
        assert ops[..n][..i] == ops[..i];
      }
      GuildsStayFounded(schema, s, ops[..n]);
      StepKeepsSound(schema, before, ops[n]);
      forall g | g in Step(schema, before, ops[n]).guilds
        ensures Founders(schema, Step(schema, before, ops[n]), g) != {}
      {
        assert !StepsDown(schema, before, ops[n], g);
        if g in before.guilds {
          LosesLastFounderExactlyWhen(schema, before, ops[n], g);
        } else {
          NewGuildIsFounded(schema, before, ops[n], g);
        }
      }
    }
  }

  lemma NewGuildIsFounded(schema: Schema, s: Roster, op: Op, g: GuildId)
    requires SchemaLoaded(schema) && g !in s.guilds && g in Step(schema, s, op).guilds
    ensures op.actor in Founders(schema, Step(schema, s, op), g)
  {
  }

  // A guild that has lost its last founder never gets one again and can never be dissolved.
  lemma {:induction false} FounderlessForever(schema: Schema, s: Roster, ops: seq<Op>, g: GuildId)
    requires SchemaLoaded(schema) && Sound(schema, s) && g in s.guilds && Founders(schema, s, g) == {}
    ensures Sound(schema, Run(schema, s, ops))
    ensures g in Run(schema, s, ops).guilds && Founders(schema, Run(schema, s, ops), g) == {}
  {
    hide Step, Sound, Founders;
    if ops != [] {
      var n := |ops| - 1;
      var before := Run(schema, s, ops[..n]);
      FounderlessForever(schema, s, ops[..n], g);
      StepKeepsSound(schema, before, ops[n]);
      if Founders(schema, Step(schema, before, ops[n]), g) != {} {
        OnlyFoundersMakeFounders(schema, before, ops[n], g);
      }
      if g !in Step(schema, before, ops[n]).guilds {
        DissolvedByFounder(schema, before, ops[n], g);
      }
    }
  }

  lemma DissolvedByFounder(schema: Schema, s: Roster, op: Op, g: GuildId)
    requires schema != [] && g in s.guilds && g !in Step(schema, s, op).guilds
    ensures op.actor in Founders(schema, s, g)
  {
  }

  // The founder's rank may move members, and there is another rank to move them to.
  predicate FounderCanStepDown(schema: Schema)
    requires schema != []
  {
    |schema| >= 2 && (Has(schema, FounderKey(schema), Promote) || Has(schema, FounderKey(schema), Demote))
  }

  // Whether a guild can ever lose its last founder and live on is decided by the schema: it
  // can exactly when its founder's rank may promote or demote and is not the only one.
  lemma FounderlessReachableExactlyWhen(schema: Schema)
    requires SchemaLoaded(schema)
    ensures FounderCanStepDown(schema)
       <==> exists ops, g :: FounderlessAfter(schema, ops, g)
  {
    var empty := Roster(map[], map[]);
    if FounderCanStepDown(schema) {
      var ops := CreateAndStepDown(schema, 1, 1);
      assert FounderlessAfter(schema, ops, 1);
    } else {
      forall ops, g ensures !FounderlessAfter(schema, ops, g) {
        forall i, h | 0 <= i < |ops| ensures !StepsDown(schema, Run(schema, empty, ops[..i]), ops[i], h) {
          NobodyCanStepDown(schema, Run(schema, empty, ops[..i]), ops[i], h);
        }
        EmptyFounded(schema);
        GuildsStayFounded(schema, empty, ops);
      }
    }
  }

  predicate FounderlessAfter(schema: Schema, ops: seq<Op>, g: GuildId)
    requires schema != []
  {
    var s := Run(schema, Roster(map[], map[]), ops);
    g in s.guilds && Founders(schema, s, g) == {}
  }

  lemma NobodyCanStepDown(schema: Schema, s: Roster, op: Op, g: GuildId)
    requires SchemaLoaded(schema) && !FounderCanStepDown(schema)
    ensures !StepsDown(schema, s, op, g)
  {
    if op.ChangeRank? && |schema| == 1 && Resolve(schema, op.rank).Some? {
      OnlyRank(schema, op.rank);
    }
    assert op.actor in {op.actor};
  }

  lemma EmptyFounded(schema: Schema)
    requires schema != []
    ensures Sound(schema, Roster(map[], map[])) && EveryGuildFounded(schema, Roster(map[], map[]))
  {
  }

  // From nothing: an account creates a guild and moves itself to the lowest rank.
  lemma CreateAndStepDown(schema: Schema, a: AccountId, g: GuildId) returns (ops: seq<Op>)
    requires SchemaLoaded(schema) && FounderCanStepDown(schema)
    ensures FounderlessAfter(schema, ops, g)
  {
    hide Has, Resolve;
    var empty := Roster(map[], map[]);
    var up := Has(schema, FounderKey(schema), Promote);
    var create, move := Create(a, g, "x", 1), ChangeRank(a, a, DefaultKey(schema), up);
    ops := [create, move];
    FirstAndLastResolve(schema);
    assert "x"[0] == 'x' && !White('x');
    assert ops[..1] == [create] && ops[..1][..0] == [];
    var one := Step(schema, empty, create);
    assert Run(schema, empty, ops[..1]) == one;
    assert one.members == map[a := Membership(g, FounderKey(schema))];
    assert Allowed(schema, one, move);
    var two := Step(schema, one, move);
    assert two.members == map[a := Membership(g, DefaultKey(schema))];
  }
}
