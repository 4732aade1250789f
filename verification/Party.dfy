/** Parties: formed by accepting an invite, capped by the type they were founded under, and
    never a party of one. Each method is one transaction. */
module Party {
  import opened Prelude

  type CharacterId = int
  type PartyId = int

  datatype PartyType = PartyType(key: string, maxMembers: Option<nat>)

  type Schema = seq<PartyType>

  datatype Refusal = SelfInvite | AlreadyInParty | NotInParty | UnknownType | PartyFull | ConstraintViolated

  function Resolve(schema: Schema, key: string): (r: Option<PartyType>)
    ensures r.Some? ==> r.value in schema && r.value.key == key
    ensures r.None? <==> forall t :: t in schema ==> t.key != key
  {
    if schema == [] then None
    else if schema[0].key == key then Some(schema[0])
    else Resolve(schema[1..], key)
  }

  // The two tables; deleting a party cascades to its membership rows.
  datatype Tables = Tables(parties: map<PartyId, string>, members: map<CharacterId, PartyId>)

  function MembersIn(t: Tables, p: PartyId): (s: set<CharacterId>)
    ensures forall c :: c in s <==> c in t.members && t.members[c] == p
  {
    set c | c in t.members && t.members[c] == p
  }

  // Everyone else in the character's party.
  function MembersOf(t: Tables, c: CharacterId): set<CharacterId> {
    if c in t.members then MembersIn(t, t.members[c]) - {c} else {}
  }

  function Dissolved(t: Tables, p: PartyId): Tables {
    Tables(t.parties - {p}, map c | c in t.members && t.members[c] != p :: t.members[c])
  }

  predicate Fits(schema: Schema, key: string, size: int) {
    var t := Resolve(schema, key);
    t.Some? && (t.value.maxMembers.Some? ==> size <= t.value.maxMembers.value)
  }

  // The type a new party would be founded under.
  function Requested(schema: Schema, requested: string): string
    requires schema != []
  {
    if requested == "" then schema[0].key else requested
  }

  datatype Op =
    | Accept(inviter: CharacterId, invitee: CharacterId, requested: string, newId: PartyId)
    | Depart(c: CharacterId)

  predicate Allowed(schema: Schema, t: Tables, op: Op)
    requires schema != []
  {
    match op
    case Accept(a, b, requested, newId) =>
      && a != b && b !in t.members
      && (if a in t.members && t.members[a] in t.parties
          then Fits(schema, t.parties[t.members[a]], |MembersIn(t, t.members[a])| + 1)
          else a !in t.members && newId !in t.parties && Fits(schema, Requested(schema, requested), 2))
    case Depart(c) => c in t.members
  }

  function Step(schema: Schema, t: Tables, op: Op): Tables
    requires schema != []
  {
    if !Allowed(schema, t, op) then t
    else
      match op
      case Accept(a, b, requested, newId) =>
        if a in t.members then t.(members := t.members[b := t.members[a]])
        else Tables(t.parties[newId := Requested(schema, requested)], t.members[a := newId][b := newId])
      case Depart(c) =>
        if |MembersOf(t, c)| < 2 then Dissolved(t, t.members[c]) else t.(members := t.members - {c})
  }

  class PartyStore {
    const schema: Schema
    var db: Tables

    constructor (schema: Schema)
      requires schema != []
      ensures this.schema == schema && db == Tables(map[], map[])
    {
      this.schema, db := schema, Tables(map[], map[]);
    }

    method Companions(c: CharacterId) returns (r: set<CharacterId>)
      ensures r == MembersOf(db, c)
    {
      r := {};
      if c in db.members {
        r := set d | d in db.members && db.members[d] == db.members[c] && d != c;
      }
    }

    method AcceptInvite(inviter: CharacterId, invitee: CharacterId, requested: string, newId: PartyId)
      returns (r: Result<PartyId, Refusal>)
      requires schema != []
      modifies this
      ensures var op := Accept(inviter, invitee, requested, newId);
              (r.Ok? <==> Allowed(schema, old(db), op)) && db == Step(schema, old(db), op)
      ensures r.Ok? ==> r.value in db.parties && db.members[inviter] == db.members[invitee] == r.value
      ensures r == Err(SelfInvite) <==> inviter == invitee
      ensures r == Err(AlreadyInParty) <==> inviter != invitee && invitee in old(db.members)
    {
      if inviter == invitee {
        return Err(SelfInvite);
      }
      var tx := db;
      if invitee in tx.members {
        return Err(AlreadyInParty);
      }
      var party, key, size;
      if inviter in tx.members && tx.members[inviter] in tx.parties {
        party := tx.members[inviter];
        key, size := tx.parties[party], |MembersIn(tx, party)|;
      } else {
        var founded := if requested == "" then Some(schema[0]) else Resolve(schema, requested);
        if founded.None? {
          return Err(UnknownType);
        }
        if newId in tx.parties || inviter in tx.members {
          return Err(ConstraintViolated);
        }
        tx := Tables(tx.parties[newId := founded.value.key], tx.members[inviter := newId]);
        party, key, size := newId, founded.value.key, 1;
      }
      var partyType := Resolve(schema, key);
      if partyType.None? {
        return Err(UnknownType);
      }
      if partyType.value.maxMembers.Some? && size >= partyType.value.maxMembers.value {
        return Err(PartyFull);
      }
      tx := tx.(members := tx.members[invitee := party]);
      db := tx;
      r := Ok(party);
    }

    method Leave(c: CharacterId) returns (r: Result<(), Refusal>)
      requires schema != []
      modifies this
      ensures (r.Ok? <==> Allowed(schema, old(db), Depart(c))) && db == Step(schema, old(db), Depart(c))
      ensures r.Err? ==> r.error == NotInParty
    {
      var tx := db;
      if c !in tx.members {
        return Err(NotInParty);
      }
      var party := tx.members[c];
      tx := tx.(members := tx.members - {c});
      var remaining := |MembersIn(tx, party)|;
      assert MembersIn(tx, party) == MembersOf(db, c);
      if remaining < 2 {
        tx := Dissolved(tx, party);
        assert tx == Dissolved(db, party);
      }
      db := tx;
      r := Ok(());
    }
  }

  // At least two members in every party, and no more than its type allows.
  ghost predicate Sound(schema: Schema, t: Tables) {
    && (forall c :: c in t.members ==> t.members[c] in t.parties)
    && (forall p :: p in t.parties ==> |MembersIn(t, p)| >= 2 && Fits(schema, t.parties[p], |MembersIn(t, p)|))
  }

  lemma StepKeepsSound(schema: Schema, t: Tables, op: Op)
    requires schema != [] && Sound(schema, t)
    ensures Sound(schema, Step(schema, t, op))
  {
    hide MembersIn, Fits;
    var t' := Step(schema, t, op);
    if Allowed(schema, t, op) {
      forall p | p in t'.parties ensures |MembersIn(t', p)| >= 2 && Fits(schema, t'.parties[p], |MembersIn(t', p)|) {
        match op
        case Accept(a, b, requested, newId) =>
          AcceptedMembers(schema, t, op, p);
        case Depart(c) =>
          DepartedMembers(schema, t, c, p);
      }
    }
  }

  // Who is in a party after an accepted invite: it joins one character, or pairs two.
  lemma JoinedMembers(schema: Schema, t: Tables, op: Op, p: PartyId)
    requires schema != [] && Sound(schema, t) && op.Accept? && Allowed(schema, t, op) && op.inviter in t.members
    ensures MembersIn(Step(schema, t, op), p)
         == MembersIn(t, p) + if p == t.members[op.inviter] then {op.invitee} else {}
  {
    hide MembersIn, Fits;
  }

  lemma PairedMembers(schema: Schema, t: Tables, op: Op, p: PartyId)
    requires schema != [] && Sound(schema, t) && op.Accept? && Allowed(schema, t, op) && op.inviter !in t.members
    ensures MembersIn(Step(schema, t, op), p) == if p == op.newId then {op.inviter, op.invitee} else MembersIn(t, p)
  {
    hide MembersIn, Fits;
    assert forall c :: c in t.members ==> t.members[c] != op.newId;
    if p == op.newId {
      assert MembersIn(Step(schema, t, op), p) == {op.inviter, op.invitee};
    } else {
      assert MembersIn(Step(schema, t, op), p) == MembersIn(t, p);
    }
  }

  lemma AcceptedMembers(schema: Schema, t: Tables, op: Op, p: PartyId)
    requires schema != [] && Sound(schema, t) && op.Accept? && Allowed(schema, t, op)
    requires p in Step(schema, t, op).parties
    ensures var t' := Step(schema, t, op);
            |MembersIn(t', p)| >= 2 && Fits(schema, t'.parties[p], |MembersIn(t', p)|)
  {
    hide MembersIn, Fits;
    if op.inviter in t.members {
      JoinedMembers(schema, t, op, p);
      assert op.invitee !in MembersIn(t, p);
    } else {
      PairedMembers(schema, t, op, p);
    }
  }

  lemma ShrunkFits(schema: Schema, key: string, size: int, smaller: int)
    requires Fits(schema, key, size) && smaller <= size
    ensures Fits(schema, key, smaller)
  {
  }

  lemma DepartedMembers(schema: Schema, t: Tables, c: CharacterId, p: PartyId)
    requires schema != [] && Sound(schema, t) && c in t.members && p in Step(schema, t, Depart(c)).parties
    ensures var t' := Step(schema, t, Depart(c));
            && |MembersIn(t', p)| >= 2 && Fits(schema, t'.parties[p], |MembersIn(t', p)|)
            && MembersIn(t', p) == MembersIn(t, p) - {c}
  {
    hide MembersIn, Fits;
    var t' := Step(schema, t, Depart(c));
    assert MembersIn(t', p) == MembersIn(t, p) - {c};
    if p == t.members[c] {
      ShrunkFits(schema, t.parties[p], |MembersIn(t, p)|, |MembersIn(t, p)| - 1);
    } else {
      assert MembersIn(t, p) - {c} == MembersIn(t, p);
    }
  }

  // A step never changes the type of a party that was there before it.
  lemma TypeIsForLife(schema: Schema, t: Tables, op: Op, p: PartyId)
    requires schema != [] && p in t.parties && p in Step(schema, t, op).parties
    ensures Step(schema, t, op).parties[p] == t.parties[p]
  {
    hide MembersIn, Fits;
  }

  // Leaving keeps the others together if there are two of them, and otherwise frees everyone.
  lemma LeavingKeepsOrFrees(schema: Schema, t: Tables, c: CharacterId)
    requires schema != [] && Sound(schema, t) && c in t.members
    ensures var p, t' := t.members[c], Step(schema, t, Depart(c));
            && c !in t'.members
            && (p in t'.parties <==> |MembersIn(t, p)| >= 3)
            && MembersIn(t', p) == (if |MembersIn(t, p)| >= 3 then MembersIn(t, p) - {c} else {})
            && (forall q :: q != p ==> MembersIn(t', q) == MembersIn(t, q))
  {
    hide MembersIn;
    var p, t' := t.members[c], Step(schema, t, Depart(c));
    assert MembersIn(t', p) == if |MembersIn(t, p)| >= 3 then MembersIn(t, p) - {c} else {};
    forall q | q != p ensures MembersIn(t', q) == MembersIn(t, q) {
    }
  }

  // Companions see one another, and all see the same party.
  lemma CompanionsAgree(t: Tables, c: CharacterId, d: CharacterId)
    ensures c !in MembersOf(t, c)
    ensures d in MembersOf(t, c) <==> c in MembersOf(t, d)
    ensures d in MembersOf(t, c) ==> MembersOf(t, c) + {c} == MembersOf(t, d) + {d}
  {
    hide MembersIn;
    if d in MembersOf(t, c) {
      var whole := MembersIn(t, t.members[c]);
      assert MembersOf(t, c) + {c} == whole == MembersOf(t, d) + {d};
    }
  }

  function Run(schema: Schema, t: Tables, ops: seq<Op>): Tables
    requires schema != []
  {
    if ops == [] then t else Step(schema, Run(schema, t, ops[..|ops| - 1]), ops[|ops| - 1])
  }

  // In every reachable state, and hence nobody in a party is ever alone in it.
  lemma {:induction false} PartiesStaySound(schema: Schema, ops: seq<Op>)
    requires schema != []
    ensures var t := Run(schema, Tables(map[], map[]), ops);
            Sound(schema, t) && forall c :: c in t.members ==> MembersOf(t, c) != {}
  {
    hide Step, Sound, MembersIn;
    var empty := Tables(map[], map[]);
    var t := Run(schema, empty, ops);
    if ops == [] {
      EmptySound(schema);
    } else {
      var n := |ops| - 1;
      PartiesStaySound(schema, ops[..n]);
      StepKeepsSound(schema, Run(schema, empty, ops[..n]), ops[n]);
    }
    forall c | c in t.members ensures MembersOf(t, c) != {} {
      NotAlone(schema, t, c);
    }
  }

  lemma EmptySound(schema: Schema)
    ensures Sound(schema, Tables(map[], map[]))
  {
  }

  // The entry that decides for a type key: the first one that has it.
  predicate FirstEntry(schema: Schema, i: int, key: string) {
    0 <= i < |schema| && schema[i].key == key && forall j :: 0 <= j < i ==> schema[j].key != key
  }

  lemma {:induction false} ResolvesToFirst(schema: Schema, i: nat, key: string)
    requires FirstEntry(schema, i, key)
    ensures Resolve(schema, key) == Some(schema[i])
  {
    if schema[0].key != key {
      ResolvesToFirst(schema[1..], i - 1, key);
    }
  }

  // No reachable party is larger than the number its type's entry names.
  lemma CapIsKept(schema: Schema, ops: seq<Op>, p: PartyId, i: nat)
    requires schema != []
    requires var t := Run(schema, Tables(map[], map[]), ops);
             p in t.parties && FirstEntry(schema, i, t.parties[p]) && schema[i].maxMembers.Some?
    ensures var t := Run(schema, Tables(map[], map[]), ops);
            |set c | c in t.members && t.members[c] == p| <= schema[i].maxMembers.value
  {
    var t := Run(schema, Tables(map[], map[]), ops);
    PartiesStaySound(schema, ops);
    ResolvesToFirst(schema, i, t.parties[p]);
    assert MembersIn(t, p) == set c | c in t.members && t.members[c] == p;
  }

  // A free character joins a member's party exactly while it has fewer members than the
  // number, or its type names none; a refused invite changes nothing.
  lemma JoinsExactlyWhen(schema: Schema, t: Tables, a: CharacterId, b: CharacterId, requested: string, newId: PartyId,
          i: nat)
    requires schema != [] && a in t.members && t.members[a] in t.parties && b !in t.members
    requires FirstEntry(schema, i, t.parties[t.members[a]])
    ensures var t' := Step(schema, t, Accept(a, b, requested, newId));
            var size := |set c | c in t.members && t.members[c] == t.members[a]|;
            if schema[i].maxMembers.None? || size < schema[i].maxMembers.value
            then t' == t.(members := t.members[b := t.members[a]]) else t' == t
  {
    hide MembersIn;
    ResolvesToFirst(schema, i, t.parties[t.members[a]]);
    assert MembersIn(t, t.members[a]) == set c | c in t.members && t.members[c] == t.members[a];
  }

  // Two free characters found a party of the type asked for, of the first declared one if none
  // is, exactly if there is such a type and it takes two.
  lemma FoundsExactlyWhen(schema: Schema, t: Tables, a: CharacterId, b: CharacterId, requested: string, newId: PartyId)
    requires schema != [] && a != b && a !in t.members && b !in t.members && newId !in t.parties
    ensures var t' := Step(schema, t, Accept(a, b, requested, newId));
            var key := if requested == "" then schema[0].key else requested;
            if exists i :: FirstEntry(schema, i, key) && (schema[i].maxMembers.None? || 2 <= schema[i].maxMembers.value)
            then t' == Tables(t.parties[newId := key], t.members[a := newId][b := newId]) else t' == t
  {
    var key := if requested == "" then schema[0].key else requested;
    if Resolve(schema, key).Some? {
      var i := FirstOf(schema, key);
      forall j | FirstEntry(schema, j, key) ensures j == i {
      }
    } else {
      forall i ensures !FirstEntry(schema, i, key) {
        assert 0 <= i < |schema| ==> schema[i] in schema;
      }
    }
  }

  lemma {:induction false} FirstOf(schema: Schema, key: string) returns (i: nat)
    requires Resolve(schema, key).Some?
    ensures FirstEntry(schema, i, key) && Resolve(schema, key) == Some(schema[i])
  {
    if schema[0].key == key {
      i := 0;
    } else {
      var rest := FirstOf(schema[1..], key);
      i := rest + 1;
    }
  }

  // Nobody invites themselves or a member of any party.
  lemma OnlyFreeOthersJoin(schema: Schema, t: Tables, a: CharacterId, b: CharacterId, requested: string, newId: PartyId)
    requires schema != [] && (a == b || b in t.members)
    ensures Step(schema, t, Accept(a, b, requested, newId)) == t
  {
  }

  lemma NotAlone(schema: Schema, t: Tables, c: CharacterId)
    requires Sound(schema, t) && c in t.members
    ensures MembersOf(t, c) != {}
  {
    hide MembersIn;
    assert MembersOf(t, c) == {} ==> MembersIn(t, t.members[c]) == {c};
  }
}
