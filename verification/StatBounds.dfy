/** Which stats schemas keep every stored stat inside its declared bounds. */
module StatBounds {
  import opened Prelude
  import opened AttributeSchema
  import opened Tables
  import opened Inventory
  import opened Crafting
  import opened Economy
  import opened Conservation

  ghost predicate StatsStayInBounds(w: World) {
    forall states: seq<Db>, ops: seq<Op>, oks ::
      FromNothing(w, states, ops, oks) ==> StatsInBounds(w.schema, states[|ops|].stats)
  }

  // Every stored stat of every reachable table is declared and in its bounds exactly when the
  // schema's bounds are consistent, or no character may hold an item and so none may craft.
  lemma StatsStayInBoundsExactlyWhen(w: World)
    ensures StatsStayInBounds(w) <==> SchemaConsistent(w.schema) || w.config.maxDistinctTypes == 0
  {
    hide StatsInBounds, Step;
    if SchemaConsistent(w.schema) || w.config.maxDistinctTypes == 0 {
      forall states: seq<Db>, ops: seq<Op>, oks | FromNothing(w, states, ops, oks)
        ensures StatsInBounds(w.schema, states[|ops|].stats)
      {
        BoundsReached(w, states, ops, oks);
      }
    } else {
      var d :| d in w.schema && Declaration(w.schema, d.key) == Some(d) && !BoundsConsistent(d);
      var states, ops, oks := CraftOutOfBounds(w, d);
    }
  }

  lemma BoundsReached(w: World, states: seq<Db>, ops: seq<Op>, oks: seq<bool>)
    requires FromNothing(w, states, ops, oks)
    requires SchemaConsistent(w.schema) || w.config.maxDistinctTypes == 0
    ensures StatsInBounds(w.schema, states[|ops|].stats)
  {
    hide StatsInBounds, Step, SchemaConsistent, Checked, Capped;
    ReachableKeepsInv(w, states, ops, oks);
    if Crafts(ops, oks) && w.config.maxDistinctTypes == 0 {
      var i :| 0 <= i < |ops| && ops[i].Craft? && oks[i];
      ReachableKeepsInv(w, states[..i + 1], ops[..i], oks[..i]);
      NoRoomNoCraft(w, states[i], ops[i], states[i + 1]);
    }
  }

  lemma NoRoomNoCraft(w: World, db: Db, op: Op, db': Db)
    requires w.config.maxDistinctTypes == 0 && Capped(w, db.items)
    requires op.Craft? && OpLoaded(op)
    ensures !Step(w, db, op, true, db')
  {
    hide Consumed, Crafted;
    var e := op.recipe.inputs[0];
    assert e in op.recipe.inputs;
    assert |Types(db.items, op.c)| == 0;
    assert e.0 !in Types(db.items, op.c);
  }

  function Whetstone(): Recipe {
    Recipe([("stone", 1)], ("stone", 1), [], [])
  }

  // A character is given a stone and crafts it into itself, which raises the stat by nothing
  // and yet clamps it out of its bounds.
  lemma CraftOutOfBounds(w: World, d: StatDeclaration) returns (states: seq<Db>, ops: seq<Op>, oks: seq<bool>)
    requires w.config.maxDistinctTypes > 0
    requires Declaration(w.schema, d.key) == Some(d) && !BoundsConsistent(d)
    ensures FromNothing(w, states, ops, oks) && !StatsInBounds(w.schema, states[|ops|].stats)
  {
    var recipe := Whetstone().(grants := [StatGrant(d.key, 0, None, None)]);
    var none, c := Db(map[], map[], map[], map[]), 0;
    var held := Db(map[(c, "stone") := Stack(1, None)], map[], map[], map[]);
    var crafted := Crafted(w.schema, held, c, recipe, [true]);
    states, ops, oks := [none, held, crafted], [GrantItem(c, "stone", 1), Craft(c, recipe, [true])], [true, true];
    StoneGranted(w, c);
    StoneCrafted(w, c, d);
  }

  lemma StoneGranted(w: World, c: CharacterId)
    requires w.config.maxDistinctTypes > 0
    ensures Step(w, Db(map[], map[], map[], map[]), GrantItem(c, "stone", 1), true,
                 Db(map[(c, "stone") := Stack(1, None)], map[], map[], map[]))
  {
    assert Types(map[], c) == {};
  }

  lemma StoneCrafted(w: World, c: CharacterId, d: StatDeclaration)
    requires w.config.maxDistinctTypes > 0
    requires Declaration(w.schema, d.key) == Some(d) && !BoundsConsistent(d)
    ensures var held := Db(map[(c, "stone") := Stack(1, None)], map[], map[], map[]);
            var recipe := Whetstone().(grants := [StatGrant(d.key, 0, None, None)]);
            var crafted := Crafted(w.schema, held, c, recipe, [true]);
            && RecipeLoaded(recipe) && CanCraft(w.schema, w.config.maxDistinctTypes, held, c, recipe, [true])
            && (c, d.key) in crafted.stats && !InBounds(d, crafted.stats[(c, d.key)])
  {
    var items: Items := map[(c, "stone") := Stack(1, None)];
    assert ("stone", 1) in [("stone", 1)];
    assert Consumed(items, c, [("stone", 1)]) == map[];
    var grants := [StatGrant(d.key, 0, None, None)];
    assert GrantedStats(w.schema, map[], c, grants, [true], 1)
        == GrantStep(w.schema, GrantedStats(w.schema, map[], c, grants, [true], 0), c, grants[0], true);
  }
}
