/** The declared stats of `stats.schema.yaml` after parsing: which keys exist, their
    defaults and bounds, and the two ways a write treats an out-of-range value. */
module AttributeSchema {
  import opened Prelude

  datatype StatDeclaration = StatDeclaration(key: string, default: i64, min: Option<i64>, max: Option<i64>)

  type Schema = seq<StatDeclaration>

  // The first declaration of a key wins.
  function Declaration(schema: Schema, key: string): (d: Option<StatDeclaration>)
    ensures d.Some? ==> d.value in schema && d.value.key == key
    ensures d.None? ==> forall s :: s in schema ==> s.key != key
  {
    if schema == [] then None
    else if schema[0].key == key then Some(schema[0])
    else Declaration(schema[1..], key)
  }

  predicate Declares(schema: Schema, key: string) {
    Declaration(schema, key).Some?
  }

  predicate InBounds(d: StatDeclaration, value: int) {
    && (d.min.Some? ==> d.min.value <= value)
    && (d.max.Some? ==> value <= d.max.value)
  }

  // `validate_write`: the key is declared and the value lies in its bounds.
  predicate WriteAccepted(schema: Schema, key: string, value: int) {
    var d := Declaration(schema, key);
    d.Some? && InBounds(d.value, value)
  }

  // The bounds of a declaration leave some value to choose.
  predicate BoundsConsistent(d: StatDeclaration) {
    d.min.Some? && d.max.Some? ==> d.min.value <= d.max.value
  }

  // Of every declaration that is not hidden behind an earlier one of its key.
  predicate SchemaConsistent(schema: Schema) {
    forall d :: d in schema && Declaration(schema, d.key) == Some(d) ==> BoundsConsistent(d)
  }

  function Distance(a: int, b: int): nat {
    if a <= b then b - a else a - b
  }

  // `clamp`: raise to the minimum, then lower to the maximum. The result lies in the
  // declared bounds exactly when some value does (min <= max), and is then the value in
  // bounds nearest to the argument.
  function Clamp(d: StatDeclaration, value: i64): (r: i64)
    ensures InBounds(d, r) <==> BoundsConsistent(d)
    ensures forall w: int :: InBounds(d, w) ==> Distance(value, r) <= Distance(value, w)
  {
    var raised := if d.min.Some? && value < d.min.value then d.min.value else value;
    if d.max.Some? && raised > d.max.value then d.max.value else raised
  }

  // A stored object is one character's stats; `resolve_read` falls back to the default.
  function ResolveRead(schema: Schema, stored: map<string, int>, key: string): (r: Option<int>)
  {
    var d := Declaration(schema, key);
    if d.None? then None
    else if key in stored then Some(stored[key])
    else Some(d.value.default)
  }

  predicate DistinctStats(schema: Schema) {
    forall i, j :: 0 <= i < j < |schema| ==> schema[i].key != schema[j].key
  }

  function LastDeclaration(schema: Schema, key: string): (d: Option<StatDeclaration>)
    ensures d.Some? ==> d.value in schema && d.value.key == key
    ensures d.None? ==> forall s :: s in schema ==> s.key != key
  {
    if schema == [] then None
    else
      var n := |schema| - 1;
      if schema[n].key == key then Some(schema[n]) else LastDeclaration(schema[..n], key)
  }

  // An entry for every declared key, its last declaration deciding the default; undeclared
  // keys are dropped.
  ghost predicate Migrated(schema: Schema, stored: map<string, int>, migrated: map<string, int>) {
    forall k :: var d := LastDeclaration(schema, k);
      && (k in migrated <==> d.Some?)
      && (d.Some? && k in migrated ==> migrated[k] == if k in stored then stored[k] else d.value.default)
  }

  method MigrateStats(schema: Schema, stored: map<string, int>) returns (migrated: map<string, int>)
    ensures Migrated(schema, stored, migrated)
  {
    migrated := map[];
    for n := 0 to |schema|
      invariant Migrated(schema[..n], stored, migrated)
    {
      assert schema[..n + 1][..n] == schema[..n];
      var d := schema[n];
      migrated := migrated[d.key := if d.key in stored then stored[d.key] else d.default];
    }
    assert schema[..|schema|] == schema;
  }

  // Migrating preserves the read of a key exactly when its value was stored, or its first and
  // last declarations agree on the default; keys declared once always do.
  lemma MigrationPreservesReadExactlyWhen(schema: Schema, stored: map<string, int>, migrated: map<string, int>,
          key: string)
    requires Migrated(schema, stored, migrated)
    ensures ResolveRead(schema, migrated, key) == ResolveRead(schema, stored, key)
       <==> key in stored || SameDefault(schema, key)
    ensures DistinctStats(schema) ==> SameDefault(schema, key)
  {
    var first, last := Declaration(schema, key), LastDeclaration(schema, key);
    if first.Some? && DistinctStats(schema) {
      var i :| 0 <= i < |schema| && schema[i] == first.value;
      var j :| 0 <= j < |schema| && schema[j] == last.value;
      assert i == j;
    }
  }

  predicate SameDefault(schema: Schema, key: string) {
    var first, last := Declaration(schema, key), LastDeclaration(schema, key);
    first.Some? && last.Some? ==> first.value.default == last.value.default
  }
}
