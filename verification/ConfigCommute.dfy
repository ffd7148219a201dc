/** Exactly when flattening commutes with merging, by the leaves of a table in their order. */
module ConfigCommute {
  import opened Wrappers
  import opened ConfigTree

  // ---------------------------------------------------------------------------------------------
  // Leaves
  // ---------------------------------------------------------------------------------------------

  datatype Leaf = Leaf(name: string, text: string)

  /** The leaves of a table in order, elements of arrays of objects included. */
  function Leaves(table: Table, prefix: string): seq<Leaf>
    decreases table, 0
  {
    match table
    case Empty => []
    case Field(key, value, rest) => LeavesOf(key, value, prefix) + Leaves(rest, prefix)
  }

  function LeavesOf(key: string, value: Value, prefix: string): seq<Leaf>
    decreases value, 1
  {
    match value
    case Scalar(text) => [Leaf(prefix + Upper(key), text)]
    case Plain(items) => [Leaf(prefix + Upper(key), Quoted(items))]
    case Objects(first, others) =>
      Leaves(first, ElementPrefix(prefix, key, 0)) + LeavesOfElements(others, prefix, key, 1)
    case Nested(table) => Leaves(table, prefix + Upper(key) + "_")
  }

  function LeavesOfElements(elements: Tables, prefix: string, key: string, index: nat): seq<Leaf>
    decreases elements, 0
  {
    match elements
    case NoTables => []
    case More(head, tail) =>
      Leaves(head, ElementPrefix(prefix, key, index)) + LeavesOfElements(tail, prefix, key, index + 1)
  }

  /** The text of the last leaf with a name. */
  function LastText(leaves: seq<Leaf>, name: string): Option<string> {
    if leaves == [] then None
    else if leaves[|leaves| - 1].name == name then Some(leaves[|leaves| - 1].text)
    else LastText(leaves[..|leaves| - 1], name)
  }

  function TextIn(table: Table, prefix: string, name: string): Option<string> {
    LastText(Leaves(table, prefix), name)
  }

  function Lookup(variables: Variables, name: string): Option<string> {
    if name in variables then Some(variables[name]) else None
  }

  lemma {:induction false} LastTextOfBoth(a: seq<Leaf>, b: seq<Leaf>, name: string)
    ensures LastText(a + b, name) == OrElse(LastText(b, name), LastText(a, name))
  {
    if b == [] {
      assert a + b == a;
    } else {
      assert (a + b)[..|a + b| - 1] == a + b[..|b| - 1];
      LastTextOfBoth(a, b[..|b| - 1], name);
    }
  }

  /** The first field and the others. */
  lemma TextOfField(key: string, value: Value, rest: Table, prefix: string, name: string)
    ensures TextIn(Field(key, value, rest), prefix, name) ==
      OrElse(TextIn(rest, prefix, name), LastText(LeavesOf(key, value, prefix), name))
  {
    LastTextOfBoth(LeavesOf(key, value, prefix), Leaves(rest, prefix), name);
  }

  /** A variable has the text of the last leaf with its name. */
  lemma {:induction false} FlattenIsLastLeaf(table: Table, prefix: string, name: string)
    ensures Lookup(Flatten(table, prefix), name) == TextIn(table, prefix, name)
    decreases table, 0
  {
    if table.Field? {
      FlattenIsLastLeaf(table.rest, prefix, name);
      FlattenValueIsLastLeaf(table.key, table.value, prefix, name);
      TextOfField(table.key, table.value, table.rest, prefix, name);
    }
  }

  lemma {:induction false} FlattenValueIsLastLeaf(key: string, value: Value, prefix: string, name: string)
    ensures Lookup(FlattenValue(key, value, prefix), name) == LastText(LeavesOf(key, value, prefix), name)
    decreases value, 1
  {
    match value
    case Scalar(_) =>
    case Plain(_) =>
    case Nested(table) => FlattenIsLastLeaf(table, prefix + Upper(key) + "_", name);
    case Objects(first, others) =>
      FlattenIsLastLeaf(first, ElementPrefix(prefix, key, 0), name);
      FlattenElementsIsLastLeaf(others, prefix, key, 1, name);
      LastTextOfBoth(Leaves(first, ElementPrefix(prefix, key, 0)), LeavesOfElements(others, prefix, key, 1), name);
  }

  lemma {:induction false} FlattenElementsIsLastLeaf(elements: Tables, prefix: string, key: string, index: nat, name: string)
    ensures Lookup(FlattenElements(elements, prefix, key, index), name) ==
      LastText(LeavesOfElements(elements, prefix, key, index), name)
    decreases elements, 0
  {
    if elements.More? {
      FlattenIsLastLeaf(elements.head, ElementPrefix(prefix, key, index), name);
      FlattenElementsIsLastLeaf(elements.tail, prefix, key, index + 1, name);
      LastTextOfBoth(Leaves(elements.head, ElementPrefix(prefix, key, index)),
                     LeavesOfElements(elements.tail, prefix, key, index + 1), name);
    }
  }

  // ---------------------------------------------------------------------------------------------
  // What stands of a lower layer
  // ---------------------------------------------------------------------------------------------

  /** No table has a key twice. */
  predicate KeysOnce(table: Table) {
    match table
    case Empty => true
    case Field(key, value, rest) =>
      Get(rest, key).None? && (value.Nested? ==> KeysOnce(value.table)) && KeysOnce(rest)
  }

  /** The lower layer without the values that the upper one replaces. */
  function Standing(below: Table, above: Table): Table
    decreases below
  {
    match below
    case Empty => Empty
    case Field(key, value, rest) =>
      var later := Get(above, key);
      if later.None? then Field(key, value, Standing(rest, above))
      else if value.Nested? && later.value.Nested? then
        Field(key, Nested(Standing(value.table, later.value.table)), Standing(rest, above))
      else Standing(rest, above)
  }

  lemma {:induction false} GetIsOnce(table: Table, key: string)
    requires KeysOnce(table) && Get(table, key).Some? && Get(table, key).value.Nested?
    ensures KeysOnce(Get(table, key).value.table)
  {
    if table.key != key {
      GetIsOnce(table.rest, key);
    }
  }

  lemma {:induction false} PutIsOnce(table: Table, key: string, value: Value)
    requires KeysOnce(table) && (value.Nested? ==> KeysOnce(value.table))
    ensures KeysOnce(Put(table, key, value))
  {
    if table.Field? && table.key != key {
      PutIsOnce(table.rest, key, value);
      GetPut(table.rest, key, value, table.key);
    }
  }

  lemma {:induction false} ExtendIsOnce(target: Table, source: Table)
    requires KeysOnce(target) && KeysOnce(source)
    ensures KeysOnce(Extend(target, source))
    decreases source
  {
    if source.Field? {
      var current := Get(target, source.key);
      CombineIsOnce(target, source.key, source.value);
      PutIsOnce(target, source.key, Combine(current, source.value));
      ExtendIsOnce(Put(target, source.key, Combine(current, source.value)), source.rest);
    }
  }

  lemma {:induction false} CombineIsOnce(target: Table, key: string, value: Value)
    requires KeysOnce(target) && (value.Nested? ==> KeysOnce(value.table))
    ensures
      var combined := Combine(Get(target, key), value);
      combined.Nested? ==> KeysOnce(combined.table)
    decreases value
  {
    if value.Nested? {
      var current := Get(target, key);
      if current.Some? && current.value.Nested? {
        GetIsOnce(target, key);
        ExtendIsOnce(current.value.table, value.table);
      } else {
        ExtendIsOnce(Empty, value.table);
      }
    }
  }

  lemma {:induction false} StandingWithoutKey(below: Table, key: string, value: Value, rest: Table)
    requires Get(below, key).None?
    ensures Standing(below, Field(key, value, rest)) == Standing(below, rest)
  {
    if below.Field? {
      StandingWithoutKey(below.rest, key, value, rest);
    }
  }

  /** What the upper layer's value leaves of the lower one's, for a name it does not set. */
  predicate LeavesStanding(below: Table, key: string, value: Value, prefix: string, name: string) {
    var current := Get(below, key);
    var text := LastText(LeavesOf(key, Combine(current, value), prefix), name);
    if current.Some? && current.value.Nested? && value.Nested? then
      text == LastText(LeavesOf(key, Nested(Standing(current.value.table, value.table)), prefix), name)
    else text == None
  }

  lemma {:induction false} PutStands(below: Table, key: string, v: Value, value: Value, rest: Table,
                                     prefix: string, name: string)
    requires KeysOnce(below) && Get(rest, key).None? && LeavesStanding(below, key, value, prefix, name)
    requires v == Combine(Get(below, key), value)
    ensures TextIn(Standing(Put(below, key, v), rest), prefix, name) ==
      TextIn(Standing(below, Field(key, value, rest)), prefix, name)
    decreases below
  {
    match below
    case Empty =>
      TextOfField(key, v, Empty, prefix, name);
    case Field(k, w, others) =>
      if k == key {
        StandingWithoutKey(others, key, value, rest);
        TextOfField(key, v, Standing(others, rest), prefix, name);
        if w.Nested? && value.Nested? {
          TextOfField(key, Nested(Standing(w.table, value.table)), Standing(others, rest), prefix, name);
        }
      } else {
        PutStands(others, key, v, value, rest, prefix, name);
        SameFirstField(below, Put(others, key, v), others, rest, Field(key, value, rest), prefix, name);
      }
  }

  /** Two ways to go on after a first field that both upper layers treat alike. */
  lemma SameFirstField(below: Table, rest1: Table, rest2: Table, above1: Table, above2: Table, prefix: string, name: string)
    requires below.Field? && Get(above1, below.key) == Get(above2, below.key)
    requires TextIn(Standing(rest1, above1), prefix, name) == TextIn(Standing(rest2, above2), prefix, name)
    ensures TextIn(Standing(Field(below.key, below.value, rest1), above1), prefix, name) ==
      TextIn(Standing(Field(below.key, below.value, rest2), above2), prefix, name)
  {
    var key, value, later := below.key, below.value, Get(above1, below.key);
    if later.None? {
      TextOfField(key, value, Standing(rest1, above1), prefix, name);
      TextOfField(key, value, Standing(rest2, above2), prefix, name);
    } else if value.Nested? && later.value.Nested? {
      var inner := Nested(Standing(value.table, later.value.table));
      TextOfField(key, inner, Standing(rest1, above1), prefix, name);
      TextOfField(key, inner, Standing(rest2, above2), prefix, name);
    }
  }

  /** In a merge, a name that the upper layer does not set has the last leaf that stands of the
      lower one. */
  lemma {:induction false} OtherNamesStand(below: Table, above: Table, prefix: string, name: string)
    requires KeysOnce(below) && KeysOnce(above) && TextIn(above, prefix, name).None?
    ensures TextIn(Extend(below, above), prefix, name) == TextIn(Standing(below, above), prefix, name)
    decreases above
  {
    match above
    case Empty => StandingAlone(below);
    case Field(key, value, rest) =>
      TextOfField(key, value, rest, prefix, name);
      ValueStands(below, key, value, prefix, name);
      var v := Combine(Get(below, key), value);
      CombineIsOnce(below, key, value);
      PutIsOnce(below, key, v);
      OtherNamesStand(Put(below, key, v), rest, prefix, name);
      PutStands(below, key, v, value, rest, prefix, name);
  }

  lemma {:induction false} ValueStands(below: Table, key: string, value: Value, prefix: string, name: string)
    requires KeysOnce(below) && (value.Nested? ==> KeysOnce(value.table))
    requires LastText(LeavesOf(key, value, prefix), name).None?
    ensures LeavesStanding(below, key, value, prefix, name)
    decreases value
  {
    if value.Nested? {
      var current := Get(below, key);
      var nested := prefix + Upper(key) + "_";
      if current.Some? && current.value.Nested? {
        GetIsOnce(below, key);
        OtherNamesStand(current.value.table, value.table, nested, name);
      } else {
        OtherNamesStand(Empty, value.table, nested, name);
      }
    }
  }

  lemma {:induction false} StandingAlone(below: Table)
    ensures Standing(below, Empty) == below
  {
    if below.Field? {
      StandingAlone(below.rest);
    }
  }

  // ---------------------------------------------------------------------------------------------
  // Two layers
  // ---------------------------------------------------------------------------------------------

  predicate Commutes(below: Table, above: Table) {
    Flatten(Extend(below, above), "") == Flatten(below, "") + Flatten(above, "")
  }

  /** For every name of the upper layer, the last leaf of the merge with that name has the text of
      the upper layer's last leaf with that name. */
  ghost predicate UpperLeavesWin(below: Table, above: Table) {
    forall name :: TextIn(above, "", name).Some? ==> TextIn(Extend(below, above), "", name) == TextIn(above, "", name)
  }

  /** What the upper layer replaces in the lower one shows in no variable but its own. */
  ghost predicate ReplacedLeavesAreHidden(below: Table, above: Table) {
    forall name :: TextIn(above, "", name).None? ==> TextIn(Standing(below, above), "", name) == TextIn(below, "", name)
  }

  lemma SameLookups(v1: Variables, v2: Variables)
    requires forall name :: Lookup(v1, name) == Lookup(v2, name)
    ensures v1 == v2
  {
    forall name ensures name in v1 <==> name in v2 {
      assert Lookup(v1, name) == Lookup(v2, name);
    }
    forall name | name in v1 ensures v1[name] == v2[name] {
      assert Lookup(v1, name) == Lookup(v2, name);
    }
  }

  lemma UnionText(below: Table, above: Table, name: string)
    ensures Lookup(Flatten(below, "") + Flatten(above, ""), name) ==
      OrElse(TextIn(above, "", name), TextIn(below, "", name))
    ensures Lookup(Flatten(Extend(below, above), ""), name) == TextIn(Extend(below, above), "", name)
  {
    FlattenIsLastLeaf(below, "", name);
    FlattenIsLastLeaf(above, "", name);
    FlattenIsLastLeaf(Extend(below, above), "", name);
  }

  /** For any two layers, arrays of objects and disagreements about tables included. */
  lemma ExtendCommutesExactlyWhen(below: Table, above: Table)
    requires KeysOnce(below) && KeysOnce(above)
    ensures Commutes(below, above) <==> UpperLeavesWin(below, above) && ReplacedLeavesAreHidden(below, above)
  {
    forall name ensures
      Lookup(Flatten(Extend(below, above), ""), name) == Lookup(Flatten(below, "") + Flatten(above, ""), name) <==>
      if TextIn(above, "", name).Some? then TextIn(Extend(below, above), "", name) == TextIn(above, "", name)
      else TextIn(Standing(below, above), "", name) == TextIn(below, "", name)
    {
      UnionText(below, above, name);
      if TextIn(above, "", name).None? {
        OtherNamesStand(below, above, "", name);
      }
    }
    if UpperLeavesWin(below, above) && ReplacedLeavesAreHidden(below, above) {
      SameLookups(Flatten(Extend(below, above), ""), Flatten(below, "") + Flatten(above, ""));
    }
  }

  lemma {:induction false} ConformsIsOnce(table: Table, schema: Schema, path: Path)
    requires Conforms(table, schema, path)
    ensures KeysOnce(table)
    decreases table
  {
    if table.Field? {
      ConformsIsOnce(table.rest, schema, path);
      if table.value.Nested? {
        ConformsIsOnce(table.value.table, schema, path + [table.key]);
      }
    }
  }

  lemma {:induction false} ValueHasNoOther(table: Table, key: string, prefix: string, name: string)
    requires Get(table, key).Some? && TextIn(table, prefix, name).None?
    ensures LastText(LeavesOf(key, Get(table, key).value, prefix), name).None?
  {
    TextOfField(table.key, table.value, table.rest, prefix, name);
    if table.key != key {
      ValueHasNoOther(table.rest, key, prefix, name);
    }
  }

  /** Layers that agree on which paths are tables replace leaves only by leaves of the same name. */
  lemma {:induction false} ConformingLayersStand(below: Table, above: Table, schema: Schema, path: Path,
                                                 prefix: string, name: string)
    requires Conforms(below, schema, path) && Conforms(above, schema, path) && TextIn(above, prefix, name).None?
    ensures TextIn(Standing(below, above), prefix, name) == TextIn(below, prefix, name)
    decreases below
  {
    if below.Field? {
      var Field(key, value, rest) := below;
      ConformingLayersStand(rest, above, schema, path, prefix, name);
      TextOfField(key, value, rest, prefix, name);
      var later := Get(above, key);
      if later.None? {
        TextOfField(key, value, Standing(rest, above), prefix, name);
      } else {
        ConformsAt(above, schema, path, key);
        ValueHasNoOther(above, key, prefix, name);
        if value.Nested? {
          var nested := prefix + Upper(key) + "_";
          ConformingLayersStand(value.table, later.value.table, schema, path + [key], nested, name);
          TextOfField(key, Nested(Standing(value.table, later.value.table)), Standing(rest, above), prefix, name);
        }
      }
    }
  }

  /** For layers that agree on which paths are tables only names that collide can be in the way. */
  lemma ConformingExtendCommutesExactlyWhen(below: Table, above: Table, schema: Schema)
    requires Conforms(below, schema, []) && Conforms(above, schema, [])
    ensures Commutes(below, above) <==> UpperLeavesWin(below, above)
  {
    ConformsIsOnce(below, schema, []);
    ConformsIsOnce(above, schema, []);
    ExtendCommutesExactlyWhen(below, above);
    forall name | TextIn(above, "", name).None?
      ensures TextIn(Standing(below, above), "", name) == TextIn(below, "", name)
    {
      ConformingLayersStand(below, above, schema, [], "", name);
    }
  }

  /** A value that is replaced as a whole, such as an array of objects: it commutes exactly when
      every variable of the old value is one of the new value. */
  lemma ReplacedValueCommutesExactlyWhen(key: string, old': Value, new': Value)
    requires !new'.Nested?
    ensures Commutes(Field(key, old', Empty), Field(key, new', Empty)) <==>
      FlattenValue(key, old', "").Keys <= FlattenValue(key, new', "").Keys
  {
    var below, above := Field(key, old', Empty), Field(key, new', Empty);
    assert Extend(below, above) == above;
    var v, w := FlattenValue(key, old', ""), FlattenValue(key, new', "");
    assert Flatten(Empty, "") == map[];
    assert Flatten(below, "") == v && Flatten(above, "") == w;
    assert (v + w).Keys == v.Keys + w.Keys;
    if v.Keys <= w.Keys {
      assert v + w == w;
    } else {
      assert (v + w).Keys != w.Keys;
    }
  }

  /** A table replaced by a leaf: its variables disappear from the merge, not from the union. */
  lemma DisagreeingTablesDoNotCommute()
    ensures !Commutes(Field("A", Nested(Field("B", Scalar("1"), Empty)), Empty), Field("A", Scalar("2"), Empty))
  {
    var inner := Field("B", Scalar("1"), Empty);
    assert Upper("A") == "A" && Upper("B") == "B";
    assert "" + Upper("A") + "_" == "A_" && "" + Upper("A") == "A" && "A_" + Upper("B") == "A_B";
    FlattenOne("B", "1", "A_");
    assert FlattenValue("A", Nested(inner), "") == map["A_B" := "1"];
    assert FlattenValue("A", Scalar("2"), "") == map["A" := "2"];
    assert "A_B" in FlattenValue("A", Nested(inner), "") && "A_B" !in FlattenValue("A", Scalar("2"), "");
    ReplacedValueCommutesExactlyWhen("A", Nested(inner), Scalar("2"));
  }

  // ---------------------------------------------------------------------------------------------
  // Conditions on the layers alone
  // ---------------------------------------------------------------------------------------------

  lemma {:induction false} PutLeaves(below: Table, key: string, v: Value, value: Value, rest: Table,
                                     prefix: string, leaf: Leaf)
    requires KeysOnce(below) && Get(rest, key).None? && v == Combine(Get(below, key), value)
    requires CombinedLeaves(below, key, value, prefix, leaf)
    ensures leaf in Leaves(Standing(Put(below, key, v), rest), prefix) <==>
      leaf in LeavesOf(key, value, prefix) || leaf in Leaves(Standing(below, Field(key, value, rest)), prefix)
    decreases below
  {
    match below
    case Empty =>
    case Field(k, w, others) =>
      if k == key {
        StandingWithoutKey(others, key, value, rest);
      } else {
        PutLeaves(others, key, v, value, rest, prefix, leaf);
      }
  }

  /** The leaves of a combined value are those of the upper one and what stands of the lower one. */
  predicate CombinedLeaves(below: Table, key: string, value: Value, prefix: string, leaf: Leaf) {
    var current := Get(below, key);
    leaf in LeavesOf(key, Combine(current, value), prefix) <==>
      || leaf in LeavesOf(key, value, prefix)
      || (current.Some? && current.value.Nested? && value.Nested?
          && leaf in LeavesOf(key, Nested(Standing(current.value.table, value.table)), prefix))
  }

  lemma {:induction false} CombineLeaves(below: Table, key: string, value: Value, prefix: string, leaf: Leaf)
    requires KeysOnce(below) && (value.Nested? ==> KeysOnce(value.table))
    ensures CombinedLeaves(below, key, value, prefix, leaf)
    decreases value
  {
    if value.Nested? {
      var current := Get(below, key);
      var nested := prefix + Upper(key) + "_";
      if current.Some? && current.value.Nested? {
        GetIsOnce(below, key);
        MergeLeaves(current.value.table, value.table, nested, leaf);
      } else {
        MergeLeaves(Empty, value.table, nested, leaf);
      }
    }
  }

  /** A merge has exactly the leaves of the upper layer and those that stand of the lower one. */
  lemma {:induction false} MergeLeaves(below: Table, above: Table, prefix: string, leaf: Leaf)
    requires KeysOnce(below) && KeysOnce(above)
    ensures leaf in Leaves(Extend(below, above), prefix) <==>
      leaf in Leaves(above, prefix) || leaf in Leaves(Standing(below, above), prefix)
    decreases above
  {
    match above
    case Empty => StandingAlone(below);
    case Field(key, value, rest) =>
      var v := Combine(Get(below, key), value);
      CombineIsOnce(below, key, value);
      PutIsOnce(below, key, v);
      MergeLeaves(Put(below, key, v), rest, prefix, leaf);
      CombineLeaves(below, key, value, prefix, leaf);
      PutLeaves(below, key, v, value, rest, prefix, leaf);
  }

  lemma {:induction false} LastTextIsLeaf(leaves: seq<Leaf>, name: string)
    ensures LastText(leaves, name).Some? ==> Leaf(name, LastText(leaves, name).value) in leaves
    ensures LastText(leaves, name).None? ==> forall leaf :: leaf in leaves ==> leaf.name != name
  {
    if leaves != [] {
      LastTextIsLeaf(leaves[..|leaves| - 1], name);
      assert leaves == leaves[..|leaves| - 1] + [leaves[|leaves| - 1]];
    }
  }

  /** No two leaves of a table have one name and different texts. */
  predicate NamesAgree(leaves: seq<Leaf>) {
    forall i, j :: 0 <= i < |leaves| && 0 <= j < |leaves| && leaves[i].name == leaves[j].name ==> leaves[i] == leaves[j]
  }

  /** The names of the upper layer are its own: no two of its leaves give one name different texts,
      and what stands of the lower layer gives none of them another text. */
  predicate NamesAreOwn(below: Table, above: Table) {
    && NamesAgree(Leaves(above, ""))
    && (forall p, q :: p in Leaves(Standing(below, above), "") && q in Leaves(above, "") && p.name == q.name ==> p == q)
  }

  lemma OwnNamesWin(below: Table, above: Table, name: string)
    requires KeysOnce(below) && KeysOnce(above) && NamesAreOwn(below, above) && TextIn(above, "", name).Some?
    ensures TextIn(Extend(below, above), "", name) == TextIn(above, "", name)
  {
    var merged := Leaves(Extend(below, above), "");
    LastTextIsLeaf(Leaves(above, ""), name);
    LastTextIsLeaf(merged, name);
    var own := Leaf(name, TextIn(above, "", name).value);
    MergeLeaves(below, above, "", own);
    assert own in merged;
    var last := Leaf(name, LastText(merged, name).value);
    MergeLeaves(below, above, "", last);
    if last in Leaves(above, "") {
      SameNameSameLeaf(Leaves(above, ""), last, own);
    }
  }

  lemma SameNameSameLeaf(leaves: seq<Leaf>, p: Leaf, q: Leaf)
    requires NamesAgree(leaves) && p in leaves && q in leaves && p.name == q.name
    ensures p == q
  {
  }

  /** For layers whose names are their own, read off the layers without merging them: flattening
      commutes with merging exactly when what the upper layer replaces shows in no other
      variable. */
  lemma OwnNamesCommuteExactlyWhen(below: Table, above: Table)
    requires KeysOnce(below) && KeysOnce(above) && NamesAreOwn(below, above)
    ensures Commutes(below, above) <==> ReplacedLeavesAreHidden(below, above)
  {
    ExtendCommutesExactlyWhen(below, above);
    forall name | TextIn(above, "", name).Some?
      ensures TextIn(Extend(below, above), "", name) == TextIn(above, "", name)
    {
      OwnNamesWin(below, above, name);
    }
  }

  // ---------------------------------------------------------------------------------------------
  // Any number of layers
  // ---------------------------------------------------------------------------------------------

  function Append(table: Table, other: Table): Table {
    match table
    case Empty => other
    case Field(key, value, rest) => Field(key, value, Append(rest, other))
  }

  lemma {:induction false} GetAppend(table: Table, other: Table, key: string)
    ensures Get(Append(table, other), key) == OrElse(Get(table, key), Get(other, key))
  {
    if table.Field? {
      GetAppend(table.rest, other, key);
    }
  }

  lemma {:induction false} AppendIsAssociative(a: Table, b: Table, c: Table)
    ensures Append(Append(a, b), c) == Append(a, Append(b, c))
  {
    if a.Field? {
      AppendIsAssociative(a.rest, b, c);
    }
  }

  lemma {:induction false} PutNewKey(table: Table, key: string, value: Value)
    requires Get(table, key).None?
    ensures Put(table, key, value) == Append(table, Field(key, value, Empty))
  {
    if table.Field? {
      PutNewKey(table.rest, key, value);
    }
  }

  ghost predicate SharesNoKey(table: Table, other: Table) {
    forall key :: Get(other, key).Some? ==> Get(table, key).None?
  }

  lemma {:induction false} ExtendByNewKeys(target: Table, source: Table)
    requires KeysOnce(source) && SharesNoKey(target, source)
    ensures Extend(target, source) == Append(target, source)
    decreases source
  {
    match source
    case Empty => AppendNothing(target);
    case Field(key, value, rest) =>
      assert Get(source, key).Some?;
      if value.Nested? {
        ExtendByNewKeys(Empty, value.table);
      }
      assert Combine(None, value) == value;
      PutNewKey(target, key, value);
      var next := Append(target, Field(key, value, Empty));
      forall k | Get(rest, k).Some? ensures Get(next, k).None? {
        GetAppend(target, Field(key, value, Empty), k);
        assert Get(source, k).Some?;
      }
      ExtendByNewKeys(next, rest);
      AppendIsAssociative(target, Field(key, value, Empty), rest);
  }

  lemma {:induction false} AppendNothing(table: Table)
    ensures Append(table, Empty) == table
  {
    if table.Field? {
      AppendNothing(table.rest);
    }
  }

  /** Extending an empty table copies a table, nested tables and the order of keys included. */
  lemma CopyIsTheSame(table: Table)
    requires KeysOnce(table)
    ensures Extend(Empty, table) == table
  {
    ExtendByNewKeys(Empty, table);
  }

  /** The text of a name in the last layer that has it. */
  function TopText(layers: seq<Table>, name: string): Option<string> {
    if layers == [] then None
    else OrElse(TextIn(layers[|layers| - 1], "", name), TopText(layers[..|layers| - 1], name))
  }

  lemma {:induction false} UnionIsTop(layers: seq<Table>, name: string)
    ensures Lookup(UnionAll(layers), name) == TopText(layers, name)
  {
    if layers != [] {
      UnionIsTop(layers[..|layers| - 1], name);
      FlattenIsLastLeaf(layers[|layers| - 1], "", name);
    }
  }

  /** A layer above the first one has the name. */
  predicate IsSetAbove(layers: seq<Table>, name: string) {
    exists i :: 1 <= i < |layers| && TextIn(layers[i], "", name).Some?
  }

  /** A name of the first layer only keeps its text. */
  lemma {:induction false} FirstLayerStands(layers: seq<Table>, schema: Schema, name: string)
    requires layers != [] && AllConform(layers, schema) && !IsSetAbove(layers, name)
    ensures TextIn(MergeAll(layers), "", name) == TextIn(layers[0], "", name) == TopText(layers, name)
  {
    var n := |layers| - 1;
    var init, last := layers[..n], layers[n];
    if n == 0 {
      ConformsIsOnce(last, schema, []);
      ExtendByNewKeys(Empty, last);
      assert TopText(init, name) == None;
    } else {
      assert forall i :: 0 <= i < n ==> init[i] == layers[i];
      FirstLayerStands(init, schema, name);
      MergeAllIsLast(init, schema);
      ConformsIsOnce(MergeAll(init), schema, []);
      ConformsIsOnce(last, schema, []);
      OtherNamesStand(MergeAll(init), last, "", name);
      ConformingLayersStand(MergeAll(init), last, schema, [], "", name);
    }
  }

  /** For any number of layers that agree on which paths are tables, flattening the merge is the
      union of the flattened layers exactly when, for every name that some layer above the first
      one has, the last leaf of the merge with that name has the text of the last leaf with that
      name in the topmost layer that has it. */
  lemma MergeCommutesExactlyWhen(layers: seq<Table>, schema: Schema)
    requires AllConform(layers, schema)
    ensures Flatten(MergeAll(layers), "") == UnionAll(layers) <==>
      forall name :: IsSetAbove(layers, name) ==> TextIn(MergeAll(layers), "", name) == TopText(layers, name)
  {
    forall name ensures Lookup(UnionAll(layers), name) == TopText(layers, name)
      && Lookup(Flatten(MergeAll(layers), ""), name) == TextIn(MergeAll(layers), "", name)
    {
      UnionIsTop(layers, name);
      FlattenIsLastLeaf(MergeAll(layers), "", name);
    }
    if forall name :: IsSetAbove(layers, name) ==> TextIn(MergeAll(layers), "", name) == TopText(layers, name) {
      forall name ensures Lookup(Flatten(MergeAll(layers), ""), name) == Lookup(UnionAll(layers), name) {
        if !IsSetAbove(layers, name) && layers != [] {
          FirstLayerStands(layers, schema, name);
        }
      }
      SameLookups(Flatten(MergeAll(layers), ""), UnionAll(layers));
    }
  }
}
