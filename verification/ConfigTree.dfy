/** Configuration trees: merging layers, and flattening a tree into environment variables. */
module ConfigTree {
  import opened Wrappers
  import opened Decimal
  import opened Strings

  /** A table keeps its keys in the order in which they were inserted. */
  datatype Table = Empty | Field(key: string, value: Value, rest: Table)

  datatype Value =
    | Scalar(text: string)
    | Plain(items: seq<string>)
    | Objects(first: Table, others: Tables)
    | Nested(table: Table)

  datatype Tables = NoTables | More(head: Table, tail: Tables)

  function UpperChar(c: char): char {
    if 'a' <= c <= 'z' then (c as int - 32) as char else c
  }

  function Upper(s: string): string {
    seq(|s|, i requires 0 <= i < |s| => UpperChar(s[i]))
  }

  function Quoted(items: seq<string>): string {
    "\"" + Join(items, ",") + "\""
  }

  type Variables = map<string, string>

  // ---------------------------------------------------------------------------------------------
  // Flattening
  // ---------------------------------------------------------------------------------------------

  /** The variables of a table: a later key wins over an earlier one with the same name. */
  function Flatten(config: Table, prefix: string): Variables
    decreases config, 0
  {
    match config
    case Empty => map[]
    case Field(key, value, rest) => FlattenValue(key, value, prefix) + Flatten(rest, prefix)
  }

  function FlattenValue(key: string, value: Value, prefix: string): Variables
    decreases value, 1
  {
    match value
    case Scalar(text) => map[prefix + Upper(key) := text]
    case Plain(items) => map[prefix + Upper(key) := Quoted(items)]
    case Objects(first, others) =>
      Flatten(first, ElementPrefix(prefix, key, 0)) + FlattenElements(others, prefix, key, 1)
    case Nested(table) => Flatten(table, prefix + Upper(key) + "_")
  }

  function ElementPrefix(prefix: string, key: string, index: nat): string {
    prefix + Upper(key) + "_" + Print(index) + "_"
  }

  function FlattenElements(elements: Tables, prefix: string, key: string, index: nat): Variables
    decreases elements, 0
  {
    match elements
    case NoTables => map[]
    case More(head, tail) =>
      Flatten(head, ElementPrefix(prefix, key, index)) + FlattenElements(tail, prefix, key, index + 1)
  }

  /** Collects the variables in a loop over the keys. */
  method CollectVariables(config: Table, prefix: string) returns (variables: Variables)
    ensures variables == Flatten(config, prefix)
    decreases config, 0
  {
    variables := map[];
    var left := config;
    while left.Field?
      invariant left == config || left < config
      invariant variables + Flatten(left, prefix) == Flatten(config, prefix)
      decreases left
    {
      var key, value := left.key, left.value;
      var nestedEntries: Variables;
      match value {
        case Scalar(text) => nestedEntries := map[prefix + Upper(key) := text];
        case Plain(items) => nestedEntries := map[prefix + Upper(key) := Quoted(items)];
        case Objects(first, others) => nestedEntries := CollectElements(first, others, prefix, key);
        case Nested(table) => nestedEntries := CollectVariables(table, prefix + Upper(key) + "_");
      }
      UnionIsAssociative(variables, nestedEntries, Flatten(left.rest, prefix));
      variables := variables + nestedEntries;
      left := left.rest;
    }
  }

  /** Collects the elements of an array of objects, each under its index. */
  method CollectElements(first: Table, others: Tables, prefix: string, key: string) returns (variables: Variables)
    ensures variables == FlattenValue(key, Objects(first, others), prefix)
    decreases Objects(first, others), 1
  {
    variables := CollectVariables(first, ElementPrefix(prefix, key, 0));
    var elements, i := others, 1;
    while elements.More?
      invariant elements == others || elements < others
      invariant variables + FlattenElements(elements, prefix, key, i) == FlattenValue(key, Objects(first, others), prefix)
      decreases elements
    {
      var nestedEntries := CollectVariables(elements.head, ElementPrefix(prefix, key, i));
      UnionIsAssociative(variables, nestedEntries, FlattenElements(elements.tail, prefix, key, i + 1));
      variables := variables + nestedEntries;
      elements, i := elements.tail, i + 1;
    }
  }

  lemma UnionIsAssociative(a: Variables, b: Variables, c: Variables)
    ensures a + (b + c) == (a + b) + c
  {
  }

  // ---------------------------------------------------------------------------------------------
  // Merging
  // ---------------------------------------------------------------------------------------------

  function Get(table: Table, key: string): Option<Value> {
    match table
    case Empty => None
    case Field(k, value, rest) => if k == key then Some(value) else Get(rest, key)
  }

  /** Sets a key, in its place if it is there and at the end otherwise. */
  function Put(table: Table, key: string, value: Value): Table {
    match table
    case Empty => Field(key, value, Empty)
    case Field(k, old', rest) => if k == key then Field(key, value, rest) else Field(k, old', Put(rest, key, value))
  }

  /** Deep extension of one table by another: tables are merged, anything else is replaced. */
  function Extend(target: Table, source: Table): Table
    decreases source
  {
    match source
    case Empty => target
    case Field(key, value, rest) => Extend(Put(target, key, Combine(Get(target, key), value)), rest)
  }

  function Combine(current: Option<Value>, value: Value): Value
    decreases value
  {
    match value
    case Nested(table) =>
      if current.Some? && current.value.Nested? then Nested(Extend(current.value.table, table))
      else Nested(Extend(Empty, table))
    case _ => value
  }

  /** Later layers extend earlier ones. */
  function MergeAll(layers: seq<Table>): Table {
    if layers == [] then Empty else Extend(MergeAll(layers[..|layers| - 1]), layers[|layers| - 1])
  }

  // ---------------------------------------------------------------------------------------------
  // Paths
  // ---------------------------------------------------------------------------------------------

  type Path = seq<string>

  /** Which paths are tables. */
  type Schema = Path -> bool

  /** No key is given twice, there are no arrays of objects, and exactly the paths that the schema
      says are tables. */
  predicate Conforms(table: Table, schema: Schema, path: Path) {
    match table
    case Empty => true
    case Field(key, value, rest) =>
      && Get(rest, key).None?
      && !value.Objects?
      && (value.Nested? <==> schema(path + [key]))
      && (value.Nested? ==> Conforms(value.table, schema, path + [key]))
      && Conforms(rest, schema, path)
  }

  function LeafText(value: Value): Option<string> {
    match value
    case Scalar(text) => Some(text)
    case Plain(items) => Some(Quoted(items))
    case _ => None
  }

  /** The text of the leaf at a path, if there is one. */
  function At(table: Table, path: Path): Option<string>
    decreases |path|
  {
    if path == [] then None
    else
      var value := Get(table, path[0]);
      if value.None? then None
      else if value.value.Nested? then At(value.value.table, path[1..])
      else if |path| == 1 then LeafText(value.value)
      else None
  }

  /** The name of the variable that a path becomes. */
  function Name(path: Path): string
    requires path != []
  {
    if |path| == 1 then Upper(path[0]) else Upper(path[0]) + "_" + Name(path[1..])
  }

  // ---------------------------------------------------------------------------------------------
  // Merging, by paths
  // ---------------------------------------------------------------------------------------------

  lemma {:induction false} GetPut(table: Table, key: string, value: Value, other: string)
    ensures Get(Put(table, key, value), other) == if other == key then Some(value) else Get(table, other)
  {
    if table.Field? {
      GetPut(table.rest, key, value, other);
    }
  }

  lemma {:induction false} GetExtend(target: Table, source: Table, schema: Schema, path: Path, key: string)
    requires Conforms(source, schema, path)
    ensures Get(Extend(target, source), key) ==
      if Get(source, key).None? then Get(target, key) else Some(Combine(Get(target, key), Get(source, key).value))
    decreases source
  {
    if source.Field? {
      var next := Put(target, source.key, Combine(Get(target, source.key), source.value));
      GetPut(target, source.key, Combine(Get(target, source.key), source.value), key);
      GetExtend(next, source.rest, schema, path, key);
    }
  }

  /** What conformance says about one key. */
  lemma {:induction false} ConformsAt(table: Table, schema: Schema, path: Path, key: string)
    requires Conforms(table, schema, path) && Get(table, key).Some?
    ensures
      var value := Get(table, key).value;
      && !value.Objects?
      && (value.Nested? <==> schema(path + [key]))
      && (value.Nested? ==> Conforms(value.table, schema, path + [key]))
  {
    if table.key != key {
      ConformsAt(table.rest, schema, path, key);
    }
  }

  lemma {:induction false} ConformsPut(table: Table, schema: Schema, path: Path, key: string, value: Value)
    requires Conforms(table, schema, path) && !value.Objects? && (value.Nested? <==> schema(path + [key]))
    requires value.Nested? ==> Conforms(value.table, schema, path + [key])
    ensures Conforms(Put(table, key, value), schema, path)
  {
    if table.Field? && table.key != key {
      ConformsPut(table.rest, schema, path, key, value);
      GetPut(table.rest, key, value, table.key);
    }
  }

  /** Layers that agree on which paths are tables merge into a tree that agrees as well. */
  lemma {:induction false} ExtendConforms(target: Table, source: Table, schema: Schema, path: Path)
    requires Conforms(target, schema, path) && Conforms(source, schema, path)
    ensures Conforms(Extend(target, source), schema, path)
    decreases source
  {
    if source.Field? {
      var current := Get(target, source.key);
      if current.Some? {
        ConformsAt(target, schema, path, source.key);
      }
      if source.value.Nested? {
        var base := if current.Some? && current.value.Nested? then current.value.table else Empty;
        ExtendConforms(base, source.value.table, schema, path + [source.key]);
      }
      ConformsPut(target, schema, path, source.key, Combine(current, source.value));
      ExtendConforms(Put(target, source.key, Combine(current, source.value)), source.rest, schema, path);
    }
  }

  /** In a merge the leaf of the later layer counts, and the earlier one's where it has none. */
  lemma {:induction false} AtExtend(target: Table, source: Table, schema: Schema, path: Path, p: Path)
    requires Conforms(target, schema, path) && Conforms(source, schema, path)
    ensures At(Extend(target, source), p) == OrElse(At(source, p), At(target, p))
    decreases |p|
  {
    if p != [] {
      var key := p[0];
      GetExtend(target, source, schema, path, key);
      var current, value := Get(target, key), Get(source, key);
      if current.Some? {
        ConformsAt(target, schema, path, key);
      }
      if value.Some? {
        ConformsAt(source, schema, path, key);
        if value.value.Nested? {
          var base := if current.Some? then current.value.table else Empty;
          AtExtend(base, value.value.table, schema, path + [key], p[1..]);
        }
      }
    }
  }

  // ---------------------------------------------------------------------------------------------
  // Flattening, by paths
  // ---------------------------------------------------------------------------------------------

  lemma NameOfLonger(key: string, p: Path)
    requires p != []
    ensures Name([key] + p) == Upper(key) + "_" + Name(p)
  {
  }

  /** Every variable comes from a leaf. */
  lemma {:induction false} VariableHasPath(table: Table, schema: Schema, path: Path, prefix: string, name: string)
    returns (p: Path)
    requires Conforms(table, schema, path) && name in Flatten(table, prefix)
    ensures p != [] && name == prefix + Name(p) && At(table, p) == Some(Flatten(table, prefix)[name])
    decreases table
  {
    var Field(key, value, rest) := table;
    if name in Flatten(rest, prefix) {
      p := VariableHasPath(rest, schema, path, prefix, name);
      assert p[0] != key;
    } else if value.Nested? {
      var nested := prefix + Upper(key) + "_";
      var q := VariableHasPath(value.table, schema, path + [key], nested, name);
      p := [key] + q;
      NameOfLonger(key, q);
      assert p[1..] == q;
      assert nested + Name(q) == prefix + (Upper(key) + "_" + Name(q));
    } else {
      p := [key];
    }
  }

  /** Every leaf has a variable. */
  lemma {:induction false} PathHasVariable(table: Table, schema: Schema, path: Path, prefix: string, p: Path)
    requires Conforms(table, schema, path) && At(table, p).Some?
    ensures p != [] && prefix + Name(p) in Flatten(table, prefix)
    decreases table
  {
    var Field(key, value, rest) := table;
    if p[0] != key {
      assert At(rest, p) == At(table, p);
      PathHasVariable(rest, schema, path, prefix, p);
    } else if value.Nested? {
      var q := p[1..];
      var nested := prefix + Upper(key) + "_";
      PathHasVariable(value.table, schema, path + [key], nested, q);
      assert p == [key] + q;
      NameOfLonger(key, q);
      assert nested + Name(q) == prefix + (Upper(key) + "_" + Name(q));
    }
  }

  // ---------------------------------------------------------------------------------------------
  // Layers
  // ---------------------------------------------------------------------------------------------

  /** The leaf at a path in the last layer that has one there. */
  function LastAt(layers: seq<Table>, p: Path): Option<string> {
    if layers == [] then None
    else OrElse(At(layers[|layers| - 1], p), LastAt(layers[..|layers| - 1], p))
  }

  predicate AllConform(layers: seq<Table>, schema: Schema) {
    forall i :: 0 <= i < |layers| ==> Conforms(layers[i], schema, [])
  }

  /** No two leaves of the layers get one name. */
  ghost predicate NamesAreDistinct(layers: seq<Table>) {
    forall p, q :: p != [] && q != [] && LastAt(layers, p).Some? && LastAt(layers, q).Some? && Name(p) == Name(q) ==>
      p == q
  }

  /** The flattened layers united, later ones winning. */
  function UnionAll(layers: seq<Table>): Variables {
    if layers == [] then map[] else UnionAll(layers[..|layers| - 1]) + Flatten(layers[|layers| - 1], "")
  }

  /** Variables that give every leaf of the layers its text, and nothing else. */
  ghost predicate Represents(variables: Variables, layers: seq<Table>) {
    && (forall p :: LastAt(layers, p).Some? ==>
          p != [] && Name(p) in variables && Some(variables[Name(p)]) == LastAt(layers, p))
    && (forall name :: name in variables ==> exists p :: p != [] && LastAt(layers, p).Some? && Name(p) == name)
  }

  lemma RepresentationIsUnique(v1: Variables, v2: Variables, layers: seq<Table>)
    requires Represents(v1, layers) && Represents(v2, layers)
    ensures v1 == v2
  {
  }

  lemma LeafIsRepresented(table: Table, layers: seq<Table>, schema: Schema, p: Path)
    requires Conforms(table, schema, []) && (forall q :: At(table, q) == LastAt(layers, q))
    requires NamesAreDistinct(layers) && LastAt(layers, p).Some?
    ensures p != [] && Name(p) in Flatten(table, "") && Some(Flatten(table, "")[Name(p)]) == LastAt(layers, p)
  {
    assert At(table, p) == LastAt(layers, p);
    PathHasVariable(table, schema, [], "", p);
    assert "" + Name(p) == Name(p);
    var q := VariableHasPath(table, schema, [], "", Name(p));
    assert "" + Name(q) == Name(q) && At(table, q) == LastAt(layers, q);
  }

  lemma VariableIsRepresented(table: Table, layers: seq<Table>, schema: Schema, name: string)
    requires Conforms(table, schema, []) && (forall q :: At(table, q) == LastAt(layers, q))
    requires name in Flatten(table, "")
    ensures exists p :: p != [] && LastAt(layers, p).Some? && Name(p) == name
  {
    var p := VariableHasPath(table, schema, [], "", name);
    assert "" + Name(p) == Name(p) && At(table, p) == LastAt(layers, p);
  }

  lemma FlattenRepresents(table: Table, layers: seq<Table>, schema: Schema)
    requires Conforms(table, schema, []) && forall p :: At(table, p) == LastAt(layers, p)
    requires NamesAreDistinct(layers)
    ensures Represents(Flatten(table, ""), layers)
  {
    var variables := Flatten(table, "");
    forall p | LastAt(layers, p).Some?
      ensures p != [] && Name(p) in variables && Some(variables[Name(p)]) == LastAt(layers, p)
    {
      LeafIsRepresented(table, layers, schema, p);
    }
    forall name | name in variables ensures exists p :: p != [] && LastAt(layers, p).Some? && Name(p) == name {
      VariableIsRepresented(table, layers, schema, name);
    }
  }

  lemma {:induction false} UnionRepresents(layers: seq<Table>, schema: Schema)
    requires AllConform(layers, schema) && NamesAreDistinct(layers)
    ensures Represents(UnionAll(layers), layers)
  {
    if layers != [] {
      var init, last := layers[..|layers| - 1], layers[|layers| - 1];
      forall p ensures LastAt(init, p).Some? ==> LastAt(layers, p).Some? {
      }
      assert NamesAreDistinct(init);
      UnionRepresents(init, schema);
      forall p ensures At(last, p) == LastAt([last], p) {
        assert [last][..0] == [];
      }
      forall p ensures At(last, p).Some? ==> LastAt(layers, p).Some? {
      }
      assert NamesAreDistinct([last]);
      FlattenRepresents(last, [last], schema);
      UnionRepresentsOne(layers, UnionAll(init), Flatten(last, ""));
    }
  }

  lemma UnionRepresentsOne(layers: seq<Table>, v1: Variables, v2: Variables)
    requires layers != [] && NamesAreDistinct(layers)
    requires Represents(v1, layers[..|layers| - 1]) && Represents(v2, [layers[|layers| - 1]])
    ensures Represents(v1 + v2, layers)
  {
    var init, last := layers[..|layers| - 1], layers[|layers| - 1];
    forall p ensures LastAt(layers, p) == OrElse(LastAt([last], p), LastAt(init, p)) {
      assert [last][..0] == [];
    }
    forall p | LastAt(layers, p).Some?
      ensures p != [] && Name(p) in v1 + v2 && Some((v1 + v2)[Name(p)]) == LastAt(layers, p)
    {
      assert LastAt([last], p).Some? || LastAt(init, p).Some?;
      if Name(p) in v2 {
        var q :| q != [] && LastAt([last], q).Some? && Name(q) == Name(p);
        assert LastAt(layers, q).Some?;
        assert p == q;
      }
    }
    forall name | name in v1 + v2 ensures exists p :: p != [] && LastAt(layers, p).Some? && Name(p) == name {
      if name in v2 {
        var p :| p != [] && LastAt([last], p).Some? && Name(p) == name;
        assert LastAt(layers, p).Some?;
      } else {
        var p :| p != [] && LastAt(init, p).Some? && Name(p) == name;
        assert LastAt(layers, p).Some?;
      }
    }
  }

  /** A tree that has at every path the leaf of the last layer with one there flattens to the union
      of the flattened layers, in which later layers win. */
  lemma FlattenIsUnion(table: Table, layers: seq<Table>, schema: Schema)
    requires Conforms(table, schema, []) && (forall p :: At(table, p) == LastAt(layers, p))
    requires AllConform(layers, schema) && NamesAreDistinct(layers)
    ensures Flatten(table, "") == UnionAll(layers)
  {
    FlattenRepresents(table, layers, schema);
    UnionRepresents(layers, schema);
    RepresentationIsUnique(Flatten(table, ""), UnionAll(layers), layers);
  }

  /** A merge conforms if its layers do, and has the leaf of the last layer at every path. */
  lemma {:induction false} MergeAllIsLast(layers: seq<Table>, schema: Schema)
    requires AllConform(layers, schema)
    ensures Conforms(MergeAll(layers), schema, [])
    ensures forall p :: At(MergeAll(layers), p) == LastAt(layers, p)
  {
    if layers != [] {
      var init, last := layers[..|layers| - 1], layers[|layers| - 1];
      MergeAllIsLast(init, schema);
      ExtendConforms(MergeAll(init), last, schema, []);
      forall p ensures At(MergeAll(layers), p) == LastAt(layers, p) {
        AtExtend(MergeAll(init), last, schema, [], p);
      }
    }
  }

  /** Flattening commutes with layered merging: for layers that agree on which paths are tables and
      have no two leaves with one name, flattening the merge is the union of the flattened layers. */
  lemma FlattenCommutesWithMerge(layers: seq<Table>, schema: Schema)
    requires AllConform(layers, schema) && NamesAreDistinct(layers)
    ensures Flatten(MergeAll(layers), "") == UnionAll(layers)
  {
    MergeAllIsLast(layers, schema);
    FlattenIsUnion(MergeAll(layers), layers, schema);
  }

  // ---------------------------------------------------------------------------------------------
  // Both conditions matter
  // ---------------------------------------------------------------------------------------------

  /** Two leaves with one name: the layer on top sets one of them, and the merge still shows the
      other. */
  lemma CollidingNamesDoNotCommute()
    ensures
      var below := Field("X_Y", Scalar("1"), Field("X", Nested(Field("Y", Scalar("2"), Empty)), Empty));
      var above := Field("X_Y", Scalar("3"), Empty);
      Flatten(Extend(below, above), "") != Flatten(below, "") + Flatten(above, "")
  {
    var inner := Field("Y", Scalar("2"), Empty);
    var below := Field("X_Y", Scalar("1"), Field("X", Nested(inner), Empty));
    var above := Field("X_Y", Scalar("3"), Empty);
    assert Upper("X_Y") == "X_Y" && Upper("X") == "X" && Upper("Y") == "Y";
    assert Extend(below, above) == Field("X_Y", Scalar("3"), Field("X", Nested(inner), Empty));
    FlattenOne("Y", "2", "X_");
    assert "X_" + Upper("Y") == "X_Y" && "" + Upper("X_Y") == "X_Y" && "" + Upper("X") + "_" == "X_";
    assert FlattenValue("X", Nested(inner), "") == map["X_Y" := "2"];
    assert Flatten(Empty, "") == map[];
    assert Flatten(Field("X", Nested(inner), Empty), "") == map["X_Y" := "2"];
    assert Flatten(Extend(below, above), "")["X_Y"] == "2";
    FlattenOne("X_Y", "3", "");
  }

  lemma FlattenOne(key: string, text: string, prefix: string)
    ensures Flatten(Field(key, Scalar(text), Empty), prefix) == map[prefix + Upper(key) := text]
  {
  }

  /** An array of objects is replaced as a whole, but its elements are separate variables: a shorter
      array on top leaves the merge without variables that the union still has. */
  lemma ObjectArraysDoNotCommute()
    ensures
      var element := Field("V", Scalar("1"), Empty);
      var below := Field("A", Objects(element, More(element, NoTables)), Empty);
      var above := Field("A", Objects(element, NoTables), Empty);
      Flatten(Extend(below, above), "") != Flatten(below, "") + Flatten(above, "")
  {
    var element := Field("V", Scalar("1"), Empty);
    var below := Field("A", Objects(element, More(element, NoTables)), Empty);
    var above := Field("A", Objects(element, NoTables), Empty);
    assert Upper("A") == "A" && Upper("V") == "V";
    assert Extend(below, above) == above;
    var p0, p1 := ElementPrefix("", "A", 0), ElementPrefix("", "A", 1);
    assert p0 == "A_0_" && p1 == "A_1_";
    FlattenOne("V", "1", p0);
    FlattenOne("V", "1", p1);
    assert FlattenElements(NoTables, "", "A", 2) == map[];
    assert FlattenElements(More(element, NoTables), "", "A", 1) == map[p1 + "V" := "1"];
    assert p1 + "V" in FlattenValue("A", below.value, "");
    assert FlattenValue("A", above.value, "") == map[p0 + "V" := "1"];
    assert Flatten(above, "") == map[p0 + "V" := "1"];
    assert (p0 + "V")[2] != (p1 + "V")[2];
  }
}
