/** The names and texts of variables, told without the functions that build them: letter case,
    element numbers of arrays, and quoted lists. */
module ConfigNames {
  import opened Wrappers
  import opened Decimal
  import opened Strings
  import opened ConfigTree
  import opened ConfigCommute

  // ---------------------------------------------------------------------------------------------
  // Letter case
  // ---------------------------------------------------------------------------------------------

  predicate HasNoLowerCase(s: string) {
    forall i :: 0 <= i < |s| ==> !('a' <= s[i] <= 'z')
  }

  /** The same character, or the two forms of one letter. */
  predicate SameLetter(c: char, d: char) {
    || c == d
    || ('A' <= c <= 'Z' && d as int == c as int + 32)
    || ('A' <= d <= 'Z' && c as int == d as int + 32)
  }

  predicate SameButCase(s: string, t: string) {
    |s| == |t| && forall i :: 0 <= i < |s| ==> SameLetter(s[i], t[i])
  }

  lemma UpperChangesCaseOnly(s: string)
    ensures HasNoLowerCase(Upper(s)) && SameButCase(Upper(s), s)
  {
  }

  lemma UpperIsEqualWhen(s: string, t: string)
    requires SameButCase(s, t)
    ensures Upper(s) == Upper(t)
  {
  }

  /** A text without lower case letters is the only such text that differs from it in case only. */
  lemma UpperCaseIsUnique(s: string, t: string)
    requires SameButCase(s, t) && HasNoLowerCase(s) && HasNoLowerCase(t)
    ensures s == t
  {
  }

  lemma SameButCaseOfBoth(s1: string, t1: string, s2: string, t2: string)
    requires SameButCase(s1, t1) && SameButCase(s2, t2)
    ensures SameButCase(s1 + s2, t1 + t2)
  {
  }

  lemma NoLowerCaseOfBoth(s: string, t: string)
    requires HasNoLowerCase(s) && HasNoLowerCase(t)
    ensures HasNoLowerCase(s + t)
  {
  }

  lemma NoLowerCaseOfNumber(n: nat)
    ensures HasNoLowerCase(Print(n))
  {
    ValueOfPrint(n);
  }

  /** The name of a path is its keys joined with underscores, in upper case: the same characters but
      for the case of letters, and no lower case letter. */
  lemma {:induction false} NameIsPathInUpperCase(p: Path)
    requires p != []
    ensures HasNoLowerCase(Name(p)) && SameButCase(Name(p), Join(p, "_"))
  {
    UpperChangesCaseOnly(p[0]);
    if |p| > 1 {
      NameIsPathInUpperCase(p[1..]);
      SameButCaseOfBoth(Upper(p[0]), p[0], "_", "_");
      SameButCaseOfBoth(Upper(p[0]) + "_", p[0] + "_", Name(p[1..]), Join(p[1..], "_"));
      NoLowerCaseOfBoth(Upper(p[0]) + "_", Name(p[1..]));
    }
  }

  lemma {:induction false} JoinHasNoLowerCase(p: Path)
    requires forall i :: 0 <= i < |p| ==> HasNoLowerCase(p[i])
    ensures HasNoLowerCase(Join(p, "_"))
  {
    if |p| > 1 {
      JoinHasNoLowerCase(p[1..]);
    }
  }

  /** A leaf below keys without lower case letters becomes the variable named by the keys as they
      are, joined with underscores. */
  lemma UpperCaseKeysAreKept(table: Table, schema: Schema, p: Path)
    requires Conforms(table, schema, []) && At(table, p).Some?
    requires forall i :: 0 <= i < |p| ==> HasNoLowerCase(p[i])
    ensures Join(p, "_") in Flatten(table, "")
  {
    PathHasVariable(table, schema, [], "", p);
    NameIsPathInUpperCase(p);
    JoinHasNoLowerCase(p);
    UpperCaseIsUnique(Name(p), Join(p, "_"));
    assert "" + Name(p) == Name(p);
  }

  /** Variables have no lower case letters in their names, in nested tables and arrays too. */
  lemma {:induction false} NamesHaveNoLowerCase(table: Table, prefix: string, name: string)
    requires HasNoLowerCase(prefix) && name in Flatten(table, prefix)
    ensures HasNoLowerCase(name)
    decreases table, 0
  {
    if name in Flatten(table.rest, prefix) {
      NamesHaveNoLowerCase(table.rest, prefix, name);
    } else {
      NamesOfValueHaveNoLowerCase(table.key, table.value, prefix, name);
    }
  }

  lemma {:induction false} NamesOfValueHaveNoLowerCase(key: string, value: Value, prefix: string, name: string)
    requires HasNoLowerCase(prefix) && name in FlattenValue(key, value, prefix)
    ensures HasNoLowerCase(name)
    decreases value, 1
  {
    UpperChangesCaseOnly(key);
    NoLowerCaseOfBoth(prefix, Upper(key));
    match value
    case Scalar(_) =>
    case Plain(_) =>
    case Nested(table) =>
      NoLowerCaseOfBoth(prefix + Upper(key), "_");
      NamesHaveNoLowerCase(table, prefix + Upper(key) + "_", name);
    case Objects(first, others) =>
      if name in FlattenElements(others, prefix, key, 1) {
        NamesOfElementsHaveNoLowerCase(others, prefix, key, 1, name);
      } else {
        ElementPrefixHasNoLowerCase(prefix, key, 0);
        NamesHaveNoLowerCase(first, ElementPrefix(prefix, key, 0), name);
      }
  }

  lemma ElementPrefixHasNoLowerCase(prefix: string, key: string, index: nat)
    requires HasNoLowerCase(prefix)
    ensures HasNoLowerCase(ElementPrefix(prefix, key, index))
  {
    UpperChangesCaseOnly(key);
    NoLowerCaseOfNumber(index);
    NoLowerCaseOfBoth(prefix, Upper(key));
    NoLowerCaseOfBoth(prefix + Upper(key), "_");
    NoLowerCaseOfBoth(prefix + Upper(key) + "_", Print(index));
    NoLowerCaseOfBoth(prefix + Upper(key) + "_" + Print(index), "_");
  }

  lemma {:induction false} NamesOfElementsHaveNoLowerCase(elements: Tables, prefix: string, key: string, index: nat,
                                                          name: string)
    requires HasNoLowerCase(prefix) && name in FlattenElements(elements, prefix, key, index)
    ensures HasNoLowerCase(name)
    decreases elements, 0
  {
    if name in FlattenElements(elements.tail, prefix, key, index + 1) {
      NamesOfElementsHaveNoLowerCase(elements.tail, prefix, key, index + 1, name);
    } else {
      ElementPrefixHasNoLowerCase(prefix, key, index);
      NamesHaveNoLowerCase(elements.head, ElementPrefix(prefix, key, index), name);
    }
  }

  /** Tables that differ in the letter case of their keys only. */
  predicate SameTable(t1: Table, t2: Table)
    decreases t1, 0
  {
    match t1
    case Empty => t2.Empty?
    case Field(key, value, rest) =>
      t2.Field? && SameButCase(key, t2.key) && SameValue(value, t2.value) && SameTable(rest, t2.rest)
  }

  predicate SameValue(v1: Value, v2: Value)
    decreases v1, 1
  {
    match v1
    case Objects(first, others) => v2.Objects? && SameTable(first, v2.first) && SameTables(others, v2.others)
    case Nested(table) => v2.Nested? && SameTable(table, v2.table)
    case _ => v1 == v2
  }

  predicate SameTables(ts1: Tables, ts2: Tables)
    decreases ts1, 0
  {
    match ts1
    case NoTables => ts2.NoTables?
    case More(head, tail) => ts2.More? && SameTable(head, ts2.head) && SameTables(tail, ts2.tail)
  }

  /** Tables that differ in the letter case of their keys only have the same variables. */
  lemma {:induction false} LetterCaseDoesNotMatter(t1: Table, t2: Table, prefix: string)
    requires SameTable(t1, t2)
    ensures Flatten(t1, prefix) == Flatten(t2, prefix)
    decreases t1, 0
  {
    if t1.Field? {
      LetterCaseOfValue(t1.key, t1.value, t2.key, t2.value, prefix);
      LetterCaseDoesNotMatter(t1.rest, t2.rest, prefix);
    }
  }

  lemma {:induction false} LetterCaseOfValue(key1: string, v1: Value, key2: string, v2: Value, prefix: string)
    requires SameButCase(key1, key2) && SameValue(v1, v2)
    ensures FlattenValue(key1, v1, prefix) == FlattenValue(key2, v2, prefix)
    decreases v1, 1
  {
    UpperIsEqualWhen(key1, key2);
    match v1
    case Objects(first, others) =>
      LetterCaseDoesNotMatter(first, v2.first, ElementPrefix(prefix, key1, 0));
      LetterCaseOfElements(others, v2.others, prefix, key1, key2, 1);
    case Nested(table) => LetterCaseDoesNotMatter(table, v2.table, prefix + Upper(key1) + "_");
    case _ =>
  }

  lemma {:induction false} LetterCaseOfElements(ts1: Tables, ts2: Tables, prefix: string, key1: string, key2: string,
                                                index: nat)
    requires Upper(key1) == Upper(key2) && SameTables(ts1, ts2)
    ensures FlattenElements(ts1, prefix, key1, index) == FlattenElements(ts2, prefix, key2, index)
    decreases ts1, 0
  {
    if ts1.More? {
      LetterCaseDoesNotMatter(ts1.head, ts2.head, ElementPrefix(prefix, key1, index));
      LetterCaseOfElements(ts1.tail, ts2.tail, prefix, key1, key2, index + 1);
    }
  }

  // ---------------------------------------------------------------------------------------------
  // Quoted lists
  // ---------------------------------------------------------------------------------------------

  /** The text of a plain array: quotes around its items, which splitting at commas gives back if none
      of them has a comma. */
  lemma ListIsQuoted(key: string, items: seq<string>)
    ensures
      var variables := Flatten(Field(key, Plain(items), Empty), "");
      && Upper(key) in variables
      && var text := variables[Upper(key)];
         && |text| >= 2 && text[0] == '"' && text[|text| - 1] == '"'
         && var inside := text[1..|text| - 1];
            && (items == [] ==> inside == "")
            && (items != [] && NoneHas(items, ',') ==> Split(inside, ',') == items)
  {
    assert "" + Upper(key) == Upper(key);
    var text := Quoted(items);
    assert text[1..|text| - 1] == Join(items, ",");
    if items != [] && NoneHas(items, ',') {
      SplitAfterJoin(items, ',');
    }
  }

  // ---------------------------------------------------------------------------------------------
  // Elements of arrays
  // ---------------------------------------------------------------------------------------------

  /** A longer prefix goes in front of every name. */
  lemma {:induction false} PrefixIsKept(table: Table, a: string, b: string, name: string)
    ensures Lookup(Flatten(table, a + b), a + name) == Lookup(Flatten(table, b), name)
    decreases table, 0
  {
    if table.Field? {
      PrefixOfValueIsKept(table.key, table.value, a, b, name);
      PrefixIsKept(table.rest, a, b, name);
    }
  }

  lemma Regroup(a: string, b: string, c: string)
    ensures a + b + c == a + (b + c)
  {
  }

  lemma SamePrefix(a: string, x: string, y: string)
    ensures a + x == a + y <==> x == y
  {
    if a + x == a + y {
      CancelPrefix(a, x, y);
    }
  }

  lemma {:induction false} PrefixOfValueIsKept(key: string, value: Value, a: string, b: string, name: string)
    ensures Lookup(FlattenValue(key, value, a + b), a + name) == Lookup(FlattenValue(key, value, b), name)
    decreases value, 1
  {
    var upper := Upper(key);
    Regroup(a, b, upper);
    SamePrefix(a, b + upper, name);
    match value
    case Scalar(_) =>
    case Plain(_) =>
    case Nested(table) =>
      Regroup(a, b + upper, "_");
      PrefixIsKept(table, a, b + upper + "_", name);
    case Objects(first, others) =>
      PrefixOfElement(a, b, key, 0);
      PrefixIsKept(first, a, ElementPrefix(b, key, 0), name);
      PrefixOfElementsIsKept(others, key, 1, a, b, name);
  }

  lemma PrefixOfElement(a: string, b: string, key: string, index: nat)
    ensures ElementPrefix(a + b, key, index) == a + ElementPrefix(b, key, index)
  {
    Regroup(a, b, Upper(key));
    Regroup(a, b + Upper(key), "_");
    Regroup(a, b + Upper(key) + "_", Print(index));
    Regroup(a, b + Upper(key) + "_" + Print(index), "_");
  }

  lemma {:induction false} PrefixOfElementsIsKept(elements: Tables, key: string, index: nat, a: string, b: string,
                                                  name: string)
    ensures Lookup(FlattenElements(elements, a + b, key, index), a + name) ==
      Lookup(FlattenElements(elements, b, key, index), name)
    decreases elements, 0
  {
    if elements.More? {
      PrefixOfElement(a, b, key, index);
      PrefixIsKept(elements.head, a, ElementPrefix(b, key, index), name);
      PrefixOfElementsIsKept(elements.tail, key, index + 1, a, b, name);
    }
  }

  lemma {:induction false} NameHasPrefix(table: Table, prefix: string, name: string)
    requires name in Flatten(table, prefix)
    ensures prefix <= name
    decreases table, 0
  {
    if name in Flatten(table.rest, prefix) {
      NameHasPrefix(table.rest, prefix, name);
    } else {
      NameOfValueHasPrefix(table.key, table.value, prefix, name);
    }
  }

  lemma {:induction false} NameOfValueHasPrefix(key: string, value: Value, prefix: string, name: string)
    requires name in FlattenValue(key, value, prefix)
    ensures prefix <= name
    decreases value, 1
  {
    match value
    case Scalar(_) =>
    case Plain(_) =>
    case Nested(table) => NameHasPrefix(table, prefix + Upper(key) + "_", name);
    case Objects(first, others) =>
      if name in FlattenElements(others, prefix, key, 1) {
        NameOfElementHasPrefix(others, prefix, key, 1, name);
      } else {
        NameHasPrefix(first, ElementPrefix(prefix, key, 0), name);
      }
  }

  lemma {:induction false} NameOfElementHasPrefix(elements: Tables, prefix: string, key: string, index: nat, name: string)
    requires name in FlattenElements(elements, prefix, key, index)
    ensures prefix <= name
    decreases elements, 0
  {
    if name in FlattenElements(elements.tail, prefix, key, index + 1) {
      NameOfElementHasPrefix(elements.tail, prefix, key, index + 1, name);
    } else {
      NameHasPrefix(elements.head, ElementPrefix(prefix, key, index), name);
    }
  }

  /** The element with a number, counted from the given one. */
  function ElementAt(elements: Tables, from: nat, number: nat): Option<Table>
    decreases elements
  {
    match elements
    case NoTables => None
    case More(head, tail) => if number == from then Some(head) else ElementAt(tail, from + 1, number)
  }

  /** What an element says about a name, if there is one with the number. */
  function InElement(element: Option<Table>, name: string): Option<string> {
    if element.Some? then Lookup(Flatten(element.value, ""), name) else None
  }

  lemma ElementNameParts(prefix: string, key: string, index: nat, name: string)
    ensures ElementPrefix(prefix, key, index) + name == prefix + Upper(key) + "_" + (Print(index) + ("_" + name))
  {
    var base := prefix + Upper(key) + "_";
    Regroup(base + Print(index), "_", name);
    Regroup(base, Print(index), "_" + name);
  }

  lemma OtherElementHasOtherName(table: Table, prefix: string, key: string, index: nat, number: nat, name: string)
    requires index != number
    ensures ElementPrefix(prefix, key, number) + name !in Flatten(table, ElementPrefix(prefix, key, index))
  {
    var base := prefix + Upper(key) + "_";
    var full := ElementPrefix(prefix, key, number) + name;
    if full in Flatten(table, ElementPrefix(prefix, key, index)) {
      NameHasPrefix(table, ElementPrefix(prefix, key, index), full);
      var rest := full[|ElementPrefix(prefix, key, index)|..];
      assert full == ElementPrefix(prefix, key, index) + rest;
      ElementNameParts(prefix, key, index, rest);
      ElementNameParts(prefix, key, number, name);
      CancelPrefix(base, Print(index) + ("_" + rest), Print(number) + ("_" + name));
      ValueOfPrint(index);
      ValueOfPrint(number);
      DigitRunIsUnique(Print(index), "_" + rest, Print(number), "_" + name);
    }
  }

  lemma OwnElementHasName(table: Table, prefix: string, key: string, index: nat, name: string)
    ensures Lookup(Flatten(table, ElementPrefix(prefix, key, index)), ElementPrefix(prefix, key, index) + name) ==
      Lookup(Flatten(table, ""), name)
  {
    assert ElementPrefix(prefix, key, index) + "" == ElementPrefix(prefix, key, index);
    PrefixIsKept(table, ElementPrefix(prefix, key, index), "", name);
  }

  lemma OneElement(table: Table, prefix: string, key: string, index: nat, number: nat, name: string)
    ensures Lookup(Flatten(table, ElementPrefix(prefix, key, index)), ElementPrefix(prefix, key, number) + name) ==
      if number == index then Lookup(Flatten(table, ""), name) else None
  {
    if number == index {
      OwnElementHasName(table, prefix, key, index, name);
    } else {
      OtherElementHasOtherName(table, prefix, key, index, number, name);
    }
  }

  lemma LookupOfBoth(v1: Variables, v2: Variables, name: string)
    ensures Lookup(v1 + v2, name) == OrElse(Lookup(v2, name), Lookup(v1, name))
  {
  }

  lemma {:induction false} ElementsFrom(elements: Tables, prefix: string, key: string, from: nat, number: nat, name: string)
    ensures Lookup(FlattenElements(elements, prefix, key, from), ElementPrefix(prefix, key, number) + name) ==
      if number < from then None else InElement(ElementAt(elements, from, number), name)
    decreases elements
  {
    if elements.More? {
      ElementsFrom(elements.tail, prefix, key, from + 1, number, name);
      OneElement(elements.head, prefix, key, from, number, name);
      LookupOfBoth(Flatten(elements.head, ElementPrefix(prefix, key, from)),
                   FlattenElements(elements.tail, prefix, key, from + 1), ElementPrefix(prefix, key, number) + name);
    }
  }

  /** An array of objects gives every element its own variables: the name of the array, the number of
      the element from zero in decimal notation, and the name of the variable in the element. No
      element hides another. */
  lemma ElementsAreNumbered(key: string, first: Table, others: Tables, prefix: string, number: string, name: string)
    requires IsCanonicalNumber(number)
    ensures
      var variables := Flatten(Field(key, Objects(first, others), Empty), prefix);
      Lookup(variables, prefix + Upper(key) + "_" + number + "_" + name) ==
        InElement(ElementAt(More(first, others), 0, ValueOf(number)), name)
  {
    PrintOfCanonical(number);
    ElementsFrom(More(first, others), prefix, key, 0, ValueOf(number), name);
    assert FlattenElements(More(first, others), prefix, key, 0) == FlattenValue(key, Objects(first, others), prefix);
    assert Flatten(Field(key, Objects(first, others), Empty), prefix) ==
      FlattenValue(key, Objects(first, others), prefix) + map[];
  }
}
