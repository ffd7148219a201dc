/** Joining strings with a separator and splitting a string at one. */
module Strings {

  function Join(parts: seq<string>, separator: string): string {
    if parts == [] then ""
    else if |parts| == 1 then parts[0]
    else parts[0] + separator + Join(parts[1..], separator)
  }

  function Split(s: string, separator: char): (parts: seq<string>)
    ensures parts != []
  {
    if s == [] then [[]]
    else
      var rest := Split(s[1..], separator);
      if s[0] == separator then [[]] + rest else [[s[0]] + rest[0]] + rest[1..]
  }

  lemma {:induction false} SplitWithoutSeparator(a: string, separator: char)
    requires separator !in a
    ensures Split(a, separator) == [a]
  {
    if a != [] {
      assert separator !in a[1..];
      SplitWithoutSeparator(a[1..], separator);
      assert a == [a[0]] + a[1..];
    }
  }

  lemma {:induction false} SplitAtSeparator(a: string, rest: string, separator: char)
    requires separator !in a
    ensures Split(a + [separator] + rest, separator) == [a] + Split(rest, separator)
  {
    var s := a + [separator] + rest;
    if a == [] {
      assert s[1..] == rest;
    } else {
      assert separator !in a[1..];
      assert s[1..] == a[1..] + [separator] + rest;
      SplitAtSeparator(a[1..], rest, separator);
      assert a == [a[0]] + a[1..];
    }
  }

  lemma JoinOfLonger(c: char, parts: seq<string>, separator: string)
    requires parts != []
    ensures Join([[c] + parts[0]] + parts[1..], separator) == [c] + Join(parts, separator)
  {
  }

  lemma JoinOfMore(parts: seq<string>, separator: string)
    requires parts != []
    ensures Join([[]] + parts, separator) == separator + Join(parts, separator)
  {
  }

  /** Joining undoes splitting. */
  lemma {:induction false} JoinAfterSplit(s: string, separator: char)
    ensures Join(Split(s, separator), [separator]) == s
  {
    if s != [] {
      JoinAfterSplit(s[1..], separator);
      if s[0] == separator {
        JoinOfMore(Split(s[1..], separator), [separator]);
      } else {
        JoinOfLonger(s[0], Split(s[1..], separator), [separator]);
      }
      assert [s[0]] + s[1..] == s;
    }
  }

  predicate NoneHas(parts: seq<string>, separator: char) {
    forall i :: 0 <= i < |parts| ==> separator !in parts[i]
  }

  /** Splitting undoes joining if the separator is in no part. */
  lemma {:induction false} SplitAfterJoin(parts: seq<string>, separator: char)
    requires parts != [] && NoneHas(parts, separator)
    ensures Split(Join(parts, [separator]), separator) == parts
  {
    var first, rest := parts[0], parts[1..];
    assert separator !in first;
    if rest == [] {
      SplitWithoutSeparator(first, separator);
    } else {
      assert NoneHas(rest, separator);
      SplitAfterJoin(rest, separator);
      SplitAtSeparator(first, Join(rest, [separator]), separator);
      assert parts == [first] + rest;
    }
  }
}
