/** Protocol versions as text: printing and parsing `major.minor.patch`, in the node and in the
    upgrade scripts. */
module VersionText {
  import opened Wrappers
  import opened Decimal
  import opened PackedVersion
  import opened Strings

  // ---------------------------------------------------------------------------------------------
  // The node
  // ---------------------------------------------------------------------------------------------

  const U16_MAX: nat := 0xFFFF
  const U32_MAX: nat := 0xFFFF_FFFF

  datatype ParseError = InvalidFormat | NonZeroMajorVersion | ParseIntError

  /** Parses an unsigned number of limited size: digits, possibly after one plus sign. */
  function ParseUnsigned(s: string, max: nat): Option<nat> {
    var digits := if |s| > 1 && s[0] == '+' then s[1..] else s;
    if digits == [] || !AllDigits(digits) || ValueOf(digits) > max then None else Some(ValueOf(digits))
  }

  function Display(v: SemanticVersion): string {
    Print(0) + "." + (Print(v.minor) + "." + Print(v.patch))
  }

  function FromParts(major: string, minor: string, patch: string): Result<SemanticVersion, ParseError> {
    var majorNumber := ParseUnsigned(major, U16_MAX);
    if majorNumber.None? then Err(ParseIntError)
    else if majorNumber.value != 0 then Err(NonZeroMajorVersion)
    else
      var minorNumber := ParseUnsigned(minor, U16_MAX);
      if minorNumber.None? then Err(ParseIntError)
      else if minorNumber.value > LAST_VERSION_ID then Err(InvalidFormat)
      else
        var patchNumber := ParseUnsigned(patch, U32_MAX);
        if patchNumber.None? then Err(ParseIntError)
        else Ok(SemanticVersion(minorNumber.value, patchNumber.value))
  }

  function FromStr(s: string): Result<SemanticVersion, ParseError> {
    var parts := Split(s, '.');
    if |parts| != 3 then Err(InvalidFormat) else FromParts(parts[0], parts[1], parts[2])
  }

  lemma PrintHasNoDot(n: nat)
    ensures '.' !in Print(n)
  {
  }

  lemma SplitDisplay(v: SemanticVersion)
    ensures Split(Display(v), '.') == [Print(0), Print(v.minor), Print(v.patch)]
  {
    PrintHasNoDot(0);
    PrintHasNoDot(v.minor);
    PrintHasNoDot(v.patch);
    SplitAtSeparator(Print(0), Print(v.minor) + "." + Print(v.patch), '.');
    SplitAtSeparator(Print(v.minor), Print(v.patch), '.');
    SplitWithoutSeparator(Print(v.patch), '.');
  }

  lemma ParsePrinted(n: nat, max: nat)
    requires n <= max
    ensures ParseUnsigned(Print(n), max) == Some(n)
  {
    ValueOfPrint(n);
  }

  /** Parsing the printed form gives the version back. */
  lemma ParseAfterPrint(v: SemanticVersion)
    requires IsVersion(v)
    ensures FromStr(Display(v)) == Ok(v)
  {
    SplitDisplay(v);
    ParsePrinted(0, U16_MAX);
    ParsePrinted(v.minor, U16_MAX);
    ParsePrinted(v.patch, U32_MAX);
  }

  lemma ParsedIsVersion(s: string)
    requires FromStr(s).Ok?
    ensures IsVersion(FromStr(s).value)
  {
  }

  /** Printing an accepted text and parsing it again changes nothing, whatever signs or leading
      zeros the text has. */
  lemma PrintAfterParseIsStable(s: string)
    requires FromStr(s).Ok?
    ensures FromStr(Display(FromStr(s).value)) == FromStr(s)
  {
    ParsedIsVersion(s);
    ParseAfterPrint(FromStr(s).value);
  }

  lemma ParsedCanonical(s: string, max: nat)
    requires IsCanonicalNumber(s) && ParseUnsigned(s, max).Some?
    ensures Print(ParseUnsigned(s, max).value) == s
  {
    assert s[0] != '+';
    PrintOfCanonical(s);
  }

  lemma SplitIsInjective(s: string, t: string)
    requires Split(s, '.') == Split(t, '.')
    ensures s == t
  {
    JoinAfterSplit(s, '.');
    JoinAfterSplit(t, '.');
  }

  /** Printing gives an accepted text itself exactly when its parts are canonical numbers. */
  lemma PrintIsIdentityExactlyOnCanonical(s: string)
    requires FromStr(s).Ok?
    ensures |Split(s, '.')| == 3
    ensures Display(FromStr(s).value) == s <==>
      IsCanonicalNumber(Split(s, '.')[0]) && IsCanonicalNumber(Split(s, '.')[1]) && IsCanonicalNumber(Split(s, '.')[2])
  {
    var v := FromStr(s).value;
    var parts := Split(s, '.');
    SplitDisplay(v);
    if Display(v) == s {
      PrintIsCanonical(0);
      PrintIsCanonical(v.minor);
      PrintIsCanonical(v.patch);
    }
    if IsCanonicalNumber(parts[0]) && IsCanonicalNumber(parts[1]) && IsCanonicalNumber(parts[2]) {
      ParsedCanonical(parts[0], U16_MAX);
      ParsedCanonical(parts[1], U16_MAX);
      ParsedCanonical(parts[2], U32_MAX);
      assert parts == [parts[0], parts[1], parts[2]];
      SplitIsInjective(s, Display(v));
    }
  }

  /** A text stands for a number: digits, possibly after one plus sign. */
  ghost predicate Denotes(s: string, n: nat) {
    exists digits :: (s == digits || s == "+" + digits) && IsDigitsOf(digits, n)
  }

  predicate IsDigitsOf(digits: string, n: nat) {
    digits != "" && AllDigits(digits) && ValueOf(digits) == n
  }

  lemma ParsesNumberExactlyWhen(s: string, max: nat, n: nat)
    ensures ParseUnsigned(s, max) == Some(n) <==> Denotes(s, n) && n <= max
  {
    var digits := if |s| > 1 && s[0] == '+' then s[1..] else s;
    if ParseUnsigned(s, max) == Some(n) {
      assert IsDigitsOf(digits, n);
      assert s == digits || s == "+" + digits;
    }
    if Denotes(s, n) {
      var other :| (s == other || s == "+" + other) && IsDigitsOf(other, n);
      assert s == "+" + other ==> s[1..] == other;
      assert digits == other;
    }
  }

  lemma NumberHasNoDot(s: string, n: nat)
    requires Denotes(s, n)
    ensures '.' !in s
  {
    var digits :| (s == digits || s == "+" + digits) && IsDigitsOf(digits, n);
    assert '.' !in digits;
  }

  lemma JoinThree(a: string, b: string, c: string)
    ensures Join([a, b, c], ".") == a + "." + (b + "." + c)
  {
    assert [a, b, c][1..] == [b, c] && [b, c][1..] == [c];
    assert Join([b, c], ".") == b + "." + c;
  }

  /** A text is three numbers with dots between them: zero, a known version, and a patch of at most
      32 bits. */
  ghost predicate IsTextOf(s: string, v: SemanticVersion, a: string, b: string, c: string) {
    && s == a + "." + (b + "." + c)
    && Denotes(a, 0) && Denotes(b, v.minor) && Denotes(c, v.patch)
    && v.minor <= 25 && v.patch <= 4294967295
  }

  lemma SplitThree(a: string, b: string, c: string)
    requires '.' !in a && '.' !in b && '.' !in c
    ensures Split(a + "." + (b + "." + c), '.') == [a, b, c]
  {
    SplitAtSeparator(a, b + "." + c, '.');
    SplitAtSeparator(b, c, '.');
    SplitWithoutSeparator(c, '.');
  }

  /** The texts that the node accepts, and what it reads in them. */
  lemma ParsesExactlyWhen(s: string, v: SemanticVersion)
    ensures FromStr(s) == Ok(v) <==> exists a, b, c :: IsTextOf(s, v, a, b, c)
  {
    var parts := Split(s, '.');
    if FromStr(s) == Ok(v) {
      ParsesNumberExactlyWhen(parts[0], U16_MAX, 0);
      ParsesNumberExactlyWhen(parts[1], U16_MAX, v.minor);
      ParsesNumberExactlyWhen(parts[2], U32_MAX, v.patch);
      JoinAfterSplit(s, '.');
      assert parts == [parts[0], parts[1], parts[2]];
      JoinThree(parts[0], parts[1], parts[2]);
      assert IsTextOf(s, v, parts[0], parts[1], parts[2]);
    }
    if a, b, c :| IsTextOf(s, v, a, b, c) {
      NumberHasNoDot(a, 0);
      NumberHasNoDot(b, v.minor);
      NumberHasNoDot(c, v.patch);
      SplitThree(a, b, c);
      ParsesNumberExactlyWhen(a, U16_MAX, 0);
      ParsesNumberExactlyWhen(b, U16_MAX, v.minor);
      ParsesNumberExactlyWhen(c, U32_MAX, v.patch);
    }
  }

  /** The major version is refused exactly when the text has three parts of which the first is a
      16-bit number other than zero. */
  lemma MajorIsRefusedExactlyWhen(s: string)
    ensures FromStr(s) == Err(NonZeroMajorVersion) <==>
      |Split(s, '.')| == 3 && exists n: nat :: Denotes(Split(s, '.')[0], n) && 0 < n <= 65535
  {
    var major := Split(s, '.')[0];
    if FromStr(s) == Err(NonZeroMajorVersion) {
      ParsesNumberExactlyWhen(major, U16_MAX, ParseUnsigned(major, U16_MAX).value);
    }
    if n: nat :| Denotes(major, n) && 0 < n <= 65535 {
      ParsesNumberExactlyWhen(major, U16_MAX, n);
    }
  }

  /** The format is refused exactly when the text does not have three parts, or its minor version is
      a 16-bit number that no version has. */
  lemma FormatIsRefusedExactlyWhen(s: string)
    ensures FromStr(s) == Err(InvalidFormat) <==>
      || |Split(s, '.')| != 3
      || (Denotes(Split(s, '.')[0], 0) && exists n: nat :: Denotes(Split(s, '.')[1], n) && 25 < n <= 65535)
  {
    var parts := Split(s, '.');
    if |parts| == 3 {
      ParsesNumberExactlyWhen(parts[0], U16_MAX, 0);
      if FromStr(s) == Err(InvalidFormat) {
        ParsesNumberExactlyWhen(parts[1], U16_MAX, ParseUnsigned(parts[1], U16_MAX).value);
      }
      if n: nat :| Denotes(parts[1], n) && 25 < n <= 65535 {
        ParsesNumberExactlyWhen(parts[1], U16_MAX, n);
      }
    }
  }

  // ---------------------------------------------------------------------------------------------
  // The upgrade scripts
  // ---------------------------------------------------------------------------------------------

  predicate IsSpace(c: char) {
    c == ' ' || c == '\t' || c == '\n' || c == '\r'
  }

  function TrimStart(s: string): string {
    if s != [] && IsSpace(s[0]) then TrimStart(s[1..]) else s
  }

  function DigitPrefix(s: string): (prefix: string)
    ensures AllDigits(prefix)
  {
    if s == [] || !IsDigit(s[0]) then [] else [s[0]] + DigitPrefix(s[1..])
  }

  function HexDigit(c: char): Option<nat> {
    if IsDigit(c) then Some(DigitValue(c))
    else if 'a' <= c <= 'f' then Some(c as int - 'a' as int + 10)
    else if 'A' <= c <= 'F' then Some(c as int - 'A' as int + 10)
    else None
  }

  /** The number that a prefix of hexadecimal digits stands for, on top of what was read. */
  function HexPrefixValue(s: string, read: nat): nat {
    if s == [] || HexDigit(s[0]).None? then read else HexPrefixValue(s[1..], 16 * read + HexDigit(s[0]).value)
  }

  /** `parseInt`: leading space, a sign, a hexadecimal prefix, then as many digits as there are;
      None stands for not a number. */
  function ParseInt(s: string): Option<int> {
    var trimmed := TrimStart(s);
    var negative := trimmed != [] && trimmed[0] == '-';
    var unsigned := if trimmed != [] && (trimmed[0] == '-' || trimmed[0] == '+') then trimmed[1..] else trimmed;
    var magnitude: Option<int> :=
      if |unsigned| >= 2 && unsigned[0] == '0' && (unsigned[1] == 'x' || unsigned[1] == 'X') then
        if |unsigned| > 2 && HexDigit(unsigned[2]).Some? then Some(HexPrefixValue(unsigned[2..], 0)) else None
      else if DigitPrefix(unsigned) == [] then None
      else Some(ValueOf(DigitPrefix(unsigned)));
    if magnitude.Some? && negative then Some(-magnitude.value) else magnitude
  }

  /** The first three parts as numbers; a missing part is not a number. */
  function UnpackStringSemVer(s: string): (Option<int>, Option<int>, Option<int>) {
    var parts := Split(s, '.');
    (ParseInt(parts[0]),
     if |parts| > 1 then ParseInt(parts[1]) else None,
     if |parts| > 2 then ParseInt(parts[2]) else None)
  }

  lemma {:induction false} DigitPrefixOfDigits(s: string)
    requires AllDigits(s)
    ensures DigitPrefix(s) == s
  {
    if s != [] {
      DigitPrefixOfDigits(s[1..]);
    }
  }

  /** What the node reads as a number, the scripts read as the same number. */
  lemma ParseIntAgrees(s: string, max: nat)
    requires ParseUnsigned(s, max).Some?
    ensures ParseInt(s) == Some(ParseUnsigned(s, max).value)
  {
    var digits := if |s| > 1 && s[0] == '+' then s[1..] else s;
    DigitPrefixOfDigits(digits);
    assert TrimStart(s) == s;
    assert |digits| >= 2 ==> IsDigit(digits[1]);
  }

  lemma {:induction false} DigitPrefixOfBoth(digits: string, rest: string)
    requires AllDigits(digits) && (rest == "" || !IsDigit(rest[0]))
    ensures DigitPrefix(digits + rest) == digits
  {
    if digits == "" {
      assert digits + rest == rest;
    } else {
      assert (digits + rest)[1..] == digits[1..] + rest;
      DigitPrefixOfBoth(digits[1..], rest);
    }
  }

  lemma {:induction false} TrimStartOfBoth(space: string, rest: string)
    requires (forall i :: 0 <= i < |space| ==> IsSpace(space[i])) && (rest == "" || !IsSpace(rest[0]))
    ensures TrimStart(space + rest) == rest
  {
    if space == "" {
      assert space + rest == rest;
    } else {
      assert (space + rest)[1..] == space[1..] + rest;
      TrimStartOfBoth(space[1..], rest);
    }
  }

  lemma ParseTrimmed(space: string, digits: string, rest: string, sign: string)
    requires (forall i :: 0 <= i < |space| ==> IsSpace(space[i])) && sign in ["", "+", "-"]
    requires digits != "" && AllDigits(digits)
    requires rest == "" || !(IsDigit(rest[0]) || rest[0] == 'x' || rest[0] == 'X')
    ensures
      var number: int := ValueOf(digits);
      ParseInt(space + (sign + (digits + rest))) == Some(if sign == "-" then -number else number)
  {
    var number := digits + rest;
    TrimStartOfBoth(space, sign + number);
    DigitPrefixOfBoth(digits, rest);
    assert sign == "" ==> sign + number == number;
    assert sign != "" ==> (sign + number)[1..] == number;
  }

  /** The scripts skip space, take a sign, and read as many digits as there are. */
  lemma ParseIntReadsPrefix(space: string, digits: string, rest: string)
    requires forall i :: 0 <= i < |space| ==> IsSpace(space[i])
    requires digits != "" && AllDigits(digits)
    requires rest == "" || !(IsDigit(rest[0]) || rest[0] == 'x' || rest[0] == 'X')
    ensures ParseInt(space + (digits + rest)) == Some(ValueOf(digits))
    ensures ParseInt(space + ("+" + (digits + rest))) == Some(ValueOf(digits))
    ensures
      var number: int := ValueOf(digits);
      ParseInt(space + ("-" + (digits + rest))) == Some(-number)
  {
    assert "" + (digits + rest) == digits + rest;
    ParseTrimmed(space, digits, rest, "");
    ParseTrimmed(space, digits, rest, "+");
    ParseTrimmed(space, digits, rest, "-");
  }

  lemma {:induction false} HexPrefixOfBoth(hex: string, c: char, read: nat)
    requires HexDigit(c).Some? && forall i :: 0 <= i < |hex| ==> HexDigit(hex[i]).Some?
    ensures HexPrefixValue(hex + [c], read) == 16 * HexPrefixValue(hex, read) + HexDigit(c).value
  {
    if hex == "" {
      assert hex + [c] == [c] && [c][1..] == "";
    } else {
      assert (hex + [c])[1..] == hex[1..] + [c];
      HexPrefixOfBoth(hex[1..], c, 16 * read + HexDigit(hex[0]).value);
    }
  }

  predicate IsHex(s: string) {
    s != "" && forall i :: 0 <= i < |s| ==> HexDigit(s[i]).Some?
  }

  lemma ParseHex(hex: string)
    requires IsHex(hex)
    ensures ParseInt("0x" + hex) == Some(HexPrefixValue(hex, 0))
  {
    var s := "0x" + hex;
    assert s[0] == '0' && s[1] == 'x' && s[2] == hex[0] && s[2..] == hex;
    assert TrimStart(s) == s;
  }

  /** After a hexadecimal prefix the scripts read base sixteen: one more digit multiplies by sixteen
      and adds. */
  lemma ParseIntReadsHex(hex: string, c: char)
    requires IsHex(hex) && HexDigit(c).Some?
    ensures ParseInt("0x" + hex).Some?
    ensures ParseInt("0x" + (hex + [c])) == Some(16 * ParseInt("0x" + hex).value + HexDigit(c).value)
    ensures ParseInt("0x" + [c]) == Some(HexDigit(c).value)
  {
    HexPrefixOfBoth(hex, c, 0);
    HexPrefixOfBoth("", c, 0);
    assert "" + [c] == [c];
    ParseHex(hex);
    ParseHex(hex + [c]);
    ParseHex([c]);
  }

  /** The digits in either letter case. */
  lemma HexDigits()
    ensures HexDigit('0') == Some(0) && HexDigit('9') == Some(9)
    ensures HexDigit('a') == HexDigit('A') == Some(10) && HexDigit('f') == HexDigit('F') == Some(15)
    ensures HexDigit('g').None? && HexDigit('G').None?
  {
  }

  /** A text whose major version the node refuses is refused by the scripts as well, when they pack
      what they read in it. */
  lemma MajorIsRefusedByBoth(s: string, minor: int, patch: int)
    requires FromStr(s) == Err(NonZeroMajorVersion)
    ensures UnpackStringSemVer(s).0.Some?
    ensures PackSemver(UnpackStringSemVer(s).0.value, minor, patch).Err?
  {
    ParseIntAgrees(Split(s, '.')[0], U16_MAX);
  }

  /** On every text that the node accepts, the scripts read the same version, and their packed form
      is the node's packed form. */
  lemma ScriptsAgreeWithNode(s: string)
    requires FromStr(s).Ok?
    ensures
      var v := FromStr(s).value;
      && IsVersion(v)
      && UnpackStringSemVer(s) == (Some(0), Some(v.minor), Some(v.patch))
      && PackSemver(0, v.minor, v.patch) == Ok(Value(Pack(v)))
  {
    var parts := Split(s, '.');
    ParsedIsVersion(s);
    ParseIntAgrees(parts[0], U16_MAX);
    ParseIntAgrees(parts[1], U16_MAX);
    ParseIntAgrees(parts[2], U32_MAX);
    PackSemverAgrees(FromStr(s).value);
  }
}
