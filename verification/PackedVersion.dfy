/** Protocol versions packed into a 256-bit word, on 64-bit limbs as the word type stores it. */
module PackedVersion {
  import opened Wrappers

  const TWO_16: nat := 0x1_0000
  const TWO_32: nat := 0x1_0000_0000
  const TWO_48: nat := 0x1_0000_0000_0000
  const TWO_64: nat := 0x1_0000_0000_0000_0000
  const LAST_VERSION_ID: nat := 25

  type Limb = x: int | 0 <= x < TWO_64 witness 0

  /** Four limbs, the least significant first. */
  datatype U256 = U256(l0: Limb, l1: Limb, l2: Limb, l3: Limb)

  function Value(u: U256): nat {
    u.l0 + TWO_64 * (u.l1 + TWO_64 * (u.l2 + TWO_64 * u.l3))
  }

  function FromWord(x: Limb): U256 {
    U256(x, 0, 0, 0)
  }

  /** A version of the protocol: the id is one of a fixed list, the patch a 32-bit number. */
  datatype SemanticVersion = SemanticVersion(minor: nat, patch: nat)

  predicate IsVersion(v: SemanticVersion) {
    v.minor <= LAST_VERSION_ID && v.patch < TWO_32
  }

  // ---------------------------------------------------------------------------------------------
  // Bitwise operations
  // ---------------------------------------------------------------------------------------------

  function Or(a: nat, b: nat): nat {
    if a == 0 && b == 0 then 0
    else (if a % 2 == 1 || b % 2 == 1 then 1 else 0) + 2 * Or(a / 2, b / 2)
  }

  function And(a: nat, b: nat): nat {
    if a == 0 || b == 0 then 0
    else (if a % 2 == 1 && b % 2 == 1 then 1 else 0) + 2 * And(a / 2, b / 2)
  }

  function Pow2(k: nat): nat {
    if k == 0 then 1 else 2 * Pow2(k - 1)
  }

  /** Bits that do not overlap add up. */
  lemma {:induction false} OrOfDisjoint(high: nat, low: nat, k: nat)
    requires low < Pow2(k)
    ensures Or(high * Pow2(k), low) == high * Pow2(k) + low
  {
    if k == 0 {
      OrZero(high);
    } else {
      var a := high * Pow2(k);
      assert a == 2 * (high * Pow2(k - 1));
      OrOfDisjoint(high, low / 2, k - 1);
    }
  }

  lemma {:induction false} OrZero(a: nat)
    ensures Or(a, 0) == a
  {
    if a > 0 {
      OrZero(a / 2);
    }
  }

  /** A mask of low bits takes the remainder. */
  lemma {:induction false} AndMask(a: nat, k: nat)
    ensures Pow2(k) > 0 && And(a, Pow2(k) - 1) == a % Pow2(k)
  {
    if k > 0 {
      AndMask(a / 2, k - 1);
      var p := Pow2(k - 1);
      assert (Pow2(k) - 1) / 2 == p - 1;
      assert a == 2 * (a / 2) + a % 2;
      RemainderOfDouble(a, p);
    }
  }

  lemma RemainderOfDouble(a: nat, p: nat)
    requires 0 < p
    ensures a % (2 * p) == 2 * ((a / 2) % p) + a % 2
  {
    var q, r := (a / 2) / p, (a / 2) % p;
    assert a / 2 == p * q + r;
    assert a == (2 * p) * q + (2 * r + a % 2);
    QuotientIsUnique(a, 2 * p, q, 2 * r + a % 2);
  }

  lemma QuotientIsUnique(x: int, d: int, q: int, r: int)
    requires 0 < d && 0 <= r < d && x == d * q + r
    ensures x / d == q && x % d == r
  {
    var k := x / d - q;
    assert x == d * (x / d) + x % d;
    assert d * k == r - x % d;
    if k > 0 {
      MulAtLeast(d, k);
      assert false;
    } else if k < 0 {
      MulAtMost(d, k);
      assert false;
    }
  }

  lemma MulAtLeast(d: int, k: int)
    requires 0 < d && 0 < k
    ensures d * k >= d
  {
  }

  lemma MulAtMost(d: int, k: int)
    requires 0 < d && k < 0
    ensures d * k <= -d
  {
  }

  lemma {:induction false} OrBound(a: nat, b: nat, k: nat)
    requires a < Pow2(k) && b < Pow2(k)
    ensures Or(a, b) < Pow2(k)
  {
    if k > 0 {
      OrBound(a / 2, b / 2, k - 1);
    }
  }

  lemma {:induction false} AndBound(a: nat, b: nat)
    ensures And(a, b) <= a
  {
    if a != 0 && b != 0 {
      AndBound(a / 2, b / 2);
    }
  }

  lemma Powers()
    ensures Pow2(16) == TWO_16 && Pow2(32) == TWO_32 && Pow2(64) == TWO_64
  {
    assert Pow2(4) == 16;
    PowAdd(4, 4);
    PowAdd(8, 8);
    PowAdd(16, 16);
    PowAdd(32, 32);
  }

  lemma {:induction false} PowAdd(a: nat, b: nat)
    ensures Pow2(a + b) == Pow2(a) * Pow2(b)
  {
    if a > 0 {
      PowAdd(a - 1, b);
      MulAssociates(2, Pow2(a - 1), Pow2(b));
    }
  }

  lemma MulAssociates(a: int, b: int, c: int)
    ensures a * (b * c) == (a * b) * c
  {
  }

  // ---------------------------------------------------------------------------------------------
  // Word operations on limbs
  // ---------------------------------------------------------------------------------------------

  /** The lower half of a limb, moved up; the upper half drops out. */
  function LowerMovedUp(x: Limb): (moved: Limb)
    ensures moved == TWO_32 * (x % TWO_32) && moved <= TWO_64 - TWO_32
  {
    Halves(x);
    (x * TWO_32) % TWO_64
  }

  /** The upper half of a limb, moved down. */
  function UpperMovedDown(x: Limb): (moved: Limb)
    ensures moved < TWO_32 && x == TWO_32 * moved + x % TWO_32
  {
    Halves(x);
    x / TWO_32
  }

  /** Shift to the left by 32: every limb takes over the upper half of the one below. */
  function Shl32(u: U256): U256 {
    U256(LowerMovedUp(u.l0),
         LowerMovedUp(u.l1) + UpperMovedDown(u.l0),
         LowerMovedUp(u.l2) + UpperMovedDown(u.l1),
         LowerMovedUp(u.l3) + UpperMovedDown(u.l2))
  }

  /** Shift to the right by 32: every limb takes over the lower half of the one above. */
  function Shr32(u: U256): U256 {
    U256(UpperMovedDown(u.l0) + LowerMovedUp(u.l1),
         UpperMovedDown(u.l1) + LowerMovedUp(u.l2),
         UpperMovedDown(u.l2) + LowerMovedUp(u.l3),
         UpperMovedDown(u.l3))
  }

  function OrLimb(a: Limb, b: Limb): Limb {
    Powers();
    OrBound(a, b, 64);
    Or(a, b)
  }

  function AndLimb(a: Limb, b: Limb): Limb {
    AndBound(a, b);
    And(a, b)
  }

  function OrWord(u: U256, v: U256): U256 {
    U256(OrLimb(u.l0, v.l0), OrLimb(u.l1, v.l1), OrLimb(u.l2, v.l2), OrLimb(u.l3, v.l3))
  }

  function AndWord(u: U256, v: U256): U256 {
    U256(AndLimb(u.l0, v.l0), AndLimb(u.l1, v.l1), AndLimb(u.l2, v.l2), AndLimb(u.l3, v.l3))
  }

  lemma DivMod(x: nat, d: nat)
    requires 0 < d
    ensures x == d * (x / d) + x % d && 0 <= x % d < d
  {
  }

  lemma Halves(x: Limb)
    ensures x == TWO_32 * (x / TWO_32) + x % TWO_32
    ensures (x * TWO_32) % TWO_64 == TWO_32 * (x % TWO_32)
    ensures 0 <= x / TWO_32 < TWO_32
  {
    DivMod(x, TWO_32);
    QuotientIsUnique(x * TWO_32, TWO_64, x / TWO_32, TWO_32 * (x % TWO_32));
  }

  /** Shifting right divides. */
  lemma ShrDivides(u: U256)
    ensures Value(Shr32(u)) == Value(u) / TWO_32
  {
    DivMod(u.l0, TWO_32);
    assert Value(u) == TWO_32 * Value(Shr32(u)) + u.l0 % TWO_32;
    QuotientIsUnique(Value(u), TWO_32, Value(Shr32(u)), u.l0 % TWO_32);
  }

  /** Shifting a word left multiplies it, unless bits fall out at the top. */
  lemma ShlMultiplies(u: U256)
    requires u.l3 < TWO_32
    ensures Value(Shl32(u)) == Value(u) * TWO_32
  {
    QuotientIsUnique(u.l3, TWO_32, 0, u.l3);
  }

  // ---------------------------------------------------------------------------------------------
  // Packing
  // ---------------------------------------------------------------------------------------------

  lemma OrFits(a: nat, b: nat)
    requires a % TWO_32 == 0 && a < TWO_64 && b < TWO_32
    ensures Or(a, b) == a + b
  {
    Powers();
    DivMod(a, TWO_32);
    assert a == (a / TWO_32) * Pow2(32);
    OrOfDisjoint(a / TWO_32, b, 32);
  }

  function Pack(v: SemanticVersion): U256
    requires IsVersion(v)
  {
    OrWord(Shl32(FromWord(v.minor)), FromWord(v.patch))
  }

  /** The version id in a word; fails on a word or an id that is too large. */
  function ToVersionId(value: U256): Result<nat, string> {
    if Value(value) > TWO_16 - 1 then Err("unknown protocol version ID")
    else
      var id := value.l0 % TWO_32 % TWO_16;
      if id > LAST_VERSION_ID then Err("unknown protocol version ID") else Ok(id)
  }

  function MaskedMinor(u: U256): U256 {
    AndWord(Shr32(u), FromWord(TWO_16 - 1))
  }

  /** Fails on a version id that does not exist; bits above the minor version are ignored. */
  function TryFromPacked(u: U256): Result<SemanticVersion, string> {
    var minor := ToVersionId(MaskedMinor(u));
    if minor.Err? then Err(minor.error) else Ok(SemanticVersion(minor.value, u.l0 % TWO_32))
  }

  /** On numbers, packing puts the minor version above 32 bits of patch. */
  lemma PackIsArithmetic(v: SemanticVersion)
    requires IsVersion(v)
    ensures Value(Pack(v)) == v.minor * 4294967296 + v.patch
    ensures Value(Pack(v)) < TWO_48
  {
    var shifted := Shl32(FromWord(v.minor));
    ShiftedMinor(v.minor);
    OrFits(shifted.l0, v.patch);
  }

  lemma ShiftedMinor(minor: Limb)
    requires minor < TWO_16
    ensures Shl32(FromWord(minor)) == U256(minor * TWO_32, 0, 0, 0)
    ensures (minor * TWO_32) % TWO_32 == 0
  {
    QuotientIsUnique(minor, TWO_32, 0, minor);
    QuotientIsUnique(0, TWO_32, 0, 0);
    QuotientIsUnique(minor * TWO_32, TWO_32, minor, 0);
  }

  lemma MaskTakesLowBits(u: U256)
    ensures MaskedMinor(u) == FromWord(Shr32(u).l0 % TWO_16)
  {
    Powers();
    AndMask(Shr32(u).l0, 16);
  }

  /** On numbers, unpacking takes the low 48 bits apart; it succeeds exactly on known versions. */
  lemma UnpackIsArithmetic(u: U256)
    ensures
      var minor := (Value(u) / 4294967296) % 65536;
      TryFromPacked(u) ==
        if minor > 25 then Err("unknown protocol version ID")
        else Ok(SemanticVersion(minor, Value(u) % 4294967296))
  {
    MaskTakesLowBits(u);
    ShrDivides(u);
    LowBits(Shr32(u));
    LowHalf(u);
    IdOfSmallWord((Value(u) / TWO_32) % TWO_16);
  }

  lemma IdOfSmallWord(x: Limb)
    requires x < TWO_16
    ensures ToVersionId(FromWord(x)) == if x > LAST_VERSION_ID then Err("unknown protocol version ID") else Ok(x)
  {
    QuotientIsUnique(x, TWO_32, 0, x);
    QuotientIsUnique(x, TWO_16, 0, x);
  }

  lemma LowHalf(u: U256)
    ensures Value(u) % TWO_32 == u.l0 % TWO_32
  {
    var rest := u.l1 + TWO_64 * (u.l2 + TWO_64 * u.l3);
    DivMod(u.l0, TWO_32);
    assert Value(u) == TWO_32 * (u.l0 / TWO_32 + TWO_32 * rest) + u.l0 % TWO_32;
    QuotientIsUnique(Value(u), TWO_32, u.l0 / TWO_32 + TWO_32 * rest, u.l0 % TWO_32);
  }

  lemma LowBits(u: U256)
    ensures Value(u) % TWO_16 == u.l0 % TWO_16
  {
    var rest := u.l1 + TWO_64 * (u.l2 + TWO_64 * u.l3);
    var step := TWO_48 * rest;
    DivMod(u.l0, TWO_16);
    assert Value(u) == TWO_16 * (u.l0 / TWO_16 + step) + u.l0 % TWO_16;
    QuotientIsUnique(Value(u), TWO_16, u.l0 / TWO_16 + step, u.l0 % TWO_16);
  }

  lemma HalvesOfPacked(minor: nat, patch: nat)
    requires patch < TWO_32 && minor < TWO_16
    ensures
      var packed := minor * TWO_32 + patch;
      packed / TWO_32 == minor && packed % TWO_32 == patch && minor % TWO_16 == minor
  {
    QuotientIsUnique(minor * TWO_32 + patch, TWO_32, minor, patch);
    QuotientIsUnique(minor, TWO_16, 0, minor);
  }

  /** Unpacking a packed version gives it back. */
  lemma UnpackAfterPack(v: SemanticVersion)
    requires IsVersion(v)
    ensures TryFromPacked(Pack(v)) == Ok(v)
  {
    PackIsArithmetic(v);
    UnpackOfValue(Pack(v), v);
  }

  lemma UnpackOfValue(u: U256, v: SemanticVersion)
    requires IsVersion(v) && Value(u) == v.minor * TWO_32 + v.patch
    ensures TryFromPacked(u) == Ok(v)
  {
    HalvesOfPacked(v.minor, v.patch);
    UnpackIsArithmetic(u);
  }

  /** Packing an unpacked word gives its low 48 bits. */
  lemma PackAfterUnpack(u: U256)
    requires TryFromPacked(u).Ok?
    ensures IsVersion(TryFromPacked(u).value)
    ensures Value(Pack(TryFromPacked(u).value)) == Value(u) % TWO_48
  {
    UnpackIsArithmetic(u);
    var v := TryFromPacked(u).value;
    PackIsArithmetic(v);
    LowPart(Value(u));
  }

  lemma LowPart(n: nat)
    ensures n % TWO_48 == ((n / TWO_32) % TWO_16) * TWO_32 + n % TWO_32
  {
    var high := n / TWO_32;
    DivMod(n, TWO_32);
    DivMod(high, TWO_16);
    QuotientIsUnique(n, TWO_48, high / TWO_16, (high % TWO_16) * TWO_32 + n % TWO_32);
  }

  /** The other way to pack: the patch is a machine word and is cut to 32 bits. */
  function IntoPackedSemverWithPatch(minor: nat, patch: nat): U256
    requires minor <= LAST_VERSION_ID
  {
    OrWord(Shl32(FromWord(minor)), FromWord(patch % TWO_32))
  }

  /** It unpacks to the version it was given exactly when the patch fits 32 bits. */
  lemma PatchSurvivesExactlyWhenItFits(minor: nat, patch: nat)
    requires minor <= LAST_VERSION_ID
    ensures TryFromPacked(IntoPackedSemverWithPatch(minor, patch)) == Ok(SemanticVersion(minor, patch)) <==> patch < TWO_32
  {
    DivMod(patch, TWO_32);
    if patch < TWO_32 {
      QuotientIsUnique(patch, TWO_32, 0, patch);
    }
    UnpackAfterPack(SemanticVersion(minor, patch % TWO_32));
  }

  predicate Before(v: SemanticVersion, w: SemanticVersion) {
    v.minor < w.minor || (v.minor == w.minor && v.patch < w.patch)
  }

  /** Packing keeps the order of versions, both ways. */
  lemma PackIsMonotone(v: SemanticVersion, w: SemanticVersion)
    requires IsVersion(v) && IsVersion(w)
    ensures Value(Pack(v)) < Value(Pack(w)) <==> Before(v, w)
  {
    PackIsArithmetic(v);
    PackIsArithmetic(w);
    OrderOfNumbers(v, w, Value(Pack(v)), Value(Pack(w)));
  }

  lemma OrderOfNumbers(v: SemanticVersion, w: SemanticVersion, n: nat, m: nat)
    requires IsVersion(v) && IsVersion(w)
    requires n == v.minor * TWO_32 + v.patch && m == w.minor * TWO_32 + w.patch
    ensures n < m <==> Before(v, w)
  {
  }

  // ---------------------------------------------------------------------------------------------
  // The TypeScript side
  // ---------------------------------------------------------------------------------------------

  const SEMVER_MINOR_VERSION_MULTIPLIER: int := 4294967296
  const MAX_SAFE_INTEGER: int := 9007199254740991

  function PackSemver(major: int, minor: int, patch: int): Result<int, string> {
    if major != 0 then Err("Major version must be 0") else Ok(minor * SEMVER_MINOR_VERSION_MULTIPLIER + patch)
  }

  /** Both implementations give the same number, which a double represents exactly. */
  lemma PackSemverAgrees(v: SemanticVersion)
    requires IsVersion(v)
    ensures PackSemver(0, v.minor, v.patch) == Ok(Value(Pack(v)))
    ensures Value(Pack(v)) <= MAX_SAFE_INTEGER
  {
    PackIsArithmetic(v);
    PackSemverIsArithmetic(v.minor, v.patch, Value(Pack(v)));
  }

  lemma PackSemverIsArithmetic(minor: nat, patch: nat, packed: nat)
    requires minor < TWO_16 && patch < TWO_32 && packed == minor * TWO_32 + patch
    ensures PackSemver(0, minor, patch) == Ok(packed)
    ensures packed < TWO_48 <= MAX_SAFE_INTEGER
  {
  }
}
