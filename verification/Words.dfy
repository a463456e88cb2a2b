/** Fixed-width integers as bytes: the casts, stores and loads of the C side, exact modulo 2^n. */
module Words {

  type Byte = x: int | 0 <= x < 256

  datatype Order = LittleEndian | BigEndian

  function Pow256(n: nat): (r: nat)
    ensures r >= 1
  {
    if n == 0 then 1 else 256 * Pow256(n - 1)
  }

  lemma {:induction false} Pow256Add(m: nat, n: nat)
    ensures Pow256(m + n) == Pow256(m) * Pow256(n)
  {
    if m == 0 {
    } else {
      Pow256Add(m - 1, n);
      MulAssoc(256, Pow256(m - 1), Pow256(n));
    }
  }

  lemma {:induction false} MulAssoc(a: int, b: int, c: int)
    ensures (a * b) * c == a * (b * c)
  {
  }

  lemma {:induction false} MulAtLeast(k: int, d: int)
    requires k >= 1 && d > 0
    ensures k * d >= d
  {
    if k > 1 {
      MulAtLeast(k - 1, d);
      assert k * d == (k - 1) * d + d;
    }
  }

  lemma {:induction false} MulComm(a: int, b: int)
    ensures a * b == b * a
  {
  }

  /** The unique pair behind / and %. */
  lemma {:induction false} DivModUnique(x: int, d: int, q: int, r: int)
    requires d > 0 && 0 <= r < d && x == q * d + r
    ensures x / d == q && x % d == r
  {
    var q', r' := x / d, x % d;
    assert x == q' * d + r';
    assert (q - q') * d == r' - r && (q' - q) * d == r - r';
    if q > q' {
      MulAtLeast(q - q', d);
    } else if q < q' {
      MulAtLeast(q' - q, d);
    }
  }

  lemma {:induction false} ModAddMultiple(x: int, k: int, d: int)
    requires d > 0
    ensures (x + k * d) % d == x % d
  {
    var q, r := x / d, x % d;
    assert x + k * d == (q + k) * d + r;
    DivModUnique(x + k * d, d, q + k, r);
  }

  /** Truncating twice to shrinking widths is truncating once. */
  lemma {:induction false} ModMod(x: int, m: nat, n: nat)
    requires m <= n
    ensures (x % Pow256(n)) % Pow256(m) == x % Pow256(m)
  {
    Pow256Add(n - m, m);
    ModModProduct(x, Pow256(n), Pow256(n - m), Pow256(m));
  }

  lemma {:induction false} ModModProduct(x: int, d: int, a: int, b: int)
    requires d > 0 && b > 0 && d == a * b
    ensures (x % d) % b == x % b
  {
    var k := x / d;
    assert x == k * d + x % d;
    MulAssoc(k, a, b);
    ModAddMultiple(x % d, k * a, b);
  }

  // ---- Bytes ----

  /** Value of a byte string, least significant byte first. */
  function Low(bytes: seq<Byte>): (r: nat)
    ensures r < Pow256(|bytes|)
  {
    if bytes == [] then 0 else bytes[0] + 256 * Low(bytes[1..])
  }

  /** The low-order n bytes of an integer in two's complement. */
  function Digits(x: int, n: nat): (r: seq<Byte>)
    ensures |r| == n
    decreases n
  {
    if n == 0 then [] else [x % 256] + Digits(x / 256, n - 1)
  }

  /** What is left of an integer cut to n bytes. */
  function Residue(x: int, n: nat): (r: nat)
    ensures r < Pow256(n)
    decreases n
  {
    if n == 0 then 0 else x % 256 + 256 * Residue(x / 256, n - 1)
  }

  lemma {:induction false} ResidueIsModulo(x: int, n: nat)
    ensures Residue(x, n) == x % Pow256(n)
    decreases n
  {
    if n > 0 {
      ResidueIsModulo(x / 256, n - 1);
      DivDigits(x, Pow256(n - 1));
    }
  }

  lemma {:induction false} LowDigits(x: int, n: nat)
    ensures Low(Digits(x, n)) == Residue(x, n)
    decreases n
  {
    if n > 0 {
      LowDigits(x / 256, n - 1);
      assert Digits(x, n)[1..] == Digits(x / 256, n - 1);
    }
  }

  /** The bytes depend on the residue only. */
  lemma {:induction false} DigitsOfResidue(x: int, n: nat)
    ensures Digits(Residue(x, n), n) == Digits(x, n)
    ensures Residue(Residue(x, n), n) == Residue(x, n)
  {
    LowDigits(x, n);
    DigitsLow(Digits(x, n));
    LowDigits(Residue(x, n), n);
  }

  lemma {:induction false} DivDigits(x: int, p: nat)
    requires p > 0
    ensures x % (256 * p) == 256 * ((x / 256) % p) + x % 256
  {
    var y := x / 256;
    var q, r := y / p, y % p;
    assert y == q * p + r;
    assert 256 * (q * p) == q * (256 * p) by {
      MulAssoc(q, 256, p);
      MulAssoc(256, q, p);
    }
    DivModUnique(x, 256 * p, q, 256 * r + x % 256);
  }

  lemma {:induction false} DigitsLow(bytes: seq<Byte>)
    ensures Digits(Low(bytes), |bytes|) == bytes
  {
    if bytes != [] {
      DigitsLow(bytes[1..]);
      LowStep(bytes);
    }
  }

  lemma {:induction false} LowPrefix(bytes: seq<Byte>, n: nat)
    requires n <= |bytes|
    ensures Low(bytes[..n]) == Residue(Low(bytes), n)
  {
    if n > 0 {
      LowPrefix(bytes[1..], n - 1);
      assert bytes[..n][1..] == bytes[1..][..n - 1];
      LowStep(bytes);
    }
  }

  lemma {:induction false} LowStep(bytes: seq<Byte>)
    requires bytes != []
    ensures Low(bytes) % 256 == bytes[0] && Low(bytes) / 256 == Low(bytes[1..])
  {
    DivModUnique(Low(bytes), 256, Low(bytes[1..]), bytes[0]);
  }

  function Reverse(bytes: seq<Byte>): (r: seq<Byte>)
    ensures |r| == |bytes| && forall i :: 0 <= i < |r| ==> r[i] == bytes[|bytes| - 1 - i]
  {
    seq(|bytes|, i requires 0 <= i < |bytes| => bytes[|bytes| - 1 - i])
  }

  /** The memory image of an n-byte word, and the word behind a memory image. */
  function Image(order: Order, x: int, n: nat): (r: seq<Byte>)
    ensures |r| == n
  {
    if order == LittleEndian then Digits(x, n) else Reverse(Digits(x, n))
  }

  function Word(order: Order, bytes: seq<Byte>): (r: nat)
    ensures r < Pow256(|bytes|)
  {
    if order == LittleEndian then Low(bytes) else Low(Reverse(bytes))
  }

  lemma {:induction false} WordImage(order: Order, x: int, n: nat)
    ensures Word(order, Image(order, x, n)) == Residue(x, n)
  {
    LowDigits(x, n);
    assert Reverse(Reverse(Digits(x, n))) == Digits(x, n);
  }

  lemma {:induction false} WordOfImage(order: Order, x: nat, n: nat)
    requires x < Pow256(n)
    ensures Word(order, Image(order, x, n)) == x
  {
    WordImage(order, x, n);
    ResidueIsModulo(x, n);
    DivModUnique(x, Pow256(n), 0, x);
  }

  lemma {:induction false} ImageWord(order: Order, bytes: seq<Byte>)
    ensures Image(order, Word(order, bytes), |bytes|) == bytes
  {
    DigitsLow(bytes);
    DigitsLow(Reverse(bytes));
    assert Reverse(Reverse(bytes)) == bytes;
  }

  // ---- C integer types ----

  /** intN_t or uintN_t, N == 8 * bytes. */
  datatype IntType = IntType(bytes: nat, signed: bool)

  function Modulus(t: IntType): int {
    Pow256(t.bytes)
  }

  predicate InRange(t: IntType, x: int) {
    if t.signed then -Modulus(t) <= 2 * x < Modulus(t) else 0 <= x < Modulus(t)
  }

  /** The value of type t congruent to x: what a C cast of x to t gives. */
  function Cast(t: IntType, x: int): int {
    var r := Residue(x, t.bytes);
    if t.signed && 2 * r >= Modulus(t) then r - Modulus(t) else r
  }

  /** That value is in range, congruent to x modulo 2^n, and x itself when x is in range. */
  lemma {:induction false} CastFacts(t: IntType, x: int)
    requires t.bytes > 0
    ensures InRange(t, Cast(t, x))
    ensures Cast(t, x) % Modulus(t) == x % Modulus(t)
    ensures InRange(t, x) ==> Cast(t, x) == x
  {
    var m := Modulus(t);
    var r := Residue(x, t.bytes);
    ResidueIsModulo(x, t.bytes);
    ModAddMultiple(r, -1, m);
    DivModUnique(r, m, 0, r);
    assert m % 2 == 0;
    if InRange(t, x) {
      if x >= 0 {
        DivModUnique(x, m, 0, x);
      } else {
        DivModUnique(x, m, -1, x + m);
      }
    }
  }

  lemma {:induction false} CastOfResidue(t: IntType, x: int)
    ensures Cast(t, Residue(x, t.bytes)) == Cast(t, x)
  {
    DigitsOfResidue(x, t.bytes);
  }

  /** *(T*)p = x, and *(T*)p. */
  function StoreInt(order: Order, t: IntType, x: int): (r: seq<Byte>)
    ensures |r| == t.bytes
  {
    Image(order, x, t.bytes)
  }

  function LoadInt(order: Order, t: IntType, bytes: seq<Byte>): int
    requires |bytes| == t.bytes
  {
    Cast(t, Word(order, bytes))
  }

  /** Store and load: reading back gives the value modulo 2^n with its signedness, so every value
      of the type survives unmolested; and storing what was read changes no byte. */
  lemma {:induction false} StoreLoad(order: Order, t: IntType, x: int)
    requires t.bytes > 0
    ensures LoadInt(order, t, StoreInt(order, t, x)) == Cast(t, x)
    ensures InRange(t, x) ==> LoadInt(order, t, StoreInt(order, t, x)) == x
  {
    WordImage(order, x, t.bytes);
    CastOfResidue(t, x);
    CastFacts(t, x);
  }

  lemma {:induction false} LoadStore(order: Order, t: IntType, bytes: seq<Byte>)
    requires t.bytes > 0 && |bytes| == t.bytes
    ensures StoreInt(order, t, LoadInt(order, t, bytes)) == bytes
  {
    var x := Word(order, bytes);
    CastFacts(t, x);
    SameResidue(Cast(t, x), x, t.bytes);
    ImageWord(order, bytes);
  }

  lemma {:induction false} SameResidue(x: int, y: int, n: nat)
    requires x % Pow256(n) == y % Pow256(n)
    ensures Digits(x, n) == Digits(y, n)
  {
    ResidueIsModulo(x, n);
    ResidueIsModulo(y, n);
    DigitsOfResidue(x, n);
    DigitsOfResidue(y, n);
  }

  // ---- Perl integers ----

  /** SvIV and SvUV of an integer: the 64-bit signed and unsigned casts. */
  const IV := IntType(8, true)
  const UV := IntType(8, false)

  /** What the engine does to store Perl integer x as type t: SvIV or SvUV, then the C cast. */
  function FromPerl(t: IntType, x: int): int {
    Cast(t, Cast(if t.signed then IV else UV, x))
  }

  /** The detour over 64 bits does not show. */
  lemma {:induction false} FromPerlIsCast(t: IntType, x: int)
    requires 0 < t.bytes <= 8
    ensures FromPerl(t, x) == Cast(t, x)
  {
    var wide := if t.signed then IV else UV;
    CastFacts(wide, x);
    ModMod(x, t.bytes, 8);
    ModMod(Cast(wide, x), t.bytes, 8);
    ResidueIsModulo(x, t.bytes);
    ResidueIsModulo(Cast(wide, x), t.bytes);
  }

  /** A Perl scalar where an integer is wanted. */
  datatype PerlInt = Undef | Int(value: int)

  /** SvIV or SvUV, then the C cast; undef counts as 0. */
  function ToC(t: IntType, v: PerlInt): int {
    match v
    case Undef => FromPerl(t, 0)
    case Int(x) => FromPerl(t, x)
  }

  lemma {:induction false} ToCInRange(t: IntType, v: PerlInt)
    requires 0 < t.bytes <= 8
    ensures InRange(t, ToC(t, v)) && InRange(t, 0)
    ensures ToC(t, v) == Cast(t, if v.Undef? then 0 else v.value)
  {
    FromPerlIsCast(t, if v.Undef? then 0 else v.value);
    CastFacts(t, if v.Undef? then 0 else v.value);
  }
}
