/** Shared vocabulary of the display HAL model: 32-bit unsigned arithmetic,
    powers of two for the rotator shifts, rectangles and an Option type. */
module Common {

  /** 2^32: every `uint32_t` expression of the source is reduced modulo this. */
  const U32: int := 0x1_0000_0000

  /** A value of a C `uint32_t` field. */
  type u32 = x: int | 0 <= x < U32

  /** A value of a C `int` (32-bit, two's complement). */
  type i32 = x: int | -0x8000_0000 <= x < 0x8000_0000

  /** The value a C `uint32_t` holds after an assignment of the mathematical value `v`. */
  function Wrap(v: int): (r: u32)
    ensures 0 <= v < U32 ==> r == v
  {
    v % U32
  }

  /** Wrapping commutes with subtraction: the source may wrap an inner sum and the outer
      difference separately, the result is the same as wrapping once. */
  lemma WrapSubWrap(a: int, b: int)
    ensures Wrap(a - Wrap(b)) == Wrap(a - b)
  {
    var k := b / U32;
    assert b == k * U32 + Wrap(b);
    assert a - Wrap(b) == (a - b) + k * U32;
    ModAddMultiple(a - b, k);
  }

  /** Wrapping an inner sum before adding does not change the wrapped result. */
  lemma WrapAddWrap(a: int, b: int)
    ensures Wrap(Wrap(a) + b) == Wrap(a + b)
  {
    var k := a / U32;
    assert a == k * U32 + Wrap(a);
    assert Wrap(a) + b == (a + b) + (-k) * U32;
    ModAddMultiple(a + b, -k);
  }

  /** `a + b` in `uint32_t`: the sum of two values wraps at most once. */
  function AddU32(a: u32, b: u32): (r: u32)
  {
    if a + b < U32 then a + b else a + b - U32
  }

  /** `a - b` in `uint32_t`: the difference of two values wraps at most once. */
  function SubU32(a: u32, b: u32): (r: u32)
  {
    if a >= b then a - b else a - b + U32
  }

  /** The two are the C operations: the exact result reduced modulo 2^32. */
  lemma U32Ops(a: u32, b: u32)
    ensures AddU32(a, b) == Wrap(a + b) && SubU32(a, b) == Wrap(a - b)
  {
    WrapNear(a + b);
    WrapNear(a - b);
  }

  /** A value that is at most one period out of range wraps by one period. */
  lemma WrapNear(v: int)
    requires -U32 < v < 2 * U32
    ensures Wrap(v) == if v < 0 then v + U32 else if v >= U32 then v - U32 else v
  {
    if v < 0 {
      DivUnique(v, U32, -1, v + U32);
    } else if v >= U32 {
      DivUnique(v, U32, 1, v - U32);
    }
  }

  /** The C `int` a `uint32_t` value becomes when converted (two's complement). */
  function ToI32(v: u32): (r: i32)
    ensures Wrap(r) == v
    ensures r >= 0 <==> v < 0x8000_0000
  {
    if v < 0x8000_0000 then v else v - U32
  }

  /** Adding a multiple of 2^32 does not change the wrapped value. */
  lemma ModAddMultiple(v: int, k: int)
    ensures (v + k * U32) % U32 == v % U32
  {
    var q := v / U32;
    assert v == q * U32 + v % U32;
    assert v + k * U32 == (q + k) * U32 + v % U32;
  }

  /** 2^n, the factor of a left shift by `n`. */
  function Pow2(n: nat): (r: nat)
    ensures r >= 1
  {
    if n == 0 then 1 else 2 * Pow2(n - 1)
  }

  /** A rectangle of `uint32_t` fields (`mdp_rect`, `overlay_rect` as used here). */
  datatype Rect = Rect(x: u32, y: u32, w: u32, h: u32)

  /** Width and height of a buffer (`mdp_img`'s width/height). */
  datatype Dim = Dim(width: u32, height: u32)

  datatype Option<+T> = None | Some(value: T)

  /** C integer division, which truncates toward zero (Dafny's `/` is Euclidean). */
  function CDiv(a: int, b: int): (q: int)
    requires b != 0
    ensures a >= 0 && b > 0 ==> q == a / b
  {
    if a >= 0 && b > 0 then a / b
    else if a >= 0 then -(a / -b)
    else if b > 0 then -((-a) / b)
    else (-a) / (-b)
  }

  function Max(a: int, b: int): (r: int)
    ensures r >= a && r >= b && (r == a || r == b)
  {
    if a > b then a else b
  }

  /** Division is determined by a quotient and a remainder in range. */
  lemma DivUnique(a: int, d: int, q: int, r: int)
    requires d > 0 && a == d * q + r && 0 <= r < d
    ensures a / d == q && a % d == r
  {
    var q' := a / d;
    var r' := a % d;
    assert d * q + r == d * q' + r';
    assert d * (q - q') == r' - r by {
      assert d * (q - q') == d * q - d * q';
    }
    if q > q' { MulAtLeast(d, q - q'); }
    if q < q' { MulAtLeast(d, q' - q); }
  }

  lemma MulAtLeast(d: int, k: int)
    requires d > 0 && k >= 1
    ensures d * k >= d
  {
    assert d * k == d + d * (k - 1);
  }
}
