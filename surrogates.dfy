/**
 * The UTF-16 surrogate helpers `utf16_hs`, `utf16_ls` and `surr`.
 *
 * The helpers use Python's bit operators on integers; those are written
 * out here on unbounded integers (`&` and `|` bit by bit, the shifts as
 * multiplication and floor division by a power of two), so a negative
 * intermediate value behaves as it does in Python.
 */
module Surrogates {
  import opened Base

  function Pow2(k: nat): (r: nat)
    ensures r >= 1
  {
    if k == 0 then 1 else 2 * Pow2(k - 1)
  }

  /** `x & y` on non-negative integers. */
  function And(x: nat, y: nat): nat
    decreases x
  {
    if x == 0 || y == 0 then 0 else 2 * And(x / 2, y / 2) + (x % 2) * (y % 2)
  }

  /** `x | y` on non-negative integers. */
  function Or(x: nat, y: nat): nat
    decreases x + y
  {
    if x == 0 then y
    else if y == 0 then x
    else 2 * Or(x / 2, y / 2) + (if x % 2 == 1 || y % 2 == 1 then 1 else 0)
  }

  /**
   * Python's `a | b` for a non-negative `b`. For a negative `a` it is
   * `~(~a & ~b)`, and `~a & ~b` is `~a` with the bits of `b` cleared.
   */
  function PyOr(a: int, b: nat): int
  {
    if a >= 0 then Or(a, b) else -((-a - 1) - And(-a - 1, b)) - 1
  }

  /** Python's `x >> k`: floor division by 2^k. */
  function Shr(x: int, k: nat): int
  {
    x / Pow2(k)
  }

  /** Python's `x << k`. */
  function Shl(x: int, k: nat): int
  {
    x * Pow2(k)
  }

  /** `utf16_hs(v)`. */
  function Utf16Hs(v: CodePoint): int
  {
    PyOr(PyOr(Shl(Shr(And(v, 0x1F0000), 16) - 1, 6), Shr(And(v, 0xFC00), 10)), 0xD800)
  }

  /** `utf16_ls(v)`. */
  function Utf16Ls(v: CodePoint): int
  {
    Or(And(v, 0x3FF), 0xDC00)
  }

  /**
   * The code point a surrogate pair encodes (section 2.2 of RFC 2781):
   * ten bits from each surrogate, plus 0x10000.
   */
  function Decode(hs: int, ls: int): int
  {
    (hs - 0xD800) * 0x400 + (ls - 0xDC00) + 0x10000
  }

  /** The bits of `x` from bit `k` up. */
  function High(x: nat, k: nat): nat
  {
    if k == 0 then x else High(x / 2, k - 1)
  }

  /** The low `k` bits of `x`. */
  function Low(x: nat, k: nat): nat
  {
    if k == 0 then 0 else 2 * Low(x / 2, k - 1) + x % 2
  }

  lemma {:induction false} Decompose(x: nat, k: nat)
    ensures x == High(x, k) * Pow2(k) + Low(x, k)
    ensures Low(x, k) < Pow2(k)
  {
    if k > 0 {
      Decompose(x / 2, k - 1);
      var h, l, p := High(x / 2, k - 1), Low(x / 2, k - 1), Pow2(k - 1);
      assert x / 2 == h * p + l;
      assert x == 2 * (h * p) + 2 * l + x % 2;
      assert h * Pow2(k) == 2 * (h * p);
    }
  }

  /** Masking with 2^k - 1 keeps the low `k` bits. */
  lemma {:induction false} AndLowMask(x: nat, k: nat)
    ensures And(x, Pow2(k) - 1) == Low(x, k)
  {
    if k > 0 {
      AndLowMask(x / 2, k - 1);
      var p := Pow2(k - 1);
      assert (2 * p - 1) / 2 == p - 1 && (2 * p - 1) % 2 == 1;
    }
  }

  /** Masking with `m` shifted left by `k` is masking the high part with `m`, shifted back. */
  lemma {:induction false} AndShifted(x: nat, m: nat, k: nat)
    ensures And(x, m * Pow2(k)) == And(High(x, k), m) * Pow2(k)
  {
    if k > 0 {
      var p := Pow2(k - 1);
      Doubling(m, p);
      if x == 0 {
        AllZeroHigh(k);
      } else if m != 0 {
        MulAtLeast(m, p);
        AndShifted(x / 2, m, k - 1);
        AndDoubled(x, m * p);
        Doubling(And(High(x / 2, k - 1), m), p);
      }
    }
  }

  lemma AndDoubled(x: nat, t: nat)
    requires x != 0 && t != 0
    ensures And(x, 2 * t) == 2 * And(x / 2, t)
  {
    assert (2 * t) / 2 == t && (2 * t) % 2 == 0;
  }

  lemma Doubling(a: int, p: int)
    ensures a * (2 * p) == 2 * (a * p)
  {
  }

  lemma {:induction false} AllZeroHigh(k: nat)
    ensures High(0, k) == 0
  {
    if k > 0 {
      AllZeroHigh(k - 1);
    }
  }

  /** Or-ing bits below bit `k` into a multiple of 2^k adds them. */
  lemma {:induction false} OrDisjoint(a: nat, b: nat, k: nat)
    requires b < Pow2(k)
    ensures Or(a * Pow2(k), b) == a * Pow2(k) + b
  {
    if k > 0 && a != 0 && b != 0 {
      var t := a * Pow2(k - 1);
      assert a * Pow2(k) == 2 * t;
      assert (2 * t) / 2 == t && (2 * t) % 2 == 0;
      OrDisjoint(a, b / 2, k - 1);
    }
  }

  lemma {:induction false} OrCommutes(x: nat, y: nat)
    ensures Or(x, y) == Or(y, x)
    decreases x + y
  {
    if x != 0 && y != 0 {
      OrCommutes(x / 2, y / 2);
    }
  }

  lemma {:induction false} AndBelow(x: nat, y: nat)
    ensures And(x, y) <= x
    decreases x
  {
    if x != 0 && y != 0 {
      AndBelow(x / 2, y / 2);
    }
  }

  lemma PowersOfTwo()
    ensures Pow2(5) == 32 && Pow2(6) == 64 && Pow2(10) == 0x400 && Pow2(11) == 0x800 && Pow2(16) == 0x10000
  {
  }

  lemma MulAtLeast(a: int, d: int)
    requires a >= 1 && d > 0
    ensures a * d >= d
  {
    assert a * d == (a - 1) * d + d;
    MulNonNegative(a - 1, d);
  }

  lemma MulNonNegative(b: int, d: int)
    requires b >= 0 && d > 0
    ensures b * d >= 0
  {
  }

  lemma Distributes(q: int, h: int, d: int)
    ensures q * d - h * d == (q - h) * d
  {
  }

  /** Quotient and remainder are unique. */
  lemma DivMod(x: int, h: int, l: int, d: int)
    requires d > 0 && x == h * d + l && 0 <= l < d
    ensures x / d == h && x % d == l
  {
    var q, r := x / d, x % d;
    assert x == q * d + r && 0 <= r < d;
    Distributes(q, h, d);
    assert (q - h) * d == l - r;
    if q > h {
      MulAtLeast(q - h, d);
    } else if q < h {
      Distributes(h, q, d);
      MulAtLeast(h - q, d);
    }
  }

  /** The plane field `v & 0x1F0000`. */
  lemma PlaneField(v: CodePoint)
    ensures And(v, 0x1F0000) == v / 0x10000 * 0x10000
  {
    PowersOfTwo();
    Decompose(v, 16);
    DivMod(v, High(v, 16), Low(v, 16), 0x10000);
    AndShifted(v, 0x1F, 16);
    var p := High(v, 16);
    assert p == v / 0x10000 && p <= 0x10;
    AndLowMask(p, 5);
    Decompose(p, 5);
    DivMod(p, 0, p, 32);
    DivMod(p, High(p, 5), Low(p, 5), 32);
    assert Low(p, 5) == p;
    assert And(v, 0x1F0000) == And(p, 0x1F) * 0x10000;
  }

  /** The field `v & 0xFC00`: the top six bits of the offset within the plane. */
  lemma MidField(v: CodePoint)
    ensures And(v, 0xFC00) == v % 0x10000 / 0x400 * 0x400
  {
    PowersOfTwo();
    Decompose(v, 10);
    DivMod(v, High(v, 10), Low(v, 10), 0x400);
    AndShifted(v, 0x3F, 10);
    var h := High(v, 10);
    AndLowMask(h, 6);
    Decompose(h, 6);
    DivMod(h, High(h, 6), Low(h, 6), 64);
    var a, b := v / 0x10000, v % 0x10000;
    DivMod(v, a * 64 + b / 0x400, b % 0x400, 0x400);
    DivMod(h, a, b / 0x400, 64);
  }

  /** The field `v & 0x3FF`. */
  lemma LowField(v: CodePoint)
    ensures And(v, 0x3FF) == v % 0x400
  {
    PowersOfTwo();
    AndLowMask(v, 10);
    Decompose(v, 10);
    DivMod(v, High(v, 10), Low(v, 10), 0x400);
  }

  /** A code point is its plane, six middle bits and ten low bits. */
  lemma Split(v: CodePoint)
    ensures v == v / 0x10000 * 0x10000 + v % 0x10000 / 0x400 * 0x400 + v % 0x400
    ensures v / 0x10000 <= 0x10 && v % 0x10000 / 0x400 < 64
  {
    var a, b := v / 0x10000, v % 0x10000;
    DivMod(v, a * 64 + b / 0x400, b % 0x400, 0x400);
  }

  /**
   * For a supplementary code point the helpers give the surrogates of
   * section 2.1 of RFC 2781: U' = v - 0x10000, the high surrogate carries
   * the top ten bits of U' and the low surrogate the bottom ten.
   */
  lemma SurrogatesOfSupplementary(v: CodePoint)
    requires 0x10000 <= v
    ensures Utf16Hs(v) == 0xD800 + (v - 0x10000) / 0x400
    ensures Utf16Ls(v) == 0xDC00 + (v - 0x10000) % 0x400
    ensures 0xD800 <= Utf16Hs(v) <= 0xDBFF && 0xDC00 <= Utf16Ls(v) <= 0xDFFF
  {
    PlaneField(v);
    MidField(v);
    LowField(v);
    PowersOfTwo();
    Split(v);
    var plane, mid, low := v / 0x10000, v % 0x10000 / 0x400, v % 0x400;
    DivMod(v - 0x10000, (plane - 1) * 64 + mid, low, 0x400);
    assert Shr(And(v, 0x1F0000), 16) == plane;
    assert Shr(And(v, 0xFC00), 10) == mid;
    assert Shl(plane - 1, 6) == (plane - 1) * 64;
    OrDisjoint(plane - 1, mid, 6);
    var x := (plane - 1) * 64 + mid;
    assert PyOr(Shl(plane - 1, 6), mid) == x;
    OrDisjoint(27, x, 11);
    OrCommutes(x, 0xD800);
    assert Utf16Hs(v) == 0xD800 + x;
    OrDisjoint(55, low, 10);
    OrCommutes(low, 0xDC00);
    assert Utf16Ls(v) == 0xDC00 + low;
  }

  /** Below U+10000 the plane field is zero. */
  lemma PlaneOfBasic(v: CodePoint)
    requires v < 0x10000
    ensures Shr(And(v, 0x1F0000), 16) == 0
  {
    PlaneField(v);
    PowersOfTwo();
  }

  /** Or-ing a non-negative value into a negative one leaves it negative. */
  lemma PyOrNegative(a: int, b: nat)
    requires a < 0
    ensures PyOr(a, b) < 0
  {
    AndBelow(-a - 1, b);
  }

  /** For a code point below U+10000, `utf16_hs` is negative. */
  lemma HighSurrogateOfBasicIsNegative(v: CodePoint)
    requires v < 0x10000
    ensures Utf16Hs(v) < 0
  {
    PlaneOfBasic(v);
    PowersOfTwo();
    assert Shl(-1, 6) == -64;
    var mid: nat := Shr(And(v, 0xFC00), 10);
    PyOrNegative(-64, mid);
    PyOrNegative(PyOr(-64, mid), 0xD800);
  }

  /**
   * `surr(c)`: the surrogate pair of a one-character string. Its guard
   * `cor <= 0x10000 or cor <= 0x10FFFF` holds for every code point, so a
   * character below U+10000 reaches `chr` with a negative high surrogate,
   * which raises `ValueError`.
   */
  function Surr(c: Str): (r: Result<Str>)
    ensures |c| != 1 ==> r == Failure(TypeError)
    ensures r.Success? <==> |c| == 1 && 0x10000 <= c[0]
    ensures |c| == 1 && c[0] < 0x10000 ==> r == Failure(ValueError)
    ensures r.Success? ==>
      && |r.value| == 2
      && 0xD800 <= r.value[0] <= 0xDBFF
      && 0xDC00 <= r.value[1] <= 0xDFFF
      && Decode(r.value[0], r.value[1]) == c[0]
  {
    if |c| != 1 then Failure(TypeError)
    else if c[0] <= 0x10000 || c[0] <= MaxCodePoint then
      var r := Join(Chr(Utf16Hs(c[0])), Chr(Utf16Ls(c[0])));
      if c[0] < 0x10000 then HighSurrogateOfBasicIsNegative(c[0]); r
      else SurrogatesOfSupplementary(c[0]); r
    else Failure(ValueError)
  }

  /** `''.join((chr(hs), chr(ls)))`, raising at the first `chr` that fails. */
  function Join(hs: Result<CodePoint>, ls: Result<CodePoint>): Result<Str>
  {
    if hs.Failure? then Failure(hs.error) else if ls.Failure? then Failure(ls.error) else Success([hs.value, ls.value])
  }
}
