/** Bytes as integers 0..255, their bits, and the byte orders the program uses. */
module Bytes {

  type Byte = x: int | 0 <= x < 256

  /** The number of 64-bit words. */
  const WORD: nat := 0x1_0000_0000_0000_0000

  function Pow2(k: nat): (p: nat)
    ensures p > 0
  {
    if k == 0 then 1 else 2 * Pow2(k - 1)
  }

  /** Bit k of b, least significant first: `(b >> k) & 1`. */
  predicate Bit(b: nat, k: nat) {
    if k == 0 then b % 2 == 1 else Bit(b / 2, k - 1)
  }

  /** `b | (1 << k)`. */
  function SetBit(b: nat, k: nat): nat {
    if k == 0 then b / 2 * 2 + 1 else 2 * SetBit(b / 2, k - 1) + b % 2
  }

  /** The recursive definition is the shift-and-mask of the source. */
  lemma {:induction false} BitIsShift(b: nat, k: nat)
    ensures Bit(b, k) <==> (b / Pow2(k)) % 2 == 1
  {
    if k > 0 {
      BitIsShift(b / 2, k - 1);
      DivTwice(b, Pow2(k - 1));
    }
  }

  /** Bit j of a byte string in the source's own terms. */
  lemma BitAtIsShift(s: seq<Byte>, j: nat)
    requires j < 8 * |s|
    ensures BitAt(s, j) <==> (s[j / 8] / Pow2(j % 8)) % 2 == 1
  {
    BitIsShift(s[j / 8], j % 8);
  }

  lemma DivTwice(b: nat, p: nat)
    requires p > 0
    ensures b / 2 / p == b / (2 * p)
  {
    var q := b / 2 / p;
    var r := b / 2 % p;
    assert b / 2 == q * p + r;
    assert b == q * (2 * p) + (2 * r + b % 2);
    DivUnique(b, 2 * p, q, 2 * r + b % 2);
  }

  lemma DivUnique(x: int, d: int, q: int, r: int)
    requires d > 0 && 0 <= r < d && x == q * d + r
    ensures x / d == q && x % d == r
  {
    QuotientUnique(d, q, r, x / d, x % d);
  }

  lemma QuotientUnique(d: int, q: int, r: int, q': int, r': int)
    requires 0 <= r < d && 0 <= r' < d
    requires q * d + r == q' * d + r'
    ensures q == q' && r == r'
  {
    var g := q - q';
    var h := q' - q;
    assert g * d == r' - r && h * d == r - r';
    if g >= 1 {
      MulAtLeast(g, d);
    } else if h >= 1 {
      MulAtLeast(h, d);
    }
  }

  lemma MulAtLeast(g: int, d: int)
    requires g >= 1 && d >= 0
    ensures g * d >= d
  {
    assert (g - 1) * d >= 0;
  }

  lemma {:induction false} SetBitBits(b: nat, k: nat, j: nat)
    ensures Bit(SetBit(b, k), j) <==> j == k || Bit(b, j)
  {
    if k > 0 {
      assert SetBit(b, k) / 2 == SetBit(b / 2, k - 1);
      if j > 0 {
        SetBitBits(b / 2, k - 1, j - 1);
      }
    } else if j > 0 {
      assert SetBit(b, k) / 2 == b / 2;
    }
  }

  lemma {:induction false} SetBitBound(b: nat, k: nat, n: nat)
    requires b < Pow2(n) && k < n
    ensures SetBit(b, k) < Pow2(n)
  {
    if k > 0 {
      SetBitBound(b / 2, k - 1, n - 1);
    }
  }

  lemma Pow2Of8()
    ensures Pow2(8) == 256
  {
    assert Pow2(4) == 16;
    assert Pow2(8) == 2 * (2 * (2 * (2 * Pow2(4))));
  }

  /** Values below 2^n with the same n bits are equal. */
  lemma {:induction false} SameBits(a: nat, b: nat, n: nat)
    requires a < Pow2(n) && b < Pow2(n)
    requires forall k :: 0 <= k < n ==> Bit(a, k) == Bit(b, k)
    ensures a == b
  {
    if n > 0 {
      forall k | 0 <= k < n - 1 ensures Bit(a / 2, k) == Bit(b / 2, k) {
        assert Bit(a, k + 1) == Bit(b, k + 1);
      }
      SameBits(a / 2, b / 2, n - 1);
      assert Bit(a, 0) == Bit(b, 0);
    }
  }

  // ----- a byte string read as one long row of bits -----

  /** Bit j of a byte string: `s[j>>3] >> (j&7) & 1`. */
  predicate BitAt(s: seq<Byte>, j: nat)
    requires j < 8 * |s|
  {
    Bit(s[j / 8], j % 8)
  }

  function OrBit(b: Byte, k: nat): Byte
    requires k < 8
  {
    Pow2Of8();
    SetBitBound(b, k, 8);
    SetBit(b, k)
  }

  /** `s[p>>3] |= 1 << (p&7)` turns on bit p and no other. */
  lemma OrBitAt(s: seq<Byte>, p: nat, j: nat)
    requires p < 8 * |s| && j < 8 * |s|
    ensures BitAt(s[p / 8 := OrBit(s[p / 8], p % 8)], j) <==> j == p || BitAt(s, j)
  {
    if j / 8 == p / 8 {
      SetBitBits(s[p / 8], p % 8, j % 8);
    }
  }

  /** Byte strings of equal length with equal bits are equal. */
  lemma SameBitRow(s: seq<Byte>, t: seq<Byte>)
    requires |s| == |t|
    requires forall j :: 0 <= j < 8 * |s| ==> BitAt(s, j) == BitAt(t, j)
    ensures s == t
  {
    forall i | 0 <= i < |s| ensures s[i] == t[i] {
      Pow2Of8();
      forall k | 0 <= k < 8 ensures Bit(s[i], k) == Bit(t[i], k) {
        assert BitAt(s, 8 * i + k) == BitAt(t, 8 * i + k);
      }
      SameBits(s[i], t[i], 8);
    }
  }

  /** The byte string of n bytes whose bit j is f(j). */
  function FromBits(n: nat, f: nat -> bool): (s: seq<Byte>)
    ensures |s| == n
    ensures forall j :: 0 <= j < 8 * n ==> BitAt(s, j) == f(j)
  {
    var s := seq(n, i requires 0 <= i < n => ByteOf(f, 8 * i, 8));
    assert forall j :: 0 <= j < 8 * n ==> BitAt(s, j) == f(j) by {
      forall j | 0 <= j < 8 * n ensures BitAt(s, j) == f(j) {
        assert j == 8 * (j / 8) + j % 8;
        assert s[j / 8] == ByteOf(f, 8 * (j / 8), 8);
      }
    }
    s
  }

  function ByteOf(f: nat -> bool, base: nat, n: nat): (b: nat)
    ensures b < Pow2(n)
    ensures n == 8 ==> b < 256
    ensures forall k :: 0 <= k < n ==> Bit(b, k) == f(base + k)
    decreases n
  {
    if n == 0 then 0
    else
      var low := if f(base) then 1 else 0;
      var high := ByteOf(f, base + 1, n - 1);
      var b := 2 * high + low;
      assert b / 2 == high;
      assert forall k :: 0 <= k < n ==> Bit(b, k) == f(base + k) by {
        forall k | 0 <= k < n ensures Bit(b, k) == f(base + k) {
          if k > 0 {
            assert Bit(b, k) == Bit(high, k - 1) == f(base + 1 + (k - 1));
          }
        }
      }
      Pow2Of8();
      b
  }

  // ----- byte orders -----

  /** Big-endian bytes of v, w bytes wide. */
  function BigEndian(v: nat, w: nat): (s: seq<Byte>)
    ensures |s| == w
  {
    if w == 0 then [] else BigEndian(v / 256, w - 1) + [v % 256]
  }

  function FromBigEndian(s: seq<Byte>): nat {
    if s == [] then 0 else 256 * FromBigEndian(s[..|s| - 1]) + s[|s| - 1]
  }

  function Pow256(w: nat): (p: nat)
    ensures p > 0
  {
    if w == 0 then 1 else 256 * Pow256(w - 1)
  }

  lemma {:induction false} BigEndianRoundTrip(v: nat, w: nat)
    requires v < Pow256(w)
    ensures FromBigEndian(BigEndian(v, w)) == v
  {
    if w > 0 {
      BigEndianRoundTrip(v / 256, w - 1);
      assert BigEndian(v, w)[..w - 1] == BigEndian(v / 256, w - 1);
    }
  }

  lemma DivDiv(v: nat, a: nat, b: nat)
    requires a > 0 && b > 0
    ensures v / a / b == v / (a * b)
  {
    var q, r := v / a / b, v / a % b;
    var m := v % a;
    assert v == (q * b + r) * a + m == q * (a * b) + (r * a + m);
    assert r * a + m < a * b by {
      MulAtLeast(b - r, a);
      assert (b - r) * a == a * b - r * a;
    }
    DivUnique(v, a * b, q, r * a + m);
  }

  /** Byte i of a big-endian field of w bytes counts 256^(w-1-i). */
  lemma {:induction false} BigEndianAt(v: nat, w: nat, i: nat)
    requires i < w
    ensures BigEndian(v, w)[i] == v / Pow256(w - 1 - i) % 256
    decreases w
  {
    if i < w - 1 {
      BigEndianAt(v / 256, w - 1, i);
      DivDiv(v, 256, Pow256(w - 2 - i));
    }
  }

  /** Every byte string is the field of exactly the value it is read as. */
  lemma {:induction false} FromBigEndianOnto(s: seq<Byte>)
    ensures FromBigEndian(s) < Pow256(|s|) && BigEndian(FromBigEndian(s), |s|) == s
    decreases |s|
  {
    if s != [] {
      FromBigEndianOnto(s[..|s| - 1]);
      assert s == s[..|s| - 1] + [s[|s| - 1]];
    }
  }

  /** Little-endian value of a byte string. */
  function LittleEndian(s: seq<Byte>): nat {
    if s == [] then 0 else s[0] + 256 * LittleEndian(s[1..])
  }

  lemma ModStep(x: nat, p: nat)
    requires p > 0
    ensures x % (256 * p) == x / 256 % p * 256 + x % 256
  {
    var q, r := x / 256 / p, x / 256 % p;
    assert x / 256 == q * p + r;
    assert x == q * (256 * p) + (r * 256 + x % 256);
    DivUnique(x, 256 * p, q, r * 256 + x % 256);
  }

  /** The low bytes of a number, lowest first, are its value modulo a power of 256. */
  lemma {:induction false} LittleEndianOf(x: nat, s: seq<Byte>)
    requires forall i :: 0 <= i < |s| ==> s[i] == x / Pow256(i) % 256
    ensures LittleEndian(s) == x % Pow256(|s|)
    decreases |s|
  {
    if s != [] {
      forall i | 0 <= i < |s| - 1 ensures s[1..][i] == x / 256 / Pow256(i) % 256 {
        DivDiv(x, 256, Pow256(i));
        assert s[i + 1] == x / Pow256(i + 1) % 256;
      }
      ModStep(x, Pow256(|s| - 1));
      assert s[0] == x / Pow256(0) % 256;
      LittleEndianOf(x / 256, s[1..]);
    }
  }

  lemma {:induction false} LittleEndianInjective(s: seq<Byte>, t: seq<Byte>)
    requires |s| == |t| && LittleEndian(s) == LittleEndian(t)
    ensures s == t
  {
    if s != [] {
      assert s[0] == t[0];
      LittleEndianInjective(s[1..], t[1..]);
      assert s == [s[0]] + s[1..] && t == [t[0]] + t[1..];
    }
  }
}
