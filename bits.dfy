/** The bit helpers of the pseudocode runtime (`src/extensions/bits_defs.py`)
    on non-negative integers. Python's `&`, `|` and `^` on non-negative
    integers are defined here bit by bit, by recursion on the binary
    digits; `Bit(x, i)` is the i-th binary digit of `x`. `~x & mask` is
    written with Python's `~x == -x - 1` and the fact that `&` with
    `2^w - 1` keeps the residue modulo `2^w`, which for every integer is
    the non-negative remainder Dafny's `%` computes. */
module Bits {
  import opened Text

  /** `1 << p`. */
  function Pow2(p: nat): (r: nat)
    ensures r >= 1
  {
    if p == 0 then 1 else 2 * Pow2(p - 1)
  }

  /** Bit `i` of `x`: `(x >> i) & 1 == 1`. */
  predicate Bit(x: nat, i: nat) {
    (x / Pow2(i)) % 2 == 1
  }

  /** `a & b`. */
  function And(a: nat, b: nat): nat
    decreases a + b
  {
    if a == 0 || b == 0 then 0
    else 2 * And(a / 2, b / 2) + (if a % 2 == 1 && b % 2 == 1 then 1 else 0)
  }

  /** `a | b`. */
  function Or(a: nat, b: nat): nat
    decreases a + b
  {
    if a == 0 then b
    else if b == 0 then a
    else 2 * Or(a / 2, b / 2) + (if a % 2 == 1 || b % 2 == 1 then 1 else 0)
  }

  /** `a ^ b`. */
  function Xor(a: nat, b: nat): nat
    decreases a + b
  {
    if a == 0 then b
    else if b == 0 then a
    else 2 * Xor(a / 2, b / 2) + (if a % 2 != b % 2 then 1 else 0)
  }

  // ---------------------------------------------------------------------
  // The helpers

  /** `SET_BIT(x, p)`: `x | (1 << p)`. */
  function SetBit(x: nat, p: nat): nat
  {
    Or(x, Pow2(p))
  }

  /** `UNSET_BIT(x, p)`: `SET_BIT(x, p) ^ (1 << p)`. */
  function UnsetBit(x: nat, p: nat): nat
  {
    Xor(SetBit(x, p), Pow2(p))
  }

  /** `BIT_IS_SET(x, p)`: `x & (1 << p) != 0`. */
  predicate BitIsSet(x: nat, p: nat)
  {
    And(x, Pow2(p)) != 0
  }

  /** `BIT_AND`, `BIT_OR`, `BIT_XOR`. */
  function BitAnd(a: nat, b: nat): nat { And(a, b) }
  function BitOr(a: nat, b: nat): nat { Or(a, b) }
  function BitXor(a: nat, b: nat): nat { Xor(a, b) }

  /** `(~x) & (2^w - 1)` for any integer `x`. */
  function BitNot(x: int, w: nat): (r: nat)
    ensures r < Pow2(w)
  {
    (-x - 1) % Pow2(w)
  }

  /** `BIT_NOT_8`, `BIT_NOT_16`, `BIT_NOT_32`. */
  function BitNot8(x: int): nat { BitNot(x, 8) }
  function BitNot16(x: int): nat { BitNot(x, 16) }
  function BitNot32(x: int): nat { BitNot(x, 32) }

  // ---------------------------------------------------------------------
  // Binary digits

  /** The digits of `x` are its last digit and then the digits of `x / 2`. */
  lemma BitStep(x: nat, i: nat)
    ensures Bit(x, 0) == (x % 2 == 1)
    ensures Bit(x, i + 1) == Bit(x / 2, i)
  {
    var m := Pow2(i);
    var q := (x / 2) / m;
    var r := (x / 2) % m;
    assert x / 2 == q * m + r;
    assert x == q * (2 * m) + (2 * r + x % 2);
    ModUnique(x, 2 * m, q, 2 * r + x % 2);
  }

  lemma NoBitsOfZero(i: nat)
    ensures !Bit(0, i)
  {
  }

  /** Two numbers with the same digits are the same number. */
  lemma {:induction false} BitsEqual(a: nat, b: nat)
    requires forall i: nat :: Bit(a, i) == Bit(b, i)
    ensures a == b
    decreases a + b
  {
    if a != 0 || b != 0 {
      BitStep(a, 0);
      BitStep(b, 0);
      forall i: nat
        ensures Bit(a / 2, i) == Bit(b / 2, i)
      {
        BitStep(a, i);
        BitStep(b, i);
      }
      BitsEqual(a / 2, b / 2);
    }
  }

  /** The only digit of `2^p` is digit `p`. */
  lemma {:induction false} PowBit(p: nat, i: nat)
    ensures Bit(Pow2(p), i) == (i == p)
  {
    BitStep(Pow2(p), 0);
    if i > 0 {
      BitStep(Pow2(p), i - 1);
      if p > 0 {
        PowBit(p - 1, i - 1);
      } else {
        NoBitsOfZero(i - 1);
      }
    }
  }

  /** A number written as digits: `2 * h + d` has last digit `d` and then
      the digits of `h`. */
  lemma Digits(h: nat, d: nat, i: nat)
    requires d < 2
    ensures Bit(2 * h + d, 0) == (d == 1)
    ensures Bit(2 * h + d, i + 1) == Bit(h, i)
  {
    BitStep(2 * h + d, i);
    assert (2 * h + d) / 2 == h;
  }

  lemma {:induction false} AndBits(a: nat, b: nat, i: nat)
    ensures Bit(And(a, b), i) == (Bit(a, i) && Bit(b, i))
    decreases a + b
  {
    BitStep(a, 0);
    BitStep(b, 0);
    if a == 0 || b == 0 {
      NoBitsOfZero(i);
    } else {
      var c := if a % 2 == 1 && b % 2 == 1 then 1 else 0;
      var h := And(a / 2, b / 2);
      assert And(a, b) == 2 * h + c;
      if i == 0 {
        Digits(h, c, 0);
        assert (c == 1) == ((a % 2 == 1) && (b % 2 == 1));
      } else {
        var j := i - 1;
        Digits(h, c, j);
        BitStep(a, j);
        BitStep(b, j);
        AndBits(a / 2, b / 2, j);
        assert Bit(And(a, b), i) == Bit(h, j);
      }
    }
  }

  lemma {:induction false} OrBits(a: nat, b: nat, i: nat)
    ensures Bit(Or(a, b), i) == (Bit(a, i) || Bit(b, i))
    decreases a + b
  {
    BitStep(a, 0);
    BitStep(b, 0);
    if a == 0 || b == 0 {
      NoBitsOfZero(i);
    } else {
      var c := if a % 2 == 1 || b % 2 == 1 then 1 else 0;
      var h := Or(a / 2, b / 2);
      assert Or(a, b) == 2 * h + c;
      if i == 0 {
        Digits(h, c, 0);
        assert (c == 1) == ((a % 2 == 1) || (b % 2 == 1));
      } else {
        var j := i - 1;
        Digits(h, c, j);
        BitStep(a, j);
        BitStep(b, j);
        OrBits(a / 2, b / 2, j);
        assert Bit(Or(a, b), i) == Bit(h, j);
      }
    }
  }


  lemma {:induction false} XorBits(a: nat, b: nat, i: nat)
    ensures Bit(Xor(a, b), i) == (Bit(a, i) != Bit(b, i))
    decreases a + b
  {
    if a == 0 || b == 0 {
      NoBitsOfZero(i);
    } else {
      var c := if a % 2 != b % 2 then 1 else 0;
      var h := Xor(a / 2, b / 2);
      assert Xor(a, b) == 2 * h + c;
      if i == 0 {
        Digits(h, c, 0);
        BitStep(a, 0);
        BitStep(b, 0);
        assert (c == 1) == ((a % 2 == 1) != (b % 2 == 1));
      } else {
        var j := i - 1;
        Digits(h, c, j);
        BitStep(a, j);
        BitStep(b, j);
        XorBits(a / 2, b / 2, j);
        assert Bit(Xor(a, b), i) == Bit(h, j);
      }
    }
  }

  // ---------------------------------------------------------------------
  // What the helpers do

  /** `SET_BIT(x, p)` has bit `p` set and every other bit of `x`. */
  lemma SetBitBits(x: nat, p: nat, i: nat)
    ensures Bit(SetBit(x, p), i) == (i == p || Bit(x, i))
  {
    OrBits(x, Pow2(p), i);
    PowBit(p, i);
  }

  /** `UNSET_BIT(x, p)` has bit `p` clear and every other bit of `x`. */
  lemma UnsetBitBits(x: nat, p: nat, i: nat)
    ensures Bit(UnsetBit(x, p), i) == (i != p && Bit(x, i))
  {
    XorBits(SetBit(x, p), Pow2(p), i);
    SetBitBits(x, p, i);
    PowBit(p, i);
  }

  /** `BIT_IS_SET(x, p)` tests bit `p`: `(x / 2^p) % 2 == 1`. */
  lemma BitIsSetIff(x: nat, p: nat)
    ensures BitIsSet(x, p) <==> (x / Pow2(p)) % 2 == 1
  {
    AndBits(x, Pow2(p), p);
    PowBit(p, p);
    NoBitsOfZero(p);
    if !Bit(x, p) {
      forall i: nat
        ensures Bit(And(x, Pow2(p)), i) == Bit(0, i)
      {
        AndBits(x, Pow2(p), i);
        PowBit(p, i);
        NoBitsOfZero(i);
      }
      BitsEqual(And(x, Pow2(p)), 0);
    }
  }

  /** Hence the bit `SET_BIT` sets is set and the one `UNSET_BIT` clears
      is clear. */
  lemma SetThenTest(x: nat, p: nat)
    ensures BitIsSet(SetBit(x, p), p)
    ensures !BitIsSet(UnsetBit(x, p), p)
  {
    BitIsSetIff(SetBit(x, p), p);
    SetBitBits(x, p, p);
    BitIsSetIff(UnsetBit(x, p), p);
    UnsetBitBits(x, p, p);
  }

  /** Setting a bit twice sets it once; so does clearing it. */
  lemma SetBitIdempotent(x: nat, p: nat)
    ensures SetBit(SetBit(x, p), p) == SetBit(x, p)
    ensures UnsetBit(UnsetBit(x, p), p) == UnsetBit(x, p)
  {
    forall i: nat
      ensures Bit(SetBit(SetBit(x, p), p), i) == Bit(SetBit(x, p), i)
    {
      SetBitBits(SetBit(x, p), p, i);
      SetBitBits(x, p, i);
    }
    BitsEqual(SetBit(SetBit(x, p), p), SetBit(x, p));
    forall i: nat
      ensures Bit(UnsetBit(UnsetBit(x, p), p), i) == Bit(UnsetBit(x, p), i)
    {
      UnsetBitBits(UnsetBit(x, p), p, i);
      UnsetBitBits(x, p, i);
    }
    BitsEqual(UnsetBit(UnsetBit(x, p), p), UnsetBit(x, p));
  }

  /** `&`, `|` and `^` do not depend on the order of their operands, and
      `a ^ a == 0`. */
  lemma {:induction false} BitOpsCommute(a: nat, b: nat)
    ensures BitAnd(a, b) == BitAnd(b, a)
    ensures BitOr(a, b) == BitOr(b, a)
    ensures BitXor(a, b) == BitXor(b, a)
    decreases a + b
  {
    if a != 0 && b != 0 {
      BitOpsCommute(a / 2, b / 2);
    }
  }

  lemma {:induction false} XorSelf(a: nat)
    ensures BitXor(a, a) == 0
  {
    forall i: nat
      ensures Bit(Xor(a, a), i) == Bit(0, i)
    {
      XorBits(a, a, i);
      NoBitsOfZero(i);
    }
    BitsEqual(Xor(a, a), 0);
  }

  // ---------------------------------------------------------------------
  // Complement in a word of w bits

  /** On `[0, 2^w)` the complement is `2^w - 1 - x` ... */
  lemma NotInRange(x: int, w: nat)
    requires 0 <= x < Pow2(w)
    ensures BitNot(x, w) == Pow2(w) - 1 - x
  {
    ModUnique(-x - 1, Pow2(w), -1, Pow2(w) - 1 - x);
  }

  /** ... so it maps `[0, 2^w)` onto itself and undoes itself there. */
  lemma NotInvolution(x: int, w: nat)
    requires 0 <= x < Pow2(w)
    ensures 0 <= BitNot(x, w) < Pow2(w)
    ensures BitNot(BitNot(x, w), w) == x
  {
    NotInRange(x, w);
    NotInRange(BitNot(x, w), w);
  }

  /** Only the last `w` bits of the argument matter. */
  lemma NotLowBits(x: int, w: nat)
    ensures BitNot(x, w) == BitNot(x % Pow2(w), w)
  {
    var m := Pow2(w);
    var q, r := x / m, x % m;
    ModUnique(-x - 1, m, -q - 1, m - 1 - r);
    NotInRange(r, w);
  }

  /** `2^w - 1` has exactly the bits below `w`. */
  lemma {:induction false} OnesBits(w: nat, i: nat)
    ensures Bit(Pow2(w) - 1, i) == (i < w)
  {
    if w == 0 {
      NoBitsOfZero(i);
    } else {
      var h := Pow2(w - 1) - 1;
      assert Pow2(w) - 1 == 2 * h + 1;
      if i == 0 {
        Digits(h, 1, 0);
      } else {
        Digits(h, 1, i - 1);
        OnesBits(w - 1, i - 1);
      }
    }
  }

  /** Within `w` bits, `2^w - 1 - x` is `x ^ (2^w - 1)`. */
  lemma {:induction false} ComplementIsXor(x: nat, w: nat)
    requires x < Pow2(w)
    ensures Xor(x, Pow2(w) - 1) == Pow2(w) - 1 - x
  {
    if w > 0 && x > 0 {
      var h := Pow2(w - 1) - 1;
      assert Pow2(w) - 1 == 2 * h + 1;
      assert x / 2 < Pow2(w - 1);
      ComplementIsXor(x / 2, w - 1);
      if h == 0 {
        assert x == 1;
      }
    }
  }

  /** `BIT_NOT_w` flips exactly the low `w` bits of a number in range. */
  lemma NotBits(x: nat, w: nat, i: nat)
    requires x < Pow2(w)
    ensures Bit(BitNot(x, w), i) == (i < w && !Bit(x, i))
  {
    NotInRange(x, w);
    ComplementIsXor(x, w);
    XorBits(x, Pow2(w) - 1, i);
    OnesBits(w, i);
    if i >= w {
      PowMonotone(w, i);
      ModUnique(x, Pow2(i), 0, x);
    }
  }

  lemma {:induction false} PowMonotone(a: nat, b: nat)
    requires a <= b
    ensures Pow2(a) <= Pow2(b)
  {
    if a < b {
      PowMonotone(a, b - 1);
    }
  }

  /** The three widths of the runtime. */
  lemma NotWidths(x: int)
    ensures Pow2(8) == 0x100 && Pow2(16) == 0x1_0000 && Pow2(32) == 0x1_0000_0000
    ensures 0 <= BitNot8(x) < 0x100 && 0 <= BitNot16(x) < 0x1_0000 && 0 <= BitNot32(x) < 0x1_0000_0000
  {
    assert Pow2(8) == 0x100 by {
      assert Pow2(4) == 16;
    }
    assert Pow2(16) == 0x1_0000 by {
      assert Pow2(12) == 0x1000 by {
        assert Pow2(10) == 1024;
      }
    }
    assert Pow2(32) == 0x1_0000_0000 by {
      assert Pow2(24) == 0x100_0000 by {
        assert Pow2(20) == 0x10_0000;
      }
    }
  }
}
