/** Reversing sixteen bits by swapping ever larger groups. */
module BitReversal {
  import opened Bits

  predicate Bit(v: nat, k: nat)
    decreases k
  {
    if k == 0 then v % 2 == 1 else Bit(v / 2, k - 1)
  }

  /** The C `&` of two unsigned values. */
  function And(x: nat, y: nat): nat {
    if x == 0 || y == 0 then 0
    else (if x % 2 == 1 && y % 2 == 1 then 1 else 0) + 2 * And(x / 2, y / 2)
  }

  function UpperMask(d: nat): nat { if d == 1 then 0xAAAA else if d == 2 then 0xCCCC else if d == 4 then 0xF0F0 else 0xFF00 }

  function LowerMask(d: nat): nat { if d == 1 then 0x5555 else if d == 2 then 0x3333 else if d == 4 then 0x0F0F else 0x00FF }

  /** One exchange: the upper groups of `d` bits move down by `d`, the lower ones move up. */
  function Swap(n: nat, d: nat): nat {
    Or(ShiftRight(And(n, UpperMask(d)), d), ShiftLeft(And(n, LowerMask(d)), d))
  }

  function BitReverse16(v: nat): nat { Swap(Swap(Swap(Swap(v, 1), 2), 4), 8) }

  function BitReverse(v: nat, bits: nat): nat
    requires bits <= 16
  {
    ShiftRight(BitReverse16(v), 16 - bits)
  }

  lemma {:induction false} BitOfZero(k: nat)
    ensures !Bit(0, k)
  {
    if k > 0 { BitOfZero(k - 1); }
  }

  lemma {:induction false} OrBit(x: nat, y: nat, k: nat)
    ensures Bit(Or(x, y), k) == (Bit(x, k) || Bit(y, k))
    decreases k
  {
    BitOfZero(k);
    if x != 0 && y != 0 && k > 0 { OrBit(x / 2, y / 2, k - 1); }
  }

  lemma {:induction false} AndBit(x: nat, y: nat, k: nat)
    ensures Bit(And(x, y), k) == (Bit(x, k) && Bit(y, k))
    decreases k
  {
    BitOfZero(k);
    if x != 0 && y != 0 && k > 0 { AndBit(x / 2, y / 2, k - 1); }
  }

  lemma {:induction false} DownBit(x: nat, d: nat, k: nat)
    ensures Bit(ShiftRight(x, d), k) == Bit(x, k + d)
    decreases d
  {
    if d > 0 { DownBit(x / 2, d - 1, k); }
  }

  lemma {:induction false} UpBit(x: nat, d: nat, k: nat)
    ensures Bit(ShiftLeft(x, d), k) == (k >= d && Bit(x, k - d))
    decreases d
  {
    if d > 0 && k > 0 { UpBit(x, d - 1, k - 1); }
  }

  lemma {:induction false} SwapBit(n: nat, d: nat, k: nat)
    ensures Bit(Swap(n, d), k)
         == ((Bit(n, k + d) && Bit(UpperMask(d), k + d)) || (k >= d && Bit(n, k - d) && Bit(LowerMask(d), k - d)))
  {
    OrBit(ShiftRight(And(n, UpperMask(d)), d), ShiftLeft(And(n, LowerMask(d)), d), k);
    DownBit(And(n, UpperMask(d)), d, k);
    UpBit(And(n, LowerMask(d)), d, k);
    AndBit(n, UpperMask(d), k + d);
    if k >= d { AndBit(n, LowerMask(d), k - d); }
  }

  /** Position `k` is in the upper one of a pair of groups of `d` bits. */
  predicate Upper(k: nat, d: nat) {
    if d == 1 then k % 2 >= 1 else if d == 2 then k % 4 >= 2 else if d == 4 then k % 8 >= 4 else k % 16 >= 8
  }

  /** `mask` has exactly the bits of the upper, or of the lower, groups of `d`. */
  ghost predicate IsMask(mask: nat, d: nat, upper: bool) {
    forall k: nat :: Bit(mask, k) <==> k < 16 && Upper(k, d) == upper
  }

  lemma {:induction false} MaskBits(mask: nat, bits: seq<bool>, k: nat)
    requires mask == Value(bits)
    ensures Bit(mask, k) <==> k < |bits| && bits[k]
    decreases k
  {
    if bits == [] {
      BitOfZero(k);
    } else {
      assert mask / 2 == Value(bits[1..]);
      if k > 0 { MaskBits(mask / 2, bits[1..], k - 1); }
    }
  }

  function Groups(d: nat, upper: bool): seq<bool> {
    seq(16, k requires 0 <= k < 16 => Upper(k, d) == upper)
  }

  lemma {:induction false} MaskOf(mask: nat, d: nat, upper: bool)
    requires mask == Value(Groups(d, upper))
    ensures IsMask(mask, d, upper)
  {
    forall k: nat ensures Bit(mask, k) <==> k < 16 && Upper(k, d) == upper {
      MaskBits(mask, Groups(d, upper), k);
    }
  }

  function Nibble(a: bool, b: bool, c: bool, d: bool): nat {
    (if a then 1 else 0) + (if b then 2 else 0) + (if c then 4 else 0) + (if d then 8 else 0)
  }

  lemma {:induction false} ValueOfNibble(b: seq<bool>)
    requires |b| >= 4
    ensures Value(b) == Nibble(b[0], b[1], b[2], b[3]) + 16 * Value(b[4..])
  {
    assert b[1..][1..] == b[2..] && b[2..][1..] == b[3..] && b[3..][1..] == b[4..];
    assert Value(b[3..]) == (if b[3] then 1 else 0) + 2 * Value(b[4..]);
    assert Value(b[2..]) == (if b[2] then 1 else 0) + 2 * Value(b[3..]);
    assert Value(b[1..]) == (if b[1] then 1 else 0) + 2 * Value(b[2..]);
  }

  lemma {:induction false} ValueOf16(b: seq<bool>)
    requires |b| == 16
    ensures Value(b) == Nibble(b[0], b[1], b[2], b[3]) + 16 * Nibble(b[4], b[5], b[6], b[7])
                      + 256 * Nibble(b[8], b[9], b[10], b[11]) + 4096 * Nibble(b[12], b[13], b[14], b[15])
  {
    ValueOfNibble(b);
    ValueOfNibble(b[4..]);
    ValueOfNibble(b[8..]);
    ValueOfNibble(b[12..]);
    assert b[4..][4..] == b[8..] && b[8..][4..] == b[12..] && b[12..][4..] == [];
  }

  lemma {:induction false} Masks(d: nat)
    requires d in {1, 2, 4, 8}
    ensures IsMask(UpperMask(d), d, true) && IsMask(LowerMask(d), d, false)
  {
    ValueOf16(Groups(d, true));
    MaskOf(UpperMask(d), d, true);
    ValueOf16(Groups(d, false));
    MaskOf(LowerMask(d), d, false);
  }

  /** The bit that ends up at position `k` once groups of `d` have changed places. */
  function Partner(k: nat, d: nat): int {
    if Upper(k, d) then k - d else k + d
  }

  lemma {:induction false} Partners(k: nat)
    requires k < 16
    ensures Partner(Partner(Partner(Partner(k, 8), 4), 2), 1) == 15 - k
  {
    match k
    case 0 => case 1 => case 2 => case 3 => case 4 => case 5 => case 6 => case 7 =>
    case 8 => case 9 => case 10 => case 11 => case 12 => case 13 => case 14 => case 15 =>
  }

  /** The position `d` away on the other side of its pair is in the pair's other group. */
  predicate Beside(k: nat, d: nat)
    requires 1 <= d <= 16
  {
    && (if Upper(k, d) then k >= d && !Upper(k - d, d) && !(k + d < 16 && Upper(k + d, d))
        else k + d < 16 && Upper(k + d, d) && !(k >= d && !Upper(k - d, d)))
    && (k + 16 - d < 16 ==> Upper(k + 16 - d, d))
  }

  lemma {:induction false} NeighboursOne(k: nat)
    requires k < 16
    ensures Beside(k, 1)
  {
  }

  lemma {:induction false} NeighboursTwo(k: nat)
    requires k < 16
    ensures Beside(k, 2)
  {
  }

  lemma {:induction false} NeighboursFour(k: nat)
    requires k < 16
    ensures Beside(k, 4)
  {
  }

  lemma {:induction false} NeighboursEight(k: nat)
    requires k < 16
    ensures Beside(k, 8)
  {
  }

  lemma {:induction false} Neighbours(k: nat, d: nat)
    requires k < 16 && d in {1, 2, 4, 8}
    ensures Beside(k, d)
  {
    hide Beside, Upper;
    if d == 1 { NeighboursOne(k); } else if d == 2 { NeighboursTwo(k); } else if d == 4 { NeighboursFour(k); } else { NeighboursEight(k); }
  }

  lemma {:induction false} Exchange(n: nat, d: nat, k: nat)
    requires k < 16 && d in {1, 2, 4, 8}
    ensures 0 <= Partner(k, d) < 16 && Bit(Swap(n, d), k) == Bit(n, Partner(k, d))
  {
    Masks(d);
    Neighbours(k, d);
    SwapBit(n, d, k);
  }

  lemma {:induction false} SwapsReverse(v: nat, k: nat)
    requires k < 16
    ensures Bit(BitReverse16(v), k) == Bit(v, 15 - k)
  {
    var n1 := Swap(v, 1);
    var n2 := Swap(n1, 2);
    Partners(k);
    Exchange(Swap(n2, 4), 8, k);
    var k3 := Partner(k, 8);
    Exchange(n2, 4, k3);
    var k2 := Partner(k3, 4);
    Exchange(n1, 2, k2);
    Exchange(v, 1, Partner(k2, 2));
  }

  lemma {:induction false} BitsAreBits(v: nat, n: nat, k: nat)
    requires k < n
    ensures BitsOf(v, n)[k] == Bit(v, k)
  {
    if k > 0 { BitsAreBits(v / 2, n - 1, k - 1); }
  }

  /** Swapping the groups reverses the low sixteen bits. */
  lemma {:induction false} BitReverse16Bits(v: nat)
    ensures BitsOf(BitReverse16(v), 16) == Reversed(BitsOf(v, 16))
  {
    forall k | 0 <= k < 16 ensures BitsOf(BitReverse16(v), 16)[k] == Reversed(BitsOf(v, 16))[k] {
      BitsAreBits(BitReverse16(v), 16, k);
      SwapsReverse(v, k);
      BitsAreBits(v, 16, 15 - k);
    }
  }

  lemma {:induction false} HighBitsClear(v: nat, k: nat)
    requires k >= 16
    ensures !Bit(BitReverse16(v), k)
  {
    Masks(8);
    SwapBit(Swap(Swap(Swap(v, 1), 2), 4), 8, k);
  }

  lemma {:induction false} SomeBit(v: nat) returns (k: nat)
    requires v > 0
    ensures Bit(v, k)
  {
    if v % 2 == 1 {
      k := 0;
    } else {
      k := SomeBit(v / 2);
      k := k + 1;
    }
  }

  lemma {:induction false} NoHighBits(v: nat, n: nat)
    requires forall k: nat :: k >= n ==> !Bit(v, k)
    ensures v < Pow2(n)
  {
    if n == 0 {
      if v > 0 { var k := SomeBit(v); }
    } else {
      forall k: nat | k >= n - 1 ensures !Bit(v / 2, k) { assert !Bit(v, k + 1); }
      NoHighBits(v / 2, n - 1);
    }
  }

  /** The value of the low sixteen bits read from the top. */
  lemma {:induction false} BitReverse16Value(v: nat)
    ensures BitReverse16(v) == ValueMsb(BitsOf(v, 16)) < Pow2(16)
  {
    forall k: nat | k >= 16 ensures !Bit(BitReverse16(v), k) { HighBitsClear(v, k); }
    NoHighBits(BitReverse16(v), 16);
    ValueOfBits(BitReverse16(v), 16);
    BitReverse16Bits(v);
  }

  lemma {:induction false} ShiftRightBound(x: nat, m: nat, n: nat)
    requires x < Pow2(m + n)
    ensures ShiftRight(x, m) < Pow2(n)
  {
    if m > 0 { ShiftRightBound(x / 2, m - 1, n); }
  }

  lemma {:induction false} PadBits(v: nat, s: nat, n: nat)
    requires v < Pow2(s)
    ensures BitsOf(v, s + n) == BitsOf(v, s) + Zeros(n)
  {
    BitsOfSum(v, 0, s, n);
    BitsOfZero(n);
  }

  /** Reversing the `s` bits of a value. */
  lemma {:induction false} BitReverseValue(v: nat, s: nat)
    requires s <= 16 && v < Pow2(s)
    ensures BitReverse(v, s) == Value(Reversed(BitsOf(v, s)))
  {
    var x := BitReverse16(v);
    BitReverse16Bits(v);
    BitReverse16Value(v);
    PadBits(v, s, 16 - s);
    ReversedConcat(BitsOf(v, s), Zeros(16 - s));
    ShiftRightBits(x, 16 - s, s);
    ShiftRightBound(x, 16 - s, s);
    ValueOfBits(ShiftRight(x, 16 - s), s);
  }
}
