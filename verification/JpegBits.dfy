/** The bits of JPEG entropy-coded data: most significant first, with a zero byte after every 0xFF. */
module JpegBits {
  import opened Arithmetic
  import opened Bits
  import opened Canonical

  /** The bits of a byte, most significant first. */
  function Msb(b: byte): (r: seq<bool>)
    ensures |r| == 8
  {
    Reversed(BitsOf(b, 8))
  }

  function RawBits(raw: seq<byte>): (r: seq<bool>)
    ensures |r| == 8 * |raw|
  {
    if raw == [] then [] else Msb(raw[0]) + RawBits(raw[1..])
  }

  /** Past the end every bit is zero. */
  function BitIn(raw: seq<byte>, p: nat): bool { p < 8 * |raw| && RawBits(raw)[p] }

  function Peek(raw: seq<byte>, at: nat, n: nat): (r: seq<bool>)
    ensures |r| == n
  {
    seq(n, k requires 0 <= k < n => BitIn(raw, at + k))
  }

  lemma {:induction false} PeekConcat(raw: seq<byte>, at: nat, m: nat, n: nat)
    ensures Peek(raw, at, m + n) == Peek(raw, at, m) + Peek(raw, at + m, n)
  {
  }

  lemma {:induction false} RawBitsConcat(a: seq<byte>, b: seq<byte>)
    ensures RawBits(a + b) == RawBits(a) + RawBits(b)
  {
    if a == [] {
      assert a + b == b;
    } else {
      assert (a + b)[1..] == a[1..] + b;
      RawBitsConcat(a[1..], b);
    }
  }

  lemma {:induction false} BitOfByte(raw: seq<byte>, p: nat, k: nat)
    requires p < |raw| && k < 8
    ensures RawBits(raw)[8 * p + k] == Msb(raw[p])[k]
  {
    if p > 0 { BitOfByte(raw[1..], p - 1, k); }
  }

  /** Eight bits at a byte boundary. */
  lemma {:induction false} PeekByte(raw: seq<byte>, p: nat, c: byte)
    requires c == if p < |raw| then raw[p] else 0
    ensures Peek(raw, 8 * p, 8) == Msb(c)
  {
    var w := Peek(raw, 8 * p, 8);
    BitsOfZero(8);
    forall k | 0 <= k < 8 ensures w[k] == Msb(c)[k] {
      assert w[k] == BitIn(raw, 8 * p + k);
      if p < |raw| {
        BitOfByte(raw, p, k);
      } else {
        assert Msb(c)[k] == BitsOf(0, 8)[7 - k] == Zeros(8)[7 - k];
      }
    }
  }

  lemma {:induction false} PeekPastEnd(raw: seq<byte>, at: nat, n: nat)
    requires at >= 8 * |raw|
    ensures Peek(raw, at, n) == Zeros(n)
  {
    var w := Peek(raw, at, n);
    forall k | 0 <= k < n ensures !w[k] { assert w[k] == BitIn(raw, at + k); }
  }

  // ---- Values of bit strings ----

  lemma {:induction false} ValueMsbConcat(a: seq<bool>, b: seq<bool>)
    ensures ValueMsb(a + b) == ValueMsb(a) * Pow2(|b|) + ValueMsb(b)
    ensures ValueMsb(a) < Pow2(|a|) && ValueMsb(b) < Pow2(|b|)
  {
    ReversedConcat(a, b);
    ValueConcat(Reversed(b), Reversed(a));
    Commute(Pow2(|b|), ValueMsb(a));
  }

  lemma {:induction false} ValueMsbZeros(n: nat)
    ensures ValueMsb(Zeros(n)) == 0
  {
    assert Reversed(Zeros(n)) == Zeros(n);
    BitsOfZero(n);
    ValueOfBits(0, n);
  }

  lemma {:induction false} MsbValue(b: byte)
    ensures ValueMsb(Msb(b)) == b
  {
    Pow2Values();
    MsbOfReversed(b, 8);
  }

  // ---- The 32-bit buffer, filled from the top ----

  ghost predicate Buffered(raw: seq<byte>, at: nat, buffer: nat, n: nat) {
    n <= 32 && buffer == ValueMsb(Peek(raw, at, n)) * Pow2(32 - n)
  }

  /** (x * p) * q and x * (p * q). */
  lemma {:induction false} Assoc(x: int, p: int, q: int)
    ensures (x * p) * q == x * (p * q)
  {
  }

  lemma {:induction false} OrCommutes(x: nat, y: nat)
    ensures Or(x, y) == Or(y, x)
    decreases x + y
  {
    if x != 0 && y != 0 { OrCommutes(x / 2, y / 2); }
  }

  lemma {:induction false} Below(c: nat, m: nat, p: nat)
    requires c < m && p > 0
    ensures c * p < m * p && p * c == c * p
  {
    Scale(c + 1, m, p);
    Distribute(c, 1, p);
    Commute(p, c);
  }

  lemma {:induction false} AddArithmetic(v: nat, c: nat, p: nat)
    ensures v * (256 * p) + c * p == (v * 256 + c) * p
  {
    Assoc(v, 256, p);
    Distribute(v * 256, c, p);
  }

  lemma {:induction false} DropArithmetic(hi: nat, lo: nat, q: nat, p: nat, t: nat)
    requires lo < q && p > 0 && t > 0
    ensures q * (p * t) > 0 && (((hi * q + lo) * p) * t) % (q * (p * t)) == lo * (p * t)
  {
    var v, r := hi * q + lo, p * t;
    AtLeast(p, t);
    Assoc(v, p, t);
    Distribute(hi * q, lo, r);
    Assoc(hi, q, r);
    Below(lo, q, r);
    Remainder(v * r, hi, lo * r, q * r);
  }

  lemma {:induction false} TopArithmetic(v: nat, d: nat, hi: nat, lo: nat, q: nat, p: nat)
    requires lo < q && p > 0 && v == (hi * q + lo) * p && d == q * p > 0
    ensures v / d == hi
  {
    AtLeast(q, p);
    Distribute(hi * q, lo, p);
    Assoc(hi, q, p);
    Below(lo, q, p);
    Remainder((hi * q + lo) * p, hi, lo * p, q * p);
  }

  /** A byte goes in below the bits already there. */
  lemma {:induction false} AddByte(raw: seq<byte>, at: nat, buffer: nat, n: nat, c: byte)
    requires Buffered(raw, at, buffer, n) && n <= 24 && Peek(raw, at + n, 8) == Msb(c)
    ensures Buffered(raw, at, Or(buffer, ShiftLeft(c, 24 - n)), n + 8)
  {
    hide Peek, ValueMsb, Msb, Or, ShiftLeft, Pow2;
    var v, p := ValueMsb(Peek(raw, at, n)), Pow2(24 - n);
    PeekConcat(raw, at, n, 8);
    ValueMsbConcat(Peek(raw, at, n), Msb(c));
    MsbValue(c);
    Pow2Values();
    Pow2Add(8, 24 - n);
    ShiftLeftValue(c, 24 - n);
    Below(c, 256, p);
    OrCommutes(buffer, c * p);
    Commute(v, 256 * p);
    OrAbove(c * p, v, 32 - n);
    AddArithmetic(v, c, p);
  }

  /** A 32-bit left shift. */
  function ShiftedOut(buffer: nat, s: nat): nat { (buffer * Pow2(s)) % Pow2(32) }

  /** The buffer shifted left drops its first bits. */
  lemma {:induction false} DropBits(raw: seq<byte>, at: nat, buffer: nat, n: nat, s: nat)
    requires Buffered(raw, at, buffer, n) && s <= n
    ensures Buffered(raw, at + s, ShiftedOut(buffer, s), n - s)
  {
    hide Peek, ValueMsb, Pow2;
    PeekConcat(raw, at, s, n - s);
    ValueMsbConcat(Peek(raw, at, s), Peek(raw, at + s, n - s));
    Pow2Add(32 - n, s);
    Pow2Add(n - s, 32 - n + s);
    DropArithmetic(ValueMsb(Peek(raw, at, s)), ValueMsb(Peek(raw, at + s, n - s)), Pow2(n - s), Pow2(32 - n), Pow2(s));
  }

  lemma {:induction false} TopHeld(raw: seq<byte>, at: nat, buffer: nat, n: nat, s: nat)
    requires Buffered(raw, at, buffer, n) && s <= n <= 32
    ensures buffer / Pow2(32 - s) == ValueMsb(Peek(raw, at, s))
  {
    hide Peek, ValueMsb, Pow2;
    PeekConcat(raw, at, s, n - s);
    ValueMsbConcat(Peek(raw, at, s), Peek(raw, at + s, n - s));
    Pow2Add(n - s, 32 - n);
    TopArithmetic(buffer, Pow2(32 - s), ValueMsb(Peek(raw, at, s)), ValueMsb(Peek(raw, at + s, n - s)), Pow2(n - s), Pow2(32 - n));
  }

  lemma {:induction false} TopPadded(raw: seq<byte>, at: nat, buffer: nat, n: nat, s: nat)
    requires Buffered(raw, at, buffer, n) && n <= s <= 32 && at + n >= 8 * |raw|
    ensures buffer / Pow2(32 - s) == ValueMsb(Peek(raw, at, s))
  {
    hide Peek, ValueMsb, Pow2;
    var v, p, q := ValueMsb(Peek(raw, at, n)), Pow2(s - n), Pow2(32 - s);
    PeekConcat(raw, at, n, s - n);
    PeekPastEnd(raw, at + n, s - n);
    ValueMsbConcat(Peek(raw, at, n), Zeros(s - n));
    ValueMsbZeros(s - n);
    Pow2Add(s - n, 32 - s);
    Assoc(v, p, q);
    Multiple(v * p, q);
  }

  /** The top of the buffer is what comes next, as far as the buffer reaches or once the data has ended. */
  lemma {:induction false} TopBits(raw: seq<byte>, at: nat, buffer: nat, n: nat, s: nat)
    requires Buffered(raw, at, buffer, n) && s <= 32 && (s <= n || at + n >= 8 * |raw|)
    ensures buffer / Pow2(32 - s) == ValueMsb(Peek(raw, at, s))
  {
    hide Peek, ValueMsb, Pow2;
    BufferIsSmall(raw, at, buffer, n);
    if s <= n { TopHeld(raw, at, buffer, n, s); } else { TopPadded(raw, at, buffer, n, s); }
  }

  lemma {:induction false} BufferIsSmall(raw: seq<byte>, at: nat, buffer: nat, n: nat)
    requires Buffered(raw, at, buffer, n)
    ensures n <= 32
  {
  }

  // ---- Byte stuffing ----

  /** What the next byte of entropy-coded data is, and where reading goes on. */
  datatype Next = Data(value: byte, pos: nat) | Marker(pos: nat)

  function SkipFill(input: seq<byte>, pos: nat): (r: nat)
    ensures pos <= |input| ==> pos <= r <= |input|
    decreases |input| - pos
  {
    if pos < |input| && input[pos] == 0xff then SkipFill(input, pos + 1) else pos
  }

  /** A 0xFF, and any fill bytes of 0xFF, followed by zero stand for 0xFF; anything else is a marker.  Past
      the end there are zeros. */
  function NextByte(input: seq<byte>, pos: nat): (r: Next)
    requires pos <= |input|
    ensures pos < |input| ==> pos < r.pos <= |input|
    ensures pos == |input| ==> r == Data(0, pos)
  {
    if pos == |input| then Data(0, pos)
    else if input[pos] != 0xff then Data(input[pos], pos + 1)
    else
      var p := SkipFill(input, pos + 1);
      if p == |input| then Data(0xff, p)
      else if input[p] == 0 then Data(0xff, p + 1)
      else Marker(p + 1)
  }

  /** The data bytes up to a marker or the end. */
  function Unstuffed(input: seq<byte>, pos: nat): seq<byte>
    requires pos <= |input|
    decreases |input| - pos
  {
    if pos == |input| then []
    else
      match NextByte(input, pos)
      case Data(b, next) => [b] + Unstuffed(input, next)
      case Marker(_) => []
  }

  function Stuffed(raw: seq<byte>): seq<byte> {
    if raw == [] then [] else (if raw[0] == 0xff then [0xff, 0] else [raw[0]]) + Stuffed(raw[1..])
  }

  lemma {:induction false} StuffedConcat(a: seq<byte>, b: seq<byte>)
    ensures Stuffed(a + b) == Stuffed(a) + Stuffed(b)
  {
    if a == [] {
      assert a + b == b;
    } else {
      assert (a + b)[1..] == a[1..] + b;
      StuffedConcat(a[1..], b);
    }
  }

  /** Stuffed bytes, in front of anything, are read back. */
  lemma {:induction false} UnstuffStuffed(raw: seq<byte>, before: seq<byte>, after: seq<byte>)
    ensures var input := before + Stuffed(raw) + after;
      Unstuffed(input, |before|) == raw + Unstuffed(input, |before| + |Stuffed(raw)|)
    decreases |raw|
  {
    var input := before + Stuffed(raw) + after;
    if raw != [] {
      var first := if raw[0] == 0xff then [0xff, 0] else [raw[0]];
      var rest := Stuffed(raw[1..]);
      assert before + Stuffed(raw) + after == (before + first) + rest + after;
      assert input[|before|] == first[0];
      if raw[0] == 0xff { assert input[|before| + 1] == 0 && SkipFill(input, |before| + 1) == |before| + 1; }
      UnstuffStuffed(raw[1..], before + first, after);
    }
  }
}
