/** Run-length coding of one HDR scanline: four component planes, each coded by itself. */
module HdrRle {
  import opened Bits

  datatype Packet = Dump(bytes: seq<byte>) | Run(count: nat, value: byte)

  predicate PacketOk(p: Packet) {
    match p
    case Dump(bytes) => 1 <= |bytes| <= 128
    case Run(count, _) => 1 <= count <= 127
  }

  function Spread(p: Packet): seq<byte> {
    match p
    case Dump(bytes) => bytes
    case Run(count, value) => Repeated(value, count)
  }

  function Repeated(value: byte, n: nat): (r: seq<byte>)
    ensures |r| == n
  {
    seq<byte>(n, _ => value)
  }

  function PacketBytes(p: Packet): seq<byte>
    requires PacketOk(p)
  {
    match p
    case Dump(bytes) => [|bytes| as byte] + bytes
    case Run(count, value) => [(count + 128) as byte, value]
  }

  predicate AllOk(ps: seq<Packet>) { ps == [] || (PacketOk(ps[0]) && AllOk(ps[1..])) }

  function AllBytes(ps: seq<Packet>): seq<byte>
    requires AllOk(ps)
  {
    if ps == [] then [] else PacketBytes(ps[0]) + AllBytes(ps[1..])
  }

  function SpreadAll(ps: seq<Packet>): seq<byte> { if ps == [] then [] else Spread(ps[0]) + SpreadAll(ps[1..]) }

  lemma {:induction false} AppendPackets(a: seq<Packet>, b: seq<Packet>)
    requires AllOk(a) && AllOk(b)
    ensures AllOk(a + b) && AllBytes(a + b) == AllBytes(a) + AllBytes(b) && SpreadAll(a + b) == SpreadAll(a) + SpreadAll(b)
  {
    hide PacketOk, PacketBytes, Spread;
    if a == [] {
      assert a + b == b;
    } else {
      assert (a + b)[1..] == a[1..] + b;
      AppendPackets(a[1..], b);
    }
  }

  lemma {:induction false} AppendPacket(ps: seq<Packet>, p: Packet)
    requires AllOk(ps) && PacketOk(p)
    ensures AllOk(ps + [p]) && AllBytes(ps + [p]) == AllBytes(ps) + PacketBytes(p) && SpreadAll(ps + [p]) == SpreadAll(ps) + Spread(p)
  {
    hide PacketOk, PacketBytes, Spread;
    assert [p][1..] == [];
    AppendPackets(ps, [p]);
  }

  // ---- Writing a plane ----

  /** The packets so far stand for the plane up to `x`. */
  ghost predicate Written(ps: seq<Packet>, out: seq<byte>, comp: seq<byte>, x: nat) {
    x <= |comp| && AllOk(ps) && out == AllBytes(ps) && SpreadAll(ps) == comp[..x]
  }

  lemma {:induction false} OneMore(ps: seq<Packet>, out: seq<byte>, comp: seq<byte>, x: nat, p: Packet)
    requires Written(ps, out, comp, x) && PacketOk(p) && x + |Spread(p)| <= |comp| && Spread(p) == comp[x..x + |Spread(p)|]
    ensures Written(ps + [p], out + PacketBytes(p), comp, x + |Spread(p)|)
  {
    AppendPacket(ps, p);
    assert comp[..x + |Spread(p)|] == comp[..x] + comp[x..x + |Spread(p)|];
  }

  /** The first position from `x` on that starts a run of three, or the end. */
  method FindRun(comp: seq<byte>, x: nat) returns (r: nat)
    requires x <= |comp|
    ensures x <= r <= |comp| && (r < |comp| <==> r + 2 < |comp|)
    ensures r < |comp| ==> comp[r] == comp[r + 1] == comp[r + 2]
    ensures forall k :: x <= k < r && k + 2 < |comp| ==> !(comp[k] == comp[k + 1] == comp[k + 2])
  {
    r := x;
    while r + 2 < |comp|
      invariant x <= r <= |comp| && forall k :: x <= k < r && k + 2 < |comp| ==> !(comp[k] == comp[k + 1] == comp[k + 2])
    {
      if comp[r] == comp[r + 1] && comp[r] == comp[r + 2] { break; }
      r := r + 1;
    }
    if r + 2 >= |comp| { r := |comp|; }
  }

  predicate NoTriple(b: seq<byte>) { forall k :: 0 <= k && k + 2 < |b| ==> !(b[k] == b[k + 1] == b[k + 2]) }

  /** A dump that starts with `v` can follow: the last packet is as long as packets get, or a run of another byte. */
  predicate CanDump(ps: seq<Packet>, v: byte) {
    ps == [] ||
      var last := ps[|ps| - 1];
      if last.Dump? then |last.bytes| == 128 else last.count == 127 || last.value != v
  }

  /** A run of `v` can follow. */
  predicate CanRun(ps: seq<Packet>, v: byte) { ps == [] || ps[|ps| - 1].Dump? || CanDump(ps, v) }

  /** Three equal bytes in a row are never dumped, and no packet is shorter than it could be. */
  predicate Compact(ps: seq<Packet>) {
    ps == [] ||
      var init, p := ps[..|ps| - 1], ps[|ps| - 1];
      Compact(init) && if p.Dump? then p.bytes != [] && NoTriple(p.bytes) && CanDump(init, p.bytes[0]) else CanRun(init, p.value)
  }

  lemma {:induction false} OneMoreCompact(ps: seq<Packet>, p: Packet)
    requires Compact(ps) && if p.Dump? then p.bytes != [] && NoTriple(p.bytes) && CanDump(ps, p.bytes[0]) else CanRun(ps, p.value)
    ensures Compact(ps + [p])
  {
    assert (ps + [p])[..|ps|] == ps;
  }

  method WritePlane(comp: seq<byte>) returns (out: seq<byte>, ghost ps: seq<Packet>)
    ensures AllOk(ps) && out == AllBytes(ps) && SpreadAll(ps) == comp && Compact(ps)
    ensures Read(out, 0, |comp|) == Plane(comp, |out|)
  {
    hide Read;
    out, ps := [], [];
    var x := 0;
    while x < |comp|
      invariant Written(ps, out, comp, x) && Compact(ps) && (x < |comp| ==> CanDump(ps, comp[x]))
      decreases |comp| - x
    {
      var r := FindRun(comp, x);
      out, ps, x := WriteDumps(out, ps, comp, x, r);
      if r + 2 < |comp| {
        while r < |comp| && comp[r] == comp[x]
          invariant x <= r <= |comp| && forall k :: x <= k < r ==> comp[k] == comp[x]
        {
          r := r + 1;
        }
        out, ps, x := WriteRuns(out, ps, comp, x, r);
      }
    }
    assert comp[..|comp|] == comp;
    assert out[0..0 + |out|] == out;
    PacketsRead(out, 0, ps);
  }

  method WriteDumps(before: seq<byte>, ghost ps0: seq<Packet>, comp: seq<byte>, x0: nat, r: nat)
    returns (out: seq<byte>, ghost ps: seq<Packet>, x: nat)
    requires x0 <= r <= |comp| && Written(ps0, before, comp, x0) && Compact(ps0)
    requires forall k :: x0 <= k < r && k + 2 < |comp| ==> !(comp[k] == comp[k + 1] == comp[k + 2])
    requires x0 < |comp| ==> CanDump(ps0, comp[x0])
    ensures x == r && Written(ps, out, comp, r) && Compact(ps) && (r < |comp| ==> CanRun(ps, comp[r]))
  {
    hide Written;
    out, ps, x := before, ps0, x0;
    while x < r
      invariant x0 <= x <= r && Written(ps, out, comp, x) && Compact(ps)
      invariant (x < r ==> CanDump(ps, comp[x])) && (x < |comp| ==> CanRun(ps, comp[x]))
    {
      var len := if r - x > 128 then 128 else r - x;
      OneMore(ps, out, comp, x, Dump(comp[x..x + len]));
      OneMoreCompact(ps, Dump(comp[x..x + len]));
      out := out + ([len as byte] + comp[x..x + len]);
      ps := ps + [Dump(comp[x..x + len])];
      x := x + len;
    }
  }

  /** Writes the run from x to r, in pieces of at most 127 bytes. */
  method WriteRuns(before: seq<byte>, ghost ps0: seq<Packet>, comp: seq<byte>, x0: nat, r: nat)
    returns (out: seq<byte>, ghost ps: seq<Packet>, x: nat)
    requires x0 <= r <= |comp| && Written(ps0, before, comp, x0) && Compact(ps0)
    requires x0 < r && (forall k :: x0 <= k < r ==> comp[k] == comp[x0]) && (r < |comp| ==> comp[r] != comp[x0])
    requires CanRun(ps0, comp[x0])
    ensures x == r && Written(ps, out, comp, r) && Compact(ps) && (r < |comp| ==> CanDump(ps, comp[r]))
  {
    hide Written;
    out, ps, x := before, ps0, x0;
    while x < r
      invariant x0 <= x <= r && Written(ps, out, comp, x) && Compact(ps)
      invariant if x < r then CanRun(ps, comp[x]) else r < |comp| ==> CanDump(ps, comp[r])
    {
      var len := if r - x > 127 then 127 else r - x;
      assert Repeated(comp[x], len) == comp[x..x + len];
      OneMore(ps, out, comp, x, Run(len, comp[x]));
      OneMoreCompact(ps, Run(len, comp[x]));
      out := out + [(len + 128) as byte, comp[x]];
      ps := ps + [Run(len, comp[x])];
      x := x + len;
    }
  }

  // ---- Reading a plane ----

  function BytesAt(s: seq<byte>, pos: nat, n: nat): (r: seq<byte>)
    ensures |r| == n
  {
    seq<byte>(n, j requires 0 <= j < n => ByteAt(s, pos + j))
  }

  datatype Plane = Plane(bytes: seq<byte>, pos: nat) | Corrupt

  /** `n` bytes of a plane: packets that are empty or too long are corrupt. */
  function Read(s: seq<byte>, pos: nat, n: nat): (r: Plane)
    ensures r.Plane? ==> |r.bytes| == n
    decreases n
  {
    if n == 0 then Plane([], pos)
    else
      var count := ByteAt(s, pos);
      if count > 128 then
        if count - 128 > n then Corrupt else Before(Repeated(ByteAt(s, pos + 1), count - 128), Read(s, pos + 2, n - (count - 128)))
      else if count == 0 || count > n then Corrupt
      else Before(BytesAt(s, pos + 1, count), Read(s, pos + 1 + count, n - count))
  }

  function Before(bytes: seq<byte>, r: Plane): Plane {
    match r
    case Plane(rest, pos) => Plane(bytes + rest, pos)
    case Corrupt => Corrupt
  }

  lemma {:induction false} HasBytes(s: seq<byte>, pos: nat, b: seq<byte>)
    requires Has(s, pos, b)
    ensures BytesAt(s, pos, |b|) == b && (|b| > 0 ==> ByteAt(s, pos) == b[0]) && (|b| > 1 ==> ByteAt(s, pos + 1) == b[1])
  {
    var q := BytesAt(s, pos, |b|);
    forall j | 0 <= j < |b| ensures q[j] == b[j] && ByteAt(s, pos + j) == b[j] {
      assert q[j] == ByteAt(s, pos + j);
      assert s[pos..pos + |b|][j] == b[j];
    }
    assert |b| > 0 ==> ByteAt(s, pos + 0) == b[0];
  }

  lemma {:induction false} PacketReads(s: seq<byte>, pos: nat, p: Packet, n: nat)
    requires PacketOk(p) && Has(s, pos, PacketBytes(p)) && |Spread(p)| <= n
    ensures Read(s, pos, n) == Before(Spread(p), Read(s, pos + |PacketBytes(p)|, n - |Spread(p)|))
  {
    HasBytes(s, pos, PacketBytes(p));
    if p.Dump? {
      HasSplit(s, pos, [|p.bytes| as byte], p.bytes);
      HasBytes(s, pos + 1, p.bytes);
    }
  }

  lemma {:induction false} PacketsRead(s: seq<byte>, pos: nat, ps: seq<Packet>)
    requires AllOk(ps) && Has(s, pos, AllBytes(ps))
    ensures Read(s, pos, |SpreadAll(ps)|) == Plane(SpreadAll(ps), pos + |AllBytes(ps)|)
    decreases |ps|
  {
    hide Read, PacketBytes, Spread, PacketOk;
    if ps == [] {
      NothingRead(s, pos);
    } else {
      HasSplit(s, pos, PacketBytes(ps[0]), AllBytes(ps[1..]));
      PacketReads(s, pos, ps[0], |SpreadAll(ps)|);
      PacketsRead(s, pos + |PacketBytes(ps[0])|, ps[1..]);
    }
  }

  lemma {:induction false} NothingRead(s: seq<byte>, pos: nat)
    ensures Read(s, pos, 0) == Plane([], pos)
  {
  }

  // ---- Reading a scanline ----

  /** The planes' bytes, pixel by pixel. */
  ghost predicate Interleaves(scanline: seq<byte>, plane: seq<byte>, k: nat) {
    k < 4 && |scanline| == 4 * |plane| && forall x :: 0 <= x < |plane| ==> scanline[x * 4 + k] == plane[x]
  }

  /** Reads one plane into every fourth byte of the scanline. */
  method ReadPlane(s: seq<byte>, pos0: nat, width: nat, k: nat, scanline: array<byte>) returns (ok: bool, pos: nat)
    requires k < 4 && scanline.Length == 4 * width
    modifies scanline
    ensures ok <==> Read(s, pos0, width).Plane?
    ensures ok ==> pos == Read(s, pos0, width).pos && Interleaves(scanline[..], Read(s, pos0, width).bytes, k)
    ensures forall m :: 0 <= m < scanline.Length && m % 4 != k ==> scanline[m] == old(scanline[m])
  {
    hide Read, ByteAt, BytesAt, Before;
    pos := pos0;
    var i := 0;
    ghost var done: seq<byte> := [];
    ghost var whole := Read(s, pos0, width);
    BeforeNothing(whole);
    while i < width
      invariant i <= width && |done| == i && whole == Before(done, Read(s, pos, width - i))
      invariant forall x :: 0 <= x < i ==> scanline[x * 4 + k] == done[x]
      invariant forall m :: 0 <= m < scanline.Length && m % 4 != k ==> scanline[m] == old(scanline[m])
      decreases width - i
    {
      var nleft := width - i;
      PacketIs(s, pos, nleft, done);
      var count: nat := ByteAt(s, pos);
      pos := pos + 1;
      if count > 128 {
        var value := ByteAt(s, pos);
        pos := pos + 1;
        count := count - 128;
        if count > nleft {
          return false, pos;
        }
        BeforeBefore(done, Repeated(value, count), Read(s, pos, nleft - count));
        PutBytes(Repeated(value, count), i, k, scanline);
        done := done + Repeated(value, count);
      } else {
        if count == 0 || count > nleft {
          return false, pos;
        }
        BeforeBefore(done, BytesAt(s, pos, count), Read(s, pos + count, nleft - count));
        PutBytes(BytesAt(s, pos, count), i, k, scanline);
        done := done + BytesAt(s, pos, count);
        pos := pos + count;
      }
      i := i + count;
    }
    NothingLeft(s, pos, done);
    ok := true;
  }

  lemma {:induction false} BeforeNothing(r: Plane)
    ensures Before([], r) == r
  {
    if r.Plane? { assert [] + r.bytes == r.bytes; }
  }

  lemma {:induction false} NothingLeft(s: seq<byte>, pos: nat, done: seq<byte>)
    ensures Before(done, Read(s, pos, 0)) == Plane(done, pos)
  {
    assert done + [] == done;
  }

  /** The next packet of a plane of which `done` is there already. */
  lemma {:induction false} PacketIs(s: seq<byte>, pos: nat, n: nat, done: seq<byte>)
    requires n > 0
    ensures var count := ByteAt(s, pos);
      Before(done, Read(s, pos, n))
      == if count > 128 then
           if count - 128 > n then Corrupt
           else Before(done, Before(Repeated(ByteAt(s, pos + 1), count - 128), Read(s, pos + 2, n - (count - 128))))
         else if count == 0 || count > n then Corrupt
         else Before(done, Before(BytesAt(s, pos + 1, count), Read(s, pos + 1 + count, n - count)))
  {
    hide ByteAt, BytesAt;
  }

  lemma {:induction false} BeforeBefore(a: seq<byte>, b: seq<byte>, r: Plane)
    ensures Before(a, Before(b, r)) == Before(a + b, r)
  {
    if r.Plane? { assert a + (b + r.bytes) == a + b + r.bytes; }
  }

  method PutBytes(bytes: seq<byte>, i: nat, k: nat, scanline: array<byte>)
    requires k < 4 && 4 * (i + |bytes|) <= scanline.Length
    modifies scanline
    ensures forall x :: 0 <= x < |bytes| ==> scanline[(i + x) * 4 + k] == bytes[x]
    ensures forall x :: 0 <= x < i ==> scanline[x * 4 + k] == old(scanline[x * 4 + k])
    ensures forall m :: 0 <= m < scanline.Length && m % 4 != k ==> scanline[m] == old(scanline[m])
  {
    for z := 0 to |bytes|
      invariant forall x :: 0 <= x < z ==> scanline[(i + x) * 4 + k] == bytes[x]
      invariant forall x :: 0 <= x < i ==> scanline[x * 4 + k] == old(scanline[x * 4 + k])
      invariant forall m :: 0 <= m < scanline.Length && m % 4 != k ==> scanline[m] == old(scanline[m])
    {
      scanline[(i + z) * 4 + k] := bytes[z];
    }
  }

  // ---- The whole scanline ----

  /** The header, and the four planes one after the other. */
  method WriteScanline(planes: seq<seq<byte>>, width: nat) returns (out: seq<byte>, ghost pss: seq<seq<Packet>>)
    requires |planes| == 4 && 8 <= width < 32768 && forall c :: 0 <= c < 4 ==> |planes[c]| == width
    ensures |pss| == 4 && forall c :: 0 <= c < 4 ==> AllOk(pss[c]) && SpreadAll(pss[c]) == planes[c]
    ensures out == [2, 2, (width / 256) as byte, (width % 256) as byte] + AllBytes(pss[0]) + AllBytes(pss[1]) + AllBytes(pss[2]) + AllBytes(pss[3])
  {
    out := [2, 2, (width / 256) as byte, (width % 256) as byte];
    var bytes;
    ghost var p0, p1, p2, p3;
    bytes, p0 := WritePlane(planes[0]);
    out := out + bytes;
    bytes, p1 := WritePlane(planes[1]);
    out := out + bytes;
    bytes, p2 := WritePlane(planes[2]);
    out := out + bytes;
    bytes, p3 := WritePlane(planes[3]);
    out := out + bytes;
    pss := [p0, p1, p2, p3];
  }

  /** The scanline holds plane `c` of the stream. */
  ghost predicate PlaneOf(s: seq<byte>, pos: nat, width: nat, c: nat, scanline: seq<byte>) {
    After(s, pos, width, c + 1).Plane? && Interleaves(scanline, After(s, pos, width, c + 1).bytes, c)
  }

  /** Reads a run-length coded scanline. */
  method ReadScanline(s: seq<byte>, pos0: nat, width: nat) returns (ok: bool, scanline: array<byte>, pos: nat)
    ensures fresh(scanline) && scanline.Length == 4 * width
    ensures ok <==> Header(s, pos0, width) && After(s, pos0, width, 4).Plane?
    ensures ok ==> pos == After(s, pos0, width, 4).pos && forall c :: 0 <= c < 4 ==> PlaneOf(s, pos0, width, c, scanline[..])
  {
    hide Read, After, Interleaves, Header, PlaneOf;
    scanline := new byte[4 * width](_ => 0);
    pos := pos0 + 4;
    ok := Header(s, pos0, width);
    if !ok { return; }
    FirstPlane(s, pos0, width);
    for k := 0 to 4
      invariant fresh(scanline) && scanline.Length == 4 * width && ok
      invariant After(s, pos0, width, k).Plane? && pos == After(s, pos0, width, k).pos
      invariant forall c :: 0 <= c < k ==> PlaneOf(s, pos0, width, c, scanline[..])
    {
      ghost var before, from := scanline[..], pos;
      ok, pos := ReadPlane(s, pos, width, k, scanline);
      AfterNext(s, pos0, width, k, from);
      LaterPlanes(s, pos0, width, k + 1);
      if !ok { return; }
      NewPlane(s, pos0, width, k, before, scanline[..]);
    }
  }

  /** Once plane `k` is in place, all up to it are. */
  lemma {:induction false} NewPlane(s: seq<byte>, pos: nat, width: nat, k: nat, a: seq<byte>, b: seq<byte>)
    requires |a| == |b| && forall c :: 0 <= c < k ==> PlaneOf(s, pos, width, c, a)
    requires forall m :: 0 <= m < |a| && m % 4 != k ==> a[m] == b[m]
    requires After(s, pos, width, k + 1).Plane? && Interleaves(b, After(s, pos, width, k + 1).bytes, k)
    ensures forall c :: 0 <= c < k + 1 ==> PlaneOf(s, pos, width, c, b)
  {
    hide After, Interleaves;
    forall c | 0 <= c < k + 1 ensures PlaneOf(s, pos, width, c, b) {
      if c < k {
        assert PlaneOf(s, pos, width, c, a);
        Untouched(a, b, After(s, pos, width, c + 1).bytes, c, k);
      }
    }
  }

  lemma {:induction false} AfterNext(s: seq<byte>, pos: nat, width: nat, k: nat, from: nat)
    requires After(s, pos, width, k).Plane? && After(s, pos, width, k).pos == from
    ensures After(s, pos, width, k + 1) == Read(s, from, width)
  {
  }

  /** A plane is not changed by writing another. */
  lemma {:induction false} Untouched(a: seq<byte>, b: seq<byte>, plane: seq<byte>, c: nat, k: nat)
    requires Interleaves(a, plane, c) && c != k && |a| == |b| && forall m :: 0 <= m < |a| && m % 4 != k ==> a[m] == b[m]
    ensures Interleaves(b, plane, c)
  {
    forall x | 0 <= x < |plane| ensures b[x * 4 + c] == plane[x] { assert (x * 4 + c) % 4 == c; }
  }

  /** The header bytes, and the width they give. */
  predicate Header(s: seq<byte>, pos: nat, width: nat) {
    var high: nat := ByteAt(s, pos + 2);
    ByteAt(s, pos) == 2 && ByteAt(s, pos + 1) == 2 && high < 128 && high * 256 + ByteAt(s, pos + 3) == width
  }

  /** The k-th plane, and where it ends. */
  function After(s: seq<byte>, pos: nat, width: nat, k: nat): Plane {
    if k == 0 then Plane([], pos + 4)
    else
      match After(s, pos, width, k - 1)
      case Corrupt => Corrupt
      case Plane(_, next) => Read(s, next, width)
  }

  lemma {:induction false} LaterPlanes(s: seq<byte>, pos: nat, width: nat, k: nat)
    requires k <= 4
    ensures After(s, pos, width, k).Corrupt? ==> After(s, pos, width, 4).Corrupt?
    decreases 4 - k
  {
    if k < 4 { LaterPlanes(s, pos, width, k + 1); }
  }

  /** The planes are read back one after the other. */
  lemma {:induction false} PlanesRead(s: seq<byte>, planes: seq<seq<byte>>, pss: seq<seq<Packet>>, width: nat, head: seq<byte>)
    requires |planes| == |pss| == 4 && |head| == 4
    requires forall c :: 0 <= c < 4 ==> |planes[c]| == width && AllOk(pss[c]) && SpreadAll(pss[c]) == planes[c]
    requires s == head + AllBytes(pss[0]) + AllBytes(pss[1]) + AllBytes(pss[2]) + AllBytes(pss[3])
    ensures forall k :: 1 <= k <= 4 ==> After(s, 0, width, k).Plane? && After(s, 0, width, k).bytes == planes[k - 1]
  {
    hide Read, AllBytes, SpreadAll, AllOk, After;
    var a, b, c, d := AllBytes(pss[0]), AllBytes(pss[1]), AllBytes(pss[2]), AllBytes(pss[3]);
    FirstPlane(s, 0, width);
    PacketsRead(s, 4, pss[0]);
    NextPlane(s, 0, width, 1, planes[0], 4, 4 + |a|);
    PacketsRead(s, 4 + |a|, pss[1]);
    NextPlane(s, 0, width, 2, planes[1], 4 + |a|, 4 + |a| + |b|);
    PacketsRead(s, 4 + |a| + |b|, pss[2]);
    NextPlane(s, 0, width, 3, planes[2], 4 + |a| + |b|, 4 + |a| + |b| + |c|);
    PacketsRead(s, 4 + |a| + |b| + |c|, pss[3]);
    NextPlane(s, 0, width, 4, planes[3], 4 + |a| + |b| + |c|, 4 + |a| + |b| + |c| + |d|);
  }

  lemma {:induction false} FirstPlane(s: seq<byte>, pos: nat, width: nat)
    ensures After(s, pos, width, 0) == Plane([], pos + 4)
  {
  }

  lemma {:induction false} NextPlane(s: seq<byte>, pos: nat, width: nat, k: nat, plane: seq<byte>, from: nat, to: nat)
    requires k > 0 && After(s, pos, width, k - 1).Plane? && After(s, pos, width, k - 1).pos == from
    requires Read(s, from, width) == Plane(plane, to)
    ensures After(s, pos, width, k) == Plane(plane, to)
  {
  }

  /** Any four planes of 8 to 32767 bytes survive writing and reading. */
  method RoundTrip(planes: seq<seq<byte>>, width: nat) returns (ok: bool, scanline: array<byte>)
    requires |planes| == 4 && 8 <= width < 32768 && forall c :: 0 <= c < 4 ==> |planes[c]| == width
    ensures ok && scanline.Length == 4 * width
    ensures forall c, x :: 0 <= c < 4 && 0 <= x < width ==> scanline[x * 4 + c] == planes[c][x]
  {
    hide Read, AllBytes, SpreadAll, AllOk, After, Interleaves, PlaneOf, Header;
    var s, pss := WriteScanline(planes, width);
    ghost var head := [2, 2, (width / 256) as byte, (width % 256) as byte];
    HeaderReads(s, width);
    PlanesRead(s, planes, pss, width, head);
    assert After(s, 0, width, 4).Plane?;
    var pos;
    ok, scanline, pos := ReadScanline(s, 0, width);
    forall c, x | 0 <= c < 4 && 0 <= x < width ensures scanline[x * 4 + c] == planes[c][x] {
      PlaneHolds(s, 0, width, c, scanline[..], planes[c]);
      assert scanline[..][x * 4 + c] == planes[c][x];
    }
  }

  lemma {:induction false} HeaderReads(s: seq<byte>, width: nat)
    requires width < 32768 && |s| >= 4
    requires s[..4] == [2, 2, (width / 256) as byte, (width % 256) as byte]
    ensures Header(s, 0, width)
  {
    assert s[0] == s[..4][0] && s[1] == s[..4][1] && s[2] == s[..4][2] && s[3] == s[..4][3];
  }

  lemma {:induction false} PlaneHolds(s: seq<byte>, pos: nat, width: nat, c: nat, scanline: seq<byte>, plane: seq<byte>)
    requires PlaneOf(s, pos, width, c, scanline) && After(s, pos, width, c + 1).Plane? && After(s, pos, width, c + 1).bytes == plane
    ensures c < 4 && |scanline| == 4 * |plane| && forall x :: 0 <= x < |plane| ==> scanline[x * 4 + c] == plane[x]
  {
  }
}
