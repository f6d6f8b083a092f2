/** Run-length coding of TGA pixel rows. */
module TgaRle {
  import opened Bits

  /** A pixel is some bytes. */
  type Pixel = seq<byte>

  predicate Pixels(row: seq<Pixel>, comp: nat) { forall k :: 0 <= k < |row| ==> |row[k]| == comp }

  // ---- Packets ----

  datatype Packet = Raw(pixels: seq<Pixel>) | Run(count: nat, pixel: Pixel)

  predicate PacketOk(p: Packet, comp: nat) {
    match p
    case Raw(pixels) => 1 <= |pixels| <= 128 && Pixels(pixels, comp)
    case Run(count, pixel) => 1 <= count <= 128 && |pixel| == comp
  }

  function Spread(p: Packet): (r: seq<Pixel>) {
    match p
    case Raw(pixels) => pixels
    case Run(count, pixel) => seq(count, _ => pixel)
  }

  function Flat(pixels: seq<Pixel>): seq<byte> { if pixels == [] then [] else pixels[0] + Flat(pixels[1..]) }

  /** The packet's header byte and its pixels. */
  function PacketBytes(p: Packet, comp: nat): seq<byte>
    requires PacketOk(p, comp)
  {
    match p
    case Raw(pixels) => [(|pixels| - 1) as byte] + Flat(pixels)
    case Run(count, pixel) => [(count + 127) as byte] + pixel
  }

  predicate AllOk(ps: seq<Packet>, comp: nat) { ps == [] || (PacketOk(ps[0], comp) && AllOk(ps[1..], comp)) }

  function AllBytes(ps: seq<Packet>, comp: nat): seq<byte>
    requires AllOk(ps, comp)
  {
    if ps == [] then [] else PacketBytes(ps[0], comp) + AllBytes(ps[1..], comp)
  }

  function SpreadAll(ps: seq<Packet>): seq<Pixel> { if ps == [] then [] else Spread(ps[0]) + SpreadAll(ps[1..]) }

  lemma {:induction false} JoinThree(a: seq<byte>, b: seq<byte>, c: seq<byte>)
    ensures a + b + c == a + (b + c)
  {
  }

  lemma {:induction false} AppendPackets(a: seq<Packet>, b: seq<Packet>, comp: nat)
    requires AllOk(a, comp) && AllOk(b, comp)
    ensures AllOk(a + b, comp) && AllBytes(a + b, comp) == AllBytes(a, comp) + AllBytes(b, comp)
  {
    hide PacketOk, PacketBytes;
    if a == [] {
      assert a + b == b;
    } else {
      assert (a + b)[1..] == a[1..] + b;
      AppendPackets(a[1..], b, comp);
      JoinThree(PacketBytes(a[0], comp), AllBytes(a[1..], comp), AllBytes(b, comp));
    }
  }

  lemma {:induction false} AppendSpreads(a: seq<Packet>, b: seq<Packet>)
    ensures SpreadAll(a + b) == SpreadAll(a) + SpreadAll(b)
  {
    hide Spread;
    if a == [] {
      assert a + b == b;
    } else {
      assert (a + b)[1..] == a[1..] + b;
      AppendSpreads(a[1..], b);
    }
  }

  lemma {:induction false} AppendPacket(ps: seq<Packet>, p: Packet, comp: nat)
    requires AllOk(ps, comp) && PacketOk(p, comp)
    ensures AllOk(ps + [p], comp) && AllBytes(ps + [p], comp) == AllBytes(ps, comp) + PacketBytes(p, comp)
    ensures SpreadAll(ps + [p]) == SpreadAll(ps) + Spread(p)
  {
    hide PacketOk, PacketBytes, Spread;
    assert [p][1..] == [];
    AppendPackets(ps, [p], comp);
    AppendSpreads(ps, [p]);
  }

  // ---- Writing a row ----

  /** How far a run, or a stretch to be written as it is, goes from pixel `i`. */
  method ScanPacket(row: seq<Pixel>, i: nat) returns (diff: bool, len: nat)
    requires i < |row|
    ensures 1 <= len <= 128 && i + len <= |row|
    ensures diff <==> i + 1 == |row| || row[i] != row[i + 1]
    ensures !diff ==> len >= 2 && forall k :: i <= k < i + len ==> row[k] == row[i]
    ensures !diff ==> len == 128 || i + len == |row| || row[i + len] != row[i]
    ensures diff ==> forall k :: i + 2 <= k < i + len ==> row[k - 2] != row[k]
    ensures diff ==> len == 128 || i + len == |row| || (i + len + 1 < |row| && row[i + len - 1] == row[i + len + 1])
  {
    diff, len := true, 1;
    if i < |row| - 1 {
      len := 2;
      diff := row[i] != row[i + 1];
      var k := i + 2;
      if diff {
        // compares each pixel with the one two before it
        var prev := i;
        while k < |row| && len < 128
          invariant 2 <= len <= 128 && k == i + len <= |row| && prev + 2 == k
          invariant forall m :: i + 2 <= m < k ==> row[m - 2] != row[m]
        {
          if row[prev] != row[k] {
            prev := prev + 1;
            len := len + 1;
          } else {
            len := len - 1;
            break;
          }
          k := k + 1;
        }
      } else {
        while k < |row| && len < 128
          invariant 2 <= len <= 128 && k == i + len <= |row| && forall m :: i <= m < i + len ==> row[m] == row[i]
        {
          if row[i] == row[k] {
            len := len + 1;
          } else {
            break;
          }
          k := k + 1;
        }
      }
    }
  }

  /** The first pixel of a packet. */
  function FirstOf(p: Packet, comp: nat): Pixel
    requires PacketOk(p, comp)
  {
    if p.Raw? then p.pixels[0] else p.pixel
  }

  /** A run is of two pixels or more; raw pixels differ from the one two before, and the second from the first. */
  predicate WellChosen(p: Packet) {
    match p
    case Raw(pixels) => (|pixels| > 1 ==> pixels[0] != pixels[1]) && forall k :: 2 <= k < |pixels| ==> pixels[k - 2] != pixels[k]
    case Run(count, _) => count >= 2
  }

  /** Besides, a run that is not of the greatest length is followed by another pixel. */
  predicate Compact(ps: seq<Packet>, comp: nat)
    requires AllOk(ps, comp)
  {
    ps == [] ||
      (WellChosen(ps[0]) && Compact(ps[1..], comp)
       && (|ps| > 1 && ps[0].Run? && ps[0].count < 128 ==> ps[0].pixel != FirstOf(ps[1], comp)))
  }

  /** The pixel that may not come next. */
  predicate MayFollow(ps: seq<Packet>, next: Pixel) {
    ps != [] && ps[|ps| - 1].Run? && ps[|ps| - 1].count < 128 ==> ps[|ps| - 1].pixel != next
  }

  lemma {:induction false} StillCompact(ps: seq<Packet>, p: Packet, comp: nat)
    requires AllOk(ps, comp) && PacketOk(p, comp) && Compact(ps, comp) && WellChosen(p) && MayFollow(ps, FirstOf(p, comp))
    ensures AllOk(ps + [p], comp) && Compact(ps + [p], comp)
  {
    hide PacketOk, WellChosen;
    if ps == [] {
      assert ps + [p] == [p] && [p][1..] == [];
    } else {
      assert (ps + [p])[1..] == ps[1..] + [p];
      StillCompact(ps[1..], p, comp);
    }
  }

  method WriteRow(row: seq<Pixel>, comp: nat) returns (out: seq<byte>, ghost ps: seq<Packet>)
    requires Pixels(row, comp)
    ensures AllOk(ps, comp) && out == AllBytes(ps, comp) && SpreadAll(ps) == row && Compact(ps, comp)
    ensures Read(out, 0, comp, 0, false, Zeros(comp), |row|) == row
  {
    hide PacketOk, PacketBytes, Spread, Pixels, Read, Compact, WellChosen;
    out, ps := [], [];
    NothingYet(comp);
    var i := 0;
    while i < |row|
      invariant i <= |row| && AllOk(ps, comp) && out == AllBytes(ps, comp) && SpreadAll(ps) == row[..i]
      invariant Compact(ps, comp) && (i < |row| ==> MayFollow(ps, row[i]))
      decreases |row| - i
    {
      var diff, len := ScanPacket(row, i);
      ghost var p;
      out, p := WritePacket(out, row, i, diff, len, comp);
      AppendPacket(ps, p, comp);
      ScannedIs(row, i, diff, len, p, comp);
      StillCompact(ps, p, comp);
      assert row[..i + len] == row[..i] + row[i..i + len];
      ps := ps + [p];
      i := i + len;
    }
    assert row[..|row|] == row;
    PacketsAreAll(out, comp, ps);
  }

  lemma {:induction false} NothingYet(comp: nat)
    ensures AllOk([], comp) && Compact([], comp)
  {
  }

  /** What was scanned is well chosen. */
  lemma {:induction false} ScannedIs(row: seq<Pixel>, i: nat, diff: bool, len: nat, p: Packet, comp: nat)
    requires 1 <= len <= 128 && i + len <= |row| && PacketOk(p, comp)
    requires p == if diff then Raw(row[i..i + len]) else Run(len, row[i])
    requires diff <==> i + 1 == |row| || row[i] != row[i + 1]
    requires !diff ==> len >= 2 && (len == 128 || i + len == |row| || row[i + len] != row[i])
    requires diff ==> forall k :: i + 2 <= k < i + len ==> row[k - 2] != row[k]
    ensures WellChosen(p) && FirstOf(p, comp) == row[i] && (i + len < |row| ==> MayFollow([p], row[i + len]))
  {
  }

  method WritePacket(before: seq<byte>, row: seq<Pixel>, i: nat, diff: bool, len: nat, comp: nat)
    returns (out: seq<byte>, ghost p: Packet)
    requires Pixels(row, comp) && 1 <= len <= 128 && i + len <= |row|
    requires !diff ==> forall k :: i <= k < i + len ==> row[k] == row[i]
    ensures PacketOk(p, comp) && out == before + PacketBytes(p, comp) && Spread(p) == row[i..i + len]
    ensures p == if diff then Raw(row[i..i + len]) else Run(len, row[i])
  {
    if diff {
      p := Raw(row[i..i + len]);
      out := before + [(len - 1) as byte];
      out := WritePixels(out, row, i, len);
      JoinThree(before, [(len - 1) as byte], Flat(row[i..i + len]));
    } else {
      p := Run(len, row[i]);
      out := before + [((len + 256 - 129) % 256) as byte] + row[i];
      JoinThree(before, [(len + 127) as byte], row[i]);
    }
  }

  method WritePixels(before: seq<byte>, row: seq<Pixel>, i: nat, len: nat) returns (out: seq<byte>)
    requires i + len <= |row|
    ensures out == before + Flat(row[i..i + len])
  {
    out := before;
    for k := 0 to len
      invariant out + Flat(row[i + k..i + len]) == before + Flat(row[i..i + len])
    {
      assert row[i + k..i + len] == [row[i + k]] + row[i + k + 1..i + len];
      assert out + (row[i + k] + Flat(row[i + k + 1..i + len])) == out + row[i + k] + Flat(row[i + k + 1..i + len]);
      out := out + row[i + k];
    }
    assert row[i + len..i + len] == [];
    assert out + [] == out;
  }

  // ---- Reading pixels ----

  /** `comp` bytes from `pos`, with zeros past the end. */
  function PixelAt(s: seq<byte>, pos: nat, comp: nat): (r: Pixel)
    ensures |r| == comp
  {
    seq<byte>(comp, j requires 0 <= j < comp => ByteAt(s, pos + j))
  }

  /** The next `n` pixels: inside a packet `left` more pixels are to come, all of them `last` in a run. */
  function Read(s: seq<byte>, pos: nat, comp: nat, left: nat, repeating: bool, last: Pixel, n: nat): seq<Pixel>
    decreases n
  {
    if n == 0 then []
    else if left == 0 then
      var cmd := ByteAt(s, pos);
      var pixel := PixelAt(s, pos + 1, comp);
      [pixel] + Read(s, pos + 1 + comp, comp, cmd % 128, cmd >= 128, pixel, n - 1)
    else if !repeating then
      var pixel := PixelAt(s, pos, comp);
      [pixel] + Read(s, pos + comp, comp, left - 1, repeating, pixel, n - 1)
    else [last] + Read(s, pos, comp, left - 1, repeating, last, n - 1)
  }

  lemma {:induction false} HasPixel(s: seq<byte>, pos: nat, p: Pixel)
    requires Has(s, pos, p)
    ensures PixelAt(s, pos, |p|) == p
  {
    var q := PixelAt(s, pos, |p|);
    forall j | 0 <= j < |p| ensures q[j] == p[j] {
      assert q[j] == ByteAt(s, pos + j);
      assert s[pos..pos + |p|][j] == p[j];
    }
  }

  /** The rest of a run. */
  lemma {:induction false} RunReads(s: seq<byte>, pos: nat, comp: nat, left: nat, last: Pixel, n: nat)
    requires left <= n
    ensures Read(s, pos, comp, left, true, last, n) == seq(left, _ => last) + Read(s, pos, comp, 0, true, last, n - left)
    decreases left
  {
    if left > 0 {
      RunReads(s, pos, comp, left - 1, last, n - 1);
      assert seq(left, _ => last) == [last] + seq(left - 1, _ => last);
    } else {
      assert seq(0, _ => last) == [];
    }
  }

  /** The rest of a raw packet; between packets neither the flag nor the last pixel matters. */
  lemma {:induction false} RawReads(s: seq<byte>, pos: nat, comp: nat, pixels: seq<Pixel>, last: Pixel, n: nat, any: Pixel, flag: bool)
    requires |pixels| <= n && Pixels(pixels, comp) && Has(s, pos, Flat(pixels))
    ensures Read(s, pos, comp, |pixels|, false, last, n)
         == pixels + Read(s, pos + |Flat(pixels)|, comp, 0, flag, any, n - |pixels|)
    decreases |pixels|
  {
    hide Has, PixelAt;
    if pixels != [] {
      HasSplit(s, pos, pixels[0], Flat(pixels[1..]));
      HasPixel(s, pos, pixels[0]);
      RawReads(s, pos + comp, comp, pixels[1..], pixels[0], n - 1, any, flag);
      assert pixels == [pixels[0]] + pixels[1..];
    }
  }

  /** The header byte and the first pixel of a packet. */
  lemma {:induction false} PacketStarts(s: seq<byte>, pos: nat, comp: nat, cmd: byte, pixel: Pixel, rest: seq<byte>, n: nat,
                                        flag: bool, last: Pixel)
    requires Has(s, pos, [cmd] + (pixel + rest)) && |pixel| == comp && n > 0
    ensures Read(s, pos, comp, 0, flag, last, n)
         == [pixel] + Read(s, pos + 1 + comp, comp, cmd % 128, cmd >= 128, pixel, n - 1)
    ensures Has(s, pos + 1 + comp, rest)
  {
    HasSplit(s, pos, [cmd], pixel + rest);
    assert s[pos..pos + 1][0] == cmd;
    HasSplit(s, pos + 1, pixel, rest);
    HasPixel(s, pos + 1, pixel);
  }

  lemma {:induction false} RawPacketReads(s: seq<byte>, pos: nat, comp: nat, pixels: seq<Pixel>, n: nat, flag: bool, last: Pixel)
    requires PacketOk(Raw(pixels), comp) && Has(s, pos, PacketBytes(Raw(pixels), comp)) && |pixels| <= n
    ensures Read(s, pos, comp, 0, flag, last, n)
         == pixels + Read(s, pos + |PacketBytes(Raw(pixels), comp)|, comp, 0, flag, last, n - |pixels|)
  {
    hide Has, Read;
    var cmd: byte := (|pixels| - 1) as byte;
    PacketStarts(s, pos, comp, cmd, pixels[0], Flat(pixels[1..]), n, flag, last);
    RawReads(s, pos + 1 + comp, comp, pixels[1..], pixels[0], n - 1, last, flag);
    assert pixels == [pixels[0]] + pixels[1..];
  }

  lemma {:induction false} RunPacketReads(s: seq<byte>, pos: nat, comp: nat, count: nat, pixel: Pixel, n: nat, flag: bool, last: Pixel)
    requires PacketOk(Run(count, pixel), comp) && Has(s, pos, PacketBytes(Run(count, pixel), comp)) && count <= n
    ensures Read(s, pos, comp, 0, flag, last, n)
         == seq(count, _ => pixel) + Read(s, pos + |PacketBytes(Run(count, pixel), comp)|, comp, 0, flag, last, n - count)
  {
    hide Has, Read;
    var cmd: byte := (count + 127) as byte;
    assert pixel + [] == pixel;
    PacketStarts(s, pos, comp, cmd, pixel, [], n, flag, last);
    RunReads(s, pos + 1 + comp, comp, count - 1, pixel, n - 1);
    BetweenPackets(s, pos + 1 + comp, comp, true, pixel, flag, last, n - count);
    assert seq(count, _ => pixel) == [pixel] + seq(count - 1, _ => pixel);
  }

  /** A packet is read as its pixels. */
  lemma {:induction false} PacketReads(s: seq<byte>, pos: nat, comp: nat, p: Packet, n: nat, flag: bool, last: Pixel)
    requires PacketOk(p, comp) && Has(s, pos, PacketBytes(p, comp)) && |Spread(p)| <= n
    ensures Read(s, pos, comp, 0, flag, last, n)
         == Spread(p) + Read(s, pos + |PacketBytes(p, comp)|, comp, 0, flag, last, n - |Spread(p)|)
  {
    hide Has, Read;
    match p
    case Raw(pixels) => RawPacketReads(s, pos, comp, pixels, n, flag, last);
    case Run(count, pixel) => RunPacketReads(s, pos, comp, count, pixel, n, flag, last);
  }

  lemma {:induction false} BetweenPackets(s: seq<byte>, pos: nat, comp: nat, f: bool, p: Pixel, g: bool, q: Pixel, n: nat)
    ensures Read(s, pos, comp, 0, f, p, n) == Read(s, pos, comp, 0, g, q, n)
  {
  }

  /** Packets are read as their pixels, and reading goes on right after them. */
  lemma {:induction false} PacketsRead(s: seq<byte>, pos: nat, comp: nat, ps: seq<Packet>, n: nat, flag: bool, last: Pixel)
    requires AllOk(ps, comp) && Has(s, pos, AllBytes(ps, comp)) && |SpreadAll(ps)| <= n
    ensures Read(s, pos, comp, 0, flag, last, n)
         == SpreadAll(ps) + Read(s, pos + |AllBytes(ps, comp)|, comp, 0, flag, last, n - |SpreadAll(ps)|)
    decreases |ps|
  {
    hide Read, PacketBytes, Spread, Has, PacketOk;
    if ps != [] {
      HasSplit(s, pos, PacketBytes(ps[0], comp), AllBytes(ps[1..], comp));
      PacketReads(s, pos, comp, ps[0], n, flag, last);
      PacketsRead(s, pos + |PacketBytes(ps[0], comp)|, comp, ps[1..], n - |Spread(ps[0])|, flag, last);
    }
  }

  lemma {:induction false} PacketsAreAll(s: seq<byte>, comp: nat, ps: seq<Packet>)
    requires AllOk(ps, comp) && s == AllBytes(ps, comp)
    ensures Read(s, 0, comp, 0, false, Zeros(comp), |SpreadAll(ps)|) == SpreadAll(ps)
  {
    hide AllOk, AllBytes, SpreadAll;
    assert s[0..0 + |s|] == s;
    PacketsRead(s, 0, comp, ps, |SpreadAll(ps)|, false, Zeros(comp));
  }

  /** The decoder's loop: a command byte is read when the last packet is used up. */
  method ReadPixels(s: seq<byte>, comp: nat, n: nat) returns (data: seq<Pixel>)
    ensures data == Read(s, 0, comp, 0, false, Zeros(comp), n)
  {
    data := [];
    var pos: nat, rleCount: nat, rleRepeating, rawData := 0, 0, false, Zeros(comp);
    for i := 0 to n
      invariant Read(s, 0, comp, 0, false, Zeros(comp), n) == data + Read(s, pos, comp, rleCount, rleRepeating, rawData, n - i)
    {
      var readNextPixel := false;
      ghost var pos0, count0, repeating0, raw0 := pos, rleCount, rleRepeating, rawData;
      if rleCount == 0 {
        var rleCmd := ByteAt(s, pos);
        pos := pos + 1;
        rleCount := 1 + rleCmd % 128;
        rleRepeating := rleCmd >= 128;
        readNextPixel := true;
      } else if !rleRepeating {
        readNextPixel := true;
      }
      if readNextPixel {
        rawData := PixelAt(s, pos, comp);
        pos := pos + comp;
      }
      rleCount := rleCount - 1;
      assert Read(s, pos0, comp, count0, repeating0, raw0, n - i)
          == [rawData] + Read(s, pos, comp, rleCount, rleRepeating, rawData, n - i - 1);
      assert data + ([rawData] + Read(s, pos, comp, rleCount, rleRepeating, rawData, n - i - 1))
          == data + [rawData] + Read(s, pos, comp, rleCount, rleRepeating, rawData, n - i - 1);
      data := data + [rawData];
    }
  }

  function Zeros(comp: nat): Pixel { seq<byte>(comp, _ => 0) }

  /** Any rows of pixels survive writing and reading. */
  method RoundTrip(rows: seq<seq<Pixel>>, comp: nat) returns (data: seq<Pixel>)
    requires forall k :: 0 <= k < |rows| ==> Pixels(rows[k], comp)
    ensures data == Joined(rows)
  {
    hide Read, Pixels, PacketOk, PacketBytes, Spread;
    var out: seq<byte> := [];
    ghost var ps: seq<Packet> := [];
    for k := 0 to |rows|
      invariant AllOk(ps, comp) && out == AllBytes(ps, comp) && SpreadAll(ps) == Joined(rows[..k])
    {
      var bytes, more := WriteRow(rows[k], comp);
      AppendPackets(ps, more, comp);
      AppendSpreads(ps, more);
      assert rows[..k + 1][..k] == rows[..k];
      out := out + bytes;
      ps := ps + more;
    }
    assert rows[..|rows|] == rows;
    PacketsAreAll(out, comp, ps);
    data := ReadPixels(out, comp, CountPixels(rows));
  }

  function Joined(rows: seq<seq<Pixel>>): seq<Pixel> { if rows == [] then [] else Joined(rows[..|rows| - 1]) + rows[|rows| - 1] }

  function CountPixels(rows: seq<seq<Pixel>>): (r: nat)
    ensures r == |Joined(rows)|
  {
    if rows == [] then 0 else CountPixels(rows[..|rows| - 1]) + |rows[|rows| - 1]|
  }
}
