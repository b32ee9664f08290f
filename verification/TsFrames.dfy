/** A frame cut into MPEG-TS packets: when it comes through, and when it does not. */
module TsFrames {
  import opened CArithmetic
  import opened Codec
  import opened Sequences
  import opened Substreams
  import opened TsPackets

  // ----- the stream of a frame -----

  function StartCode(track: Track, c: Cursor): seq<byte> {
    if track == VIDEO && c.atStart then [0, 0, 1] else []
  }

  // The elementary stream still to be written: a start code before each H.264 unit.
  ghost function Elementary(track: Track, c: Cursor): seq<byte>
    decreases |c.left|
  {
    if c.left == [] then []
    else StartCode(track, c) + c.left[0] + Elementary(track, Cursor(c.left[1..], true))
  }

  lemma {:induction false} ElementaryLength(units: seq<seq<byte>>)
    ensures |Elementary(VIDEO, Cursor(units, true))| == |Joined(units)| + 3 * |units|
    decreases |units|
  {
    if units != [] {
      ElementaryLength(units[1..]);
    }
  }

  // ----- filling one packet -----

  // MPEGTS::WritePES: bytes written, cursor left, success. `toWrite` is an 8-bit count, the start
  // code is deducted from it before it is known to fit.
  ghost function Pes(track: Track, c: Cursor, toWrite: nat): (seq<byte>, Cursor, bool)
    requires toWrite < 256
    decreases |Joined(c.left)|, |c.left|
  {
    if toWrite == 0 then ([], c, true)
    else
      var code := StartCode(track, c);
      var rest := (toWrite - |code|) % 256;
      var (chunk, c1) := ReadNext(c, rest);
      if chunk == [] then (code, c1, false)
      else
        ReadNextTakes(c, rest);
        var (more, c2, ok) := Pes(track, c1, rest - |chunk|);
        (code + chunk + more, c2, ok)
  }

  // Every unit that starts within the next `n` bytes finds four of them.
  ghost predicate StartsFit(track: Track, c: Cursor, n: nat)
    decreases |c.left|
  {
    n > 0 && c.left != [] ==>
      var code := StartCode(track, c);
      && (code != [] ==> n >= 4)
      && (n > |code| + |c.left[0]| ==> StartsFit(track, Cursor(c.left[1..], true), n - |code| - |c.left[0]|))
  }

  // One turn of the filling loop, with all of the piece or with its first bytes.
  lemma PesTakesPiece(track: Track, c: Cursor, n: nat)
    requires c.left != [] && c.left[0] != []
    requires |StartCode(track, c)| + |c.left[0]| <= n < 256
    ensures var code, head := StartCode(track, c), c.left[0];
            var (more, c', ok) := Pes(track, Cursor(c.left[1..], true), n - |code| - |head|);
            Pes(track, c, n) == (code + head + more, c', ok)
  {
  }

  lemma PesTakesPart(track: Track, c: Cursor, n: nat)
    requires c.left != []
    requires |StartCode(track, c)| < n < |StartCode(track, c)| + |c.left[0]| && n < 256
    ensures var code, head := StartCode(track, c), c.left[0];
            var rest := n - |code|;
            Pes(track, c, n) == (code + head[..rest], Cursor([head[rest..]] + c.left[1..], false), true)
  {
    var code, head := StartCode(track, c), c.left[0];
    var rest := n - |code|;
    var c1 := Cursor([head[rest..]] + c.left[1..], false);
    assert Pes(track, c1, 0) == ([], c1, true);
    assert code + head[..rest] + [] == code + head[..rest];
  }

  lemma ElementaryAfterPart(track: Track, c: Cursor, rest: nat)
    requires c.left != [] && rest < |c.left[0]|
    ensures var head := c.left[0];
            Elementary(track, c)
            == StartCode(track, c) + head[..rest] + Elementary(track, Cursor([head[rest..]] + c.left[1..], false))
  {
    var head := c.left[0];
    var c1 := Cursor([head[rest..]] + c.left[1..], false);
    assert c1.left[1..] == c.left[1..];
    assert head == head[..rest] + head[rest..];
  }

  // Then the packet is filled exactly and the stream goes on where it was left.
  lemma {:induction false} FittingPacketIsFilled(track: Track, c: Cursor, n: nat)
    requires n <= 184 && n <= |Elementary(track, c)| && NoEmptyPiece(c.left) && StartsFit(track, c, n)
    ensures var (bytes, c', ok) := Pes(track, c, n);
            && ok && |bytes| == n && bytes + Elementary(track, c') == Elementary(track, c)
            && NoEmptyPiece(c'.left)
    decreases |c.left|
  {
    if n > 0 {
      var code, head, next := StartCode(track, c), c.left[0], Cursor(c.left[1..], true);
      if |code| + |head| <= n {
        PesTakesPiece(track, c, n);
        FittingPacketIsFilled(track, next, n - |code| - |head|);
        Associates(code + head, Pes(track, next, n - |code| - |head|).0, Elementary(track, Pes(track, c, n).1));
      } else {
        PesTakesPart(track, c, n);
        ElementaryAfterPart(track, c, n - |code|);
      }
    }
  }

  // Otherwise the packet comes out too long, the 8-bit count having wrapped around, or the rest of
  // the frame is given up on a count of zero.
  lemma {:induction false} MisfitIsWrittenWrong(track: Track, c: Cursor, n: nat)
    requires n <= 184 && n <= |Elementary(track, c)| && NoEmptyPiece(c.left) && !StartsFit(track, c, n)
    ensures var (bytes, c', ok) := Pes(track, c, n);
            |bytes| > n || (|bytes| == n && !ok)
    decreases |c.left|
  {
    var code, head := StartCode(track, c), c.left[0];
    if code == [] || n >= 4 {
      PesTakesPiece(track, c, n);
      MisfitIsWrittenWrong(track, Cursor(c.left[1..], true), n - |code| - |head|);
    } else {
      assert head != [];
      var rest := (n - 3) % 256;
      assert rest == if n == 3 then 0 else n + 253;
    }
  }

  // ----- where the units of a frame fall -----

  // Bytes left in the current packet after `m` more bytes of stream; packets after the first hold 184.
  function RoomAfter(room: nat, m: nat): (r: nat)
    requires 1 <= room <= 184
    ensures 1 <= r <= 184
  {
    if m < room then room - m else 184 - (m - room) % 184
  }

  // Every unit starts with four bytes or more left in its packet.
  ghost predicate Aligned(track: Track, c: Cursor, room: nat)
    requires 1 <= room <= 184
    decreases |c.left|
  {
    c.left == [] ||
    var code := StartCode(track, c);
    && (code != [] ==> room >= 4)
    && Aligned(track, Cursor(c.left[1..], true), RoomAfter(room, |code| + |c.left[0]|))
  }

  // Two units, the first of which leaves three bytes of the first packet to the second: a frame
  // that does not come through.
  lemma ThreeBytesLeftIsMisaligned(unit1: seq<byte>, unit2: seq<byte>)
    requires |unit1| == Capacity(VIDEO, true) - 6 && unit2 != []
    ensures !Aligned(VIDEO, Cursor([unit1, unit2], true), Capacity(VIDEO, true))
  {
    var c := Cursor([unit1, unit2], true);
    assert RoomAfter(Capacity(VIDEO, true), 3 + |unit1|) == 3;
    assert c.left[1..] == [unit2];
    assert !Aligned(VIDEO, Cursor([unit2], true), 3);
  }

  lemma {:induction false} LastPacketIsAligned(track: Track, c: Cursor, room: nat)
    requires |Elementary(track, c)| <= room && 1 <= room <= 184 && NoEmptyPiece(c.left)
    ensures Aligned(track, c, room) && StartsFit(track, c, |Elementary(track, c)|)
    decreases |c.left|
  {
    if c.left != [] {
      var code, next := StartCode(track, c), Cursor(c.left[1..], true);
      var k := |code| + |c.left[0]|;
      assert c.left[0] != [] && |Elementary(track, c)| == k + |Elementary(track, next)|;
      if next.left != [] {
        assert next.left[0] != [];
        LastPacketIsAligned(track, next, room - k);
      }
    }
  }

  // Alignment is a matter of the units that start in this packet, then of those in the next ones.
  lemma {:induction false} AlignedPacketByPacket(track: Track, c: Cursor, room: nat)
    requires 1 <= room <= 184 && room < |Elementary(track, c)| && NoEmptyPiece(c.left)
    ensures Aligned(track, c, room) <==> StartsFit(track, c, room) && Aligned(track, Pes(track, c, room).1, 184)
    decreases |c.left|
  {
    var code, head, next := StartCode(track, c), c.left[0], Cursor(c.left[1..], true);
    var k := |code| + |head|;
    assert head != [];
    assert |Elementary(track, c)| == k + |Elementary(track, next)|;
    if code != [] && room < 4 {
    } else if k < room {
      PesTakesPiece(track, c, room);
      AlignedPacketByPacket(track, next, room - k);
    } else if k == room {
      PieceEndsPacket(track, c, room);
    } else {
      PieceCrossesPackets(track, c, room);
    }
  }

  lemma PieceEndsPacket(track: Track, c: Cursor, room: nat)
    requires c.left != [] && c.left[0] != [] && 1 <= room <= 184
    requires |StartCode(track, c)| + |c.left[0]| == room
    ensures Aligned(track, c, room) <==> StartsFit(track, c, room) && Aligned(track, Pes(track, c, room).1, 184)
  {
    PesTakesPiece(track, c, room);
    assert RoomAfter(room, room) == 184;
  }

  lemma PieceCrossesPackets(track: Track, c: Cursor, room: nat)
    requires c.left != [] && 1 <= room <= 184 && (StartCode(track, c) != [] ==> room >= 4)
    requires |StartCode(track, c)| + |c.left[0]| > room
    ensures Aligned(track, c, room) <==> StartsFit(track, c, room) && Aligned(track, Pes(track, c, room).1, 184)
  {
    var k := |StartCode(track, c)| + |c.left[0]|;
    PesTakesPart(track, c, room);
    var c1 := Pes(track, c, room).1;
    assert c1.left[1..] == c.left[1..] && |c1.left[0]| == k - room && StartCode(track, c1) == [];
    RoomAcrossPackets(room, k);
  }

  lemma RoomAcrossPackets(room: nat, m: nat)
    requires 1 <= room <= 184 && room <= m
    ensures RoomAfter(184, m - room) == RoomAfter(room, m)
  {
    if m - room >= 184 {
      assert (m - room - 184) % 184 == (m - room) % 184;
    }
  }

  lemma AudioIsAligned(c: Cursor, room: nat)
    requires 1 <= room <= 184
    ensures Aligned(AUDIO, c, room)
    decreases |c.left|
  {
  }

  lemma OneUnitIsAligned(unit: seq<byte>, track: Track)
    ensures Aligned(track, Cursor([unit], true), Capacity(track, true))
  {
    assert [unit][1..] == [];
  }

  // ----- whole frames -----

  // A 32-bit counter goes up by one.
  function Tick(counter: nat): nat {
    (counter + 1) % 0x1_0000_0000
  }

  // MPEGTS::writeTS: the packets of what is left of a frame.
  ghost function Packets(media: Media, first: bool, available: nat, c: Cursor, counter: nat): (s: seq<seq<byte>>)
    requires available > 0
    ensures s != []
    decreases available
  {
    ToWriteIsTheMost(media.track, first, available);
    var n := ToWrite(media.track, first, available);
    var (bytes, c', ok) := Pes(media.track, c, n);
    [Header(media, first, available, counter) + bytes]
    + (if ok && available > n then Packets(media, false, available - n, c', Tick(counter)) else [])
  }

  ghost function Others(media: Media, first: bool, available: nat, c: Cursor, counter: nat): seq<seq<byte>>
    requires available > 0
  {
    var n := ToWrite(media.track, first, available);
    var (bytes, c', ok) := Pes(media.track, c, n);
    ToWriteIsTheMost(media.track, first, available);
    if ok && available > n then Packets(media, false, available - n, c', Tick(counter)) else []
  }

  lemma PacketsAreFirstAndOthers(media: Media, first: bool, available: nat, c: Cursor, counter: nat)
    requires available > 0
    ensures var packet := Header(media, first, available, counter)
                          + Pes(media.track, c, ToWrite(media.track, first, available)).0;
            Packets(media, first, available, c, counter) == [packet] + Others(media, first, available, c, counter)
  {
  }

  ghost predicate AllWhole(packets: seq<seq<byte>>) {
    forall k :: 0 <= k < |packets| ==> |packets[k]| == 188
  }

  ghost function Demux(packets: seq<seq<byte>>): seq<byte>
    requires AllWhole(packets)
  {
    if packets == [] then [] else StreamOf(packets[0]) + Demux(packets[1..])
  }

  // A frame came through: whole packets, and the stream in them the frame's own.
  ghost predicate Faithful(packets: seq<seq<byte>>, stream: seq<byte>) {
    AllWhole(packets) && Demux(packets) == stream
  }

  // What a demultiplexer should find: the prefix of a first packet, then the stream.
  ghost function Expected(media: Media, first: bool, available: nat, c: Cursor): seq<byte>
    requires available > 0
  {
    (if first then Prefix(media, ToWrite(media.track, first, available)) else []) + Elementary(media.track, c)
  }

  // A good first packet leaves the question to the others.
  lemma FaithfulByTheRest(packet: seq<byte>, rest: seq<seq<byte>>, prefix: seq<byte>, bytes: seq<byte>,
                          stream: seq<byte>)
    requires |packet| == 188 && StreamOf(packet) == prefix + bytes
    ensures Faithful([packet] + rest, prefix + (bytes + stream)) <==> Faithful(rest, stream)
  {
    var packets := [packet] + rest;
    assert packets[1..] == rest;
    if AllWhole(packets) {
      forall k | 0 <= k < |rest| ensures |rest[k]| == 188 {
        assert rest[k] == packets[k + 1];
      }
      assert Demux(packets) == prefix + bytes + Demux(rest);
      Associates(prefix, bytes, Demux(rest));
      if prefix + (bytes + Demux(rest)) == prefix + (bytes + stream) {
        SamePrefix(prefix, bytes + Demux(rest), bytes + stream);
        SamePrefix(bytes, Demux(rest), stream);
      }
    }
  }

  lemma SamePrefix(prefix: seq<byte>, s: seq<byte>, t: seq<byte>)
    requires prefix + s == prefix + t
    ensures s == t
  {
    assert (prefix + s)[|prefix|..] == s;
    assert (prefix + t)[|prefix|..] == t;
  }

  lemma FittingFirstPacket(media: Media, first: bool, available: nat, c: Cursor, counter: nat)
    requires available == |Elementary(media.track, c)| > 0 && NoEmptyPiece(c.left)
    requires StartsFit(media.track, c, ToWrite(media.track, first, available))
    ensures var n := ToWrite(media.track, first, available);
            var (bytes, c', ok) := Pes(media.track, c, n);
            var packets := Packets(media, first, available, c, counter);
            && n <= available && NoEmptyPiece(c'.left) && |Elementary(media.track, c')| == available - n
            && (available == n ==> Faithful(packets, Expected(media, first, available, c)))
            && (available > n ==> (Faithful(packets, Expected(media, first, available, c)) <==>
                  Faithful(Packets(media, false, available - n, c', Tick(counter)), Elementary(media.track, c'))))
  {
    var n := ToWrite(media.track, first, available);
    ToWriteIsTheMost(media.track, first, available);
    FittingPacketIsFilled(media.track, c, n);
    var (bytes, c', ok) := Pes(media.track, c, n);
    var prefix := if first then Prefix(media, n) else [];
    var rest := if available > n then Packets(media, false, available - n, c', Tick(counter)) else [];
    StreamOfPacket(media, first, available, counter, bytes);
    FaithfulByTheRest(Header(media, first, available, counter) + bytes, rest, prefix, bytes,
                      Elementary(media.track, c'));
  }

  lemma MisfitFirstPacket(media: Media, first: bool, available: nat, c: Cursor, counter: nat)
    requires available == |Elementary(media.track, c)| > 0 && NoEmptyPiece(c.left)
    requires !StartsFit(media.track, c, ToWrite(media.track, first, available))
    ensures !Faithful(Packets(media, first, available, c, counter), Expected(media, first, available, c))
  {
    var n := ToWrite(media.track, first, available);
    ToWriteIsTheMost(media.track, first, available);
    MisfitIsWrittenWrong(media.track, c, n);
    if available == n {
      LastPacketIsAligned(media.track, c, n);
    }
    var packets := Packets(media, first, available, c, counter);
    var bytes := Pes(media.track, c, n).0;
    if |bytes| > n {
      assert |packets[0]| != 188;
    } else {
      StreamOfPacket(media, first, available, counter, bytes);
      assert packets[1..] == [];
      assert |Demux(packets)| == |StreamOf(packets[0])|;
    }
  }

  // A frame comes through if and only if each of its units starts with four bytes or more left in
  // its packet; audio, which has no start codes, always does.
  lemma {:induction false} FrameIsFaithfulExactly(media: Media, first: bool, available: nat, c: Cursor, counter: nat)
    requires available == |Elementary(media.track, c)| > 0 && NoEmptyPiece(c.left)
    ensures Faithful(Packets(media, first, available, c, counter), Expected(media, first, available, c))
       <==> Aligned(media.track, c, Capacity(media.track, first))
    decreases available
  {
    var room := Capacity(media.track, first);
    var n := ToWrite(media.track, first, available);
    ToWriteIsTheMost(media.track, first, available);
    if available <= room {
      LastPacketIsAligned(media.track, c, room);
      FittingFirstPacket(media, first, available, c, counter);
    } else {
      AlignedPacketByPacket(media.track, c, room);
      if StartsFit(media.track, c, n) {
        FittingFirstPacket(media, first, available, c, counter);
        FrameIsFaithfulExactly(media, false, available - n, Pes(media.track, c, n).1, Tick(counter));
      } else {
        MisfitFirstPacket(media, first, available, c, counter);
      }
    }
  }

  // The sync byte, the start mark, the track's identifier and the continuity counter.
  ghost predicate StartsAs(packet: seq<byte>, track: Track, isStart: bool, counter: nat) {
    && |packet| >= 4 && packet[0] == 0x47
    && packet[1] == (if isStart then 0x40 else 0)
    && packet[2] == (if track == AUDIO then 0x60 else 0x40)
    && packet[3] % 16 == counter % 16
  }

  // Packet after packet, the start mark on a first packet only, and continuity counters one after
  // the other modulo 16.
  lemma {:induction false} PacketsFollow(media: Media, first: bool, available: nat, c: Cursor, counter: nat, k: nat)
    requires available > 0
    requires k < |Packets(media, first, available, c, counter)|
    ensures StartsAs(Packets(media, first, available, c, counter)[k], media.track, first && k == 0, counter + k)
    decreases k
  {
    PacketsAreFirstAndOthers(media, first, available, c, counter);
    if k > 0 {
      var n := ToWrite(media.track, first, available);
      var others := Others(media, first, available, c, counter);
      assert Packets(media, first, available, c, counter)[k] == others[k - 1];
      PacketsFollow(media, false, available - n, Pes(media.track, c, n).1, Tick(counter), k - 1);
      TickModulo(counter, k - 1);
    } else {
      FirstStartsAs(media, first, available, c, counter);
    }
  }

  lemma FirstStartsAs(media: Media, first: bool, available: nat, c: Cursor, counter: nat)
    requires available > 0
    ensures var bytes := Pes(media.track, c, ToWrite(media.track, first, available)).0;
            StartsAs(Header(media, first, available, counter) + bytes, media.track, first, counter)
  {
    PacketStarts(media, first, available, counter, Pes(media.track, c, ToWrite(media.track, first, available)).0);
  }

  lemma TickModulo(counter: nat, k: nat)
    ensures (Tick(counter) + k) % 16 == (counter + 1 + k) % 16
  {
    var ticks := Tick(counter) + k;
    var turns := (counter + 1) / 0x1_0000_0000;
    assert counter + 1 + k == 16 * (turns * 0x1000_0000 + ticks / 16) + ticks % 16;
    DivisionIs(counter + 1 + k, 16, turns * 0x1000_0000 + ticks / 16, ticks % 16);
  }
}
