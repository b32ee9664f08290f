/** One MPEG-TS packet: its headers, what it has room for, and how a receiver reads it. */
module TsPackets {
  import opened CArithmetic
  import opened Codec
  import opened Sequences

  datatype Track = AUDIO | VIDEO

  // Track, 32-bit time in milliseconds, and whether the frame is a key one.
  datatype Media = Media(track: Track, time: nat, key: bool)

  // ----- sizes -----

  function PesHeaderSize(track: Track): nat {
    if track == AUDIO then 21 else 20
  }

  function SizeFree(track: Track, first: bool): nat {
    if first then 184 - PesHeaderSize(track) else 184
  }

  function HasAdaptiveField(track: Track, first: bool, available: nat): bool {
    available < SizeFree(track, first) || first
  }

  function AdaptiveSize(track: Track, first: bool, available: nat): nat {
    var free := SizeFree(track, first);
    var size := if available < free - 1 then free - 1 - available else 0;
    if first && size < 7 then 7 else size
  }

  // The stream bytes a packet carries; the eight-bit subtraction never goes below zero.
  function ToWrite(track: Track, first: bool, available: nat): (n: nat)
    ensures n <= 184
  {
    if !first && available > 184 then 184
    else SizeFree(track, first) - AdaptiveSize(track, first, available)
         - (if HasAdaptiveField(track, first, available) then 1 else 0)
  }

  // The first packet gives eight bytes to its time; the others are full of stream.
  function Capacity(track: Track, first: bool): (n: nat)
    ensures 155 <= n <= 184
  {
    if first then SizeFree(track, true) - 8 else 184
  }

  // A packet is as full as it can be, and never promises more than there is.
  lemma ToWriteIsTheMost(track: Track, first: bool, available: nat)
    requires available > 0
    ensures ToWrite(track, first, available)
         == if available < Capacity(track, first) then available else Capacity(track, first)
  {
  }

  // ----- headers -----

  function Pts(time: nat): nat {
    time * 90 % 0x1_0000_0000
  }

  function PcrBytes(pts: nat): seq<byte>
    requires pts < 0x1_0000_0000
  {
    var pcr := pts * 0x200;
    [pcr / 0x4_0000_0000 % 256, pcr / 0x400_0000 % 256, pcr / 0x4_0000 % 256, pcr / 0x400 % 256,
     0x7E + pcr / 0x200 % 2 * 0x80 + pcr / 0x100 % 2, pcr % 256]
  }

  function PtsBytes(pts: nat): seq<byte>
    requires pts < 0x1_0000_0000
  {
    [pts / 0x4000_0000 % 4 * 2 + 0x21, pts / 0x40_0000 % 256, pts / 0x8000 % 128 * 2 + 1,
     pts / 0x80 % 256, pts % 128 * 2 + 1]
  }

  // What precedes the stream itself in a first packet: an access unit delimiter or an ADTS header.
  function Prefix(media: Media, toWrite: nat): seq<byte>
    requires toWrite < 256
  {
    if media.track == VIDEO then [0, 0, 0, 1, 0x09, if media.key then 0x10 else 0x30]
    else
      var length := (toWrite + 7) * 0x20 + 0x1F;
      [0xFF, 0xF1, 0x50, 0x40, length / 256, length % 256, 0xFC]
  }

  function PesHeader(media: Media, toWrite: nat): (s: seq<byte>)
    requires toWrite < 256
    ensures |s| == PesHeaderSize(media.track)
  {
    [0, 0, 1, if media.track == AUDIO then 0xC0 else 0xE0, 0, 0, 0x81, 0x80, 0x05]
    + PtsBytes(Pts(media.time)) + Prefix(media, toWrite)
  }

  function AdaptiveField(media: Media, first: bool, available: nat): (s: seq<byte>)
    ensures |s| == if HasAdaptiveField(media.track, first, available)
                   then 1 + AdaptiveSize(media.track, first, available) else 0
    ensures s != [] ==> s[0] == AdaptiveSize(media.track, first, available)
  {
    var size := AdaptiveSize(media.track, first, available);
    if !HasAdaptiveField(media.track, first, available) then []
    else if size == 0 then [size]
    else if first then
      [size, if media.key then 0x50 else 0x10] + PcrBytes(Pts(media.time)) + seq(size - 7, _ => 0xFF)
    else [size, 0] + seq(size - 1, _ => 0xFF)
  }

  function Start(media: Media, first: bool, available: nat, counter: nat): (s: seq<byte>)
    ensures |s| == 4
  {
    [0x47, if first then 0x40 else 0, if media.track == AUDIO then 0x60 else 0x40,
     (if (first || available <= 184) && HasAdaptiveField(media.track, first, available) then 0x30 else 0x10)
     + counter % 16]
  }

  function Header(media: Media, first: bool, available: nat, counter: nat): (s: seq<byte>)
    requires available > 0
    ensures |s| == 188 - ToWrite(media.track, first, available)
  {
    if !first && available > 184 then Start(media, first, available, counter)
    else Start(media, first, available, counter) + AdaptiveField(media, first, available)
         + (if first then PesHeader(media, ToWrite(media.track, first, available)) else [])
  }

  // ----- a demultiplexer, after ISO/IEC 13818-1 sections 2.4.3.3 and 2.4.3.7 -----

  function PayloadOf(packet: seq<byte>): seq<byte>
    requires |packet| == 188
  {
    var start: int := if packet[3] / 0x20 % 2 == 1 then 5 + packet[4] as int else 4;
    if start <= 188 then packet[start..] else []
  }

  function StreamOf(packet: seq<byte>): seq<byte>
    requires |packet| == 188
  {
    var payload := PayloadOf(packet);
    if packet[1] / 0x40 % 2 == 0 then payload
    else if |payload| >= 9 && 9 + payload[8] as int <= |payload| then payload[9 + payload[8] as int..]
    else []
  }

  lemma PayloadAfterField(start: seq<byte>, field: seq<byte>, rest: seq<byte>)
    requires |start| == 4 && |start + field + rest| == 188
    requires start[3] / 0x20 % 2 == 1 <==> field != []
    requires field != [] ==> field[0] == |field| - 1
    ensures PayloadOf(start + field + rest) == rest
    ensures (start + field + rest)[1] == start[1]
  {
    var packet := start + field + rest;
    assert packet[3] == start[3];
    if field != [] {
      assert packet[4] == field[0];
    }
    assert packet[4 + |field|..] == rest;
  }

  lemma StreamAfterPesHeader(media: Media, toWrite: nat, bytes: seq<byte>)
    requires toWrite < 256
    ensures var payload := PesHeader(media, toWrite) + bytes;
            payload[8] == 5 && |payload| >= 14 && payload[14..] == Prefix(media, toWrite) + bytes
  {
    var pes := PesHeader(media, toWrite);
    assert pes[14..] == Prefix(media, toWrite);
    assert (pes + bytes)[14..] == pes[14..] + bytes;
  }

  lemma StartSaysField(media: Media, first: bool, available: nat, counter: nat)
    requires first || available <= 184
    ensures Start(media, first, available, counter)[3] / 0x20 % 2 == 1
       <==> AdaptiveField(media, first, available) != []
  {
  }

  lemma StreamOfFullPacket(media: Media, available: nat, counter: nat, bytes: seq<byte>)
    requires available > 184 && |bytes| == 184
    ensures var packet := Header(media, false, available, counter) + bytes;
            |packet| == 188 && StreamOf(packet) == bytes
  {
    var start := Start(media, false, available, counter);
    PayloadAfterField(start, [], bytes);
    assert start + [] + bytes == start + bytes;
  }

  lemma StreamOfLastPacket(media: Media, available: nat, counter: nat, bytes: seq<byte>)
    requires 0 < available <= 184 && |bytes| == ToWrite(media.track, false, available)
    ensures var packet := Header(media, false, available, counter) + bytes;
            |packet| == 188 && StreamOf(packet) == bytes
  {
    ToWriteIsTheMost(media.track, false, available);
    StartSaysField(media, false, available, counter);
    var start, field := Start(media, false, available, counter), AdaptiveField(media, false, available);
    assert Header(media, false, available, counter) == start + field + [] == start + field;
    PayloadAfterField(start, field, bytes);
  }

  lemma PayloadOfFirstPacket(media: Media, available: nat, counter: nat, bytes: seq<byte>)
    requires available > 0 && |bytes| == ToWrite(media.track, true, available)
    ensures var packet := Header(media, true, available, counter) + bytes;
            |packet| == 188 && PayloadOf(packet) == PesHeader(media, |bytes|) + bytes && packet[1] == 0x40
  {
    ToWriteIsTheMost(media.track, true, available);
    var start, field := Start(media, true, available, counter), AdaptiveField(media, true, available);
    StartSaysField(media, true, available, counter);
    Associates(start + field, PesHeader(media, |bytes|), bytes);
    PayloadAfterField(start, field, PesHeader(media, |bytes|) + bytes);
  }

  lemma StreamOfFirstPacket(media: Media, available: nat, counter: nat, bytes: seq<byte>)
    requires available > 0 && |bytes| == ToWrite(media.track, true, available)
    ensures var packet := Header(media, true, available, counter) + bytes;
            |packet| == 188 && StreamOf(packet) == Prefix(media, |bytes|) + bytes
  {
    PayloadOfFirstPacket(media, available, counter, bytes);
    StreamAfterPesHeader(media, |bytes|, bytes);
    StreamOfPayload(Header(media, true, available, counter) + bytes, PesHeader(media, |bytes|) + bytes);
  }

  // Five bytes of PES header data follow the first nine.
  lemma StreamOfPayload(packet: seq<byte>, payload: seq<byte>)
    requires |packet| == 188 && packet[1] == 0x40 && PayloadOf(packet) == payload
    requires |payload| >= 14 && payload[8] == 5
    ensures StreamOf(packet) == payload[14..]
  {
  }

  // A packet gives back what was put into it.
  lemma StreamOfPacket(media: Media, first: bool, available: nat, counter: nat, bytes: seq<byte>)
    requires available > 0 && |bytes| == ToWrite(media.track, first, available)
    ensures var packet := Header(media, first, available, counter) + bytes;
            && |packet| == 188
            && StreamOf(packet) == (if first then Prefix(media, |bytes|) else []) + bytes
  {
    if first {
      StreamOfFirstPacket(media, available, counter, bytes);
    } else if available > 184 {
      ToWriteIsTheMost(media.track, false, available);
      StreamOfFullPacket(media, available, counter, bytes);
    } else {
      StreamOfLastPacket(media, available, counter, bytes);
    }
  }

  lemma PacketStarts(media: Media, first: bool, available: nat, counter: nat, bytes: seq<byte>)
    requires available > 0
    ensures var packet := Header(media, first, available, counter) + bytes;
            var start := Start(media, first, available, counter);
            |packet| >= 4 && forall i :: 0 <= i < 4 ==> packet[i] == start[i]
  {
  }

  // ----- time stamps, after ISO/IEC 13818-1 sections 2.4.3.5 and 2.4.3.7 -----

  function PcrBase(s: seq<byte>): int
    requires |s| == 6
  {
    s[0] as int * 0x200_0000 + s[1] as int * 0x2_0000 + s[2] as int * 0x200 + s[3] as int * 2 + s[4] as int / 0x80
  }

  function PcrExtension(s: seq<byte>): int
    requires |s| == 6
  {
    s[4] as int % 2 * 0x100 + s[5] as int
  }

  function PtsValue(s: seq<byte>): int
    requires |s| == 5
  {
    s[0] as int / 2 % 8 * 0x4000_0000 + s[1] as int * 0x40_0000 + s[2] as int / 2 * 0x8000
    + s[3] as int * 0x80 + s[4] as int / 2
  }

  lemma PcrReads(pts: nat)
    requires pts < 0x1_0000_0000
    ensures var s := PcrBytes(pts); |s| == 6 && PcrBase(s) == pts && PcrExtension(s) == 0
    ensures PcrBytes(pts)[4] / 2 % 64 == 63
  {
    PcrDigits(pts);
    PcrSplits(pts);
  }

  lemma PcrSplits(pts: nat)
    ensures pts == pts / 0x200_0000 * 0x200_0000 + pts / 0x2_0000 % 256 * 0x2_0000 + pts / 0x200 % 256 * 0x200
                   + pts / 2 % 256 * 2 + pts % 2
  {
    DivisionNests(pts, 2, 256);
    DivisionNests(pts, 0x200, 256);
    DivisionNests(pts, 0x2_0000, 256);
  }

  lemma PcrDigits(pts: nat)
    requires pts < 0x1_0000_0000
    ensures PcrBytes(pts)
         == [pts / 0x200_0000, pts / 0x2_0000 % 256, pts / 0x200 % 256, pts / 2 % 256, 0x7E + pts % 2 * 0x80, 0]
  {
    var pcr := pts * 0x200;
    assert pcr / 0x4_0000_0000 == pts / 0x200_0000;
    assert pcr / 0x400_0000 == pts / 0x2_0000;
    assert pcr / 0x4_0000 == pts / 0x200;
    assert pcr / 0x400 == pts / 2;
    assert pcr / 0x200 == pts;
    assert pcr / 0x100 == pts * 2;
  }

  lemma PtsReads(pts: nat)
    requires pts < 0x1_0000_0000
    ensures var s := PtsBytes(pts);
            |s| == 5 && PtsValue(s) == pts && s[0] / 16 == 2 && s[0] % 2 == 1 && s[2] % 2 == 1 && s[4] % 2 == 1
  {
    DivisionNests(pts, 0x80, 256);
    DivisionNests(pts, 0x8000, 128);
    DivisionNests(pts, 0x40_0000, 256);
  }

  // The prefix 0010 and the three marker bits around a time stamp.
  predicate HasPtsMarkers(payload: seq<byte>)
    requires |payload| >= 14
  {
    payload[9] / 16 == 2 && payload[9] % 2 == 1 && payload[11] % 2 == 1 && payload[13] % 2 == 1
  }

  // Both clocks of a first packet read 90 ticks a millisecond, on 32 bits, with the reserved and
  // marker bits around them.
  lemma FirstPacketTellsTime(media: Media, available: nat, counter: nat, bytes: seq<byte>)
    requires available > 0 && |bytes| == ToWrite(media.track, true, available)
    ensures var packet := Header(media, true, available, counter) + bytes;
            && |packet| == 188 && |PayloadOf(packet)| >= 14
            && packet[5] / 0x10 % 2 == 1 && PcrBase(packet[6..12]) == media.time * 90 % 0x1_0000_0000
            && PcrExtension(packet[6..12]) == 0 && packet[10] / 2 % 64 == 63
            && PtsValue(PayloadOf(packet)[9..14]) == media.time * 90 % 0x1_0000_0000
            && HasPtsMarkers(PayloadOf(packet))
  {
    var start, field := Start(media, true, available, counter), AdaptiveField(media, true, available);
    var rest := PesHeader(media, |bytes|) + bytes;
    StartSaysField(media, true, available, counter);
    StreamOfPacket(media, true, available, counter, bytes);
    Associates(start + field, PesHeader(media, |bytes|), bytes);
    PayloadAfterField(start, field, rest);
    FieldInPacket(start, field, rest);
    FieldHasPcr(media, available);
    PesHasPts(media, |bytes|, bytes);
  }

  /** The header of a PES packet in a first packet, after the field whose flags tell a key frame: start
      code prefix, stream of the track, no size, a time stamp that follows, five bytes of it. */
  lemma FirstPacketStarts(media: Media, available: nat, counter: nat, bytes: seq<byte>)
    requires available > 0 && |bytes| == ToWrite(media.track, true, available)
    ensures var packet := Header(media, true, available, counter) + bytes;
            && |packet| == 188 && packet[3] / 0x10 == 3 && packet[5] == (if media.key then 0x50 else 0x10)
            && |PayloadOf(packet)| >= 14 && PayloadOf(packet) == packet[5 + packet[4] as int..]
            && PayloadOf(packet)[..9]
               == [0, 0, 1, if media.track == AUDIO then 0xC0 else 0xE0, 0, 0, 0x81, 0x80, 5]
  {
    var start, field := Start(media, true, available, counter), AdaptiveField(media, true, available);
    PayloadOfFirstPacket(media, available, counter, bytes);
    var rest := PesHeader(media, |bytes|) + bytes;
    Associates(start + field, PesHeader(media, |bytes|), bytes);
    FieldHasPcr(media, available);
    FieldInPacket(start, field, rest);
    FieldFollows(media, available, counter, start, field, rest);
    PesHeaderStarts(media, |bytes|, bytes);
  }

  lemma FieldFollows(media: Media, available: nat, counter: nat, start: seq<byte>, field: seq<byte>, rest: seq<byte>)
    requires start == Start(media, true, available, counter) && field == AdaptiveField(media, true, available)
    requires |field| >= 8
    ensures var packet := start + field + rest;
            packet[3] / 0x10 == 3 && packet[3] / 0x20 % 2 == 1 && packet[4] == field[0]
            && field[1] == (if media.key then 0x50 else 0x10)
  {
  }

  lemma PesHeaderStarts(media: Media, toWrite: nat, bytes: seq<byte>)
    requires toWrite < 256
    ensures var payload := PesHeader(media, toWrite) + bytes;
            |payload| >= 14
            && payload[..9] == [0, 0, 1, if media.track == AUDIO then 0xC0 else 0xE0, 0, 0, 0x81, 0x80, 5]
  {
  }

  lemma FieldInPacket(start: seq<byte>, field: seq<byte>, rest: seq<byte>)
    requires |start| == 4 && |field| >= 8
    ensures (start + field + rest)[5] == field[1] && (start + field + rest)[6..12] == field[2..8]
    ensures (start + field + rest)[10] == field[6]
  {
  }

  lemma FieldHasPcr(media: Media, available: nat)
    ensures var field := AdaptiveField(media, true, available);
            && |field| >= 8 && field[1] / 0x10 % 2 == 1
            && PcrBase(field[2..8]) == Pts(media.time) && PcrExtension(field[2..8]) == 0
            && field[6] / 2 % 64 == 63
  {
    PcrReads(Pts(media.time));
    var field := AdaptiveField(media, true, available);
    assert field[2..8] == PcrBytes(Pts(media.time));
    assert field[2..8][4] == field[6];
  }

  lemma PesHasPts(media: Media, toWrite: nat, bytes: seq<byte>)
    requires toWrite < 256
    ensures var payload := PesHeader(media, toWrite) + bytes;
            |payload| >= 14 && PtsValue(payload[9..14]) == Pts(media.time) && HasPtsMarkers(payload)
  {
    PtsReads(Pts(media.time));
    var payload, pts := PesHeader(media, toWrite) + bytes, PtsBytes(Pts(media.time));
    assert payload[9..14] == pts;
    assert payload[9] == pts[0] && payload[11] == pts[2] && payload[13] == pts[4];
  }

  // The ADTS header counts the bytes of the first packet only: it is right for a frame of one packet.
  lemma AdtsLengthExactly(media: Media, available: nat)
    requires media.track == AUDIO && available > 0
    ensures var s := Prefix(media, ToWrite(AUDIO, true, available));
            (s[3] as int % 4 * 0x800 + s[4] as int * 8 + s[5] as int / 0x20 == 7 + available)
            <==> available <= Capacity(AUDIO, true)
  {
    ToWriteIsTheMost(AUDIO, true, available);
  }
}
