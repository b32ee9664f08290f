/** What a receiver makes of the bytes of a frame: cut into packets, demultiplexed, and split at the
    start codes of ISO/IEC 14496-10, Annex B. */
module TsReading {
  import opened CArithmetic
  import opened Codec
  import opened Sequences
  import opened Substreams
  import opened H264Units
  import opened TsPackets
  import opened TsFrames
  import opened MpegTs

  // ----- cutting -----

  function Cut(bytes: seq<byte>): seq<seq<byte>> {
    if |bytes| < 188 then (if bytes == [] then [] else [bytes])
    else [bytes[..188]] + Cut(bytes[188..])
  }

  lemma {:induction false} CutJoined(packets: seq<seq<byte>>)
    requires AllWhole(packets)
    ensures Cut(Joined(packets)) == packets
    decreases |packets|
  {
    if packets != [] {
      var all := packets[0] + Joined(packets[1..]);
      assert |packets[0]| == 188;
      assert all[..188] == packets[0] && all[188..] == Joined(packets[1..]);
      CutJoined(packets[1..]);
    }
  }

  // ----- start codes -----

  // The bytes up to the next 00 00 01.
  function Until(s: seq<byte>): (u: seq<byte>)
    ensures u <= s
  {
    if s == [] || [0, 0, 1] <= s then [] else [s[0]] + Until(s[1..])
  }

  // The units of a byte stream: whatever follows a start code, up to the next one.
  function ReadUnits(s: seq<byte>): seq<seq<byte>>
    decreases |s|
  {
    if |Until(s)| + 3 > |s| then []
    else
      var rest := s[|Until(s)| + 3..];
      [Until(rest)] + ReadUnits(rest)
  }

  // A unit holds no start code, as section 7.4.1 of ISO/IEC 14496-10 asks for.
  predicate Clean(unit: seq<byte>) {
    Until(unit) == unit
  }

  ghost function StartCoded(units: seq<seq<byte>>): seq<byte> {
    if units == [] then [] else [0, 0, 1] + units[0] + StartCoded(units[1..])
  }

  lemma {:induction false} UntilStops(unit: seq<byte>, rest: seq<byte>)
    requires Clean(unit) && (rest == [] || [0, 0, 1] <= rest)
    ensures Until(unit + rest) == unit
    decreases |unit|
  {
    var s := unit + rest;
    if unit == [] {
      assert s == rest;
    } else {
      assert s[1..] == unit[1..] + rest;
      NoCodeAcross(unit, rest);
      CleanTail(unit);
      UntilStops(unit[1..], rest);
      assert [unit[0]] + unit[1..] == unit;
    }
  }

  lemma CleanTail(unit: seq<byte>)
    requires Clean(unit) && unit != []
    ensures Clean(unit[1..]) && !([0, 0, 1] <= unit)
  {
    assert [unit[0]] + unit[1..] == unit;
    assert !([0, 0, 1] <= unit);
    assert Until(unit)[1..] == Until(unit[1..]);
  }

  // No start code begins in one unit and ends in the next start code.
  lemma NoCodeAcross(unit: seq<byte>, rest: seq<byte>)
    requires Clean(unit) && unit != [] && (rest == [] || [0, 0, 1] <= rest)
    ensures !([0, 0, 1] <= unit + rest)
  {
    var s := unit + rest;
    CleanTail(unit);
    if |unit| >= 3 {
      assert s[..3] == unit[..3];
    } else if rest != [] {
      assert rest[0] == 0 && rest[1] == 0;
      assert s[2] == rest[2 - |unit|];
    }
  }

  lemma {:induction false} StartCodedReads(lead: seq<byte>, units: seq<seq<byte>>)
    requires Clean(lead) && forall i :: 0 <= i < |units| ==> Clean(units[i])
    ensures ReadUnits(lead + StartCoded(units)) == units
    decreases |units|
  {
    UntilStops(lead, StartCoded(units));
    if units != [] {
      var others := StartCoded(units[1..]);
      UntilStops(units[0], others);
      StartCodedReads(units[0], units[1..]);
      FirstUnitReads(lead, units[0], others);
      assert [units[0]] + units[1..] == units;
    }
  }

  lemma FirstUnitReads(lead: seq<byte>, unit: seq<byte>, others: seq<byte>)
    requires Until(lead + ([0, 0, 1] + unit + others)) == lead && Until(unit + others) == unit
    ensures ReadUnits(lead + ([0, 0, 1] + unit + others)) == [unit] + ReadUnits(unit + others)
  {
    assert (lead + ([0, 0, 1] + unit + others))[|lead| + 3..] == unit + others;
  }

  // ----- what a frame is read as -----

  // An access unit delimiter, with the kind of pictures that follow, and the units.
  ghost function VideoStream(key: bool, units: seq<seq<byte>>): seq<byte> {
    [0, 0, 0, 1, 9, if key then 0x10 else 0x30] + StartCoded(units)
  }

  // An ADTS header of ISO/IEC 13818-7, that tells the size of the first packet's part, and the audio.
  ghost function AudioStream(data: seq<byte>): seq<byte> {
    var length := ((if |data| < 155 then |data| else 155) + 7) * 32 + 31;
    [0xFF, 0xF1, 0x50, 0x40, length / 256, length % 256, 0xFC] + data
  }

  lemma {:induction false} ElementaryIsStartCoded(units: seq<seq<byte>>)
    ensures Elementary(VIDEO, Cursor(units, true)) == StartCoded(units)
    decreases |units|
  {
    if units != [] {
      ElementaryIsStartCoded(units[1..]);
    }
  }

  lemma VideoIsExpected(units: seq<seq<byte>>, media: Media, available: nat)
    requires media.track == VIDEO && available > 0
    ensures Expected(media, true, available, Cursor(units, true)) == VideoStream(media.key, units)
  {
    ElementaryIsStartCoded(units);
  }

  // The room a packet has left after so many bytes of units, the first packet having 156 bytes of it.
  function RoomLeft(written: nat): nat {
    if written < 156 then 156 - written else 184 - (written - 156) % 184
  }

  lemma RoomsAdd(room: nat, a: nat, b: nat)
    requires 1 <= room <= 184
    ensures 1 <= RoomAfter(room, a) <= 184 && RoomAfter(RoomAfter(room, a), b) == RoomAfter(room, a + b)
  {
    if a < room {
    } else {
      var rest := (a - room) % 184;
      DivisionSplits(a - room, 184);
      if b < 184 - rest {
        DivisionIs(a + b - room, 184, (a - room) / 184, rest + b);
      } else {
        DivisionSplits(b - (184 - rest), 184);
        DivisionIs(a + b - room, 184, (a - room) / 184 + 1 + (b - (184 - rest)) / 184, (b - (184 - rest)) % 184);
      }
    }
  }

  lemma {:induction false} AlignedByRooms(units: seq<seq<byte>>, room: nat)
    requires 1 <= room <= 184
    ensures Aligned(VIDEO, Cursor(units, true), room)
       <==> forall k :: 0 <= k < |units| ==> RoomAfter(room, |StartCoded(units[..k])|) >= 4
    decreases |units|
  {
    if units != [] {
      var size, others := 3 + |units[0]|, units[1..];
      RoomsAdd(room, size, 0);
      AlignedByRooms(others, RoomAfter(room, size));
      assert units[..0] == [] && RoomAfter(room, 0) == room;
      forall k | 0 < k <= |others|
        ensures RoomAfter(room, |StartCoded(units[..k])|)
             == RoomAfter(RoomAfter(room, size), |StartCoded(others[..k - 1])|) {
        assert units[..k][1..] == others[..k - 1];
        RoomsAdd(room, size, |StartCoded(others[..k - 1])|);
      }
      if Aligned(VIDEO, Cursor(units, true), room) {
        forall k | 0 <= k < |units| ensures RoomAfter(room, |StartCoded(units[..k])|) >= 4 {
          if k > 0 {
            assert RoomAfter(RoomAfter(room, size), |StartCoded(others[..k - 1])|) >= 4;
          }
        }
      } else if room >= 4 {
        var j :| 0 <= j < |others| && RoomAfter(RoomAfter(room, size), |StartCoded(others[..j])|) < 4;
        assert RoomAfter(room, |StartCoded(units[..j + 1])|) < 4;
      }
    }
  }

  /** The bytes written for a video frame read as whole packets around a delimiter and the units, each
      after 00 00 01, if and only if each unit starts with four bytes or more left in its packet. */
  lemma VideoIsStartCodedExactly(head: seq<byte>, units: seq<seq<byte>>, short: bool, time: nat, counter: nat)
    requires |head| == 11 && short == HasShortSizes(head) && Fit(units, short) && units != []
    ensures var packets := FramePackets(VIDEO, head + Body(units, short), time, counter);
            AllWhole(packets) && Demux(packets) == VideoStream(head[0] == 0x17, units)
            <==> forall k :: 0 <= k < |units| ==> RoomLeft(|StartCoded(units[..k])|) >= 4
  {
    VideoPackets(head, units, short, time, counter);
    UnitsAreRead(units, Media(VIDEO, time, head[0] == 0x17), counter);
  }

  lemma VideoPackets(head: seq<byte>, units: seq<seq<byte>>, short: bool, time: nat, counter: nat)
    requires |head| == 11 && short == HasShortSizes(head) && Fit(units, short) && units != []
    ensures |StartCoded(units)| > 0
    ensures FramePackets(VIDEO, head + Body(units, short), time, counter)
         == Packets(Media(VIDEO, time, head[0] == 0x17), true, |StartCoded(units)|, Cursor(units, true), counter)
  {
    var data := head + Body(units, short);
    assert data[0] == head[0] && data[1] == head[1];
    UnitsAreFound(head, units, short);
    ElementaryIsStartCoded(units);
  }

  lemma UnitsAreRead(units: seq<seq<byte>>, media: Media, counter: nat)
    requires media.track == VIDEO && units != [] && NoEmptyPiece(units)
    ensures |StartCoded(units)| > 0
    ensures Faithful(Packets(media, true, |StartCoded(units)|, Cursor(units, true), counter),
                     VideoStream(media.key, units))
       <==> forall k :: 0 <= k < |units| ==> RoomLeft(|StartCoded(units[..k])|) >= 4
  {
    ElementaryIsStartCoded(units);
    VideoIsExpected(units, media, |StartCoded(units)|);
    FrameIsFaithfulExactly(media, true, |StartCoded(units)|, Cursor(units, true), counter);
    AlignedByRooms(units, Capacity(VIDEO, true));
    RoomsAgree(units);
  }

  lemma RoomsAgree(units: seq<seq<byte>>)
    ensures forall k :: 0 <= k < |units| ==>
              RoomAfter(Capacity(VIDEO, true), |StartCoded(units[..k])|) == RoomLeft(|StartCoded(units[..k])|)
  {
  }

  /** Such a frame whose units hold no start code is decoded to its delimiter and its units. */
  lemma VideoIsDecoded(head: seq<byte>, units: seq<seq<byte>>, short: bool, time: nat, counter: nat)
    requires |head| == 11 && short == HasShortSizes(head) && Fit(units, short) && units != []
    requires forall k :: 0 <= k < |units| ==> RoomLeft(|StartCoded(units[..k])|) >= 4
    requires forall i :: 0 <= i < |units| ==> Clean(units[i])
    ensures var packets := Cut(Joined(FramePackets(VIDEO, head + Body(units, short), time, counter)));
            AllWhole(packets) && ReadUnits(Demux(packets)) == [[9, if head[0] == 0x17 then 0x10 else 0x30]] + units
  {
    var packets := FramePackets(VIDEO, head + Body(units, short), time, counter);
    VideoIsStartCodedExactly(head, units, short, time, counter);
    CutJoined(packets);
    StreamReads(head[0] == 0x17, units);
  }

  lemma StreamReads(key: bool, units: seq<seq<byte>>)
    requires forall i :: 0 <= i < |units| ==> Clean(units[i])
    ensures ReadUnits(VideoStream(key, units)) == [[9, if key then 0x10 else 0x30]] + units
  {
    var delimiter: seq<byte> := [9, if key then 0x10 else 0x30];
    var all := [delimiter] + units;
    DelimiterIsClean(delimiter);
    assert all[1..] == units;
    assert StartCoded(all) == [0, 0, 1] + delimiter + StartCoded(units);
    assert [0] + StartCoded(all) == VideoStream(key, units);
    StartCodedReads([0], all);
  }

  lemma DelimiterIsClean(delimiter: seq<byte>)
    requires |delimiter| == 2
    ensures Clean([0]) && Clean(delimiter)
  {
    assert Until([0][1..]) == [];
    assert delimiter[1..][1..] == [];
    assert Until(delimiter[1..]) == delimiter[1..];
    assert [delimiter[0]] + delimiter[1..] == delimiter;
  }

  /** The bytes written for an audio frame read as whole packets around an ADTS header and the frame
      without its two first bytes. */
  lemma AudioIsRead(data: seq<byte>, time: nat, counter: nat)
    requires |data| > 2
    ensures var packets := Cut(Joined(FramePackets(AUDIO, data, time, counter)));
            AllWhole(packets) && Demux(packets) == AudioStream(data[2..])
  {
    AudioComesThrough(data, time, counter);
    CutJoined(FramePackets(AUDIO, data, time, counter));
    AudioIsExpected(Media(AUDIO, time, true), FrameCursor(AUDIO, data), data[2..]);
  }

  lemma AudioIsExpected(media: Media, c: Cursor, data: seq<byte>)
    requires media.track == AUDIO && Elementary(AUDIO, c) == data != []
    ensures Expected(media, true, |data|, c) == AudioStream(data)
  {
    ToWriteIsTheMost(AUDIO, true, |data|);
  }
}
