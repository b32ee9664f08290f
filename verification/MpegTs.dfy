/** MPEG-TS output of audio and video frames: the program of MediaContainer.cpp. */
module MpegTs {
  import opened Codec
  import opened Sequences
  import opened Substreams
  import opened H264Units
  import opened TsPackets
  import opened TsFrames

  // An outcome with its first bytes already there.
  ghost predicate SplitAs(whole: (seq<byte>, Cursor, bool), done: seq<byte>, rest: (seq<byte>, Cursor, bool)) {
    whole.0 == done + rest.0 && whole.1 == rest.1 && whole.2 == rest.2
  }

  lemma SplitTwice(whole: (seq<byte>, Cursor, bool), done: seq<byte>, rest: (seq<byte>, Cursor, bool),
                   bytes: seq<byte>, rest': (seq<byte>, Cursor, bool))
    requires SplitAs(whole, done, rest) && SplitAs(rest, bytes, rest')
    ensures SplitAs(whole, done + bytes, rest')
  {
    Associates(done, bytes, rest'.0);
  }

  lemma SplitEnds(whole: (seq<byte>, Cursor, bool), done: seq<byte>, rest: (seq<byte>, Cursor, bool))
    requires SplitAs(whole, done, rest)
    ensures whole == (done + rest.0, rest.1, rest.2)
    ensures rest.0 == [] ==> whole.0 == done
  {
  }

  lemma PesUnitFails(track: Track, c: Cursor, n: nat)
    requires 0 < n < 256
    requires ReadNext(c, (n - |StartCode(track, c)|) % 256).0 == []
    ensures var code := StartCode(track, c);
            Pes(track, c, n) == (code + [], ReadNext(c, (n - |code|) % 256).1, false)
  {
    var code := StartCode(track, c);
    assert code + [] == code;
  }

  lemma PesUnitTakes(track: Track, c: Cursor, n: nat)
    requires 0 < n < 256
    requires ReadNext(c, (n - |StartCode(track, c)|) % 256).0 != []
    ensures var code := StartCode(track, c);
            var left := (n - |code|) % 256;
            var (chunk, c1) := ReadNext(c, left);
            && |chunk| <= left && |Joined(c1.left)| < |Joined(c.left)|
            && SplitAs(Pes(track, c, n), code + chunk, Pes(track, c1, left - |chunk|))
  {
    var left := (n - |StartCode(track, c)|) % 256;
    var (chunk, c1) := ReadNext(c, left);
    ReadNextTakes(c, left);
    PesUnfolds(track, c, n, left, chunk, c1);
  }

  lemma PesUnfolds(track: Track, c: Cursor, n: nat, left: nat, chunk: seq<byte>, c1: Cursor)
    requires 0 < n < 256 && left == (n - |StartCode(track, c)|) % 256
    requires ReadNext(c, left) == (chunk, c1) && chunk != [] && |chunk| <= left
    ensures SplitAs(Pes(track, c, n), StartCode(track, c) + chunk, Pes(track, c1, left - |chunk|))
  {
  }

  // The bytes written for what is left of a frame, and the continuity counter after them.
  ghost function Written(media: Media, first: bool, available: nat, c: Cursor, counter: nat): seq<byte> {
    if available == 0 then [] else Joined(Packets(media, first, available, c, counter))
  }

  ghost function CounterAfter(media: Media, first: bool, available: nat, c: Cursor, counter: nat): nat {
    if available == 0 then counter
    else (counter + |Packets(media, first, available, c, counter)|) % 0x1_0000_0000
  }

  lemma WrittenOnto(data: seq<byte>, media: Media, first: bool, available: nat, c: Cursor, counter: nat)
    requires available > 0
    ensures var n := ToWrite(media.track, first, available);
            var (bytes, c', ok) := Pes(media.track, c, n);
            var data' := data + (Header(media, first, available, counter) + bytes);
            data + Written(media, first, available, c, counter)
            == data' + Written(media, false, if ok && available > n then available - n else 0, c', Tick(counter))
  {
    var bytes := Pes(media.track, c, ToWrite(media.track, first, available)).0;
    var packet := Header(media, first, available, counter) + bytes;
    var others := Others(media, first, available, c, counter);
    PacketsAreFirstAndOthers(media, first, available, c, counter);
    JoinedFirst(packet, others);
    Associates(data, packet, Joined(others));
  }

  lemma CountedOnto(media: Media, first: bool, available: nat, c: Cursor, counter: nat)
    requires available > 0
    ensures var n := ToWrite(media.track, first, available);
            var (bytes, c', ok) := Pes(media.track, c, n);
            CounterAfter(media, first, available, c, counter)
            == CounterAfter(media, false, if ok && available > n then available - n else 0, c', Tick(counter))
  {
    PacketsAreFirstAndOthers(media, first, available, c, counter);
    TicksAdd(counter, |Others(media, first, available, c, counter)|);
  }

  lemma JoinedFirst(packet: seq<byte>, others: seq<seq<byte>>)
    ensures Joined([packet] + others) == packet + Joined(others)
  {
    assert ([packet] + others)[1..] == others;
  }

  lemma TicksAdd(counter: nat, n: nat)
    ensures (Tick(counter) + n) % 0x1_0000_0000 == (counter + (1 + n)) % 0x1_0000_0000
  {
  }

  // The pieces of a frame that are written.
  ghost function FrameCursor(track: Track, data: seq<byte>): Cursor {
    if track == VIDEO then
      Cursor(if |data| < 11 then [] else Pieces(data, Units(data, 11, HasShortSizes(data)), 0), true)
    else Cursor(if |data| <= 2 then [] else [data[2..]], true)
  }

  lemma CursorOfFrame(track: Track, data: seq<byte>, subs: seq<(nat, nat)>)
    requires AllInside(data, subs)
    requires track == VIDEO ==> subs == if |data| < 11 then [] else Units(data, 11, HasShortSizes(data))
    requires track == AUDIO ==> subs == if |data| <= 2 then [] else [(2, |data| - 2)]
    ensures FrameCursor(track, data).left == Pieces(data, subs, 0)
    ensures |Elementary(track, FrameCursor(track, data))|
         == |Joined(Pieces(data, subs, 0))| + if track == VIDEO then 3 * |Pieces(data, subs, 0)| else 0
  {
    if track == VIDEO {
      ElementaryLength(Pieces(data, subs, 0));
    } else if |data| > 2 {
      assert data[2..2 + (|data| - 2)] == data[2..];
      assert Pieces(data, subs, 1) == [];
      assert [data[2..]][1..] == [];
    }
  }

  // The packets that carry a frame as MPEGTS::write makes them.
  ghost function FramePackets(track: Track, data: seq<byte>, time: nat, counter: nat): seq<seq<byte>>
    requires track == VIDEO ==> data != []
  {
    var c := FrameCursor(track, data);
    var available := |Elementary(track, c)|;
    if available == 0 then []
    else Packets(Media(track, time, track == AUDIO || data[0] == 0x17), true, available, c, counter)
  }

  class MPEGTS {
    var counterRow: map<Track, nat>

    function Counter(track: Track): nat
      reads this
    {
      if track in counterRow then counterRow[track] else 0
    }

    // What the adaptation field must hold for the packet to come out at 188 bytes around as much of
    // the stream as it has room for; a first packet always has one, with the seven bytes of its clock.
    static method GetAdaptiveSize(available: nat, first: bool, track: Track) returns (size: nat, adaptiveField: bool)
      ensures size == AdaptiveSize(track, first, available)
      ensures adaptiveField == HasAdaptiveField(track, first, available)
      ensures 4 + (if adaptiveField then 1 + size else 0) + (if first then PesHeaderSize(track) else 0)
              + (if available < Capacity(track, first) then available else Capacity(track, first)) == 188
      ensures (!adaptiveField ==> size == 0) && (first ==> adaptiveField && size >= 7)
    {
      size := 0;
      var sizeFree := 188 - 4 - (if first then (if track == AUDIO then 21 else 20) else 0);
      adaptiveField := available < sizeFree || first;
      if available < sizeFree - 1 {
        size := size + (sizeFree - 1 - available);
      }
      if first && size < 7 {
        size := 7;
      }
    }

    static method WritePES(writer: BinaryWriter, track: Track, reader: SubstreamMap, toWrite: nat) returns (ok: bool)
      requires writer.Valid() && !writer.fixed && reader.Valid() && toWrite < 256
      modifies writer`size, writer.buffer, reader`index, reader`pos
      ensures writer.Valid() && reader.Valid()
      ensures var (bytes, c, success) := Pes(track, old(reader.View()), toWrite);
              writer.buffer.data == old(writer.buffer.data) + bytes && reader.View() == c && ok == success
    {
      var left := toWrite;
      ghost var done: seq<byte> := [];
      ghost var whole := Pes(track, reader.View(), toWrite);
      ok := true;
      while left > 0
        invariant writer.Valid() && reader.Valid() && left < 256 && ok
        invariant writer.buffer.data == old(writer.buffer.data) + done
        invariant SplitAs(whole, done, Pes(track, reader.View(), left))
        decreases |Joined(reader.View().left)|, left
      {
        ghost var bytes;
        ghost var rest := Pes(track, reader.View(), left);
        ok, left, bytes := WriteUnit(writer, track, reader, left);
        if !ok {
          SplitEnds(whole, done, rest);
          Associates(old(writer.buffer.data), done, bytes);
          return;
        }
        Associates(old(writer.buffer.data), done, bytes);
        SplitTwice(whole, done, rest, bytes, Pes(track, reader.View(), left));
        done := done + bytes;
      }
      SplitEnds(whole, done, Pes(track, reader.View(), 0));
    }

    // One turn of the filling loop.
    static method WriteUnit(writer: BinaryWriter, track: Track, reader: SubstreamMap, toWrite: nat)
      returns (ok: bool, left: nat, ghost bytes: seq<byte>)
      requires writer.Valid() && !writer.fixed && reader.Valid() && 0 < toWrite < 256
      modifies writer`size, writer.buffer, reader`index, reader`pos
      ensures writer.Valid() && reader.Valid() && left < 256
      ensures writer.buffer.data == old(writer.buffer.data) + bytes
      ensures ok ==> |Joined(reader.View().left)| < |Joined(old(reader.View()).left)|
      ensures ok ==> SplitAs(Pes(track, old(reader.View()), toWrite), bytes, Pes(track, reader.View(), left))
      ensures !ok ==> Pes(track, old(reader.View()), toWrite) == (bytes, reader.View(), false)
    {
      ghost var c := reader.View();
      var isNew := reader.NextSubIsNew();
      var code := if track == VIDEO && isNew then [0, 0, 1] else [];
      left := (toWrite - |code|) % 256;
      var chunk := reader.ReadNextSub(left);
      bytes := code + chunk;
      ok := chunk != [];
      WriteBoth(writer, code, chunk);
      if ok { PesUnitTakes(track, c, toWrite); } else { PesUnitFails(track, c, toWrite); }
      if ok {
        left := left - |chunk|;
      }
    }

    static method WriteBoth(writer: BinaryWriter, code: seq<byte>, chunk: seq<byte>)
      requires writer.Valid() && !writer.fixed
      modifies writer`size, writer.buffer
      ensures writer.Valid() && writer.buffer.data == old(writer.buffer.data) + (code + chunk)
    {
      if code != [] {
        writer.WriteRaw(code);
      }
      if chunk != [] {
        writer.WriteRaw(chunk);
      }
    }
  
    static method MakeField(media: Media, first: bool, adaptiveSize: nat, adaptiveField: bool, ghost available: nat)
      returns (field: seq<byte>)
      requires adaptiveSize == AdaptiveSize(media.track, first, available)
      requires adaptiveField == HasAdaptiveField(media.track, first, available)
      ensures field == AdaptiveField(media, first, available)
    {
      field := [];
      var nbFFBytes := 0;
      if adaptiveField {
        field := field + [adaptiveSize];
        if adaptiveSize > 0 {
          nbFFBytes := adaptiveSize - 1;
          if first {
            nbFFBytes := nbFFBytes - 6;
            field := field + [if media.key then 0x50 else 0x10] + PcrBytes(Pts(media.time));
          } else {
            field := field + [0];
          }
        }
      }
      ghost var start := field;
      for i := 0 to nbFFBytes
        invariant field == start + seq(i, _ => 0xFF)
      {
        field := field + [0xFF];
      }
    }

    static method MakeAdapted(media: Media, first: bool, available: nat, counter: nat, start: seq<byte>)
      returns (header: seq<byte>, toWrite: nat)
      requires available > 0 && (first || available <= 184)
      requires start == Start(media, first, available, counter)[..3]
      ensures toWrite == ToWrite(media.track, first, available)
      ensures header == Header(media, first, available, counter)
    {
      var adaptiveSize, adaptiveField := GetAdaptiveSize(available, first, media.track);
      toWrite := 188 - 4 - adaptiveSize - (if adaptiveField then 1 else 0)
                 - (if first then (if media.track == AUDIO then 21 else 20) else 0);
      header := start + [(if adaptiveField then 0x30 else 0x10) + counter % 16];
      assert header == Start(media, first, available, counter);
      var field := MakeField(media, first, adaptiveSize, adaptiveField, available);
      header := header + field + (if first then PesHeader(media, toWrite) else []);
    }

    static method MakeHeader(media: Media, first: bool, available: nat, counter: nat)
      returns (header: seq<byte>, toWrite: nat)
      requires available > 0
      ensures toWrite == ToWrite(media.track, first, available)
      ensures header == Header(media, first, available, counter)
    {
      header := [0x47, if first then 0x40 else 0, if media.track == AUDIO then 0x60 else 0x40];
      if !first && available > 188 - 4 {
        toWrite := 188 - 4;
        header := header + [0x10 + counter % 16];
      } else {
        header, toWrite := MakeAdapted(media, first, available, counter, header);
      }
    }

    method WriteHeader(writer: BinaryWriter, media: Media, first: bool, available: nat) returns (toWrite: nat)
      requires writer.Valid() && !writer.fixed && available > 0
      modifies this`counterRow, writer`size, writer.buffer
      ensures writer.Valid() && toWrite == ToWrite(media.track, first, available)
      ensures counterRow == old(counterRow)[media.track := Tick(old(Counter(media.track)))]
      ensures writer.buffer.data == old(writer.buffer.data) + Header(media, first, available, old(Counter(media.track)))
    {
      var counter := Counter(media.track);
      counterRow := counterRow[media.track := (counter + 1) % 0x1_0000_0000];
      var header;
      header, toWrite := MakeHeader(media, first, available, counter);
      writer.WriteRaw(header);
    }

    method WritePacket(writer: BinaryWriter, media: Media, reader: SubstreamMap, first: bool, available: nat)
      returns (ok: bool, rest: nat)
      requires writer.Valid() && !writer.fixed && reader.Valid() && available > 0
      modifies this`counterRow, writer`size, writer.buffer, reader`index, reader`pos
      ensures writer.Valid() && reader.Valid()
      ensures rest == available - ToWrite(media.track, first, available) < available
      ensures var counter := old(Counter(media.track));
              var (bytes, c, success) := Pes(media.track, old(reader.View()), available - rest);
              && ok == success && reader.View() == c
              && writer.buffer.data == old(writer.buffer.data) + (Header(media, first, available, counter) + bytes)
              && Counter(media.track) == Tick(counter)
      ensures forall track :: track != media.track ==> Counter(track) == old(Counter(track))
    {
      ghost var c := reader.View();
      var toWrite := WriteHeader(writer, media, first, available);
      ToWriteIsTheMost(media.track, first, available);
      assert toWrite <= available;
      rest := available - toWrite;
      ok := WritePES(writer, media.track, reader, toWrite);
      Associates(old(writer.buffer.data), Header(media, first, available, old(Counter(media.track))),
                 Pes(media.track, c, toWrite).0);
    }

    // One packet towards the whole of what is to be written.
    method WriteNext(writer: BinaryWriter, media: Media, reader: SubstreamMap, first: bool, available: nat)
      returns (rest: nat)
      requires writer.Valid() && !writer.fixed && reader.Valid() && available > 0
      modifies this`counterRow, writer`size, writer.buffer, reader`index, reader`pos
      ensures writer.Valid() && reader.Valid() && rest < available
      ensures writer.buffer.data + Written(media, false, rest, reader.View(), Counter(media.track))
           == old(writer.buffer.data + Written(media, first, available, reader.View(), Counter(media.track)))
      ensures CounterAfter(media, false, rest, reader.View(), Counter(media.track))
           == old(CounterAfter(media, first, available, reader.View(), Counter(media.track)))
      ensures forall track :: track != media.track ==> Counter(track) == old(Counter(track))
    {
      ghost var n, c, counter := ToWrite(media.track, first, available), reader.View(), Counter(media.track);
      WrittenOnto(writer.buffer.data, media, first, available, c, counter);
      CountedOnto(media, first, available, c, counter);
      var ok;
      ok, rest := WritePacket(writer, media, reader, first, available);
      if !ok {
        rest := 0;
      }
      assert rest == if Pes(media.track, c, n).2 && available > n then available - n else 0;
    }

    // What is left of a frame, packet after packet.
    method WriteTS(writer: BinaryWriter, available: nat, media: Media, reader: SubstreamMap, first: bool)
      requires writer.Valid() && !writer.fixed && reader.Valid()
      modifies this`counterRow, writer`size, writer.buffer, reader`index, reader`pos
      ensures writer.Valid() && reader.Valid()
      ensures writer.buffer.data
           == old(writer.buffer.data + Written(media, first, available, reader.View(), Counter(media.track)))
      ensures Counter(media.track)
           == old(CounterAfter(media, first, available, reader.View(), Counter(media.track)))
      ensures forall track :: track != media.track ==> Counter(track) == old(Counter(track))
      decreases available
    {
      if available == 0 {
        return;
      }
      var rest := WriteNext(writer, media, reader, first, available);
      if rest > 0 {
        WriteTS(writer, rest, media, reader, false);
      }
    }

    // The units of an H.264 frame, after the eleven bytes of its first headers. Sizes take four
    // bytes, the first one null, or two in a frame of codec parameters, where a byte separates units.
    static method ParseNAL(reader: SubstreamMap, data: seq<byte>) returns (available: nat)
      requires reader.Valid() && reader.pos == Null && reader.listSubs == [] && reader.data == data
      requires |data| < 0x8000_0000
      modifies reader`listSubs
      ensures reader.Valid()
      ensures reader.listSubs == if |data| < 11 then [] else Units(data, 11, HasShortSizes(data))
      ensures var pieces := Pieces(data, reader.listSubs, 0); available == |Joined(pieces)| + 3 * |pieces|
    {
      if |data| < 11 {
        return 0;
      }
      FindUnits(reader, data);
      available := reader.TotalSize();
      NoPieceLeft(Pieces(data, reader.listSubs, 0));
      if available > 0 {
        available := available + |reader.listSubs| * 3;
      }
    }

    static method FindUnits(reader: SubstreamMap, data: seq<byte>)
      requires reader.Valid() && reader.pos == Null && reader.listSubs == [] && reader.data == data
      requires 11 <= |data| < 0x8000_0000
      modifies reader`listSubs
      ensures reader.Valid() && reader.listSubs == Units(data, 11, HasShortSizes(data))
    {
      var pos: nat := 11;
      var twoBytesHeader := data[0] == 0x17 && data[1] == 0;
      var more := true;
      ghost var all := Units(data, 11, twoBytesHeader);
      while more && |data| - pos > (if twoBytesHeader then 2 else 4)
        invariant reader.Valid()
        invariant more ==> all == reader.listSubs + Units(data, pos, twoBytesHeader)
        invariant !more ==> all == reader.listSubs
        decreases more, |data| - pos
      {
        more, pos := NextUnit(reader, data, pos, twoBytesHeader, all);
      }
    }

    static method NextUnit(reader: SubstreamMap, data: seq<byte>, from: nat, twoBytesHeader: bool,
                           ghost all: seq<(nat, nat)>)
      returns (more: bool, pos: nat)
      requires reader.Valid() && reader.pos == Null && reader.data == data
      requires |data| < 0x8000_0000 && |data| - from > (if twoBytesHeader then 2 else 4)
      requires all == reader.listSubs + Units(data, from, twoBytesHeader)
      modifies reader`listSubs
      ensures reader.Valid()
      ensures more ==> pos > from && all == reader.listSubs + Units(data, pos, twoBytesHeader)
      ensures !more ==> all == reader.listSubs
    {
      pos := from;
      if data[pos] != 0 {
        return false, pos;
      }
      var toRead: nat := data[pos + 1];
      pos := pos + 2;
      if !twoBytesHeader {
        toRead := toRead * 0x1_0000 + data[pos] as int * 0x100 + data[pos + 1];
        pos := pos + 2;
      }
      if toRead > |data| - pos {
        return false, pos;
      }
      ghost var before, start := reader.listSubs, pos;
      reader.AddSub(pos, toRead);
      // on 32 bits, no byte to read moves the position past any frame
      pos := pos + (toRead - 1) % 0x1_0000_0000;
      var step := if twoBytesHeader then 2 else 1;
      if pos + step < |data| {
        pos := pos + step;
      }
      more := true;
      UnitTaken(data, from, twoBytesHeader, before, pos);
    }
  
    static method ParseAudio(reader: SubstreamMap, data: seq<byte>) returns (available: nat)
      requires reader.Valid() && reader.pos == Null && reader.listSubs == [] && reader.data == data
      requires |data| < 0x8000_0000
      modifies reader`listSubs
      ensures reader.Valid()
      ensures reader.listSubs == if |data| <= 2 then [] else [(2, |data| - 2)]
      ensures available == if |data| <= 2 then 0 else |data| - 2
    {
      if |data| <= 2 {
        return 0;
      }
      reader.AddSub(2, |data| - 2);
      available := |data| - 2;
    }

    // One audio or video frame.
    method Write(writer: BinaryWriter, track: Track, time: nat, data: seq<byte>)
      requires writer.Valid() && !writer.fixed && |data| < 0x8000_0000 && time < 0x1_0000_0000
      requires track == VIDEO ==> data != []
      modifies this`counterRow, writer`size, writer.buffer
      ensures writer.Valid()
      ensures var c := FrameCursor(track, data);
              var media := Media(track, time, track == AUDIO || data[0] == 0x17);
              var available := |Elementary(track, c)|;
              && NoEmptyPiece(c.left)
              && writer.buffer.data == old(writer.buffer.data) + Written(media, true, available, c, old(Counter(track)))
              && Counter(track) == CounterAfter(media, true, available, c, old(Counter(track)))
      ensures writer.buffer.data
           == old(writer.buffer.data) + Joined(FramePackets(track, data, time, old(Counter(track))))
      ensures forall other :: other != track ==> Counter(other) == old(Counter(other))
    {
      var reader := new SubstreamMap(data);
      var available;
      if track == VIDEO {
        available := ParseNAL(reader, data);
      } else {
        available := ParseAudio(reader, data);
      }
      CursorOfFrame(track, data, reader.listSubs);
      assert available > 0 ==> reader.View() == FrameCursor(track, data);
      WriteTS(writer, available, Media(track, time, track == AUDIO || data[0] == 0x17), reader, true);
    }
  }

  // From the frame to the demultiplexer: the units of a video frame come back, start-coded, if and
  // only if each of them starts with four bytes or more left in its packet.
  lemma VideoComesThroughExactly(head: seq<byte>, units: seq<seq<byte>>, short: bool, time: nat, counter: nat)
    requires |head| == 11 && short == HasShortSizes(head) && Fit(units, short) && units != []
    ensures var c := FrameCursor(VIDEO, head + Body(units, short));
            var media := Media(VIDEO, time, head[0] == 0x17);
            var available := |Elementary(VIDEO, c)|;
            && c == Cursor(units, true) && available > 0
            && (Faithful(Packets(media, true, available, c, counter), Expected(media, true, available, c))
                <==> Aligned(VIDEO, Cursor(units, true), Capacity(VIDEO, true)))
  {
    var data := head + Body(units, short);
    var media := Media(VIDEO, time, head[0] == 0x17);
    assert data[0] == head[0] && data[1] == head[1];
    UnitsAreFound(head, units, short);
    ElementaryLength(units);
    FrameIsFaithfulExactly(media, true, |Elementary(VIDEO, Cursor(units, true))|, Cursor(units, true), counter);
  }

  lemma AudioComesThrough(data: seq<byte>, time: nat, counter: nat)
    requires |data| > 2
    ensures var c := FrameCursor(AUDIO, data);
            var media := Media(AUDIO, time, true);
            var available := |data| - 2;
            && available == |Elementary(AUDIO, c)| && Elementary(AUDIO, c) == data[2..]
            && Faithful(Packets(media, true, available, c, counter), Expected(media, true, available, c))
  {
    var c := FrameCursor(AUDIO, data);
    assert c.left[1..] == [];
    assert Elementary(AUDIO, Cursor([], true)) == [];
    AudioIsAligned(c, Capacity(AUDIO, true));
    FrameIsFaithfulExactly(Media(AUDIO, time, true), true, |data| - 2, c, counter);
  }
}
