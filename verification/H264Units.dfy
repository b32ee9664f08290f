/** The H.264 units inside a frame, found by their sizes. */
module H264Units {
  import opened Codec
  import opened Substreams

  predicate HasShortSizes(data: seq<byte>)
    requires |data| >= 2
  {
    data[0] == 0x17 && data[1] == 0
  }

  function UnitSize(data: seq<byte>, pos: nat, short: bool): nat
    requires pos + (if short then 2 else 4) <= |data|
  {
    if short then data[pos + 1] else data[pos + 1] as int * 0x1_0000 + data[pos + 2] as int * 0x100 + data[pos + 3]
  }

  // The units found from a position on: place and size.
  ghost function Units(data: seq<byte>, pos: nat, short: bool): (subs: seq<(nat, nat)>)
    ensures AllInside(data, subs)
    decreases |data| - pos
  {
    var width := if short then 2 else 4;
    if |data| - pos <= width || data[pos] != 0 then []
    else
      var size := UnitSize(data, pos, short);
      var start := pos + width;
      if size > |data| - start || size == 0 then []
      else
        [(start, size)] + Units(data, NextPosition(data, start + size, short), short)
  }

  // Past the separator of short sizes; on the last byte at the end of the frame.
  function NextPosition(data: seq<byte>, end: nat, short: bool): (pos: int)
    ensures pos >= end - 1
  {
    var next := if short then end + 1 else end;
    if next < |data| then next else end - 1
  }

  lemma UnitTaken(data: seq<byte>, from: nat, short: bool, before: seq<(nat, nat)>, pos: nat)
    requires var width := if short then 2 else 4;
             && |data| - from > width && data[from] == 0 && UnitSize(data, from, short) <= |data| - from - width
             && (UnitSize(data, from, short) == 0 ==> pos >= |data|)
             && (UnitSize(data, from, short) > 0 ==>
                   pos == NextPosition(data, from + width + UnitSize(data, from, short), short))
    ensures var width := if short then 2 else 4;
            var size := UnitSize(data, from, short);
            before + Units(data, from, short)
            == (if size > 0 then before + [(from + width, size)] else before) + Units(data, pos, short)
  {
  }

  // A frame built of units, each after its size.
  function UnitBytes(unit: seq<byte>, short: bool): (s: seq<byte>)
    requires |unit| < if short then 256 else 0x100_0000
    ensures |s| == |unit| + if short then 2 else 4
  {
    if short then [0, |unit|] + unit
    else [0, |unit| / 0x1_0000, |unit| / 0x100 % 256, |unit| % 256] + unit
  }

  ghost predicate Fit(units: seq<seq<byte>>, short: bool) {
    forall i :: 0 <= i < |units| ==> 0 < |units[i]| < if short then 256 else 0x100_0000
  }

  function Separator(short: bool): seq<byte> {
    if short then [1] else []
  }

  ghost function Body(units: seq<seq<byte>>, short: bool): (s: seq<byte>)
    requires Fit(units, short)
  {
    if units == [] then []
    else if |units| == 1 then UnitBytes(units[0], short)
    else UnitBytes(units[0], short) + Separator(short) + Body(units[1..], short)
  }

  lemma {:induction false} PiecesShift(data: seq<byte>, sub: (nat, nat), subs: seq<(nat, nat)>, from: nat)
    requires AllInside(data, [sub] + subs) && from <= |subs| && AllInside(data, subs)
    ensures Pieces(data, [sub] + subs, from + 1) == Pieces(data, subs, from)
    decreases |subs| - from
  {
    if from < |subs| {
      PiecesShift(data, sub, subs, from + 1);
    }
  }

  lemma UnitSizeReads(data: seq<byte>, head: seq<byte>, unit: seq<byte>, short: bool, rest: seq<byte>)
    requires |unit| < if short then 256 else 0x100_0000
    requires data == head + UnitBytes(unit, short) + rest
    ensures data[|head|] == 0 && UnitSize(data, |head|, short) == |unit|
    ensures var start := |head| + if short then 2 else 4; data[start..start + |unit|] == unit
  {
    var bytes := UnitBytes(unit, short);
    var width := if short then 2 else 4;
    assert data[|head|..|head| + |bytes|] == bytes;
    assert forall i :: 0 <= i < width ==> data[|head| + i] == bytes[i];
    assert bytes[width..] == unit;
    assert data[|head| + width..|head| + width + |unit|] == bytes[width..];
    assert |unit| / 0x100 == |unit| / 0x1_0000 * 256 + |unit| / 0x100 % 256;
  }

  // The units lie in the data one after the other from a position on.
  ghost predicate Laid(data: seq<byte>, from: nat, units: seq<seq<byte>>, short: bool)
    decreases |units|
  {
    var start := from + if short then 2 else 4;
    if units == [] then |data| <= start
    else
      && 0 < |units[0]| && start + |units[0]| <= |data| && data[from] == 0
      && UnitSize(data, from, short) == |units[0]| && data[start..start + |units[0]|] == units[0]
      && Laid(data, NextPosition(data, start + |units[0]|, short), units[1..], short)
  }

  // Parsing finds the units a frame was built of, all of them and as they are.
  lemma UnitsAreFound(head: seq<byte>, units: seq<seq<byte>>, short: bool)
    requires Fit(units, short) && units != []
    ensures var data := head + Body(units, short);
            Pieces(data, Units(data, |head|, short), 0) == units
  {
    BodyIsLaid(head, units, short);
    LaidUnitsAreFound(head + Body(units, short), |head|, units, short);
  }

  lemma {:induction false} LaidUnitsAreFound(data: seq<byte>, from: nat, units: seq<seq<byte>>, short: bool)
    requires Laid(data, from, units, short)
    ensures Pieces(data, Units(data, from, short), 0) == units
    decreases |units|
  {
    if units != [] {
      var end := from + (if short then 2 else 4) + |units[0]|;
      PiecesAfterUnit(data, from, units[0], short);
      LaidUnitsAreFound(data, NextPosition(data, end, short), units[1..], short);
    }
  }

  lemma {:induction false} BodyIsLaid(head: seq<byte>, units: seq<seq<byte>>, short: bool)
    requires Fit(units, short) && units != []
    ensures Laid(head + Body(units, short), |head|, units, short)
    decreases |units|
  {
    FirstUnitReads(head, units, short);
    NextUnitIsNext(head, units, short);
    if |units| > 1 {
      BodyIsLaid(head + UnitBytes(units[0], short) + Separator(short), units[1..], short);
    }
  }

  lemma FirstUnitReads(head: seq<byte>, units: seq<seq<byte>>, short: bool)
    requires Fit(units, short) && units != []
    ensures var data := head + Body(units, short);
            var start := |head| + if short then 2 else 4;
            && start + |units[0]| <= |data| && data[|head|] == 0
            && UnitSize(data, |head|, short) == |units[0]| && data[start..start + |units[0]|] == units[0]
  {
    BodySplits(head, units, short);
    UnitSizeReads(head + Body(units, short), head, units[0], short,
                  if |units| > 1 then Separator(short) + Body(units[1..], short) else []);
  }

  lemma NextUnitIsNext(head: seq<byte>, units: seq<seq<byte>>, short: bool)
    requires Fit(units, short) && units != []
    ensures var data := head + Body(units, short);
            var end := |head| + (if short then 2 else 4) + |units[0]|;
            var next := head + UnitBytes(units[0], short) + Separator(short);
            if |units| > 1 then data == next + Body(units[1..], short) && NextPosition(data, end, short) == |next|
            else NextPosition(data, end, short) == end - 1 && end == |data|
  {
    BodySplits(head, units, short);
  }

  lemma BodySplits(head: seq<byte>, units: seq<seq<byte>>, short: bool)
    requires Fit(units, short) && units != []
    ensures var data, start := head + Body(units, short), head + UnitBytes(units[0], short);
            if |units| > 1 then
              && data == start + Separator(short) + Body(units[1..], short)
              && data == start + (Separator(short) + Body(units[1..], short))
              && Body(units[1..], short) != []
            else data == start + []
  {
    if |units| > 1 {
      var bytes, separator, others := UnitBytes(units[0], short), Separator(short), Body(units[1..], short);
      assert others != [];
      Regroup(head, bytes, separator, others);
    }
  }

  lemma Regroup(a: seq<byte>, b: seq<byte>, c: seq<byte>, d: seq<byte>)
    ensures a + (b + c + d) == a + b + c + d == a + b + (c + d)
  {
  }

  lemma PiecesAfterUnit(data: seq<byte>, from: nat, unit: seq<byte>, short: bool)
    requires var start := from + if short then 2 else 4;
             && 0 < |unit| && start + |unit| <= |data| && data[from] == 0
             && UnitSize(data, from, short) == |unit| && data[start..start + |unit|] == unit
    ensures var end := from + (if short then 2 else 4) + |unit|;
            Pieces(data, Units(data, from, short), 0)
            == [unit] + Pieces(data, Units(data, NextPosition(data, end, short), short), 0)
  {
    var start := from + if short then 2 else 4;
    var subs := Units(data, NextPosition(data, start + |unit|, short), short);
    assert Units(data, from, short) == [(start, |unit|)] + subs;
    PiecesFirst(data, (start, |unit|), subs);
  }

  lemma PiecesFirst(data: seq<byte>, sub: (nat, nat), subs: seq<(nat, nat)>)
    requires AllInside(data, subs) && 0 < sub.1 && sub.0 + sub.1 <= |data|
    ensures Pieces(data, [sub] + subs, 0) == [data[sub.0..sub.0 + sub.1]] + Pieces(data, subs, 0)
  {
    PiecesShift(data, sub, subs, 0);
  }
}
