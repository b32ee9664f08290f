/** MonaBase's BinaryWriter and BinaryReader: bytes appended to a buffer, or written over a
    reserved part of one, and read back. Shifts and masks are written as divisions. */
module Codec {
  import opened CArithmetic

  type byte = b: int | 0 <= b < 256

  // The memory a writer works on; two writers may share one.
  class Buffer {
    var data: seq<byte>

    constructor (data: seq<byte>)
      ensures this.data == data
    {
      this.data := data;
    }
  }

  function BigEndian32(value: int): (s: seq<byte>)
    requires 0 <= value < 0x1_0000_0000
    ensures |s| == 4
  {
    [value / 0x100_0000, value / 0x1_0000 % 256, value / 256 % 256, value % 256]
  }

  // Seven bits a byte, least significant first, the high bit saying that more follows.
  function Encode7Bit(value: nat): (s: seq<byte>)
    ensures 1 <= |s|
  {
    if value < 128 then [value] else [128 + value % 128] + Encode7Bit(value / 128)
  }

  // What the continued bytes at the head of `s` denote; past the end a reader sees zeros.
  ghost function Decode7Bit(s: seq<byte>): nat {
    if s == [] then 0
    else s[0] % 128 + (if s[0] >= 128 then 128 * Decode7Bit(s[1..]) else 0)
  }

  function Length7Bit(s: seq<byte>): (n: nat)
    ensures n <= |s|
  {
    if s == [] then 0
    else if s[0] >= 128 then 1 + Length7Bit(s[1..])
    else 1
  }

  lemma {:induction false} Encode7BitDecodes(value: nat, rest: seq<byte>)
    ensures Decode7Bit(Encode7Bit(value) + rest) == value
    ensures Length7Bit(Encode7Bit(value) + rest) == |Encode7Bit(value)|
  {
    var s := Encode7Bit(value) + rest;
    if value >= 128 {
      Encode7BitDecodes(value / 128, rest);
      assert s[1..] == Encode7Bit(value / 128) + rest;
    }
  }

  // What is written so far, followed by what is left if there is more, is the encoding.
  ghost predicate Encodes(value: nat, done: seq<byte>, rest: nat, more: bool) {
    Encode7Bit(value) == if more then done + Encode7Bit(rest) else done
  }

  lemma EncodesStep(value: nat, done: seq<byte>, rest: nat)
    requires Encodes(value, done, rest, true)
    ensures rest >= 128 ==> Encodes(value, done + [128 + rest % 128], rest / 128, true)
    ensures rest < 128 ==> Encodes(value, done + [rest], 0, false)
  {
  }

  // The bound that doubles as the number of bytes: size bytes hold 7 * size bits.
  lemma {:induction false} Encode7BitSize(value: nat, size: nat)
    requires size >= 1
    ensures value < Power128(size) <==> |Encode7Bit(value)| <= size
    decreases size
  {
    if size == 1 {
      assert Power128(1) == 128;
    } else {
      if value >= 128 {
        Encode7BitSize(value / 128, size - 1);
      } else {
        Power128Grows(1, size);
      }
    }
  }

  function Power128(k: nat): (p: nat)
    ensures p > 0
  {
    if k == 0 then 1 else 128 * Power128(k - 1)
  }

  lemma {:induction false} Power128Grows(i: nat, j: nat)
    requires i <= j
    ensures Power128(i) <= Power128(j)
  {
    if i < j {
      Power128Grows(i, j - 1);
    }
  }

  // The limit that Util::Get7BitValueSize compares with after some turns, on 64 bits.
  function LimitAfter(turns: nat): nat {
    if turns == 0 then 0x80 else LimitAfter(turns - 1) * 128 % 0x1_0000_0000_0000_0000
  }

  lemma NinthPower()
    ensures Power128(9) == 0x8000_0000_0000_0000
  {
  }

  lemma {:induction false} LimitGrows(turns: nat)
    requires turns <= 8
    ensures LimitAfter(turns) == Power128(turns + 1)
  {
    if turns > 0 {
      LimitGrows(turns - 1);
      Power128Grows(turns + 1, 9);
      NinthPower();
      assert LimitAfter(turns - 1) * 128 < 0x1_0000_0000_0000_0000;
    }
  }

  lemma LimitShiftedOut()
    ensures LimitAfter(9) == 0
  {
    LimitGrows(8);
    NinthPower();
    DivisionIs(LimitAfter(8) * 128, 0x1_0000_0000_0000_0000, 64, 0);
  }

  lemma {:induction false} LimitIsLost(turns: nat)
    requires turns >= 9
    ensures LimitAfter(turns) == 0
  {
    if turns == 9 {
      LimitShiftedOut();
    } else {
      LimitIsLost(turns - 1);
      DivisionIs(0, 0x1_0000_0000_0000_0000, 0, 0);
    }
  }

  lemma LimitIsAtMost(turns: nat)
    ensures LimitAfter(turns) <= 0x8000_0000_0000_0000
  {
    if turns <= 8 {
      LimitGrows(turns);
      Power128Grows(turns + 1, 9);
      NinthPower();
    } else {
      LimitIsLost(turns);
    }
  }

  /** The loop that looks for the size ends if and only if the value is below 2^63: then the limit is
      shifted out of its 64 bits. */
  lemma SizeLoopEndsExactly(value: nat)
    ensures (exists turns :: value < LimitAfter(turns)) <==> value < 0x8000_0000_0000_0000
  {
    LimitGrows(8);
    NinthPower();
    if value < 0x8000_0000_0000_0000 {
      assert value < LimitAfter(8);
    } else {
      forall turns: nat ensures LimitAfter(turns) <= value {
        LimitIsAtMost(turns);
      }
    }
  }

  // Util::Get7BitValueSize, on the values for which it ends.
  method Get7BitValueSize(value: nat) returns (size: nat)
    requires value < 0x8000_0000_0000_0000
    ensures size == |Encode7Bit(value)|
  {
    var limit := 128;
    size := 1;
    NinthPower();
    Power128Grows(1, 9);
    while value >= limit
      invariant 1 <= size <= 9 && limit == Power128(size) <= Power128(9) // no 64-bit overflow
      invariant size > 1 ==> value >= Power128(size - 1)
      decreases value - limit
    {
      limit := limit * 128;
      size := size + 1;
      Power128Grows(size, 9);
    }
    Encode7BitSize(value, size);
    if size > 1 {
      Encode7BitSize(value, size - 1);
    }
  }

  // The value shifted right.
  function Shr(value: nat, shift: nat): nat {
    if shift == 0 then value else Shr(value / 2, shift - 1)
  }

  // The continued bytes of an AMF integer: seven bits a byte, most significant first.
  function Groups(value: nat, shift: nat): seq<byte> {
    if shift < 7 then [] else [128 + Shr(value, shift) % 128] + Groups(value, shift - 7)
  }

  // An AMF integer takes four bytes at most, the fourth holding eight bits.
  function EncodeU29(value: nat): seq<byte> {
    var shift := 7 * (|Encode7Bit(value)| - 1);
    if shift >= 21 then Groups(value, 22) + [value % 256] else Groups(value, shift) + [value % 128]
  }

  function EncodeLong(value: nat): seq<byte> {
    Groups(value, 7 * (|Encode7Bit(value)| - 1)) + [value % 128]
  }

  // What a reader makes of groups once it holds `result` after `n` of them, `limit` being the
  // number of continued bytes it accepts: the value and the bytes consumed.
  ghost function ReadGroups(s: seq<byte>, result: nat, n: nat, limit: nat): (nat, nat) {
    if s == [] then (result * (if n < limit then 128 else 256), 0)
    else if s[0] >= 128 && n < limit then
      var (value, consumed) := ReadGroups(s[1..], result * 128 + s[0] % 128, n + 1, limit);
      (value, consumed + 1)
    else (result * (if n < limit then 128 else 256) + s[0], 1)
  }

  lemma {:induction false} ShrBySeven(value: nat, shift: nat)
    ensures Shr(value, shift + 7) == Shr(value, shift) / 128
  {
    if shift == 0 {
      DivisionNests(value, 2, 2);
      DivisionNests(value, 4, 2);
      DivisionNests(value, 8, 2);
      DivisionNests(value, 16, 2);
      DivisionNests(value, 32, 2);
      DivisionNests(value, 64, 2);
      assert Shr(value, 7) == Shr(value / 2, 6) == Shr(value / 4, 5) == Shr(value / 8, 4);
      assert Shr(value / 8, 4) == Shr(value / 16, 3) == Shr(value / 32, 2) == Shr(value / 64, 1) == value / 128;
    } else {
      ShrBySeven(value / 2, shift - 1);
    }
  }

  lemma {:induction false} ShrOfSmall(value: nat, size: nat)
    requires value < Power128(size)
    ensures Shr(value, 7 * size) == 0
  {
    if size > 0 {
      ShrBySeven(value, 7 * (size - 1));
      ShrOfHundreds(value, size - 1);
      ShrOfSmall(value / 128, size - 1);
    }
  }

  lemma {:induction false} ShrOfHundreds(value: nat, k: nat)
    ensures Shr(value, 7 * k) / 128 == Shr(value / 128, 7 * k)
  {
    if k > 0 {
      ShrBySeven(value, 7 * (k - 1));
      ShrBySeven(value / 128, 7 * (k - 1));
      ShrOfHundreds(value, k - 1);
    }
  }

  // A continued byte is taken, and reading goes on after it.
  lemma ReadGroupsStep(s: seq<byte>, read: nat, result: nat, n: nat, limit: nat)
    requires read < |s| && s[read] >= 128 && n < limit
    ensures ReadGroups(s[read..], result, n, limit)
         == var (v, consumed) := ReadGroups(s[read + 1..], result * 128 + s[read] % 128, n + 1, limit);
            (v, consumed + 1)
  {
    assert s[read..][1..] == s[read + 1..];
  }

  // The last byte, or the lack of it, ends the reading.
  lemma ReadGroupsEnd(s: seq<byte>, read: nat, result: nat, n: nat, limit: nat)
    requires read < |s| ==> s[read] < 128 || n >= limit
    requires read <= |s|
    ensures ReadGroups(s[read..], result, n, limit)
         == (result * (if n < limit then 128 else 256) + (if read < |s| then s[read] else 0),
             if read < |s| then 1 else 0)
  {
  }

  // After the bytes read so far, what is left decides as the whole does.
  ghost predicate ReadsOn(whole: seq<byte>, read: nat, result: nat, n: nat, limit: nat)
    requires read <= |whole|
  {
    ReadGroups(whole, 0, 0, limit)
    == var (v, consumed) := ReadGroups(whole[read..], result, n, limit); (v, consumed + read)
  }

  lemma ReadsOnStep(whole: seq<byte>, read: nat, result: nat, n: nat, limit: nat)
    requires read < |whole| && whole[read] >= 128 && n < limit && ReadsOn(whole, read, result, n, limit)
    ensures ReadsOn(whole, read + 1, result * 128 + whole[read] % 128, n + 1, limit)
  {
    ReadGroupsStep(whole, read, result, n, limit);
  }

  // Groups written from a shift on are read back as the value's own leading bits.
  lemma {:induction false} GroupsReadBack(value: nat, shift: nat, n: nat, limit: nat, last: seq<byte>)
    requires n + shift / 7 <= limit
    ensures ReadGroups(Groups(value, shift) + last, Shr(value, shift + 7), n, limit)
         == var (v, consumed) := ReadGroups(last, Shr(value, shift % 7 + 7), n + shift / 7, limit);
            (v, consumed + shift / 7)
    decreases shift
  {
    if shift < 7 {
      assert Groups(value, shift) + last == last;
    } else {
      FirstGroupReads(value, shift, n, limit, last);
      GroupsReadBack(value, shift - 7, n + 1, limit, last);
      assert shift / 7 == (shift - 7) / 7 + 1 && shift % 7 == (shift - 7) % 7;
    }
  }

  lemma FirstGroupReads(value: nat, shift: nat, n: nat, limit: nat, last: seq<byte>)
    requires n < limit && shift >= 7
    ensures ReadGroups(Groups(value, shift) + last, Shr(value, shift + 7), n, limit)
         == var (v, consumed) := ReadGroups(Groups(value, shift - 7) + last, Shr(value, shift), n + 1, limit);
            (v, consumed + 1)
  {
    var s := Groups(value, shift) + last;
    var digit := Shr(value, shift) % 128;
    ShrBySeven(value, shift);
    assert s[0] == 128 + digit && s[1..] == Groups(value, shift - 7) + last;
    assert s[0..] == s;
    ReadGroupsStep(s, 0, Shr(value, shift + 7), n, limit);
  }

  lemma GroupsStep(whole: seq<byte>, done: seq<byte>, value: nat, shift: nat)
    requires whole == done + Groups(value, shift) && shift >= 7
    ensures whole == done + [128 + Shr(value, shift) % 128] + Groups(value, shift - 7)
  {
  }

  lemma GroupsCount(value: nat, shift: nat)
    ensures |Groups(value, shift)| == shift / 7
  {
  }

  lemma SizeBounds(value: nat)
    ensures var size := |Encode7Bit(value)|;
            value < Power128(size) && (size > 1 ==> value >= Power128(size - 1))
  {
    var size := |Encode7Bit(value)|;
    Encode7BitSize(value, size);
    if size > 1 {
      Encode7BitSize(value, size - 1);
    }
  }

  // Short values: one group per seven bits, all accepted.
  lemma AlignedGroupsReadBack(value: nat, limit: nat, rest: seq<byte>)
    requires |Encode7Bit(value)| <= limit
    ensures ReadGroups(EncodeLong(value) + rest, 0, 0, limit) == (value, |EncodeLong(value)|)
  {
    var size := |Encode7Bit(value)|;
    var shift := 7 * (size - 1);
    SizeBounds(value);
    ShrOfSmall(value, size);
    GroupsReadBack(value, shift, 0, limit, [value % 128] + rest);
    LastGroupReads(value, size - 1, limit, rest);
    GroupsCount(value, shift);
    assert EncodeLong(value) + rest == Groups(value, shift) + ([value % 128] + rest);
  }

  lemma LastGroupReads(value: nat, n: nat, limit: nat, rest: seq<byte>)
    requires n < limit
    ensures ReadGroups([value % 128] + rest, Shr(value, 7), n, limit) == (value, 1)
  {
    ShrBySeven(value, 0);
  }

  // read7BitValue after write7BitValue: the low 29 bits, with exact consumption.
  lemma U29ReadBack(value: nat, rest: seq<byte>)
    requires value < 0x1_0000_0000
    ensures ReadGroups(EncodeU29(value) + rest, 0, 0, 3) == (value % 0x2000_0000, |EncodeU29(value)|)
  {
    if |Encode7Bit(value)| <= 3 {
      SizeBounds(value);
      Power128Grows(|Encode7Bit(value)|, 3);
      assert Power128(3) == 0x20_0000;
      AlignedGroupsReadBack(value, 3, rest);
    } else {
      FullU29ReadBack(value, rest);
    }
  }

  lemma FullU29ReadBack(value: nat, rest: seq<byte>)
    requires |Encode7Bit(value)| > 3
    ensures ReadGroups(EncodeU29(value) + rest, 0, 0, 3) == (value % 0x2000_0000, |EncodeU29(value)|)
  {
    var low := value % 0x2000_0000;
    ShrAt(value);
    ShrAt(low);
    LowBits(value, value / 0x2000_0000, low);
    LowBitsGroups(value, low);
    GroupsReadBack(low, 22, 0, 3, [value % 256] + rest);
    assert EncodeU29(value) + rest == Groups(low, 22) + ([value % 256] + rest);
  }

  lemma LowBitsGroups(value: nat, low: nat)
    requires Shr(value, 22) % 128 == Shr(low, 22) % 128
    requires Shr(value, 15) % 128 == Shr(low, 15) % 128
    requires Shr(value, 8) % 128 == Shr(low, 8) % 128
    ensures Groups(value, 22) == Groups(low, 22) && |Groups(value, 22)| == 3
  {
    ThreeGroups(value);
    ThreeGroups(low);
  }

  // Seven bits read at `unit` do not see what is added above them.
  lemma LowDigit(high: nat, low: nat, unit: nat, k: nat)
    requires unit > 0
    ensures (high * (unit * (128 * k)) + low) / unit % 128 == low / unit % 128
  {
    var above, digit := high * k, low / unit;
    DivisionSplits(low, unit);
    DivisionSplits(digit, 128);
    assert high * (unit * (128 * k)) == unit * (128 * above);
    assert unit * (128 * above) + low == unit * (128 * above + digit) + low % unit;
    DivisionIs(high * (unit * (128 * k)) + low, unit, 128 * above + digit, low % unit);
    DivisionIs(128 * above + digit, 128, above + digit / 128, digit % 128);
  }

  lemma LowBits(value: nat, high: nat, low: nat)
    requires value == high * 0x2000_0000 + low && low < 0x2000_0000
    ensures value / 0x100 % 128 == low / 0x100 % 128
    ensures value / 0x8000 % 128 == low / 0x8000 % 128
    ensures value / 0x40_0000 % 128 == low / 0x40_0000 % 128
    ensures value % 256 == low % 256 && low / 0x2000_0000 == 0
  {
    LowDigit(high, low, 0x100, 0x4000);
    LowDigit(high, low, 0x8000, 0x80);
    LowDigit(high, low, 0x40_0000, 1);
    DivisionIs(value, 256, high * 0x20_0000 + low / 256, low % 256);
  }

  lemma ThreeGroups(value: nat)
    ensures Groups(value, 22)
         == [128 + Shr(value, 22) % 128, 128 + Shr(value, 15) % 128, 128 + Shr(value, 8) % 128]
  {
    assert Groups(value, 8) == [128 + Shr(value, 8) % 128];
    assert Groups(value, 15) == [128 + Shr(value, 15) % 128] + Groups(value, 8);
  }

  lemma ShrAt(value: nat)
    ensures Shr(value, 8) == value / 0x100 && Shr(value, 15) == value / 0x8000
    ensures Shr(value, 22) == value / 0x40_0000 && Shr(value, 29) == value / 0x2000_0000
  {
    ShrBySeven(value, 1);
    ShrBySeven(value, 8);
    ShrBySeven(value, 15);
    ShrBySeven(value, 22);
  }

  // read7BitLongValue after write7BitLongValue: the ninth byte is written with seven bits and
  // read with eight, so the value comes back exactly below 2^56.
  lemma LongReadBack(value: nat, rest: seq<byte>)
    requires value < 0x8000_0000_0000_0000
    ensures ReadGroups(EncodeLong(value) + rest, 0, 0, 8).1 == |EncodeLong(value)|
    ensures ReadGroups(EncodeLong(value) + rest, 0, 0, 8).0 == value <==> value < 0x100_0000_0000_0000
  {
    var size := |Encode7Bit(value)|;
    assert Power128(8) == 0x100_0000_0000_0000 && Power128(9) == 0x8000_0000_0000_0000;
    Encode7BitSize(value, 8);
    Encode7BitSize(value, 9);
    if size <= 8 {
      AlignedGroupsReadBack(value, 8, rest);
    } else {
      ShrOfSmall(value, 9);
      GroupsReadBack(value, 56, 0, 8, [value % 128] + rest);
      GroupsCount(value, 56);
      ShrBySeven(value, 0);
      assert EncodeLong(value) + rest == Groups(value, 56) + ([value % 128] + rest);
    }
  }

  // How much of a text fits at a position, in memory that may not grow.
  function Room(data: seq<byte>, position: nat, fixed: bool, text: seq<byte>): (n: nat)
    requires position <= |data|
    ensures n <= |text|
  {
    if fixed && position + |text| > |data| then |data| - position else |text|
  }

  // The memory once a text is written at a position: overwritten where it is fixed, else extended.
  function Splice(data: seq<byte>, position: nat, fixed: bool, text: seq<byte>): seq<byte>
    requires position <= |data|
  {
    var n := Room(data, position, fixed, text);
    data[..position] + text[..n] + (if fixed then data[position + n..] else [])
  }

  lemma SpliceTwice(data: seq<byte>, position: nat, fixed: bool, first: seq<byte>, second: seq<byte>)
    requires position <= |data|
    ensures var next := position + Room(data, position, fixed, first);
            var halfway := Splice(data, position, fixed, first);
            && Room(data, position, fixed, first) + Room(halfway, next, fixed, second)
               == Room(data, position, fixed, first + second)
            && Splice(halfway, next, fixed, second) == Splice(data, position, fixed, first + second)
  {
  }

  class BinaryWriter {
    const buffer: Buffer
    const start: nat
    // A writer over another one's memory cannot grow it.
    const fixed: bool
    var size: nat

    ghost predicate Valid()
      reads this, buffer
    {
      && start + size <= |buffer.data|
      && (!fixed ==> start == 0 && size == |buffer.data|)
    }

    constructor (buffer: Buffer)
      requires buffer.data == []
      ensures Valid() && this.buffer == buffer && !fixed && size == 0
    {
      this.buffer, start, fixed, size := buffer, 0, false, 0;
    }

    constructor Over(buffer: Buffer, start: nat)
      requires start <= |buffer.data|
      ensures Valid() && this.buffer == buffer && this.start == start && fixed && size == 0
    {
      this.buffer, this.start, fixed, size := buffer, start, true, 0;
    }

    // The writer has written `text` since it stood after `size0` bytes over the memory `data0`.
    ghost predicate Wrote(data0: seq<byte>, size0: nat, text: seq<byte>)
      reads this, buffer
    {
      && start + size0 <= |data0|
      && buffer.data == Splice(data0, start + size0, fixed, text)
      && size == size0 + Room(data0, start + size0, fixed, text)
    }

    method WriteRaw(value: seq<byte>)
      requires Valid()
      modifies this`size, buffer
      ensures Valid() && Wrote(old(buffer.data), old(size), value)
      ensures !fixed ==> buffer.data == old(buffer.data) + value
    {
      var n := if fixed && start + size + |value| > |buffer.data| then |buffer.data| - start - size else |value|;
      buffer.data := buffer.data[..start + size] + value[..n]
                     + (if fixed then buffer.data[start + size + n..] else []);
      size := size + n;
    }

    method Write8(value: byte)
      requires Valid()
      modifies this`size, buffer
      ensures Valid() && Wrote(old(buffer.data), old(size), [value])
    {
      WriteRaw([value]);
    }

    method Write32(value: nat)
      requires Valid() && value < 0x1_0000_0000
      modifies this`size, buffer
      ensures Valid() && Wrote(old(buffer.data), old(size), BigEndian32(value))
    {
      WriteRaw(BigEndian32(value));
    }

    // The size is cut to its last eight bits.
    method WriteString8(value: seq<byte>)
      requires Valid()
      modifies this`size, buffer
      ensures Valid() && Wrote(old(buffer.data), old(size), [|value| % 256] + value)
    {
      Write8(|value| % 256);
      WriteRaw(value);
      SpliceTwice(old(buffer.data), start + old(size), fixed, [|value| % 256], value);
    }

    // One more byte of a text being written.
    method Write8After(ghost data0: seq<byte>, ghost size0: nat, ghost done: seq<byte>, c: byte)
      returns (ghost done': seq<byte>)
      requires Valid() && Wrote(data0, size0, done)
      modifies this`size, buffer
      ensures Valid() && done' == done + [c] && Wrote(data0, size0, done')
    {
      Write8(c);
      done' := done + [c];
      SpliceTwice(data0, start + size0, fixed, done, [c]);
    }

    method Write7BitEncoded(value: nat)
      requires Valid()
      modifies this`size, buffer
      ensures Valid() && Wrote(old(buffer.data), old(size), Encode7Bit(value))
    {
      var rest := value;
      ghost var done: seq<byte> := [];
      var more := true;
      while more
        invariant Valid() && Wrote(old(buffer.data), old(size), done)
        invariant Encodes(value, done, rest, more)
        decreases if more then rest + 1 else 0
      {
        EncodesStep(value, done, rest);
        var c: byte := rest % 128;
        rest := rest / 128;
        if rest > 0 {
          c := c + 128;
        }
        done := Write8After(old(buffer.data), old(size), done, c);
        more := rest > 0;
      }
    }

    method WriteGroup(ghost data0: seq<byte>, ghost size0: nat, ghost done: seq<byte>,
                      ghost whole: seq<byte>, value: nat, shift: nat)
      returns (ghost done': seq<byte>)
      requires Valid() && Wrote(data0, size0, done) && shift >= 7
      requires whole == done + Groups(value, shift)
      modifies this`size, buffer
      ensures Valid() && Wrote(data0, size0, done') && whole == done' + Groups(value, shift - 7)
    {
      GroupsStep(whole, done, value, shift);
      done' := Write8After(data0, size0, done, 128 + Shr(value, shift) % 128);
    }

    // The groups from a shift on, after a text already written.
    method WriteGroups(value: nat, from: nat)
      requires Valid()
      modifies this`size, buffer
      ensures Valid() && Wrote(old(buffer.data), old(size), Groups(value, from))
    {
      var shift := from;
      ghost var done: seq<byte> := [];
      while shift >= 7
        invariant Valid() && Wrote(old(buffer.data), old(size), done)
        invariant Groups(value, from) == done + Groups(value, shift)
      {
        done := WriteGroup(old(buffer.data), old(size), done, Groups(value, from), value, shift);
        shift := shift - 7;
      }
    }

    method Write7BitValue(value: nat)
      requires Valid() && value < 0x1_0000_0000
      modifies this`size, buffer
      ensures Valid() && Wrote(old(buffer.data), old(size), EncodeU29(value))
    {
      var bytes := Get7BitValueSize(value);
      var shift := (bytes - 1) * 7;
      var max := false;
      if shift >= 21 {
        shift := 22;
        max := true;
      }
      WriteGroups(value, shift);
      var c := if max then value % 256 else value % 128;
      ghost var all := Write8After(old(buffer.data), old(size), Groups(value, shift), c);
    }

    method Write7BitLongValue(value: nat)
      requires Valid() && value < 0x8000_0000_0000_0000
      modifies this`size, buffer
      ensures Valid() && Wrote(old(buffer.data), old(size), EncodeLong(value))
    {
      var bytes := Get7BitValueSize(value);
      SizeBounds(value);
      NinthPower();
      Encode7BitSize(value, 9);
      var shift := (bytes - 1) * 7;
      WriteGroups(value, shift);
      ghost var all := Write8After(old(buffer.data), old(size), Groups(value, shift), value % 128);
    }
  }

  // A reader that is short of bytes goes on with zeros.
  function Padded(s: seq<byte>, size: nat): (r: seq<byte>)
    ensures |r| == size
  {
    if |s| >= size then s[..size] else s + Zeros(size - |s|)
  }

  function Zeros(n: nat): (r: seq<byte>)
    ensures |r| == n
  {
    seq(n, _ => 0)
  }

  function FromBigEndian32(s: seq<byte>): (value: nat)
    requires |s| == 4
    ensures value < 0x1_0000_0000
  {
    s[0] as int * 0x100_0000 + s[1] as int * 0x1_0000 + s[2] as int * 256 + s[3]
  }

  lemma BigEndian32Reads(value: nat)
    requires value < 0x1_0000_0000
    ensures FromBigEndian32(BigEndian32(value)) == value
  {
    assert value / 0x1_0000 == 256 * (value / 0x100_0000) + value / 0x1_0000 % 256;
    assert value / 256 == 256 * (value / 0x1_0000) + value / 256 % 256;
  }

  lemma Decode7BitStep(s: seq<byte>, read: nat, c: byte, shifted: int)
    requires read <= |s| && c == if read == |s| then 0 else s[read]
    ensures shifted * Decode7Bit(s[read..]) == c as int % 128 * shifted
         + (if c >= 128 then shifted * 128 * Decode7Bit(s[read + 1..]) else 0)
    ensures Length7Bit(s[read..])
         == (if read == |s| then 0 else if c >= 128 then 1 + Length7Bit(s[read + 1..]) else 1)
  {
    if c >= 128 {
      var more := Decode7Bit(s[read + 1..]);
      assert s[read..][1..] == s[read + 1..];
      assert shifted * (c as int % 128 + 128 * more) == c as int % 128 * shifted + shifted * 128 * more;
    }
  }

  lemma AddModulo(value: int, total: int, x: int)
    requires value == total % 0x1_0000_0000
    ensures (value + x) % 0x1_0000_0000 == (total + x) % 0x1_0000_0000
  {
  }

  class BinaryReader {
    const data: seq<byte>
    var current: nat
    var end: nat

    ghost predicate Valid()
      reads this
    {
      current <= end <= |data|
    }

    ghost function Rest(): seq<byte>
      requires Valid()
      reads this
    {
      data[current..end]
    }

    constructor (data: seq<byte>)
      ensures Valid() && this.data == data && Rest() == data
    {
      this.data := data;
      current, end := 0, |data|;
    }

    function Available(): nat
      requires Valid()
      reads this
    {
      end - current
    }

    method Shrink(rest: nat)
      requires Valid()
      modifies this`end
      ensures Valid()
      ensures Rest() == old(Rest())[..if rest > old(Available()) then old(Available()) else rest]
    {
      end := current + if rest > end - current then end - current else rest;
    }

    method Read8() returns (value: byte)
      requires Valid()
      modifies this`current
      ensures Valid() && end == old(end)
      ensures old(Rest()) == [] ==> value == 0 && Rest() == []
      ensures old(Rest()) != [] ==> value == old(Rest())[0] && Rest() == old(Rest())[1..]
    {
      if current == end {
        return 0;
      }
      value := data[current];
      current := current + 1;
    }

    method ReadRaw(size: nat) returns (value: seq<byte>)
      requires Valid()
      modifies this`current
      ensures Valid() && value == Padded(old(Rest()), size)
      ensures Rest() == old(Rest())[if size > old(Available()) then old(Available()) else size..]
    {
      var n := if size > end - current then end - current else size;
      value := data[current..current + n] + Zeros(size - n);
      assert Rest()[..n] == data[current..current + n];
      assert n == size ==> value == data[current..current + n];
      current := current + n;
    }

    method Read32() returns (value: nat)
      requires Valid()
      modifies this`current
      ensures Valid() && value == FromBigEndian32(Padded(old(Rest()), 4))
      ensures Rest() == old(Rest())[if 4 > old(Available()) then old(Available()) else 4..]
    {
      var bytes := ReadRaw(4);
      value := FromBigEndian32(bytes);
    }

    // read7BitValue and read7BitLongValue, `limit` being 3 and 8.
    method ReadGroupsUpTo(limit: nat) returns (result: nat)
      requires Valid()
      modifies this`current
      ensures Valid() && (result, |old(Rest())| - |Rest()|) == ReadGroups(old(Rest()), 0, 0, limit)
      ensures Rest() == old(Rest())[ReadGroups(old(Rest()), 0, 0, limit).1..]
    {
      ghost var whole := Rest();
      ghost var read;
      var n, b;
      result, n, b, read := ReadContinued(limit);
      ReadGroupsEnd(whole, read, result, n, limit);
      result := result * (if n < limit then 128 else 256) + b;
    }

    // Their loop over the continued bytes, `read` of them; `b` is the byte after these.
    method ReadContinued(limit: nat) returns (result: nat, n: nat, b: byte, ghost read: nat)
      requires Valid()
      modifies this`current
      ensures Valid() && read <= |old(Rest())| && n <= limit && (b < 128 || n == limit)
      ensures b == (if read == |old(Rest())| then 0 else old(Rest())[read])
      ensures Rest() == old(Rest())[if read == |old(Rest())| then read else read + 1..]
      ensures ReadsOn(old(Rest()), read, result, n, limit)
    {
      ghost var whole := Rest();
      result, n, read := 0, 0, 0;
      b := Read8();
      while b >= 128 && n < limit
        invariant Valid() && read <= |whole| && n <= limit
        invariant b == (if read == |whole| then 0 else whole[read])
        invariant Rest() == whole[if read == |whole| then read else read + 1..]
        invariant ReadsOn(whole, read, result, n, limit)
        decreases limit - n
      {
        ReadsOnStep(whole, read, result, n, limit);
        result := result * 128 + b % 128;
        read := read + 1;
        b := Read8();
        n := n + 1;
      }
    }

    method Read7BitEncoded() returns (value: nat)
      requires Valid()
      modifies this`current
      ensures Valid() && value == Decode7Bit(old(Rest())) % 0x1_0000_0000
      ensures Rest() == old(Rest())[Length7Bit(old(Rest()))..]
    {
      ghost var whole := Rest();
      ghost var total, read: nat := 0, 0;
      var shifted := 1;
      value := 0;
      var more := true;
      while more
        invariant Valid() && read <= |whole| && Rest() == whole[read..]
        invariant value == total % 0x1_0000_0000
        invariant more ==> total + shifted * Decode7Bit(whole[read..]) == Decode7Bit(whole)
        invariant !more ==> total == Decode7Bit(whole)
        invariant Length7Bit(whole) == read + (if more then Length7Bit(whole[read..]) else 0)
        decreases more, |whole| - read
      {
        var c := Read8();
        Decode7BitStep(whole, read, c, shifted);
        var x := c as int % 128 * shifted;
        AddModulo(value, total, x);
        value := (value + x) % 0x1_0000_0000;
        total := total + x;
        read := if read == |whole| then read else read + 1;
        shifted := shifted * 128;
        more := c >= 128;
      }
    }
  }
}
