/** Dates as text: the formats of MonaBase's Date, printed and read again. */
module DateFormat {
  import opened CArithmetic
  import opened DateModel
  import opened Sequences

  const ISO8601_FORMAT := "%Y[-%m-%dT%H:%M:%S%z]"
  const ISO8601_FRAC_FORMAT := "%Y[-%m-%dT%H:%M:%s%z]"
  const HTTP_FORMAT := "%w, %d %b %Y %H:%M:%S %Z"

  const WEEKDAY_NAMES: seq<string> :=
    ["Sunday", "Monday", "Tuesday", "Wednesday", "Thursday", "Friday", "Saturday"]

  const MONTH_NAMES: seq<string> :=
    ["January", "February", "March", "April", "May", "June", "July", "August", "September", "October",
     "November", "December"]

  // ----- characters -----

  predicate IsDigit(c: char) { '0' <= c <= '9' }

  predicate IsUpper(c: char) { 'A' <= c <= 'Z' }

  predicate IsLower(c: char) { 'a' <= c <= 'z' }

  predicate IsAlpha(c: char) { IsUpper(c) || IsLower(c) }

  predicate IsSpace(c: char) { c == ' ' || '\t' <= c <= '\r' }

  function ToUpper(c: char): char {
    if IsLower(c) then (c as int - 32) as char else c
  }

  function ToLower(c: char): char {
    if IsUpper(c) then (c as int + 32) as char else c
  }

  function Digit(d: nat): char
    requires d < 10
  {
    ('0' as int + d) as char
  }

  function ValueOf(c: char): nat
    requires IsDigit(c)
  {
    c as int - '0' as int
  }

  // ----- printing -----

  function Decimal(n: nat): string {
    (if n < 10 then "" else Decimal(n / 10)) + [Digit(n % 10)]
  }

  function Fill(c: char, n: int): string {
    if n <= 0 then "" else [c] + Fill(c, n - 1)
  }

  // "%0<width>d" and "%<width>d"
  function Padded(n: nat, width: nat, c: char): string {
    Fill(c, width - |Decimal(n)|) + Decimal(n)
  }

  function Signed(n: int, width: nat): string {
    if n >= 0 then Padded(n, width, '0') else "-" + Padded(-n, if width > 0 then width - 1 else 0, '0')
  }

  /** What a date prints: its fields, its day of the week and its offset, GMT if it has none. */
  datatype Printed = Printed(fields: Fields, weekDay: nat, offset: int) {
    predicate Valid() {
      && 1 <= fields.month <= 12 && 0 <= fields.day && 0 <= fields.hour && 0 <= fields.minute
      && 0 <= fields.second && 0 <= fields.millisecond && weekDay < 7
    }
  }

  function Abs(x: int): nat {
    if x < 0 then -x else x
  }

  function HoursMinutes(offset: int, iso: bool): string {
    Padded(Abs(offset) / 3_600_000, 2, '0') + (if iso then ":" else "")
    + Padded(Abs(offset) % 3_600_000 / 60_000, 2, '0')
  }

  // Date::formatTimezone
  function Zone(offset: int, iso: bool): string {
    if offset == GMT then (if iso then "Z" else "GMT")
    else [if offset < 0 then '-' else '+'] + HoursMinutes(offset, iso)
  }

  // What one directive prints.
  function Show(c: char, d: Printed): string
    requires d.Valid()
  {
    var f := d.fields;
    match c
    case 'w' => WEEKDAY_NAMES[d.weekDay][..3]
    case 'W' => WEEKDAY_NAMES[d.weekDay]
    case 'b' => MONTH_NAMES[f.month - 1][..3]
    case 'B' => MONTH_NAMES[f.month - 1]
    case 'd' => Padded(f.day, 2, '0')
    case 'e' => Decimal(f.day)
    case 'f' => Padded(f.day, 2, ' ')
    case 'm' => Padded(f.month, 2, '0')
    case 'n' => Decimal(f.month)
    case 'o' => Padded(f.month, 2, ' ')
    case 'y' => Signed(TruncMod(f.year, 100), 2)
    case 'Y' => Signed(f.year, 4)
    case 'H' => Padded(f.hour, 2, '0')
    case 'h' => Padded(if f.hour < 1 then 12 else if f.hour > 12 then f.hour - 12 else f.hour, 2, '0')
    case 'a' => if f.hour < 12 then "am" else "pm"
    case 'A' => if f.hour < 12 then "AM" else "PM"
    case 'M' => Padded(f.minute, 2, '0')
    case 'S' => Padded(f.second, 2, '0')
    case 's' => Padded(f.second, 2, '0') + "." + Padded(f.millisecond, 3, '0')
    case 'F' => Padded(f.millisecond, 3, '0')
    case 'i' => Padded(f.millisecond, 3, '0')
    case 'c' => Decimal(f.millisecond / 100)
    case 'z' => Zone(d.offset, true)
    case 'Z' => Zone(d.offset, false)
    case _ => [c]
  }

  // Date::toString
  function Print(format: string, d: Printed): string
    requires d.Valid()
  {
    if format == "" then ""
    else if format[0] == '%' then
      if |format| == 1 then "" else Show(format[1], d) + Print(format[2..], d)
    else (if format[0] == '[' || format[0] == ']' then "" else [format[0]]) + Print(format[1..], d)
  }

  // ----- reading -----

  /** What has been read so far. */
  datatype Reading = Reading(year: nat, month: nat, day: nat, hour: nat, minute: nat, second: nat,
                             millisecond: nat, microsecond: nat, offset: int)

  const BLANK := Reading(0, 0, 0, 0, 0, 0, 0, 0, LOCAL)

  // Digits added to a number of a given width, n at most.
  function ReadNumber(value: string, number: nat, n: nat, width: nat): (nat, string)
    requires width > 0
    decreases |value|
  {
    if n == 0 || value == "" || !IsDigit(value[0]) then (number, value)
    else ReadNumber(value[1..], (number * 10 + ValueOf(value[0])) % width, n - 1, width)
  }

  // The same with the digits that are missing taken for zeros.
  function ReadFraction(value: string, number: nat, n: nat, width: nat): (nat, string)
    requires width > 0
    decreases n
  {
    if n == 0 then (number, value)
    else if value == "" || !IsDigit(value[0]) then ReadFraction(value, number * 10 % width, n - 1, width)
    else ReadFraction(value[1..], (number * 10 + ValueOf(value[0])) % width, n - 1, width)
  }

  function SkipDigits(value: string): string {
    if value != "" && IsDigit(value[0]) then SkipDigits(value[1..]) else value
  }

  function SkipAlphas(value: string): string {
    if value != "" && IsAlpha(value[0]) then SkipAlphas(value[1..]) else value
  }

  function Alphas(value: string): string {
    if value != "" && IsAlpha(value[0]) then [value[0]] + Alphas(value[1..]) else ""
  }

  function Lowered(s: string): string {
    if s == "" then "" else [ToLower(s[0])] + Lowered(s[1..])
  }

  function Capitalised(s: string): string {
    if s == "" then "" else [ToUpper(s[0])] + Lowered(s[1..])
  }

  function MonthFrom(name: string, i: nat): nat
    requires i <= 12
    decreases 12 - i
  {
    if i == 12 then 0 else if name <= MONTH_NAMES[i] then i + 1 else MonthFrom(name, i + 1)
  }

  // Date::parseMonth
  function ReadMonth(value: string): nat {
    var name := Capitalised(Alphas(value));
    if |name| < 3 then 0 else MonthFrom(name, 0)
  }

  function AtMostFour(s: string): string {
    if |s| > 4 then s[..4] else s
  }

  function ReadHoursMinutes(value: string): (nat, string) {
    var (hours, rest) := ReadNumber(value, 0, 2, 100);
    var (minutes, rest') := ReadNumber(if rest != "" && rest[0] == ':' then rest[1..] else rest, 0, 2, 100);
    ((hours * 3600 + minutes * 60) * 1000, rest')
  }

  // Date::parseTimezone. Every code stands for GMT: the table of the others is not part of this model.
  function ReadZone(value: string): (int, string) {
    var code := AtMostFour(Alphas(value));
    var rest := value[if |code| <= |value| then |code| else 0..];
    if rest == "" || (rest[0] != '+' && rest[0] != '-') then (if code == "" then 0 else GMT, rest)
    else
      var (ahead, rest') := ReadHoursMinutes(rest[1..]);
      ((if rest[0] == '+' then 1 else -1) * ahead, rest')
  }

  // The am or pm that follows an hour
  function ReadHalfDay(value: string, hour: nat): nat {
    var mark := Alphas(value);
    if mark == "AM" || mark == "am" || mark == "Am" || mark == "aM" then if hour == 12 then 0 else hour
    else if (mark == "PM" || mark == "pm" || mark == "Pm" || mark == "pM") && hour < 12 then hour + 12
    else hour
  }

  function InCentury(year: nat): nat {
    if year >= 70 then year + 1900 else year + 2000
  }

  // Milliseconds, microseconds, and finer digits that are dropped
  function ReadFractions(value: string, r: Reading): (Reading, string) {
    var (ms, rest) := ReadFraction(value, r.millisecond, 3, 0x1_0000);
    var (us, rest') := ReadFraction(rest, r.microsecond, 3, 0x1_0000_0000);
    (r.(millisecond := ms, microsecond := us), SkipDigits(rest'))
  }

  // What one directive reads: numbers of their C++ width, added to what was there.
  function Read(c: char, value: string, r: Reading): (Reading, string)
    requires value != ""
  {
    match c
    case 'w' => (r, SkipAlphas(value))
    case 'W' => (r, SkipAlphas(value))
    case 'b' => (r.(month := ReadMonth(value)), SkipAlphas(value))
    case 'B' => (r.(month := ReadMonth(value)), SkipAlphas(value))
    case 'd' => ReadDay(value, r)
    case 'e' => ReadDay(value, r)
    case 'f' => ReadDay(value, r)
    case 'm' => ReadMonthNumber(value, r)
    case 'n' => ReadMonthNumber(value, r)
    case 'o' => ReadMonthNumber(value, r)
    case 'y' => var (year, rest) := ReadNumber(value, r.year, 2, 0x8000_0000); (r.(year := InCentury(year)), rest)
    case 'Y' => var (year, rest) := ReadNumber(value, r.year, 4, 0x8000_0000); (r.(year := year), rest)
    case '_' =>
      var (year, rest) := ReadNumber(value, r.year, |value|, 0x8000_0000);
      (r.(year := if year < 100 then InCentury(year) else year), rest)
    case 'H' => ReadHour(value, r)
    case 'h' => ReadHour(value, r)
    case 'a' => (r.(hour := ReadHalfDay(value, r.hour)), SkipAlphas(value))
    case 'A' => (r.(hour := ReadHalfDay(value, r.hour)), SkipAlphas(value))
    case 'M' => var (minute, rest) := ReadNumber(value, r.minute, 2, 256); (r.(minute := minute), rest)
    case 'S' => var (second, rest) := ReadNumber(value, r.second, 2, 256); (r.(second := second), rest)
    case 's' =>
      var (second, rest) := ReadNumber(value, r.second, 2, 256);
      var r' := r.(second := second);
      if rest != "" && (rest[0] == '.' || rest[0] == ',') then ReadFractions(rest[1..], r') else (r', rest)
    case 'i' => var (ms, rest) := ReadNumber(value, r.millisecond, 3, 0x1_0000); (r.(millisecond := ms), rest)
    case 'c' =>
      var (tenths, rest) := ReadNumber(value, r.millisecond, 1, 0x1_0000);
      (r.(millisecond := tenths * 100 % 0x1_0000), rest)
    case 'F' => ReadFractions(value, r)
    case 'z' => var (offset, rest) := ReadZone(value); (r.(offset := offset), rest)
    case 'Z' => var (offset, rest) := ReadZone(value); (r.(offset := offset), rest)
    case _ => (r, value)
  }

  function ReadDay(value: string, r: Reading): (Reading, string)
    requires value != ""
  {
    var (day, rest) := ReadNumber(if IsSpace(value[0]) then value[1..] else value, r.day, 2, 256);
    (r.(day := day), rest)
  }

  function ReadMonthNumber(value: string, r: Reading): (Reading, string) {
    var (month, rest) := ReadNumber(value, r.month, 2, 256);
    (r.(month := month), rest)
  }

  function ReadHour(value: string, r: Reading): (Reading, string) {
    var (hour, rest) := ReadNumber(value, r.hour, 2, 256);
    (r.(hour := hour), rest)
  }

  datatype Result = Refused | Accepted(reading: Reading)

  // Date::update(ex, value, format), as far as the fields. `optional` counts the brackets that are
  // open, and is negative where what they hold is being skipped.
  function Parse(format: string, value: string, optional: int, r: Reading): Result
    decreases |format|
  {
    if format == "" || value == "" then Accepted(r)
    else
      var c := format[0];
      if c == '[' then Parse(format[1..], value, if optional >= 0 then optional + 1 else optional - 1, r)
      else if c == ']' then Parse(format[1..], value, if optional > 0 then optional - 1 else optional + 1, r)
      else if c == '%' then
        if |format| == 1 then Accepted(r)
        else
          var (r', rest) := Read(format[1], value, r);
          Parse(format[2..], rest, optional, r')
      else if c == '?' then Parse(format[1..], value[1..], optional, r)
      else if optional < 0 then Parse(format[1..], value, optional, r)
      else if c == value[0] then Parse(format[1..], value[1..], optional, r)
      else if optional > 0 then Parse(format[1..], value, -optional, r)
      else Refused
  }

  // ----- formats as lists of items -----

  datatype Item = Plain(c: char) | Bracket(open: bool) | Field(c: char)

  datatype Items = End | More(item: Item, rest: Items)

  function Spell(items: Items): string {
    match items
    case End => ""
    case More(Plain(c), rest) => [c] + Spell(rest)
    case More(Bracket(open), rest) => (if open then "[" else "]") + Spell(rest)
    case More(Field(c), rest) => ['%', c] + Spell(rest)
  }

  function Text(items: Items, d: Printed): string
    requires d.Valid()
  {
    match items
    case End => ""
    case More(Plain(c), rest) => [c] + Text(rest, d)
    case More(Bracket(_), rest) => Text(rest, d)
    case More(Field(c), rest) => Show(c, d) + Text(rest, d)
  }

  // A plain character is none of those a format gives a meaning to.
  predicate Spelled(items: Items) {
    match items
    case End => true
    case More(Plain(c), rest) => c != '%' && c != '[' && c != ']' && Spelled(rest)
    case More(_, rest) => Spelled(rest)
  }

  lemma {:induction false} PrintIsText(items: Items, d: Printed)
    requires d.Valid() && Spelled(items)
    ensures Print(Spell(items), d) == Text(items, d)
  {
    match items
    case End =>
    case More(item, rest) =>
      assert Spell(items)[if item.Field? then 2 else 1..] == Spell(rest);
      PrintIsText(rest, d);
  }

  // ----- numbers read back -----

  function Pow10(k: nat): (p: nat)
    ensures p > 0
  {
    if k == 0 then 1 else 10 * Pow10(k - 1)
  }

  // The last `width` digits.
  function Digits(n: nat, width: nat): (s: string)
    ensures |s| == width
  {
    if width == 0 then "" else Digits(n / 10, width - 1) + [Digit(n % 10)]
  }

  lemma {:induction false} FillLonger(c: char, n: nat)
    ensures Fill(c, n + 1) == Fill(c, n) + [c]
  {
    if n > 0 {
      FillLonger(c, n - 1);
    }
  }

  lemma {:induction false} FillSize(c: char, n: nat)
    ensures |Fill(c, n)| == n
  {
    if n > 0 {
      FillSize(c, n - 1);
    }
  }

  // Numbers that fit are printed with exactly the digits asked for.
  lemma {:induction false} PaddedIsDigits(n: nat, width: nat)
    requires n < Pow10(width) && width > 0
    ensures Padded(n, width, '0') == Digits(n, width)
  {
    if width == 1 {
      assert Pow10(1) == 10;
    } else if n < 10 {
      PaddedIsDigits(0, width - 1);
      FillLonger('0', width - 2);
    } else {
      PaddedIsDigits(n / 10, width - 1);
    }
  }

  lemma DigitReads(d: nat)
    requires d < 10
    ensures IsDigit(Digit(d)) && ValueOf(Digit(d)) == d
  {
  }

  lemma ReadOneDigit(d: nat, rest: string, number: nat, n: nat, width: nat)
    requires d < 10 && n > 0 && number * 10 + d < width
    ensures ReadNumber([Digit(d)] + rest, number, n, width) == ReadNumber(rest, number * 10 + d, n - 1, width)
  {
    DigitReads(d);
    DivisionIs(number * 10 + d, width, 0, number * 10 + d);
    assert ([Digit(d)] + rest)[1..] == rest;
  }

  // Reading the digits of a number makes the number.
  lemma {:induction false} ReadDigits(n: nat, count: nat, rest: string, most: nat, width: nat)
    requires count <= most && n < width && n < Pow10(count)
    ensures ReadNumber(Digits(n, count) + rest, 0, most, width) == ReadNumber(rest, n, most - count, width)
    decreases count
  {
    if count == 0 {
      assert Digits(n, 0) + rest == rest;
    } else {
      var high, low := n / 10, n % 10;
      assert Digits(n, count) + rest == Digits(high, count - 1) + ([Digit(low)] + rest);
      ReadDigits(high, count - 1, [Digit(low)] + rest, most, width);
      ReadOneDigit(low, rest, high, most - (count - 1), width);
    }
  }

  // A number printed on `count` digits is read back, and what follows is left.
  lemma ReadPadded(n: nat, count: nat, rest: string, width: nat)
    requires 0 < count && n < Pow10(count) && n < width
    ensures ReadNumber(Padded(n, count, '0') + rest, 0, count, width) == (n, rest)
  {
    PaddedIsDigits(n, count);
    ReadDigits(n, count, rest, count, width);
  }

  // A short number ends where the digits do.
  lemma ReadDecimal(n: nat, rest: string, width: nat)
    requires n < 100 && n < width && (rest == "" || !IsDigit(rest[0]))
    ensures ReadNumber(Decimal(n) + rest, 0, 2, width) == (n, rest)
  {
    if n < 10 {
      ReadOneDigit(n, rest, 0, 2, width);
    } else {
      assert Decimal(n) + rest == [Digit(n / 10)] + ([Digit(n % 10)] + rest);
      ReadOneDigit(n / 10, [Digit(n % 10)] + rest, 0, 2, width);
      ReadOneDigit(n % 10, rest, n / 10, 1, width);
    }
  }

  lemma {:induction false} ReadFractionDigits(n: nat, count: nat, rest: string, most: nat, width: nat)
    requires count <= most && n < width && n < Pow10(count)
    ensures ReadFraction(Digits(n, count) + rest, 0, most, width) == ReadFraction(rest, n, most - count, width)
    decreases count
  {
    if count == 0 {
      assert Digits(n, 0) + rest == rest;
    } else {
      var high, low := n / 10, n % 10;
      assert Digits(n, count) + rest == Digits(high, count - 1) + ([Digit(low)] + rest);
      ReadFractionDigits(high, count - 1, [Digit(low)] + rest, most, width);
      ReadOneFractionDigit(low, rest, high, most - (count - 1), width);
    }
  }

  lemma ReadOneFractionDigit(d: nat, rest: string, number: nat, n: nat, width: nat)
    requires d < 10 && n > 0 && number * 10 + d < width
    ensures ReadFraction([Digit(d)] + rest, number, n, width) == ReadFraction(rest, number * 10 + d, n - 1, width)
  {
    DigitReads(d);
    DivisionIs(number * 10 + d, width, 0, number * 10 + d);
    assert ([Digit(d)] + rest)[1..] == rest;
  }

  lemma NothingToRead(rest: string, n: nat)
    requires rest == "" || !IsDigit(rest[0])
    ensures ReadFraction(rest, 0, n, 0x1_0000_0000) == (0, rest) && SkipDigits(rest) == rest
  {
  }

  lemma ReadMilliseconds(ms: nat, rest: string, r: Reading)
    requires ms < 1000 && r.millisecond == 0 && r.microsecond == 0 && (rest == "" || !IsDigit(rest[0]))
    ensures ReadFractions(Padded(ms, 3, '0') + rest, r) == (r.(millisecond := ms), rest)
  {
    assert Pow10(3) == 1000;
    PaddedIsDigits(ms, 3);
    ReadThreeDigits(ms, rest);
    NothingToRead(rest, 3);
  }

  lemma ReadThreeDigits(ms: nat, rest: string)
    requires ms < 1000
    ensures ReadFraction(Digits(ms, 3) + rest, 0, 3, 0x1_0000) == (ms, rest)
  {
    assert Pow10(3) == 1000;
    ReadFractionDigits(ms, 3, rest, 3, 0x1_0000);
  }

  // ----- names read back -----

  // What follows a name does not go on with it.
  predicate NoAlpha(rest: string) {
    rest == "" || !IsAlpha(rest[0])
  }

  predicate AllAlpha(s: string) {
    forall i :: 0 <= i < |s| ==> IsAlpha(s[i])
  }

  lemma {:induction false} AlphasOf(name: string, rest: string)
    requires AllAlpha(name) && NoAlpha(rest)
    ensures Alphas(name + rest) == name && SkipAlphas(name + rest) == rest
  {
    if name == "" {
      assert name + rest == rest;
    } else {
      assert (name + rest)[1..] == name[1..] + rest;
      AlphasOf(name[1..], rest);
    }
  }

  lemma {:induction false} LoweredStays(s: string)
    requires forall i :: 0 <= i < |s| ==> IsLower(s[i])
    ensures Lowered(s) == s
  {
    if s != "" {
      LoweredStays(s[1..]);
    }
  }

  predicate IsWord(name: string) {
    |name| >= 3 && IsUpper(name[0]) && forall i :: 1 <= i < |name| ==> IsLower(name[i])
  }

  lemma MonthsAreNames(i: nat)
    requires i < 12
    ensures IsWord(MONTH_NAMES[i])
  {
  }

  lemma WeekDaysAreNames(i: nat)
    requires i < 7
    ensures IsWord(WEEKDAY_NAMES[i])
  {
  }

  // Three letters tell a month.
  lemma MonthsDiffer(i: nat, j: nat)
    requires i < 12 && j < 12 && i != j
    ensures var a, b := MONTH_NAMES[i], MONTH_NAMES[j];
            a[0] != b[0] || a[1] != b[1] || a[2] != b[2]
  {
  }

  lemma NotAnotherMonth(name: string, i: nat, k: nat)
    requires i < 12 && k < 12 && i != k && |name| >= 3 && name <= MONTH_NAMES[i]
    ensures !(name <= MONTH_NAMES[k])
  {
    MonthsDiffer(i, k);
    assert name[0] == MONTH_NAMES[i][0] && name[1] == MONTH_NAMES[i][1] && name[2] == MONTH_NAMES[i][2];
  }

  lemma {:induction false} MonthFromFinds(name: string, i: nat, k: nat)
    requires k <= i < 12 && |name| >= 3 && name <= MONTH_NAMES[i]
    ensures MonthFrom(name, k) == i + 1
    decreases i - k
  {
    if k < i {
      NotAnotherMonth(name, i, k);
      MonthFromFinds(name, i, k + 1);
    }
  }

  // A month is found by its name, or its first three letters.
  lemma ReadMonthName(i: nat, size: nat, rest: string)
    requires i < 12 && 3 <= size <= |MONTH_NAMES[i]| && NoAlpha(rest)
    ensures ReadMonth(MONTH_NAMES[i][..size] + rest) == i + 1
    ensures SkipAlphas(MONTH_NAMES[i][..size] + rest) == rest
  {
    MonthsAreNames(i);
    var name := MONTH_NAMES[i][..size];
    AlphasOf(name, rest);
    LoweredStays(name[1..]);
    assert Capitalised(name) == [name[0]] + name[1..] == name;
    MonthFromFinds(name, i, 0);
  }

  // ----- offsets read back -----

  // What can be printed: whole minutes, less than a hundred hours.
  predicate IsWholeOffset(offset: int) {
    -360_000_000 < offset < 360_000_000 && offset % 60_000 == 0
  }

  predicate IsTold(offset: int) {
    offset == GMT || IsWholeOffset(offset)
  }

  predicate EndsZone(rest: string) {
    NoAlpha(rest) && (rest == "" || (rest[0] != '+' && rest[0] != '-'))
  }

  lemma ReadGmt(code: string, rest: string)
    requires code == "Z" || code == "GMT"
    requires EndsZone(rest)
    ensures ReadZone(code + rest) == (GMT, rest)
  {
    AlphasOf(code, rest);
    assert (code + rest)[|code|..] == rest;
  }

  lemma WholeMinutes(offset: int)
    requires IsWholeOffset(offset)
    ensures var hours, minutes := Abs(offset) / 3_600_000, Abs(offset) % 3_600_000 / 60_000;
            hours < 100 && minutes < 60 && (hours * 3600 + minutes * 60) * 1000 == Abs(offset)
  {
    var minutes := offset / 60_000;
    assert Abs(offset) == 60_000 * Abs(minutes);
    DivisionIs(Abs(offset), 3_600_000, Abs(minutes) / 60, 60_000 * (Abs(minutes) % 60));
    DivisionIs(60_000 * (Abs(minutes) % 60), 60_000, Abs(minutes) % 60, 0);
  }

  lemma ReadTwoNumbers(hours: nat, minutes: nat, iso: bool, rest: string)
    requires hours < 100 && minutes < 100
    ensures ReadHoursMinutes(Padded(hours, 2, '0') + ((if iso then ":" else "") + (Padded(minutes, 2, '0') + rest)))
         == ((hours * 3600 + minutes * 60) * 1000, rest)
  {
    var last := Padded(minutes, 2, '0') + rest;
    var rest1 := (if iso then ":" else "") + last;
    assert Pow10(2) == 100;
    ReadPadded(hours, 2, rest1, 100);
    ReadPadded(minutes, 2, rest, 100);
    FirstDigit(minutes, 2, rest);
    assert if iso then rest1[1..] == last else rest1 == last;
  }

  lemma ReadHoursMinutesBack(offset: int, iso: bool, rest: string)
    requires IsWholeOffset(offset)
    ensures ReadHoursMinutes(HoursMinutes(offset, iso) + rest) == (Abs(offset), rest)
  {
    var hours, minutes := Abs(offset) / 3_600_000, Abs(offset) % 3_600_000 / 60_000;
    WholeMinutes(offset);
    ReadTwoNumbers(hours, minutes, iso, rest);
    assert HoursMinutes(offset, iso) + rest
        == Padded(hours, 2, '0') + ((if iso then ":" else "") + (Padded(minutes, 2, '0') + rest));
  }

  lemma FirstDigit(n: nat, width: nat, rest: string)
    requires 0 < width && n < Pow10(width)
    ensures var s := Padded(n, width, '0') + rest; s != "" && IsDigit(s[0])
    decreases width
  {
    PaddedIsDigits(n, width);
    if width > 1 {
      PaddedIsDigits(n / 10, width - 1);
      FirstDigit(n / 10, width - 1, "");
      DigitReads(n % 10);
    } else {
      DigitReads(n % 10);
    }
  }

  lemma ReadSigned(sign: char, rest: string)
    requires sign == '+' || sign == '-'
    ensures ReadZone([sign] + rest)
         == var (ahead, rest') := ReadHoursMinutes(rest); ((if sign == '+' then 1 else -1) * ahead, rest')
  {
    assert Alphas([sign] + rest) == "";
    assert ([sign] + rest)[0..][1..] == rest;
  }

  lemma ReadSignedZone(offset: int, iso: bool, rest: string)
    requires IsWholeOffset(offset)
    ensures ReadZone(Zone(offset, iso) + rest) == (offset, rest)
  {
    var sign := if offset < 0 then '-' else '+';
    var hm := HoursMinutes(offset, iso);
    ZoneSpells(offset, iso, rest, sign, hm);
    ReadSigned(sign, hm + rest);
    ReadHoursMinutesBack(offset, iso, rest);
    SignedIs(offset, sign);
  }

  lemma ZoneSpells(offset: int, iso: bool, rest: string, sign: char, hm: string)
    requires offset != GMT && sign == (if offset < 0 then '-' else '+') && hm == HoursMinutes(offset, iso)
    ensures Zone(offset, iso) + rest == [sign] + (hm + rest)
  {
    assert Zone(offset, iso) == [sign] + hm;
  }

  lemma SignedIs(offset: int, sign: char)
    requires sign == (if offset < 0 then '-' else '+')
    ensures (if sign == '+' then 1 else -1) * Abs(offset) == offset
  {
  }

  // ----- directives read back -----

  predicate IsName(c: char) { c == 'w' || c == 'W' || c == 'b' || c == 'B' }

  predicate IsMonth(c: char) { c == 'b' || c == 'B' || c == 'm' || c == 'n' }

  predicate IsDay(c: char) { c == 'd' || c == 'e' || c == 'f' }

  predicate IsFraction(c: char) { c == 's' || c == 'i' || c == 'F' }

  predicate IsZone(c: char) { c == 'z' || c == 'Z' }

  predicate IsTwoDigits(c: char) { c == 'd' || c == 'm' || c == 'H' || c == 'M' || c == 'S' }

  // Those whose text more digits would carry on.
  predicate IsOpenEnded(c: char) { c == 'e' || c == 'f' || c == 'n' || c == 's' || c == 'F' }

  // Those whose text starts with no digit.
  predicate StartsPlainly(c: char) { IsName(c) || IsZone(c) }

  // What a date must be for all its fields to be read back.
  predicate IsPlain(d: Printed) {
    var f := d.fields;
    && d.Valid() && 0 <= f.year < 10000 && f.day < 32 && f.hour < 24 && f.minute < 60 && f.second < 60
    && f.millisecond < 1000 && IsTold(d.offset)
  }

  // The directives that read what they print, whole.
  predicate Reads(c: char) {
    IsName(c) || IsDay(c) || IsMonth(c) || IsFraction(c) || IsZone(c) || IsTwoDigits(c) || c == 'Y'
  }

  // What is read of a directive.
  function Take(c: char, d: Printed, r: Reading): Reading
    requires IsPlain(d)
  {
    var f := d.fields;
    if IsMonth(c) then r.(month := f.month)
    else if IsDay(c) then r.(day := f.day)
    else if c == 'Y' then r.(year := f.year)
    else if c == 'H' then r.(hour := f.hour)
    else if c == 'M' then r.(minute := f.minute)
    else if c == 'S' then r.(second := f.second)
    else if c == 's' then r.(second := f.second, millisecond := f.millisecond)
    else if (c == 'i' || c == 'F') then r.(millisecond := f.millisecond)
    else if IsZone(c) then r.(offset := d.offset)
    else r
  }

  // Numbers are added to what was read before: nothing may have been.
  predicate Unset(c: char, r: Reading) {
    && ((c == 'm' || c == 'n') ==> r.month == 0)
    && (IsDay(c) ==> r.day == 0)
    && (c == 'Y' ==> r.year == 0)
    && (c == 'H' ==> r.hour == 0)
    && (c == 'M' ==> r.minute == 0)
    && ((c == 'S' || c == 's') ==> r.second == 0)
    && (IsFraction(c) ==> r.millisecond == 0 && r.microsecond == 0)
  }

  predicate NoDigit(rest: string) {
    rest == "" || !IsDigit(rest[0])
  }

  // What follows must not look like more of it.
  predicate Ends(c: char, rest: string) {
    && (IsName(c) ==> NoAlpha(rest))
    && (IsOpenEnded(c) ==> NoDigit(rest))
    && (IsZone(c) ==> EndsZone(rest))
  }

  lemma ReadsName(c: char, d: Printed, rest: string, r: Reading)
    requires IsName(c) && IsPlain(d) && NoAlpha(rest)
    ensures var text := Show(c, d);
            text != "" && IsAlpha(text[0]) && Read(c, text + rest, r) == (Take(c, d, r), rest)
  {
    var i := d.fields.month - 1;
    if (c == 'w' || c == 'W') {
      WeekDaysAreNames(d.weekDay);
      AlphasOf(Show(c, d), rest);
    } else {
      MonthsAreNames(i);
      assert MONTH_NAMES[i][..|MONTH_NAMES[i]|] == MONTH_NAMES[i];
      ReadMonthName(i, if c == 'b' then 3 else |MONTH_NAMES[i]|, rest);
    }
  }

  lemma ReadsTwoDigits(c: char, d: Printed, rest: string, r: Reading)
    requires IsTwoDigits(c) && IsPlain(d) && Unset(c, r)
    ensures var text := Show(c, d);
            text != "" && Read(c, text + rest, r) == (Take(c, d, r), rest)
  {
    var f := d.fields;
    var n := if c == 'd' then f.day else if c == 'm' then f.month else if c == 'H' then f.hour
             else if c == 'M' then f.minute else f.second;
    assert Pow10(2) == 100;
    ReadPadded(n, 2, rest, 256);
    FirstDigit(n, 2, rest);
    FirstDigit(n, 2, "");
  }

  lemma ReadsYear(d: Printed, rest: string, r: Reading)
    requires IsPlain(d) && Unset('Y', r)
    ensures var text := Show('Y', d);
            text != "" && Read('Y', text + rest, r) == (Take('Y', d, r), rest)
  {
    assert Pow10(4) == 10000;
    ReadPadded(d.fields.year, 4, rest, 0x8000_0000);
    FirstDigit(d.fields.year, 4, "");
  }

  lemma DecimalStarts(n: nat)
    requires n < 100
    ensures |Decimal(n)| == (if n < 10 then 1 else 2) && IsDigit(Decimal(n)[0])
  {
    if n >= 10 {
      assert Decimal(n / 10) == [Digit(n / 10)];
    }
  }

  lemma ReadsShortNumber(c: char, d: Printed, rest: string, r: Reading)
    requires (c == 'e' || c == 'n') && IsPlain(d) && Unset(c, r) && NoDigit(rest)
    ensures var text := Show(c, d);
            text != "" && Read(c, text + rest, r) == (Take(c, d, r), rest)
  {
    var n := if c == 'n' then d.fields.month else d.fields.day;
    ReadDecimal(n, rest, 256);
    DecimalStarts(n);
  }

  lemma ReadsSpacedDay(d: Printed, rest: string, r: Reading)
    requires IsPlain(d) && Unset('f', r) && NoDigit(rest)
    ensures var text := Show('f', d);
            text != "" && Read('f', text + rest, r) == (Take('f', d, r), rest)
  {
    var n := d.fields.day;
    ReadDecimal(n, rest, 256);
    DecimalStarts(n);
    if n < 10 {
      assert Fill(' ', 1) == " ";
      assert (" " + Decimal(n) + rest)[1..] == Decimal(n) + rest;
    } else {
      assert Show('f', d) == Decimal(n);
    }
  }

  lemma ReadsMilliseconds(c: char, d: Printed, rest: string, r: Reading)
    requires (c == 'i' || c == 'F') && IsPlain(d) && Unset(c, r) && (c == 'F' ==> NoDigit(rest))
    ensures var text := Show(c, d);
            text != "" && Read(c, text + rest, r) == (Take(c, d, r), rest)
  {
    var ms := d.fields.millisecond;
    assert Pow10(3) == 1000;
    FirstDigit(ms, 3, "");
    if c == 'i' {
      ReadPadded(ms, 3, rest, 0x1_0000);
    } else {
      ReadMilliseconds(ms, rest, r);
    }
  }

  lemma ReadsSeconds(d: Printed, rest: string, r: Reading)
    requires IsPlain(d) && Unset('s', r) && NoDigit(rest)
    ensures var text := Show('s', d);
            text != "" && Read('s', text + rest, r) == (Take('s', d, r), rest)
  {
    var f := d.fields;
    var after := Padded(f.millisecond, 3, '0') + rest;
    assert Pow10(2) == 100;
    ReadPadded(f.second, 2, "." + after, 256);
    SecondsShown(d, rest);
    assert ("." + after)[1..] == after;
    ReadMilliseconds(f.millisecond, rest, r.(second := f.second));
  }

  lemma SecondsShown(d: Printed, rest: string)
    requires d.Valid()
    ensures Show('s', d) != ""
    ensures Show('s', d) + rest
         == Padded(d.fields.second, 2, '0') + ("." + (Padded(d.fields.millisecond, 3, '0') + rest))
  {
  }

  lemma ReadZoneBack(offset: int, iso: bool, rest: string)
    requires IsTold(offset) && EndsZone(rest)
    ensures var text := Zone(offset, iso);
            && text != "" && !IsDigit(text[0])
            && ReadZone(text + rest) == (offset, rest)
  {
    if offset == GMT {
      ReadGmt(if iso then "Z" else "GMT", rest);
    } else {
      ReadSignedZone(offset, iso, rest);
    }
  }

  lemma ReadsZone(c: char, d: Printed, rest: string, r: Reading)
    requires IsZone(c) && IsPlain(d) && EndsZone(rest)
    ensures var text := Show(c, d);
            text != "" && !IsDigit(text[0]) && Read(c, text + rest, r) == (Take(c, d, r), rest)
  {
    ReadZoneBack(d.offset, c == 'z', rest);
  }

  // Every such directive reads what it prints, and leaves what follows.
  lemma ReadsShown(c: char, d: Printed, rest: string, r: Reading)
    requires Reads(c) && IsPlain(d) && Unset(c, r) && Ends(c, rest)
    ensures var text := Show(c, d);
            && text != "" && Read(c, text + rest, r) == (Take(c, d, r), rest)
            && (StartsPlainly(c) ==> !IsDigit(text[0]))
  {
    if IsName(c) {
      ReadsName(c, d, rest, r);
    } else if IsTwoDigits(c) {
      ReadsTwoDigits(c, d, rest, r);
    } else if c == 'Y' {
      ReadsYear(d, rest, r);
    } else if (c == 'e' || c == 'n') {
      ReadsShortNumber(c, d, rest, r);
    } else if c == 'f' {
      ReadsSpacedDay(d, rest, r);
    } else if c == 's' {
      ReadsSeconds(d, rest, r);
    } else if (c == 'i' || c == 'F') {
      ReadsMilliseconds(c, d, rest, r);
    } else {
      ReadsZone(c, d, rest, r);
    }
  }

  // A month padded with a space is printed, but the space keeps it from being read again.
  lemma SpacedMonthReadsExactly(d: Printed, rest: string)
    requires IsPlain(d) && NoDigit(rest)
    ensures Read('o', Show('o', d) + rest, BLANK) == (BLANK.(month := d.fields.month), rest)
       <==> d.fields.month >= 10
  {
    var n := d.fields.month;
    DecimalStarts(n);
    ReadDecimal(n, rest, 256);
    if n < 10 {
      assert Fill(' ', 1) == " ";
    } else {
      assert Show('o', d) == Decimal(n);
    }
  }

  // ----- formats read back -----

  // The next item that prints anything.
  function NextItem(items: Items): Items {
    match items
    case More(Bracket(_), rest) => NextItem(rest)
    case _ => items
  }

  // What comes next cannot be taken for more of a directive's text.
  predicate Apart(c: char, items: Items) {
    match NextItem(items)
    case End => true
    case More(Field(x), _) => !StartsPlainly(c) && (IsOpenEnded(c) ==> StartsPlainly(x))
    case More(item, _) => item.Plain? ==> Ends(c, [item.c])
  }

  predicate Shares(a: char, b: char) {
    || (IsMonth(a) && IsMonth(b)) || (IsDay(a) && IsDay(b)) || (a == b && (a == 'Y' || a == 'H' || a == 'M'))
    || ((a == 'S' || a == 's') && (b == 'S' || b == 's')) || (IsFraction(a) && IsFraction(b))
  }

  predicate Alone(c: char, items: Items) {
    match items
    case End => true
    case More(item, rest) => (item.Field? ==> !Shares(c, item.c)) && Alone(c, rest)
  }

  /** A format whose text can be read again: each directive tells all of its field, once, and ends
      where the next item starts. */
  predicate ReadsBack(items: Items) {
    match items
    case End => true
    case More(Field(c), rest) => Reads(c) && Apart(c, rest) && Alone(c, rest) && ReadsBack(rest)
    case More(Bracket(_), rest) => ReadsBack(rest)
    case More(Plain(c), rest) => c != '%' && c != '[' && c != ']' && ReadsBack(rest)
  }

  predicate AllUnset(items: Items, r: Reading) {
    match items
    case End => true
    case More(item, rest) => (item.Field? ==> Unset(item.c, r)) && AllUnset(rest, r)
  }

  function TakeAll(items: Items, d: Printed, r: Reading): Reading
    requires IsPlain(d)
  {
    match items
    case End => r
    case More(Field(c), rest) => TakeAll(rest, d, Take(c, d, r))
    case More(_, rest) => TakeAll(rest, d, r)
  }

  lemma {:induction false} TakeLeaves(c: char, items: Items, d: Printed, r: Reading)
    requires IsPlain(d) && Alone(c, items) && AllUnset(items, r)
    ensures AllUnset(items, Take(c, d, r))
  {
    match items
    case End =>
    case More(item, rest) => TakeLeaves(c, rest, d, r);
  }

  lemma BlankIsUnset(items: Items)
    ensures AllUnset(items, BLANK)
  {
  }

  lemma StartsNoDigit(c: char, d: Printed)
    requires StartsPlainly(c) && IsPlain(d)
    ensures Show(c, d) != "" && !IsDigit(Show(c, d)[0])
  {
    ReadsShown(c, d, "", BLANK);
  }

  lemma {:induction false} ApartEnds(c: char, items: Items, d: Printed)
    requires IsPlain(d) && Apart(c, items)
    ensures Ends(c, Text(items, d))
  {
    match items
    case End =>
    case More(Bracket(_), rest) => ApartEnds(c, rest, d);
    case More(Plain(_), _) =>
    case More(Field(x), _) => if StartsPlainly(x) { StartsNoDigit(x, d); }
  }

  // Only brackets print nothing.
  lemma {:induction false} SilentTakesNothing(items: Items, d: Printed, r: Reading)
    requires IsPlain(d) && ReadsBack(items) && Text(items, d) == ""
    requires AllUnset(items, r)
    ensures TakeAll(items, d, r) == r
  {
    match items
    case End =>
    case More(Field(c), rest) =>
      ApartEnds(c, rest, d);
      ReadsShown(c, d, Text(rest, d), r);
      assert false;
    case More(Plain(_), _) =>
    case More(Bracket(_), rest) => SilentTakesNothing(rest, d, r);
  }

  /** Parsing with such a format inverts printing with it. */
  lemma {:induction false} ParseReadsText(items: Items, d: Printed, optional: nat, r: Reading)
    requires IsPlain(d) && ReadsBack(items) && AllUnset(items, r)
    ensures Parse(Spell(items), Text(items, d), optional, r) == Accepted(TakeAll(items, d, r))
  {
    var format, text := Spell(items), Text(items, d);
    if text == "" {
      SilentTakesNothing(items, d, r);
    } else {
      match items
      case More(Plain(c), rest) =>
        assert format[1..] == Spell(rest) && text[1..] == Text(rest, d);
        ParseReadsText(rest, d, optional, r);
      case More(Bracket(open), rest) =>
        assert format[1..] == Spell(rest);
        ParseReadsText(rest, d, if open then optional + 1 else if optional > 0 then optional - 1 else 1, r);
      case More(Field(c), rest) =>
        assert format[2..] == Spell(rest);
        ApartEnds(c, rest, d);
        ReadsShown(c, d, Text(rest, d), r);
        TakeLeaves(c, rest, d, r);
        ParseReadsText(rest, d, optional, Take(c, d, r));
    }
  }

  lemma ParseInvertsPrint(items: Items, d: Printed)
    requires IsPlain(d) && ReadsBack(items)
    ensures Parse(Spell(items), Print(Spell(items), d), 0, BLANK) == Accepted(TakeAll(items, d, BLANK))
  {
    ReadsBackIsSpelled(items);
    PrintIsText(items, d);
    BlankIsUnset(items);
    ParseReadsText(items, d, 0, BLANK);
  }

  lemma {:induction false} ReadsBackIsSpelled(items: Items)
    requires ReadsBack(items)
    ensures Spelled(items)
  {
    match items
    case End =>
    case More(_, rest) => ReadsBackIsSpelled(rest);
  }

  // ----- the formats of the program -----

  // The fields and the offset of a date, with other milliseconds.
  function AllOf(d: Printed, millisecond: nat): Reading
    requires IsPlain(d)
  {
    var f := d.fields;
    Reading(f.year, f.month, f.day, f.hour, f.minute, f.second, millisecond, 0, d.offset)
  }

  // What is read of a whole clock, and of a whole day.
  function WithClock(d: Printed, r: Reading, fraction: bool): Reading
    requires IsPlain(d)
  {
    var f := d.fields;
    r.(hour := f.hour, minute := f.minute, second := f.second,
       millisecond := if fraction then f.millisecond else r.millisecond)
  }

  function WithDay(d: Printed, r: Reading): Reading
    requires IsPlain(d)
  {
    r.(year := d.fields.year, month := d.fields.month, day := d.fields.day)
  }

  // "%H:%M:%S", or "%H:%M:%s" with milliseconds
  function Clock(seconds: char, after: Items): Items {
    More(Field('H'), More(Plain(':'), More(Field('M'), More(Plain(':'), More(Field(seconds), after)))))
  }

  lemma ClockSpells(seconds: char, after: Items)
    ensures Spell(Clock(seconds, after)) == "%H:%M:%" + [seconds] + Spell(after)
  {
    var i4 := More(Field(seconds), after);
    var i3 := More(Plain(':'), i4);
    var i2 := More(Field('M'), i3);
    var i1 := More(Plain(':'), i2);
    assert Spell(i4) == "%" + [seconds] + Spell(after);
    assert Spell(i3) == ":%" + [seconds] + Spell(after);
    assert Spell(i2) == "%M:%" + [seconds] + Spell(after);
    assert Spell(i1) == ":%M:%" + [seconds] + Spell(after);
  }

  lemma ClockReadsBack(seconds: char, after: Items)
    requires seconds == 'S' || seconds == 's'
    requires ReadsBack(after) && Apart(seconds, after)
    requires Alone('H', after) && Alone('M', after) && Alone(seconds, after)
    ensures ReadsBack(Clock(seconds, after))
  {
    var i4 := More(Field(seconds), after);
    assert Alone('H', i4) && Alone('M', i4) && ReadsBack(i4);
    var i3 := More(Plain(':'), i4);
    assert Alone('H', i3) && Alone('M', i3) && ReadsBack(i3);
    var i2 := More(Field('M'), i3);
    assert Alone('H', i2) && ReadsBack(i2);
    var i1 := More(Plain(':'), i2);
    assert Alone('H', i1) && ReadsBack(i1);
  }

  lemma ClockTakes(seconds: char, after: Items, d: Printed, r: Reading)
    requires IsPlain(d) && (seconds == 'S' || seconds == 's')
    ensures TakeAll(Clock(seconds, after), d, r) == TakeAll(after, d, WithClock(d, r, seconds == 's'))
  {
    var i4 := More(Field(seconds), after);
    var i3 := More(Plain(':'), i4);
    var i2 := More(Field('M'), i3);
    var i1 := More(Plain(':'), i2);
    var r1 := Take('H', d, r);
    assert TakeAll(Clock(seconds, after), d, r) == TakeAll(i1, d, r1);
    assert TakeAll(i1, d, r1) == TakeAll(i2, d, r1);
    var r2 := Take('M', d, r1);
    assert TakeAll(i2, d, r1) == TakeAll(i3, d, r2);
    assert TakeAll(i3, d, r2) == TakeAll(i4, d, r2);
    var r3 := Take(seconds, d, r2);
    assert TakeAll(i4, d, r2) == TakeAll(after, d, r3);
  }

  // "%Y[-%m-%dT"
  function IsoDate(after: Items): Items {
    More(Field('Y'), More(Bracket(true), More(Plain('-'), More(Field('m'), More(Plain('-'),
      More(Field('d'), More(Plain('T'), after)))))))
  }

  lemma IsoDaySpells(after: Items)
    ensures Spell(More(Field('m'), More(Plain('-'), More(Field('d'), More(Plain('T'), after)))))
         == "%m-%dT" + Spell(after)
  {
    var i3 := More(Plain('T'), after);
    var i2 := More(Field('d'), i3);
    var i1 := More(Plain('-'), i2);
    assert Spell(i3) == "T" + Spell(after);
    assert Spell(i2) == "%dT" + Spell(after);
    assert Spell(i1) == "-%dT" + Spell(after);
  }

  lemma IsoDateSpells(after: Items)
    ensures Spell(IsoDate(after)) == "%Y[-%m-%dT" + Spell(after)
  {
    IsoDaySpells(after);
    var i3 := More(Field('m'), More(Plain('-'), More(Field('d'), More(Plain('T'), after))));
    var i2 := More(Plain('-'), i3);
    var i1 := More(Bracket(true), i2);
    assert Spell(i2) == "-%m-%dT" + Spell(after);
    assert Spell(i1) == "[-%m-%dT" + Spell(after);
  }

  lemma IsoDateReadsBack(after: Items)
    requires ReadsBack(after) && Alone('Y', after) && Alone('m', after) && Alone('d', after)
    ensures ReadsBack(IsoDate(after))
  {
    var i6 := More(Plain('T'), after);
    assert Alone('Y', i6) && Alone('m', i6) && Alone('d', i6) && ReadsBack(i6);
    var i5 := More(Field('d'), i6);
    assert Alone('Y', i5) && Alone('m', i5) && ReadsBack(i5);
    var i4 := More(Plain('-'), i5);
    assert Alone('Y', i4) && Alone('m', i4) && ReadsBack(i4);
    var i3 := More(Field('m'), i4);
    assert Alone('Y', i3) && ReadsBack(i3);
    var i2 := More(Plain('-'), i3);
    assert Alone('Y', i2) && ReadsBack(i2);
    var i1 := More(Bracket(true), i2);
    assert Alone('Y', i1) && ReadsBack(i1);
  }

  lemma IsoDateTakes(after: Items, d: Printed, r: Reading)
    requires IsPlain(d)
    ensures TakeAll(IsoDate(after), d, r) == TakeAll(after, d, WithDay(d, r))
  {
    var i6 := More(Plain('T'), after);
    var i5 := More(Field('d'), i6);
    var i4 := More(Plain('-'), i5);
    var i3 := More(Field('m'), i4);
    var i2 := More(Plain('-'), i3);
    var i1 := More(Bracket(true), i2);
    var r1 := Take('Y', d, r);
    assert TakeAll(IsoDate(after), d, r) == TakeAll(i1, d, r1);
    assert TakeAll(i1, d, r1) == TakeAll(i2, d, r1);
    assert TakeAll(i2, d, r1) == TakeAll(i3, d, r1);
    var r2 := Take('m', d, r1);
    assert TakeAll(i3, d, r1) == TakeAll(i4, d, r2);
    assert TakeAll(i4, d, r2) == TakeAll(i5, d, r2);
    var r3 := Take('d', d, r2);
    assert TakeAll(i5, d, r2) == TakeAll(i6, d, r3);
    assert TakeAll(i6, d, r3) == TakeAll(after, d, r3);
  }

  // "%w, %d "
  function HttpDay(after: Items): Items {
    More(Field('w'), More(Plain(','), More(Plain(' '), More(Field('d'), More(Plain(' '), after)))))
  }

  lemma HttpDaySpells(after: Items)
    ensures Spell(HttpDay(after)) == "%w, %d " + Spell(after)
  {
    var i4 := More(Plain(' '), after);
    var i3 := More(Field('d'), i4);
    var i2 := More(Plain(' '), i3);
    var i1 := More(Plain(','), i2);
    assert Spell(i4) == " " + Spell(after);
    assert Spell(i3) == "%d " + Spell(after);
    assert Spell(i2) == " %d " + Spell(after);
    assert Spell(i1) == ", %d " + Spell(after);
  }

  lemma HttpDayReadsBack(after: Items)
    requires ReadsBack(after) && Alone('w', after) && Alone('d', after)
    ensures ReadsBack(HttpDay(after))
  {
    var i4 := More(Plain(' '), after);
    assert Alone('d', i4) && Alone('w', i4) && ReadsBack(i4);
    var i3 := More(Field('d'), i4);
    assert Alone('w', i3) && ReadsBack(i3);
    var i2 := More(Plain(' '), i3);
    assert Alone('w', i2) && ReadsBack(i2);
    var i1 := More(Plain(','), i2);
    assert Alone('w', i1) && ReadsBack(i1);
  }

  lemma HttpDayTakes(after: Items, d: Printed, r: Reading)
    requires IsPlain(d)
    ensures TakeAll(HttpDay(after), d, r) == TakeAll(after, d, r.(day := d.fields.day))
  {
    var i4 := More(Plain(' '), after);
    var i3 := More(Field('d'), i4);
    var i2 := More(Plain(' '), i3);
    var i1 := More(Plain(','), i2);
    var r1 := Take('w', d, r);
    assert TakeAll(HttpDay(after), d, r) == TakeAll(i1, d, r1);
    assert TakeAll(i1, d, r1) == TakeAll(i2, d, r1);
    assert TakeAll(i2, d, r1) == TakeAll(i3, d, r1);
    var r2 := Take('d', d, r1);
    assert TakeAll(i3, d, r1) == TakeAll(i4, d, r2);
    assert TakeAll(i4, d, r2) == TakeAll(after, d, r2);
  }

  // "%b %Y "
  function HttpMonth(after: Items): Items {
    More(Field('b'), More(Plain(' '), More(Field('Y'), More(Plain(' '), after))))
  }

  lemma HttpMonthSpells(after: Items)
    ensures Spell(HttpMonth(after)) == "%b %Y " + Spell(after)
  {
    var i3 := More(Plain(' '), after);
    var i2 := More(Field('Y'), i3);
    var i1 := More(Plain(' '), i2);
    assert Spell(i3) == " " + Spell(after);
    assert Spell(i2) == "%Y " + Spell(after);
    assert Spell(i1) == " %Y " + Spell(after);
  }

  lemma HttpMonthReadsBack(after: Items)
    requires ReadsBack(after) && Alone('Y', after) && Alone('b', after)
    ensures ReadsBack(HttpMonth(after))
  {
    var i3 := More(Plain(' '), after);
    assert Alone('b', i3) && Alone('Y', i3) && ReadsBack(i3);
    var i2 := More(Field('Y'), i3);
    assert Alone('b', i2) && ReadsBack(i2);
    var i1 := More(Plain(' '), i2);
    assert Alone('b', i1) && ReadsBack(i1);
  }

  lemma HttpMonthTakes(after: Items, d: Printed, r: Reading)
    requires IsPlain(d)
    ensures TakeAll(HttpMonth(after), d, r) == TakeAll(after, d, r.(year := d.fields.year, month := d.fields.month))
  {
    var i3 := More(Plain(' '), after);
    var i2 := More(Field('Y'), i3);
    var i1 := More(Plain(' '), i2);
    var r1 := Take('b', d, r);
    assert TakeAll(HttpMonth(after), d, r) == TakeAll(i1, d, r1);
    assert TakeAll(i1, d, r1) == TakeAll(i2, d, r1);
    var r2 := Take('Y', d, r1);
    assert TakeAll(i2, d, r1) == TakeAll(i3, d, r2);
    assert TakeAll(i3, d, r2) == TakeAll(after, d, r2);
  }

  lemma ClockAlone(c: char, seconds: char, after: Items)
    requires !Shares(c, 'H') && !Shares(c, 'M') && !Shares(c, seconds) && Alone(c, after)
    ensures Alone(c, Clock(seconds, after))
  {
    assert Alone(c, More(Field('M'), More(Plain(':'), More(Field(seconds), after))));
  }

  // "%z]"
  const ISO_END := More(Field('z'), More(Bracket(false), End))

  lemma IsoSpells()
    ensures Spell(IsoDate(Clock('S', ISO_END))) == ISO8601_FORMAT
    ensures Spell(IsoDate(Clock('s', ISO_END))) == ISO8601_FRAC_FORMAT
  {
    IsoDateSpells(Clock('S', ISO_END));
    ClockSpells('S', ISO_END);
    IsoDateSpells(Clock('s', ISO_END));
    ClockSpells('s', ISO_END);
  }

  lemma IsoReadsBack(seconds: char)
    requires seconds == 'S' || seconds == 's'
    ensures ReadsBack(IsoDate(Clock(seconds, ISO_END)))
  {
    ClockReadsBack(seconds, ISO_END);
    ClockAlone('Y', seconds, ISO_END);
    ClockAlone('m', seconds, ISO_END);
    ClockAlone('d', seconds, ISO_END);
    IsoDateReadsBack(Clock(seconds, ISO_END));
  }

  lemma IsoTakes(seconds: char, d: Printed)
    requires IsPlain(d) && (seconds == 'S' || seconds == 's')
    ensures TakeAll(IsoDate(Clock(seconds, ISO_END)), d, BLANK)
         == AllOf(d, if seconds == 's' then d.fields.millisecond else 0)
  {
    var read := WithClock(d, WithDay(d, BLANK), seconds == 's');
    IsoDateTakes(Clock(seconds, ISO_END), d, BLANK);
    ClockTakes(seconds, ISO_END, d, WithDay(d, BLANK));
    var whole := Take('z', d, read);
    assert TakeAll(ISO_END, d, read) == TakeAll(More(Bracket(false), End), d, whole);
    assert TakeAll(More(Bracket(false), End), d, whole) == whole;
    assert whole == AllOf(d, if seconds == 's' then d.fields.millisecond else 0);
  }

  /** A date with a year of four digits and a whole number of minutes for offset comes back from its
      ISO 8601 text with fractions; without them, all but the milliseconds do. */
  lemma IsoRoundTrip(d: Printed)
    requires IsPlain(d)
    ensures Parse(ISO8601_FRAC_FORMAT, Print(ISO8601_FRAC_FORMAT, d), 0, BLANK)
         == Accepted(AllOf(d, d.fields.millisecond))
    ensures Parse(ISO8601_FORMAT, Print(ISO8601_FORMAT, d), 0, BLANK) == Accepted(AllOf(d, 0))
  {
    IsoSpells();
    IsoReadsBack('S');
    IsoReadsBack('s');
    IsoTakes('S', d);
    IsoTakes('s', d);
    ParseInvertsPrint(IsoDate(Clock('S', ISO_END)), d);
    ParseInvertsPrint(IsoDate(Clock('s', ISO_END)), d);
  }

  // " %Z"
  const HTTP_END := More(Plain(' '), More(Field('Z'), End))

  lemma HttpSpells()
    ensures Spell(HttpDay(HttpMonth(Clock('S', HTTP_END)))) == HTTP_FORMAT
  {
    HttpDaySpells(HttpMonth(Clock('S', HTTP_END)));
    HttpMonthSpells(Clock('S', HTTP_END));
    ClockSpells('S', HTTP_END);
  }

  lemma HttpClockReadsBack(clock: Items)
    requires clock == Clock('S', HTTP_END)
    ensures ReadsBack(clock) && Alone('Y', clock) && Alone('b', clock) && Alone('w', clock) && Alone('d', clock)
  {
    ClockReadsBack('S', HTTP_END);
    ClockAlone('Y', 'S', HTTP_END);
    ClockAlone('b', 'S', HTTP_END);
    ClockAlone('w', 'S', HTTP_END);
    ClockAlone('d', 'S', HTTP_END);
  }

  lemma HttpReadsBack()
    ensures ReadsBack(HttpDay(HttpMonth(Clock('S', HTTP_END))))
  {
    var clock := Clock('S', HTTP_END);
    HttpClockReadsBack(clock);
    HttpMonthReadsBack(clock);
    HttpDayReadsBack(HttpMonth(clock));
  }

  lemma HttpTakes(d: Printed)
    requires IsPlain(d)
    ensures TakeAll(HttpDay(HttpMonth(Clock('S', HTTP_END))), d, BLANK) == AllOf(d, 0)
  {
    var read := WithClock(d, WithDay(d, BLANK), false);
    HttpDayTakes(HttpMonth(Clock('S', HTTP_END)), d, BLANK);
    HttpMonthTakes(Clock('S', HTTP_END), d, BLANK.(day := d.fields.day));
    ClockTakes('S', HTTP_END, d, WithDay(d, BLANK));
    assert TakeAll(HTTP_END, d, read) == TakeAll(More(Field('Z'), End), d, read);
    assert TakeAll(More(Field('Z'), End), d, read) == Take('Z', d, read);
  }

  /** So do they from the text HTTP asks for. */
  lemma HttpRoundTrip(d: Printed)
    requires IsPlain(d)
    ensures Parse(HTTP_FORMAT, Print(HTTP_FORMAT, d), 0, BLANK) == Accepted(AllOf(d, 0))
  {
    var items := HttpDay(HttpMonth(Clock('S', HTTP_END)));
    HttpSpells();
    HttpReadsBack();
    HttpTakes(d);
    ParseInvertsPrint(items, d);
  }

  // What the program prints for HTTP, taken from its end.
  function HttpClock(d: Printed): string
    requires d.Valid()
  {
    Show('H', d) + (":" + (Show('M', d) + (":" + (Show('S', d) + (" " + Show('Z', d))))))
  }

  function HttpText(d: Printed): string
    requires d.Valid()
  {
    Show('w', d) + (", " + (Show('d', d) + (" " + (Show('b', d) + (" " + (Show('Y', d) + (" " + HttpClock(d))))))))
  }

  lemma HttpClockPrints(d: Printed)
    requires d.Valid()
    ensures Text(Clock('S', HTTP_END), d) == HttpClock(d)
  {
    var i4 := More(Field('S'), HTTP_END);
    var i2 := More(Field('M'), More(Plain(':'), i4));
    assert Text(More(Field('Z'), End), d) == Show('Z', d);
    assert Text(HTTP_END, d) == " " + Show('Z', d);
    assert Text(i4, d) == Show('S', d) + (" " + Show('Z', d));
    assert Text(i2, d) == Show('M', d) + (":" + Text(i4, d));
  }

  lemma HttpPrints(d: Printed)
    requires d.Valid()
    ensures Print(HTTP_FORMAT, d) == HttpText(d)
  {
    HttpSpells();
    HttpReadsBack();
    var clock := Clock('S', HTTP_END);
    var items := HttpDay(HttpMonth(clock));
    ReadsBackIsSpelled(items);
    PrintIsText(items, d);
    HttpClockPrints(d);
    var i1 := More(Field('Y'), More(Plain(' '), clock));
    var i2 := More(Field('d'), More(Plain(' '), HttpMonth(clock)));
    assert Text(i1, d) == Show('Y', d) + (" " + HttpClock(d));
    assert Text(HttpMonth(clock), d) == Show('b', d) + (" " + Text(i1, d));
    assert Text(i2, d) == Show('d', d) + (" " + Text(HttpMonth(clock), d));
    assert Text(More(Plain(','), More(Plain(' '), i2)), d) == ", " + Text(i2, d);
  }

  lemma TwoDigitsShown(d: Printed)
    requires IsPlain(d)
    ensures var f := d.fields;
            && Show('d', d) == Digits(f.day, 2) && Show('H', d) == Digits(f.hour, 2)
            && Show('M', d) == Digits(f.minute, 2) && Show('S', d) == Digits(f.second, 2)
            && Show('Y', d) == Digits(f.year, 4)
  {
    var f := d.fields;
    assert Pow10(2) == 100 && Pow10(4) == 10000;
    PaddedIsDigits(f.day, 2);
    PaddedIsDigits(f.hour, 2);
    PaddedIsDigits(f.minute, 2);
    PaddedIsDigits(f.second, 2);
    PaddedIsDigits(f.year, 4);
  }

  // The three letters of section 7.1.1.1 of RFC 7231.
  const DAY_LETTERS: seq<string> := ["Sun", "Mon", "Tue", "Wed", "Thu", "Fri", "Sat"]

  const MONTH_LETTERS: seq<string> :=
    ["Jan", "Feb", "Mar", "Apr", "May", "Jun", "Jul", "Aug", "Sep", "Oct", "Nov", "Dec"]

  lemma DayLetters(i: nat)
    requires i < 7
    ensures WEEKDAY_NAMES[i][..3] == DAY_LETTERS[i]
  {
    assert "Sunday"[..3] == "Sun";
    assert "Monday"[..3] == "Mon";
    assert "Tuesday"[..3] == "Tue";
    assert "Wednesday"[..3] == "Wed";
    assert "Thursday"[..3] == "Thu";
    assert "Friday"[..3] == "Fri";
    assert "Saturday"[..3] == "Sat";
  }

  lemma MonthLetters(i: nat)
    requires i < 12
    ensures |MONTH_NAMES[i]| >= 3 && MONTH_NAMES[i][..3] == MONTH_LETTERS[i]
  {
    if i < 6 {
      assert "January"[..3] == "Jan";
      assert "February"[..3] == "Feb";
      assert "March"[..3] == "Mar";
      assert "April"[..3] == "Apr";
      assert "May"[..3] == "May";
      assert "June"[..3] == "Jun";
    } else {
      assert "July"[..3] == "Jul";
      assert "August"[..3] == "Aug";
      assert "September"[..3] == "Sep";
      assert "October"[..3] == "Oct";
      assert "November"[..3] == "Nov";
      assert "December"[..3] == "Dec";
    }
  }

  // Sunday is day 0, January month 1.
  lemma NamesShown(d: Printed)
    requires d.Valid()
    ensures Show('w', d) == DAY_LETTERS[d.weekDay] && Show('b', d) == MONTH_LETTERS[d.fields.month - 1]
    ensures |DAY_LETTERS[d.weekDay]| == 3 && |MONTH_LETTERS[d.fields.month - 1]| == 3
  {
    DayLetters(d.weekDay);
    MonthLetters(d.fields.month - 1);
  }

  function ImfClock(f: Fields): string
    requires 0 <= f.hour && 0 <= f.minute && 0 <= f.second
  {
    Digits(f.hour, 2) + (":" + (Digits(f.minute, 2) + (":" + (Digits(f.second, 2) + (" " + "GMT")))))
  }

  lemma ImfClockShown(d: Printed)
    requires IsPlain(d) && d.offset == GMT
    ensures HttpClock(d) == ImfClock(d.fields) && |HttpClock(d)| == 12
  {
    TwoDigitsShown(d);
  }

  /** For GMT, the 29 characters of an IMF-fixdate, section 7.1.1.1 of RFC 7231. */
  lemma HttpDateIsFixed(d: Printed)
    requires IsPlain(d) && d.offset == GMT
    ensures var f, text := d.fields, Print(HTTP_FORMAT, d);
            && text == DAY_LETTERS[d.weekDay] + (", " + (Digits(f.day, 2) + (" " + (MONTH_LETTERS[f.month - 1] + (" "
                       + (Digits(f.year, 4) + (" " + ImfClock(f))))))))
            && |text| == 29
  {
    HttpPrints(d);
    TwoDigitsShown(d);
    NamesShown(d);
    ImfClockShown(d);
  }

  // ----- the directives that tell a part of a field -----

  // Twelve hours and a mark tell the hour.
  lemma TwelveHoursReadBack(d: Printed, mark: char, r: Reading)
    requires d.Valid() && d.fields.hour < 24 && (mark == 'a' || mark == 'A') && r.hour == 0
    ensures var (r1, rest) := Read('h', Show('h', d) + Show(mark, d), r);
            && rest == Show(mark, d)
            && Read(mark, rest, r1).0 == r.(hour := d.fields.hour)
  {
    var hour := d.fields.hour;
    var shown := if hour < 1 then 12 else if hour > 12 then hour - 12 else hour;
    assert Pow10(2) == 100;
    ReadPadded(shown, 2, Show(mark, d), 256);
    var text := Show(mark, d);
    assert Padded(shown, 2, '0') + text != "";
    assert text[1..][1..] == "";
    assert Alphas(text[1..]) == text[1..];
    assert Alphas(text) == [text[0]] + text[1..] == text;
  }

  // Two digits tell a year from 1970 to 2069, and no other.
  lemma CenturyReadsBackExactly(d: Printed, rest: string, r: Reading)
    requires d.Valid() && 0 <= d.fields.year && r.year == 0
    ensures var (r', left) := Read('y', Show('y', d) + rest, r);
            left == rest && (r'.year == d.fields.year <==> 1970 <= d.fields.year <= 2069)
  {
    var year := d.fields.year % 100;
    assert Pow10(2) == 100;
    assert Signed(TruncMod(d.fields.year, 100), 2) == Padded(year, 2, '0');
    ReadPadded(year, 2, rest, 0x8000_0000);
    assert Padded(year, 2, '0') + rest != "" by { FirstDigit(year, 2, rest); }
  }

  // Tenths of a second tell the milliseconds if these are hundreds.
  lemma TenthsReadBackExactly(d: Printed, rest: string, r: Reading)
    requires d.Valid() && d.fields.millisecond < 1000 && r.millisecond == 0
    ensures var (r', left) := Read('c', Show('c', d) + rest, r);
            left == rest && (r'.millisecond == d.fields.millisecond <==> d.fields.millisecond % 100 == 0)
  {
    ReadOneDigit(d.fields.millisecond / 100, rest, 0, 1, 0x1_0000);
    assert Decimal(d.fields.millisecond / 100) == [Digit(d.fields.millisecond / 100)];
  }

  // ----- the program -----

  // Date::toString
  method ToString(format: string, d: Printed) returns (value: string)
    requires d.Valid()
    ensures value == Print(format, d)
  {
    value := "";
    var rest := format;
    while rest != ""
      invariant Print(format, d) == value + Print(rest, d)
      decreases |rest|
    {
      var c := rest[0];
      var shown := "";
      if c != '%' {
        if c != '[' && c != ']' {
          shown := [c];
        }
        Associates(value, shown, Print(rest[1..], d));
        rest := rest[1..];
      } else if |rest| == 1 {
        break;
      } else {
        shown := Show(rest[1], d);
        Associates(value, shown, Print(rest[2..], d));
        rest := rest[2..];
      }
      value := value + shown;
    }
  }

  // The digits of a number, n at most, from a position on.
  method ParseNumber(value: string, start: nat, initial: nat, n: nat, width: nat) returns (number: nat, it: nat)
    requires start <= |value| && width > 0
    ensures it <= |value| && (number, value[it..]) == ReadNumber(value[start..], initial, n, width)
  {
    number, it := initial, start;
    var i := 0;
    while i < n && it < |value| && IsDigit(value[it])
      invariant i <= n && it <= |value|
      invariant ReadNumber(value[it..], number, n - i, width) == ReadNumber(value[start..], initial, n, width)
    {
      assert value[it..][1..] == value[it + 1..];
      number := (number * 10 + ValueOf(value[it])) % width;
      it := it + 1;
      i := i + 1;
    }
  }

  // Date::update(ex, value, format), up to the fields it then sets.
  method ParseText(value: string, format: string) returns (result: Result)
    ensures result == Parse(format, value, 0, BLANK)
  {
    var r, rest, i, optional := BLANK, value, 0, 0;
    while i < |format| && rest != ""
      invariant i <= |format| && Parse(format[i..], rest, optional, r) == Parse(format, value, 0, BLANK)
      decreases |format| - i
    {
      var c := format[i];
      i := i + 1;
      assert format[i - 1..][1..] == format[i..];
      if c == '[' {
        optional := if optional >= 0 then optional + 1 else optional - 1;
      } else if c == ']' {
        optional := if optional > 0 then optional - 1 else optional + 1;
      } else if c != '%' {
        if c == '?' || (optional >= 0 && c == rest[0]) {
          rest := rest[1..];
        } else if optional > 0 {
          optional := -optional;
        } else if optional == 0 {
          return Refused;
        }
      } else if i == |format| {
        return Accepted(r);
      } else {
        assert format[i - 1..][2..] == format[i + 1..];
        var (r', rest') := Read(format[i], rest, r);
        r, rest := r', rest';
        i := i + 1;
      }
    }
    result := Accepted(r);
  }
}
