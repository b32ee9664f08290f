/** Parsing a date where a part of the format in brackets is missing from the text. */
module DateSkips {
  import opened DateFormat

  // ----- formats that begin with given items -----

  /** What the first items of a format come to: the end of the parsing, or a place in the text with
      brackets open, or being skipped. */
  datatype Reached = Done(result: Result) | At(optional: int, reading: Reading, rest: string)

  function Opened(optional: int): int {
    if optional >= 0 then optional + 1 else optional - 1
  }

  function Closed(optional: int): int {
    if optional > 0 then optional - 1 else optional + 1
  }

  function Reach(items: Items, value: string, optional: int, r: Reading): Reached {
    if items == End then At(optional, r, value)
    else if value == "" then Done(Accepted(r))
    else if items.item.Bracket? then
      Reach(items.rest, value, if items.item.open then Opened(optional) else Closed(optional), r)
    else if items.item.Field? then
      Reach(items.rest, Read(items.item.c, value, r).1, optional, Read(items.item.c, value, r).0)
    else if items.item.c == '?' || (optional >= 0 && items.item.c == value[0]) then
      Reach(items.rest, value[1..], optional, r)
    else if optional < 0 then Reach(items.rest, value, optional, r)
    else if optional > 0 then Reach(items.rest, value, -optional, r)
    else Done(Refused)
  }

  // The parsing goes on with the rest of a format.
  function Onward(reached: Reached, tail: string): Result {
    match reached
    case Done(result) => result
    case At(optional, r, rest) => Parse(tail, rest, optional, r)
  }

  lemma {:induction false} ParseReaches(items: Items, tail: string, value: string, optional: int, r: Reading)
    requires Spelled(items)
    ensures Parse(Spell(items) + tail, value, optional, r) == Onward(Reach(items, value, optional, r), tail)
    decreases items
  {
    var format := Spell(items) + tail;
    if items == End {
      assert format == tail;
    } else if value != "" {
      assert format[if items.item.Field? then 2 else 1..] == Spell(items.rest) + tail;
      if items.item.Bracket? {
        ParseReaches(items.rest, tail, value, if items.item.open then Opened(optional) else Closed(optional), r);
      } else if items.item.Field? {
        var read := Read(items.item.c, value, r);
        ParseReaches(items.rest, tail, read.1, optional, read.0);
      } else {
        ParseReaches(items.rest, tail, value[1..], optional, r);
        ParseReaches(items.rest, tail, value, optional, r);
        ParseReaches(items.rest, tail, value, -optional, r);
      }
    }
  }

  lemma {:induction false} SpellJoins(a: Items, b: Items)
    ensures Spell(Then(a, b)) == Spell(a) + Spell(b)
  {
    match a
    case End =>
    case More(item, rest) =>
      SpellJoins(rest, b);
      SpellFirst(a, Spell(b));
      SpellFirst(Then(a, b), "");
      SpellItem(item, Spell(rest), Spell(b));
  }

  lemma SpellItem(item: Item, rest: string, tail: string)
    ensures var first := if item.Field? then ['%', item.c] else if item.Plain? then [item.c]
                         else if item.open then "[" else "]";
            first + (rest + tail) == (first + rest) + tail
  {
  }

  function Then(a: Items, b: Items): Items {
    match a
    case End => b
    case More(item, rest) => More(item, Then(rest, b))
  }

  // ----- a part that is skipped -----

  // The brackets inside a part match, and no question mark takes a character of the text.
  predicate Balanced(items: Items, depth: nat) {
    match items
    case End => depth == 0
    case More(Bracket(open), rest) => if open then Balanced(rest, depth + 1) else depth > 0 && Balanced(rest, depth - 1)
    case More(Plain(c), rest) => c != '?' && Balanced(rest, depth)
    case More(Field(_), rest) => Balanced(rest, depth)
  }

  // The directives of a part that is skipped are read all the same, as far as there is text.
  function ReadFields(items: Items, value: string, r: Reading): (Reading, string) {
    if items == End || value == "" then (r, value)
    else if items.item.Field? then
      ReadFields(items.rest, Read(items.item.c, value, r).1, Read(items.item.c, value, r).0)
    else ReadFields(items.rest, value, r)
  }

  lemma SkipsPlain(format: string, value: string, k: int, r: Reading)
    requires format != "" && value != "" && k < 0
    requires format[0] != '%' && format[0] != '[' && format[0] != ']' && format[0] != '?'
    ensures Parse(format, value, k, r) == Parse(format[1..], value, k, r)
  {
  }

  lemma CountsBracket(format: string, value: string, k: int, r: Reading)
    requires format != "" && value != "" && (format[0] == '[' || format[0] == ']')
    ensures Parse(format, value, k, r)
         == Parse(format[1..], value, if format[0] == '[' then Opened(k) else Closed(k), r)
  {
  }

  lemma ReadsField(format: string, value: string, k: int, r: Reading)
    requires |format| >= 2 && value != "" && format[0] == '%'
    ensures Parse(format, value, k, r)
         == Parse(format[2..], Read(format[1], value, r).1, k, Read(format[1], value, r).0)
  {
  }

  lemma {:induction false} SkippedReads(items: Items, tail: string, value: string, depth: nat, r: Reading)
    requires Spelled(items) && Balanced(items, depth)
    ensures Parse(Spell(items) + "]" + tail, value, -1 - depth, r)
         == Parse(tail, ReadFields(items, value, r).1, 0, ReadFields(items, value, r).0)
    decreases items
  {
    var format := Spell(items) + "]" + tail;
    if value == "" {
    } else if items == End {
      assert format == "]" + tail && format[1..] == tail;
      CountsBracket(format, value, -1, r);
    } else {
      SpellFirst(items, "]" + tail);
      assert format == Spell(items) + ("]" + tail);
      assert Spell(items.rest) + "]" + tail == Spell(items.rest) + ("]" + tail);
      if items.item.Bracket? {
        CountsBracket(format, value, -1 - depth, r);
        SkippedReads(items.rest, tail, value, if items.item.open then depth + 1 else depth - 1, r);
      } else if items.item.Field? {
        ReadsField(format, value, -1 - depth, r);
        SkippedReads(items.rest, tail, Read(items.item.c, value, r).1, depth, Read(items.item.c, value, r).0);
      } else {
        SkipsPlain(format, value, -1 - depth, r);
        SkippedReads(items.rest, tail, value, depth, r);
      }
    }
  }

  lemma SpellFirst(items: Items, tail: string)
    requires items != End
    ensures var format, item := Spell(items) + tail, items.item;
            && format[if item.Field? then 2 else 1..] == Spell(items.rest) + tail
            && (item.Field? ==> format[0] == '%' && format[1] == item.c)
            && (item.Bracket? ==> format[0] == if item.open then '[' else ']')
            && (item.Plain? ==> format[0] == item.c)
  {
  }

  // Nothing of the text could be the directives': they read nothing from it.
  predicate Idle(items: Items, value: string, r: Reading)
    requires value != ""
  {
    match items
    case End => true
    case More(Field(c), rest) => Read(c, value, r) == (r, value) && Idle(rest, value, r)
    case More(_, rest) => Idle(rest, value, r)
  }

  lemma {:induction false} IdleReadsNothing(items: Items, value: string, r: Reading)
    requires value != "" && Idle(items, value, r)
    ensures ReadFields(items, value, r) == (r, value)
  {
    match items
    case End =>
    case More(_, rest) => IdleReadsNothing(rest, value, r);
  }

  lemma {:induction false} NumbersShorten(value: string, number: nat, n: nat, width: nat)
    requires width > 0
    ensures var rest := ReadNumber(value, number, n, width).1;
            |rest| <= |value| && (n > 0 && value != "" && IsDigit(value[0]) ==> |rest| < |value|)
    decreases |value|
  {
    if n > 0 && value != "" && IsDigit(value[0]) {
      NumbersShorten(value[1..], (number * 10 + ValueOf(value[0])) % width, n - 1, width);
    }
  }

  lemma {:induction false} NamesShorten(value: string)
    ensures |SkipAlphas(value)| <= |value|
  {
    if value != "" {
      NamesShorten(value[1..]);
    }
  }

  predicate IsNumber(c: char) {
    c == 'm' || c == 'n' || c == 'o' || c == 'Y' || c == 'H' || c == 'h' || c == 'M' || c == 'S' || c == 'i'
  }

  // The first character decides it for the directives of numbers and of names of days.
  lemma IdleExactly(c: char, value: string, r: Reading)
    requires value != "" && (IsNumber(c) || IsDay(c) || c == 'w' || c == 'W')
    ensures Read(c, value, r) == (r, value)
       <==> if IsNumber(c) then !IsDigit(value[0])
            else if IsDay(c) then !IsDigit(value[0]) && !IsSpace(value[0])
            else !IsAlpha(value[0])
  {
    if IsNumber(c) {
      NumberIdles(c, value, r);
    } else if IsDay(c) {
      NumbersShorten(value, r.day, 2, 256);
      NumbersShorten(value[1..], r.day, 2, 256);
    } else {
      NamesShorten(value[1..]);
    }
  }

  lemma NumberIdles(c: char, value: string, r: Reading)
    requires value != "" && IsNumber(c)
    ensures Read(c, value, r) == (r, value) <==> !IsDigit(value[0])
  {
    NumbersShorten(value, r.month, 2, 256);
    NumbersShorten(value, r.year, 4, 0x8000_0000);
    NumbersShorten(value, r.hour, 2, 256);
    NumbersShorten(value, r.minute, 2, 256);
    NumbersShorten(value, r.second, 2, 256);
    NumbersShorten(value, r.millisecond, 3, 0x1_0000);
  }

  // ----- a part that is missing from the text -----

  // A format with one part in brackets.
  function WithPart(before: Items, part: Items, after: string): string {
    Spell(before) + ("[" + (Spell(part) + "]" + after))
  }

  /** A part in brackets is missing: after `before`, and what of the part is read first, the text does
      not go on with the plain character `c` that comes next. Then the parsing goes on after the part
      from there, but for what its other directives read from the text. */
  lemma MissingPartIsSkipped(before: Items, first: Items, c: char, others: Items, after: string, value: string,
                             text: string, r: Reading)
    requires Spelled(before) && Spelled(first) && Spelled(More(Plain(c), others)) && Balanced(others, 0)
    requires Reach(Then(before, More(Bracket(true), first)), value, 0, BLANK) == At(1, r, text)
    requires text != "" && text[0] != c && c != '?'
    ensures Parse(WithPart(before, Then(first, More(Plain(c), others)), after), value, 0, BLANK)
         == Parse(after, ReadFields(others, text, r).1, 0, ReadFields(others, text, r).0)
  {
    var begun := Then(before, More(Bracket(true), first));
    var tail := [c] + (Spell(others) + "]" + after);
    ThenIsSpelled(before, More(Bracket(true), first));
    PartSpells(before, first, c, others, after);
    ParseReaches(begun, tail, value, 0, BLANK);
    assert tail[1..] == Spell(others) + "]" + after;
    MismatchSkips(tail, text, r);
    SkippedReads(others, after, text, 0, r);
  }

  lemma MismatchSkips(format: string, text: string, r: Reading)
    requires format != "" && text != "" && format[0] != text[0]
    requires format[0] != '%' && format[0] != '[' && format[0] != ']' && format[0] != '?'
    ensures Parse(format, text, 1, r) == Parse(format[1..], text, -1, r)
  {
  }

  lemma {:induction false} ThenIsSpelled(a: Items, b: Items)
    requires Spelled(a) && Spelled(b)
    ensures Spelled(Then(a, b))
  {
    match a
    case End =>
    case More(_, rest) => ThenIsSpelled(rest, b);
  }

  lemma PartSpells(before: Items, first: Items, c: char, others: Items, after: string)
    ensures WithPart(before, Then(first, More(Plain(c), others)), after)
         == Spell(Then(before, More(Bracket(true), first))) + ([c] + (Spell(others) + "]" + after))
  {
    SpellJoins(before, More(Bracket(true), first));
    SpellJoins(first, More(Plain(c), others));
    var a, f, o := Spell(before), Spell(first), Spell(others);
    assert Spell(More(Plain(c), others)) == [c] + o && Spell(More(Bracket(true), first)) == "[" + f;
    Regroup(a, f, [c], o, after);
  }

  lemma Regroup(a: string, f: string, c: string, o: string, after: string)
    ensures a + ("[" + ((f + (c + o)) + "]" + after)) == (a + ("[" + f)) + (c + (o + "]" + after))
  {
    assert "[" + ((f + (c + o)) + "]" + after) == ("[" + f) + (c + (o + "]" + after));
  }

  /** If what comes before it in the part reads nothing, and the other directives of the part could not
      be reading the text either, the format reads what it reads without the part. */
  lemma MissingPartMakesNoDifference(before: Items, first: Items, c: char, others: Items, after: string,
                                     value: string, text: string, r: Reading)
    requires Spelled(before) && Spelled(first) && Spelled(More(Plain(c), others)) && Balanced(others, 0)
    requires Reach(before, value, 0, BLANK) == At(0, r, text) && Reach(first, text, 1, r) == At(1, r, text)
    requires text != "" && text[0] != c && c != '?' && Idle(others, text, r)
    ensures Parse(WithPart(before, Then(first, More(Plain(c), others)), after), value, 0, BLANK)
         == Parse(Spell(before) + after, value, 0, BLANK)
  {
    ReachJoins(before, More(Bracket(true), first), value, 0, BLANK);
    MissingPartIsSkipped(before, first, c, others, after, value, text, r);
    IdleReadsNothing(others, text, r);
    ParseReaches(before, after, value, 0, BLANK);
  }

  lemma {:induction false} ReachJoins(a: Items, b: Items, value: string, optional: int, r: Reading)
    ensures var reached := Reach(a, value, optional, r);
            reached.At? ==>
              Reach(Then(a, b), value, optional, r) == Reach(b, reached.rest, reached.optional, reached.reading)
    decreases a
  {
    if a != End && value != "" {
      if a.item.Bracket? {
        ReachJoins(a.rest, b, value, if a.item.open then Opened(optional) else Closed(optional), r);
      } else if a.item.Field? {
        ReachJoins(a.rest, b, Read(a.item.c, value, r).1, optional, Read(a.item.c, value, r).0);
      } else {
        ReachJoins(a.rest, b, value[1..], optional, r);
        ReachJoins(a.rest, b, value, optional, r);
        ReachJoins(a.rest, b, value, -optional, r);
      }
    }
  }

  /** A text that ends before its format, wherever that is, gives what was read so far. */
  lemma ShortTextIsAccepted(before: Items, after: string, value: string)
    requires Spelled(before)
    requires var reached := Reach(before, value, 0, BLANK); reached.At? && reached.rest == ""
    ensures Parse(Spell(before) + after, value, 0, BLANK) == Accepted(Reach(before, value, 0, BLANK).reading)
  {
    ParseReaches(before, after, value, 0, BLANK);
  }

  // ----- cases -----

  // The year alone, in the ISO 8601 format.
  lemma YearAlone(year: nat)
    requires year < 10000
    ensures Parse(ISO8601_FORMAT, Digits(year, 4), 0, BLANK) == Accepted(BLANK.(year := year))
  {
    var before, after := More(Field('Y'), End), ISO8601_FORMAT[2..];
    assert Spell(before) == ['%', 'Y'] + Spell(End) == ['%', 'Y'];
    YearReads(year);
    ShortTextIsAccepted(before, after, Digits(year, 4));
    assert Spell(before) + after == ISO8601_FORMAT;
  }

  lemma YearReads(year: nat)
    requires year < 10000
    ensures Digits(year, 4) != "" && Reach(More(Field('Y'), End), Digits(year, 4), 0, BLANK)
         == At(0, BLANK.(year := year), "")
  {
    assert Pow10(4) == 10000;
    ReadDigits(year, 4, "", 4, 0x8000_0000);
    assert Digits(year, 4) + "" == Digits(year, 4);
  }

  // The day of the week in front, as the RFC 822 format allows it.
  lemma WeekDayMayBeMissing(after: string, value: string)
    requires value != "" && !IsAlpha(value[0]) && value[0] != ','
    ensures Parse("[%w, ]" + after, value, 0, BLANK) == Parse(after, value, 0, BLANK)
  {
    var first, others := More(Field('w'), End), More(Plain(' '), End);
    assert Reach(End, value, 0, BLANK) == At(0, BLANK, value);
    assert Reach(first, value, 1, BLANK) == At(1, BLANK, value);
    MissingPartMakesNoDifference(End, first, ',', others, after, value, value, BLANK);
    var part := Then(first, More(Plain(','), others));
    assert part == More(Field('w'), More(Plain(','), others));
    assert Spell(others) == " " && Spell(part) == "%w, ";
    assert WithPart(End, part, after) == "[%w, ]" + after;
    assert Spell(End) + after == after;
  }

  // A part that is skipped reads what was meant for what follows it: 59 as minutes, not as seconds.
  lemma SkippedPartStillReads()
    ensures Parse("[:%M]%S", "59", 0, BLANK) == Accepted(BLANK.(minute := 59))
    ensures Parse("%S", "59", 0, BLANK) == Accepted(BLANK.(second := 59))
  {
    var others := More(Field('M'), End);
    FiftyNine();
    MissingPartIsSkipped(End, End, ':', others, "%S", "59", "59", BLANK);
    assert Spell(others) == "%M";
    assert WithPart(End, More(Plain(':'), others), "%S") == "[:%M]%S";
    assert ReadFields(End, "", BLANK.(minute := 59)) == (BLANK.(minute := 59), "");
    assert Parse("", "", 0, BLANK.(second := 59)) == Accepted(BLANK.(second := 59));
    assert "%S"[2..] == "";
  }

  lemma FiftyNine()
    ensures ReadNumber("59", 0, 2, 256) == (59, "")
  {
    assert "59"[1..] == "9" && "9"[1..] == "";
    assert ReadNumber("9", 5, 1, 256) == ReadNumber("", 59, 0, 256);
  }
}
