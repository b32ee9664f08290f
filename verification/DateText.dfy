/** A date printed, and another one set from the text. */
module DateText {
  import opened CArithmetic
  import opened Calendar
  import opened DateFormat
  import opened DateModel

  // What toString asks of the date, which is refreshed by that.
  method Tell(date: Date, now: int, zone: ZoneEntry) returns (told: Printed)
    requires date.Valid() && date.CanRead(now) && zone.IsOffset()
    requires date.day != 0 && date.changed ==> FitsInt32((date.year - 1970) * 365)
    modifies date
    ensures date.Valid() && date.day != 0 && told.fields == date.View()
    ensures told.offset == if date.isLocal || date.offset != 0 then date.offset else GMT
    ensures date.View().InRange() ==> told.weekDay == WeekDayOf(DayNumber(date.year, date.month, date.day))
    ensures 0 <= told.weekDay < 7
    ensures old(date.day) != 0 ==> date.View() == old(date.View()) && date.isLocal == old(date.AsksZone())
    ensures old(date.day) != 0 ==>
              date.offset == if old(date.changed && date.AsksZone()) then zone.offset else old(date.Offset())
  {
    var weekDay := date.WeekDay(now, zone);
    var offset := date.OffsetNow(now, zone);
    told := Printed(date.View(), weekDay, if date.isLocal || offset != 0 then offset else GMT);
  }

  // The milliseconds a format of the program tells.
  function Kept(format: string, f: Fields): Fields {
    f.(millisecond := if format == ISO8601_FRAC_FORMAT then f.millisecond else 0)
  }

  predicate IsWhole(format: string) {
    format == ISO8601_FRAC_FORMAT || format == ISO8601_FORMAT || format == HTTP_FORMAT
  }

  lemma WholeFormatReadsBack(format: string, d: Printed)
    requires IsWhole(format) && IsPlain(d)
    ensures Parse(format, Print(format, d), 0, BLANK) == Accepted(AllOf(d, Kept(format, d.fields).millisecond))
  {
    if format == HTTP_FORMAT {
      HttpRoundTrip(d);
    } else {
      IsoRoundTrip(d);
    }
  }

  // A date set from a text, as far as the formats of the program are concerned.
  method Reread(date: Date, text: string, format: string, now: int, ghost d: Printed)
    requires IsWhole(format) && IsPlain(d) && d.fields.InRange() && text == Print(format, d)
    requires date.Valid() && date.CanRead(now)
    modifies date
    ensures var f := Kept(format, d.fields);
            date.View() == f <==> old(date.day) != 0 || f.day <= 28 || PresentAgrees(f, now, old(date.Offset()))
    ensures date.Offset() == if d.offset == GMT then 0 else d.offset
    ensures date.isLocal <==> old(date.isLocal) && d.offset != GMT && (old(date.day) != 0 || d.fields.day <= 28)
  {
    var result := ParseText(text, format);
    WholeFormatReadsBack(format, d);
    var r := result.reading;
    var f := Fields(r.year, r.month, r.day, r.hour, r.minute, r.second, r.millisecond);
    assert f == Kept(format, d.fields);
    date.UpdateFields(f, r.offset, now);
  }

  // The offset a date will be told to have.
  function OffsetTold(date: Date, zone: ZoneEntry): int
    reads date
  {
    if date.changed && date.AsksZone() then zone.offset else date.Offset()
  }

  /** One date set from what another one prints: the offset always comes back, and all the fields but
      the milliseconds the format leaves out do if and only if the date that is set had a value, or
      the day is at most 28, or the present time agrees. It ends up local if it was, unless it is told
      GMT or had to read the present time. */
  method CopyThroughText(source: Date, target: Date, format: string, now: int, zone: ZoneEntry)
    requires source != target && source.Valid() && source.day != 0 && source.CanRead(now) && zone.IsOffset()
    requires source.View().InRange() && 0 <= source.year < 10000 && IsWholeOffset(OffsetTold(source, zone))
    requires IsWhole(format) && target.Valid() && target.CanRead(now)
    modifies source, target
    ensures source.View() == old(source.View()) && source.Offset() == old(OffsetTold(source, zone))
    ensures target.Offset() == source.Offset()
    ensures var f := Kept(format, source.View());
            target.View() == f <==>
              old(target.day) != 0 || f.day <= 28 || PresentAgrees(f, now, old(target.Offset()))
    ensures target.isLocal <==>
              && old(target.isLocal) && (source.isLocal || source.Offset() != 0)
              && (old(target.day) != 0 || source.day <= 28)
  {
    var told := Tell(source, now, zone);
    var text := ToString(format, told);
    Reread(target, text, format, now, told);
  }
}
