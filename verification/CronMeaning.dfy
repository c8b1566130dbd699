/** When a cron text fires: from the text to the minutes of the calendar, and the `@yearly` family. */
module CronMeaning {
  import opened Calendar
  import opened CronSearch
  import opened CronFields
  import opened CronText

  predicate OnCalendar(t: Moment) {
    && 1 <= t.date.year <= 9999 && 1 <= t.date.month <= 12 && 1 <= t.date.day <= DaysInMonth(t.date.year, t.date.month)
    && 0 <= t.hour < 24 && 0 <= t.minute < 60
  }

  /** The minute is one the fields speak of; day numbers divisible by seven are Sundays. */
  predicate SpeaksOf(f: Fields, t: Moment)
    requires OnCalendar(t)
  {
    && AnyDenotes(f.minute, t.minute, 0, 59) && AnyDenotes(f.hour, t.hour, 0, 23) && AnyDenotes(f.month, t.date.month, 1, 12)
    && var day := AnyDenotes(f.dayOfMonth, t.date.day, 1, 31);
       var weekday := AnyDenotes(f.dayOfWeek, Ordinal(t.date) % 7, 0, 6);
       if f.dayOfWeek == [Star] then day else if f.dayOfMonth == [Star] then weekday else day || weekday
  }

  /** The text of any legal fields fires at exactly the minutes they speak of. */
  lemma TextFires(f: Fields, t: Moment)
    requires LegalFields(f) && OnCalendar(t)
    ensures ParseCronString(RenderCron(f)).Ok?
    ensures Fires(ParseCronString(RenderCron(f)).value, t) <==> SpeaksOf(f, t)
  {
    CronRoundTrip(f);
    var c := ParseCronString(RenderCron(f)).value;
    ListedIffDenoted(c.minutes, f.minute, t.minute, 0, 59);
    ListedIffDenoted(c.hours, f.hour, t.hour, 0, 23);
    ListedIffDenoted(c.months, f.month, t.date.month, 1, 12);
    ListedIffDenoted(c.daysOfMonth, f.dayOfMonth, t.date.day, 1, 31);
    ListedIffDenoted(c.daysOfWeek, f.dayOfWeek, Ordinal(t.date) % 7, 0, 6);
  }

  lemma ListedIffDenoted(values: seq<int>, items: seq<Item>, v: int, min: int, max: int)
    requires Lists(values, items, min, max)
    ensures v in values <==> AnyDenotes(items, v, min, max)
  {
  }

  // ---------------------------------------------------------------------------------
  // The @yearly family
  // ---------------------------------------------------------------------------------

  /** Whether a macro fires at a minute, in plain words. */
  predicate MacroFires(name: string, t: Moment)
    requires OnCalendar(t)
  {
    var midnight := t.hour == 0 && t.minute == 0;
    if name == "@hourly" then t.minute == 0
    else if name == "@daily" || name == "@midnight" then midnight
    else if name == "@weekly" then midnight && Ordinal(t.date) % 7 == 0
    else if name == "@monthly" then midnight && t.date.day == 1
    else midnight && t.date.day == 1 && t.date.month == 1
  }

  predicate IsMacro(name: string) {
    || name == "@hourly" || name == "@daily" || name == "@midnight" || name == "@weekly" || name == "@monthly"
    || name == "@yearly" || name == "@annually"
  }

  function MacroFields(name: string): Fields {
    var star, zero, one := [Star], [Single(0)], [Single(1)];
    if name == "@hourly" then Fields(zero, star, star, star, star)
    else if name == "@daily" || name == "@midnight" then Fields(zero, zero, star, star, star)
    else if name == "@weekly" then Fields(zero, zero, star, star, zero)
    else if name == "@monthly" then Fields(zero, zero, one, star, star)
    else Fields(zero, zero, one, one, star)
  }

  lemma OneItemText(item: Item)
    ensures RenderField([item]) == Render(item)
  {
    assert RenderAll([item]) == [Render(item)];
  }

  lemma SmallDigits(n: nat)
    requires n < 10
    ensures Digits(n) == ["0123456789"[n]]
  {
  }

  lemma JoinFive(a: string, b: string, c: string, d: string, e: string)
    ensures Join([a, b, c, d, e], ' ') == a + " " + b + " " + c + " " + d + " " + e
  {
    assert [a, b, c, d, e][1..] == [b, c, d, e] && [b, c, d, e][1..] == [c, d, e] && [c, d, e][1..] == [d, e] && [d, e][1..] == [e];
    assert Join([e], ' ') == e;
    assert Join([d, e], ' ') == d + " " + e;
    assert Join([c, d, e], ' ') == c + " " + d + " " + e;
    assert Join([b, c, d, e], ' ') == b + " " + c + " " + d + " " + e;
  }

  predicate IsSimple(item: Item) { item == Star || item == Single(0) || item == Single(1) }

  function SimpleChar(item: Item): char {
    if item == Star then '*' else if item == Single(0) then '0' else '1'
  }

  lemma SimpleText(item: Item)
    requires IsSimple(item)
    ensures RenderField([item]) == [SimpleChar(item)]
  {
    OneItemText(item);
    if item != Star {
      SmallDigits(item.n);
    }
  }

  lemma SimpleFields(f: Fields, a: Item, b: Item, c: Item, d: Item, e: Item)
    requires IsSimple(a) && IsSimple(b) && IsSimple(c) && IsSimple(d) && IsSimple(e)
    requires f == Fields([a], [b], [c], [d], [e]) && LegalFields(f)
    ensures RenderCron(f) == [SimpleChar(a), ' ', SimpleChar(b), ' ', SimpleChar(c), ' ', SimpleChar(d), ' ', SimpleChar(e)]
  {
    SimpleText(a);
    SimpleText(b);
    SimpleText(c);
    SimpleText(d);
    SimpleText(e);
    JoinFive(RenderField([a]), RenderField([b]), RenderField([c]), RenderField([d]), RenderField([e]));
  }

  lemma MacroText(name: string)
    requires IsMacro(name)
    ensures LegalFields(MacroFields(name)) && ExpandMacro(name) == RenderCron(MacroFields(name))
  {
    var f := MacroFields(name);
    assert LegalFields(f);
    SimpleFields(f, f.minute[0], f.hour[0], f.dayOfMonth[0], f.month[0], f.dayOfWeek[0]);
  }

  lemma SameExpansionParsesAlike(a: string, b: string)
    requires ExpandMacro(a) == ExpandMacro(b)
    ensures ParseCronString(a) == ParseCronString(b)
  {
  }

  lemma MacroParses(name: string)
    requires IsMacro(name)
    ensures LegalFields(MacroFields(name)) && ParseCronString(name) == ParseCronString(RenderCron(MacroFields(name)))
  {
    MacroText(name);
    NotAMacro(MacroFields(name));
    SameExpansionParsesAlike(name, RenderCron(MacroFields(name)));
  }

  lemma OneItemDenotes(item: Item, v: int, min: int, max: int)
    ensures AnyDenotes([item], v, min, max) <==> Denotes(item, v, min, max)
  {
    assert [item][0] == item;
  }

  lemma OneItemSpeaks(f: Fields, t: Moment, minute: Item, hour: Item, day: Item, month: Item, weekday: Item)
    requires OnCalendar(t) && f == Fields([minute], [hour], [day], [month], [weekday])
    ensures SpeaksOf(f, t) <==>
            && Denotes(minute, t.minute, 0, 59) && Denotes(hour, t.hour, 0, 23) && Denotes(month, t.date.month, 1, 12)
            && var d, w := Denotes(day, t.date.day, 1, 31), Denotes(weekday, Ordinal(t.date) % 7, 0, 6);
               if weekday == Star then d else if day == Star then w else d || w
  {
    OneItemDenotes(minute, t.minute, 0, 59);
    OneItemDenotes(hour, t.hour, 0, 23);
    OneItemDenotes(month, t.date.month, 1, 12);
    OneItemDenotes(day, t.date.day, 1, 31);
    OneItemDenotes(weekday, Ordinal(t.date) % 7, 0, 6);
  }

  lemma MacroSpeaks(name: string, t: Moment)
    requires IsMacro(name) && OnCalendar(t)
    ensures SpeaksOf(MacroFields(name), t) <==> MacroFires(name, t)
  {
    var f := MacroFields(name);
    OneItemSpeaks(f, t, f.minute[0], f.hour[0], f.dayOfMonth[0], f.month[0], f.dayOfWeek[0]);
  }

  /** A macro parses, and fires when its name says. */
  lemma MacroMeans(name: string, t: Moment)
    requires IsMacro(name) && OnCalendar(t)
    ensures ParseCronString(name).Ok? && (Fires(ParseCronString(name).value, t) <==> MacroFires(name, t))
  {
    MacroParses(name);
    TextFires(MacroFields(name), t);
    MacroSpeaks(name, t);
  }
}
