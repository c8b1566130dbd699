/** The meaning of cron text: a small grammar of field items with an independent denotation, its
    rendering as text, and the proof that parsing the text gives exactly the denoted values. */
module CronText {
  import opened CronSearch
  import opened CronFields

  /** One comma-separated item: `*`, `n`, `a-b`, each optionally followed by `/k`. */
  datatype Item =
    | Star
    | StarStep(k: nat)
    | Single(n: nat)
    | SingleStep(n: nat, k: nat)
    | Span(a: nat, b: nat)
    | SpanStep(a: nat, b: nat, k: nat)

  /** The values an item stands for; the step of a single value is ignored. */
  predicate Denotes(item: Item, v: int, min: int, max: int) {
    match item
    case Star => min <= v <= max
    case StarStep(k) => k > 0 && min <= v <= max && (v - min) % k == 0
    case Single(n) => v == n
    case SingleStep(n, _) => v == n
    case Span(a, b) => a <= v <= b
    case SpanStep(a, b, k) => k > 0 && a <= v <= b && (v - a) % k == 0
  }

  /** The numbers are within the field's bounds and a step that is used is not zero. */
  predicate Legal(item: Item, min: int, max: int) {
    match item
    case Star => true
    case StarStep(k) => k > 0 && min <= k <= max
    case Single(n) => min <= n <= max
    case SingleStep(n, k) => min <= n <= max && min <= k <= max
    case Span(a, b) => min <= a <= max && min <= b <= max
    case SpanStep(a, b, k) => k > 0 && min <= a <= max && min <= b <= max && min <= k <= max
  }

  function Digits(n: nat): (s: string)
    ensures IsNumeric(s)
  {
    if n < 10 then [('0' as int + n) as char] else Digits(n / 10) + [('0' as int + n % 10) as char]
  }

  function Render(item: Item): string {
    match item
    case Star => "*"
    case StarStep(k) => "*" + ['/'] + Digits(k)
    case Single(n) => Digits(n)
    case SingleStep(n, k) => Digits(n) + ['/'] + Digits(k)
    case Span(a, b) => Digits(a) + ['-'] + Digits(b)
    case SpanStep(a, b, k) => (Digits(a) + ['-'] + Digits(b)) + ['/'] + Digits(k)
  }

  function RenderAll(items: seq<Item>): seq<string> {
    seq(|items|, i requires 0 <= i < |items| => Render(items[i]))
  }

  function RenderField(items: seq<Item>): string
    requires |items| >= 1
  {
    Join(RenderAll(items), ',')
  }

  // ---------------------------------------------------------------------------------
  // Numbers
  // ---------------------------------------------------------------------------------

  lemma {:induction false} DecimalOfDigits(n: nat)
    ensures Decimal(Digits(n)) == Some(n)
  {
    if n >= 10 {
      DecimalOfDigits(n / 10);
      var s := Digits(n);
      var m := |s| - 1;
      assert s[..m] == Digits(n / 10);
      assert IsDigit(s[m - 1]);
    }
  }

  lemma TryIntOfDigits(n: nat, max: int, min: int)
    requires min <= n <= max
    ensures TryInt(Digits(n), max, min) == Ok(n)
  {
    var s := Digits(n);
    DecimalOfDigits(n);
    assert IsDigit(s[0]) && IsDigit(s[|s| - 1]);
    assert StripLeft(s) == s && StripRight(s) == s;
  }

  lemma DigitsAvoid(n: nat, c: char)
    requires !IsDigit(c)
    ensures c !in Digits(n)
  {
  }

  lemma SplitPair(x: string, y: string, sep: char)
    requires sep !in x && sep !in y
    ensures Split(x + [sep] + y, sep) == [x, y]
    ensures sep in x + [sep] + y
  {
    SplitPrefix(x, y, sep);
    SplitSingle(y, sep);
    assert (x + [sep] + y)[|x|] == sep;
  }

  // ---------------------------------------------------------------------------------
  // One item
  // ---------------------------------------------------------------------------------

  /** The values of an item as the parser lists them. */
  function ItemValues(item: Item, min: int, max: int): seq<int>
    requires Legal(item, min, max)
  {
    match item
    case Star => Range(min, max + 1, 1)
    case StarStep(k) => Range(min, max + 1, k)
    case Single(n) => [n]
    case SingleStep(n, _) => [n]
    case Span(a, b) => Range(a, b + 1, 1)
    case SpanStep(a, b, k) => Range(a, b + 1, k)
  }

  lemma RangeByOne(start: int, stop: int, v: int)
    ensures v in Range(start, stop, 1) <==> start <= v < stop
  {
    RangeMembers(start, stop, 1, v);
    assert (v - start) % 1 == 0;
  }

  lemma SteppedDenote(item: Item, min: int, max: int, v: int)
    requires Legal(item, min, max) && (item.StarStep? || item.SpanStep?)
    ensures v in ItemValues(item, min, max) <==> Denotes(item, v, min, max)
  {
    match item
    case StarStep(k) => RangeMembers(min, max + 1, k, v);
    case SpanStep(a, b, k) => RangeMembers(a, b + 1, k, v);
  }

  lemma ItemValuesDenote(item: Item, min: int, max: int, v: int)
    requires Legal(item, min, max)
    ensures v in ItemValues(item, min, max) <==> Denotes(item, v, min, max)
  {
    match item
    case Star => RangeByOne(min, max + 1, v);
    case Single(n) =>
    case SingleStep(n, _) =>
    case Span(a, b) => RangeByOne(a, b + 1, v);
    case _ => SteppedDenote(item, min, max, v);
  }

  lemma RenderAvoids(item: Item, c: char)
    requires !IsDigit(c) && c != '*' && c != '/' && c != '-'
    ensures c !in Render(item)
  {
    match item
    case Star =>
    case StarStep(k) => DigitsAvoid(k, c);
    case Single(n) => DigitsAvoid(n, c);
    case SingleStep(n, k) => DigitsAvoid(n, c); DigitsAvoid(k, c);
    case Span(a, b) => DigitsAvoid(a, c); DigitsAvoid(b, c);
    case SpanStep(a, b, k) => DigitsAvoid(a, c); DigitsAvoid(b, c); DigitsAvoid(k, c);
  }

  lemma ParseNumber(n: nat, max: int, min: int, step: int)
    requires step >= 0 && 0 <= min <= n <= max
    ensures ExpressionToList(Digits(n), max, min, step) == Ok([n])
  {
    TryIntOfDigits(n, max, min);
    DigitsAvoid(n, ',');
    DigitsAvoid(n, '*');
    assert Digits(n) != "*" by { assert Digits(n)[0] in Digits(n); }
  }

  lemma ParseSpan(a: nat, b: nat, max: int, min: int, step: int)
    requires step >= 1 && 0 <= min <= a <= max && min <= b <= max
    ensures ExpressionToList(Digits(a) + ['-'] + Digits(b), max, min, step) == Ok(Range(a, b + 1, step))
  {
    var s := Digits(a) + ['-'] + Digits(b);
    DigitsAvoid(a, '-');
    DigitsAvoid(b, '-');
    SplitPair(Digits(a), Digits(b), '-');
    TryIntOfDigits(a, max, min);
    TryIntOfDigits(b, max, min);
    DigitsAvoid(a, ',');
    DigitsAvoid(b, ',');
    DigitsAvoid(a, '/');
    DigitsAvoid(b, '/');
    assert ',' !in s && '/' !in s;
    assert s[|Digits(a)|] == '-';
    assert |s| > 1;
  }

  lemma ParseStepped(x: string, k: nat, max: int, min: int)
    requires 0 <= min <= k <= max && ',' !in x && '/' !in x
    ensures ExpressionToList(x + ['/'] + Digits(k), max, min, 1) == ExpressionToList(x, max, min, k)
  {
    var s := x + ['/'] + Digits(k);
    DigitsAvoid(k, '/');
    DigitsAvoid(k, ',');
    SplitPair(x, Digits(k), '/');
    TryIntOfDigits(k, max, min);
    assert ',' !in s;
    assert s[|x|] == '/';
    assert s != "*" by { assert |s| > 1; }
    var parts := Split(s, '/');
    assert parts[0] == x && parts[1] == Digits(k);
    if !ExpressionToList(x, max, min, k).Ok? {
      assert ExpressionToList(s, max, min, 1) == ExpressionToList(x, max, min, k);
    }
  }

  lemma ParseItem(item: Item, max: int, min: int)
    requires 0 <= min && Legal(item, min, max)
    ensures ExpressionToList(Render(item), max, min, 1) == Ok(ItemValues(item, min, max))
  {
    match item
    case Star =>
    case StarStep(k) => ParseStepped("*", k, max, min);
    case Single(n) => ParseNumber(n, max, min, 1);
    case SingleStep(n, k) =>
      DigitsAvoid(n, ',');
      DigitsAvoid(n, '/');
      ParseStepped(Digits(n), k, max, min);
      ParseNumber(n, max, min, k);
    case Span(a, b) => ParseSpan(a, b, max, min, 1);
    case SpanStep(a, b, k) =>
      var x := Digits(a) + ['-'] + Digits(b);
      DigitsAvoid(a, ',');
      DigitsAvoid(b, ',');
      DigitsAvoid(a, '/');
      DigitsAvoid(b, '/');
      ParseStepped(x, k, max, min);
      ParseSpan(a, b, max, min, k);
  }

  // ---------------------------------------------------------------------------------
  // Fields and whole expressions
  // ---------------------------------------------------------------------------------

  /** `values` is the field's denotation, listed in increasing order: there is only one such list. */
  ghost predicate Lists(values: seq<int>, items: seq<Item>, min: int, max: int) {
    && Increasing(values)
    && forall v :: v in values <==> exists i :: 0 <= i < |items| && Denotes(items[i], v, min, max)
  }

  lemma {:induction false} ListsUnique(s: seq<int>, t: seq<int>)
    requires Increasing(s) && Increasing(t) && forall v :: v in s <==> v in t
    ensures s == t
  {
    if s == [] {
      assert forall i :: 0 <= i < |t| ==> t[i] in t;
    } else {
      assert s[0] in t && t[0] in s;
      var i :| 0 <= i < |t| && t[i] == s[0];
      var j :| 0 <= j < |s| && s[j] == t[0];
      assert s[0] == t[0];
      forall v ensures v in s[1..] <==> v in t[1..] {
        assert v in s <==> v == s[0] || v in s[1..] by { assert s == [s[0]] + s[1..]; }
        assert v in t <==> v == t[0] || v in t[1..] by { assert t == [t[0]] + t[1..]; }
        assert s[0] !in s[1..] && t[0] !in t[1..];
      }
      ListsUnique(s[1..], t[1..]);
      assert s == [s[0]] + s[1..] && t == [t[0]] + t[1..];
    }
  }

  predicate AllLegal(items: seq<Item>, min: int, max: int) {
    forall i :: 0 <= i < |items| ==> Legal(items[i], min, max)
  }

  lemma {:induction false} CollectItems(items: seq<Item>, max: int, min: int, limit: nat)
    requires 0 <= min && AllLegal(items, min, max)
    requires forall p :: p in RenderAll(items) ==> |p| < limit
    ensures var r := CollectValues(RenderAll(items), max, min, 1, limit);
            r.Ok? && Lists(r.value, items, min, max)
  {
    if items != [] {
      var rest := items[1..];
      assert RenderAll(items)[1..] == RenderAll(rest);
      assert forall p :: p in RenderAll(rest) ==> p in RenderAll(items);
      CollectItems(rest, max, min, limit);
      ParseItem(items[0], max, min);
      assert RenderAll(items)[0] == Render(items[0]);
      var tail := CollectValues(RenderAll(rest), max, min, 1, limit).value;
      var all := InsertAll(tail, ItemValues(items[0], min, max));
      forall v ensures v in all <==> exists i :: 0 <= i < |items| && Denotes(items[i], v, min, max) {
        ItemValuesDenote(items[0], min, max, v);
        if v in tail {
          var i :| 0 <= i < |rest| && Denotes(rest[i], v, min, max);
          assert Denotes(items[i + 1], v, min, max);
        }
        if i :| 0 <= i < |items| && Denotes(items[i], v, min, max) {
          if i > 0 {
            assert Denotes(rest[i - 1], v, min, max);
          }
        }
      }
    }
  }

  /** Parsing the text of any legal field gives exactly the values its items denote, in order. */
  lemma FieldRoundTrip(items: seq<Item>, max: int, min: int)
    requires |items| >= 1 && 0 <= min && AllLegal(items, min, max)
    ensures var r := ExpressionToList(RenderField(items), max, min, 1);
            r.Ok? && Lists(r.value, items, min, max)
  {
    var parts := RenderAll(items);
    forall p | p in parts ensures ',' !in p {
      var i :| 0 <= i < |parts| && parts[i] == p;
      RenderAvoids(items[i], ',');
    }
    if |items| == 1 {
      ParseItem(items[0], max, min);
      var values := ItemValues(items[0], min, max);
      assert Increasing(values);
      forall v ensures v in values <==> exists i :: 0 <= i < |items| && Denotes(items[i], v, min, max) {
        ItemValuesDenote(items[0], min, max, v);
        assert v in values ==> Denotes(items[0], v, min, max);
      }
    } else {
      SplitJoin(parts, ',');
      var s := RenderField(items);
      SplitShape(s, ',');
      assert forall p :: p in parts ==> |p| < |s|;
      CollectItems(items, max, min, |s|);
    }
  }

  /** The list depends on the meaning alone: items that denote the same values, in whatever order and with
      whatever overlap they are written, parse to the same list. */
  lemma SameMeaningSameList(items: seq<Item>, others: seq<Item>, max: int, min: int)
    requires |items| >= 1 && |others| >= 1 && 0 <= min && AllLegal(items, min, max) && AllLegal(others, min, max)
    requires forall v :: AnyDenotes(items, v, min, max) <==> AnyDenotes(others, v, min, max)
    ensures ExpressionToList(RenderField(items), max, min, 1) == ExpressionToList(RenderField(others), max, min, 1)
  {
    FieldRoundTrip(items, max, min);
    FieldRoundTrip(others, max, min);
    var a, b := ExpressionToList(RenderField(items), max, min, 1).value, ExpressionToList(RenderField(others), max, min, 1).value;
    forall v ensures v in a <==> v in b {
      assert AnyDenotes(items, v, min, max) <==> AnyDenotes(others, v, min, max);
    }
    ListsUnique(a, b);
  }

  predicate AnyDenotes(items: seq<Item>, v: int, min: int, max: int) {
    exists i :: 0 <= i < |items| && Denotes(items[i], v, min, max)
  }

  datatype Fields = Fields(minute: seq<Item>, hour: seq<Item>, dayOfMonth: seq<Item>, month: seq<Item>, dayOfWeek: seq<Item>)

  predicate LegalFields(f: Fields) {
    && |f.minute| >= 1 && AllLegal(f.minute, 0, 59)
    && |f.hour| >= 1 && AllLegal(f.hour, 0, 23)
    && |f.dayOfMonth| >= 1 && AllLegal(f.dayOfMonth, 1, 31)
    && |f.month| >= 1 && AllLegal(f.month, 1, 12)
    && |f.dayOfWeek| >= 1 && AllLegal(f.dayOfWeek, 0, 6)
  }

  function RenderCron(f: Fields): string
    requires LegalFields(f)
  {
    Join([RenderField(f.minute), RenderField(f.hour), RenderField(f.dayOfMonth), RenderField(f.month),
          RenderField(f.dayOfWeek)], ' ')
  }

  lemma {:induction false} FieldAvoids(items: seq<Item>, c: char)
    requires |items| >= 1 && !IsDigit(c) && c != '*' && c != '/' && c != '-' && c != ','
    ensures c !in RenderField(items)
  {
    RenderAvoids(items[0], c);
    if |items| > 1 {
      FieldAvoids(items[1..], c);
      assert RenderAll(items)[1..] == RenderAll(items[1..]);
    }
  }

  lemma StarFieldText(items: seq<Item>)
    requires |items| >= 1
    ensures RenderField(items) == "*" <==> items == [Star]
  {
    var s := RenderField(items);
    if |items| > 1 {
      var parts := RenderAll(items);
      assert s == parts[0] + [','] + Join(parts[1..], ',');
      assert s[|parts[0]|] == ',';
    } else {
      match items[0]
      case Star =>
      case StarStep(k) => assert |s| > 1;
      case Single(n) => assert IsDigit(s[0]);
      case SingleStep(n, k) => assert |s| > 1;
      case Span(a, b) => assert |s| > 1;
      case SpanStep(a, b, k) => assert |s| > 1;
    }
  }

  /** The parser undoes the rendering of every legal expression: each list is the field's
      denotation and the two asterisk flags say whether the field is a bare `*`. */
  lemma CronRoundTrip(f: Fields)
    requires LegalFields(f)
    ensures var r := ParseCronString(RenderCron(f));
            && r.Ok?
            && Lists(r.value.minutes, f.minute, 0, 59)
            && Lists(r.value.hours, f.hour, 0, 23)
            && Lists(r.value.daysOfMonth, f.dayOfMonth, 1, 31)
            && Lists(r.value.months, f.month, 1, 12)
            && Lists(r.value.daysOfWeek, f.dayOfWeek, 0, 6)
            && (r.value.domStar <==> f.dayOfMonth == [Star])
            && (r.value.dowStar <==> f.dayOfWeek == [Star])
  {
    FieldAvoids(f.minute, ' ');
    FieldAvoids(f.hour, ' ');
    FieldAvoids(f.dayOfMonth, ' ');
    FieldAvoids(f.month, ' ');
    FieldAvoids(f.dayOfWeek, ' ');
    var parts := [RenderField(f.minute), RenderField(f.hour), RenderField(f.dayOfMonth), RenderField(f.month),
                  RenderField(f.dayOfWeek)];
    SplitJoin(parts, ' ');
    NotAMacro(f);
    FieldRoundTrip(f.minute, 59, 0);
    FieldRoundTrip(f.hour, 23, 0);
    FieldRoundTrip(f.dayOfMonth, 31, 1);
    FieldRoundTrip(f.month, 12, 1);
    FieldRoundTrip(f.dayOfWeek, 6, 0);
    StarFieldText(f.dayOfMonth);
    StarFieldText(f.dayOfWeek);
  }

  lemma NotAMacro(f: Fields)
    requires LegalFields(f)
    ensures ExpandMacro(RenderCron(f)) == RenderCron(f)
  {
    FieldAvoids(f.minute, '@');
    var first := RenderField(f.minute);
    FieldNotEmpty(f.minute);
    assert RenderCron(f)[0] == first[0];
    assert first[0] in first;
  }

  lemma FieldNotEmpty(items: seq<Item>)
    requires |items| >= 1
    ensures RenderField(items) != ""
  {
    assert RenderAll(items)[0] == Render(items[0]) != "";
  }
}
