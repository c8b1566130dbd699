/** The text side of the cron engine (`parse_cron_string`, `_expression_to_list`, `_try_int`):
    a recursive field parser over ASCII text, with the Python string and integer conventions it
    relies on. */
module CronFields {
  import opened CronSearch

  /** `Invalid` is InvalidExpression; `Unpack` the ValueError of unpacking a split that did not
      give two parts; `ZeroStep` the ValueError of `range(..., 0)`. */
  datatype Parse<T> = Ok(value: T) | Invalid | Unpack | ZeroStep

  // ---------------------------------------------------------------------------------
  // Python string conventions
  // ---------------------------------------------------------------------------------

  /** `s.split(sep)`. */
  function Split(s: string, sep: char): (parts: seq<string>)
    ensures |parts| >= 1
  {
    if s == "" then [""]
    else
      var rest := Split(s[1..], sep);
      if s[0] == sep then [""] + rest
      else [[s[0]] + rest[0]] + rest[1..]
  }

  /** Every part is free of the separator and, unless it is the whole text, shorter. */
  lemma {:induction false} SplitShape(s: string, sep: char)
    ensures |Split(s, sep)| == 1 <==> sep !in s
    ensures forall i :: 0 <= i < |Split(s, sep)| ==> sep !in Split(s, sep)[i]
    ensures forall i :: 0 <= i < |Split(s, sep)| ==> |Split(s, sep)[i]| + |Split(s, sep)| <= |s| + 1
  {
    if s != "" {
      SplitShape(s[1..], sep);
    }
  }

  function Join(parts: seq<string>, sep: char): string
    requires |parts| >= 1
  {
    if |parts| == 1 then parts[0] else parts[0] + [sep] + Join(parts[1..], sep)
  }

  lemma {:induction false} SplitSingle(s: string, sep: char)
    requires sep !in s
    ensures Split(s, sep) == [s]
  {
    if s != "" {
      SplitSingle(s[1..], sep);
      assert [s[0]] + s[1..] == s;
    }
  }

  lemma {:induction false} SplitPrefix(p: string, rest: string, sep: char)
    requires sep !in p
    ensures Split(p + [sep] + rest, sep) == [p] + Split(rest, sep)
  {
    var s := p + [sep] + rest;
    if p == "" {
      assert s[1..] == rest;
    } else {
      assert s[1..] == p[1..] + [sep] + rest;
      SplitPrefix(p[1..], rest, sep);
      assert [p[0]] + p[1..] == p;
    }
  }

  /** Splitting undoes joining when the separator occurs in no part. */
  lemma {:induction false} SplitJoin(parts: seq<string>, sep: char)
    requires |parts| >= 1 && forall p :: p in parts ==> sep !in p
    ensures Split(Join(parts, sep), sep) == parts
  {
    if |parts| == 1 {
      SplitSingle(parts[0], sep);
    } else {
      SplitJoin(parts[1..], sep);
      SplitPrefix(parts[0], Join(parts[1..], sep), sep);
    }
  }

  predicate IsDigit(c: char) { '0' <= c <= '9' }

  function DigitValue(c: char): int
    requires IsDigit(c)
  {
    c as int - '0' as int
  }

  predicate AllDigits(s: string) {
    forall i :: 0 <= i < |s| ==> IsDigit(s[i])
  }

  /** `s.isnumeric()` on ASCII text. */
  predicate IsNumeric(s: string) {
    s != "" && AllDigits(s)
  }

  predicate IsSpace(c: char) {
    9 <= c as int <= 13 || 28 <= c as int <= 32
  }

  function StripLeft(s: string): (r: string) {
    if s != "" && IsSpace(s[0]) then StripLeft(s[1..]) else s
  }

  function StripRight(s: string): (r: string) {
    if s != "" && IsSpace(s[|s| - 1]) then StripRight(s[..|s| - 1]) else s
  }

  /** Decimal digits, with single underscores allowed between them. */
  function Decimal(s: string): (v: Option<nat>) {
    if s == "" || !IsDigit(s[|s| - 1]) then None
    else if |s| == 1 then Some(DigitValue(s[0]))
    else
      var n := |s| - 1;
      var head := if s[n - 1] == '_' then s[..n - 1] else s[..n];
      match Decimal(head)
      case None => None
      case Some(high) => Some(10 * high + DigitValue(s[n]))
  }

  /** `int(s)` on ASCII text. */
  function PythonInt(s: string): (v: Option<int>) {
    var t := StripRight(StripLeft(s));
    var body := if t != "" && (t[0] == '+' || t[0] == '-') then t[1..] else t;
    match Decimal(body)
    case None => None
    case Some(n) => if t[0] == '-' then Some(0 - n) else Some(n as int)
  }

  /** `_try_int`. */
  function TryInt(v: string, max: int, min: int): (r: Parse<int>)
    ensures !r.Unpack? && !r.ZeroStep?
    ensures r.Ok? ==> 0 <= r.value && min <= r.value <= max
  {
    match PythonInt(v)
    case None => Invalid
    case Some(n) => if n < 0 || min > n || max < n then Invalid else Ok(n)
  }

  // ---------------------------------------------------------------------------------
  // The field parser
  // ---------------------------------------------------------------------------------

  lemma IncreasingCons(h: int, t: seq<int>)
    requires Increasing(t) && forall x :: x in t ==> h < x
    ensures Increasing([h] + t)
  {
    forall i, j | 0 <= i < j < |t| + 1 ensures ([h] + t)[i] < ([h] + t)[j] {
      assert t[j - 1] in t;
    }
  }

  /** `list(range(start, stop, step))`. */
  function Range(start: int, stop: int, step: int): (r: seq<int>)
    requires step >= 1
    ensures Increasing(r)
    ensures forall x :: x in r ==> start <= x < stop
    decreases stop - start
  {
    if stop <= start then []
    else
      var rest := Range(start + step, stop, step);
      IncreasingCons(start, rest);
      [start] + rest
  }

  /** The members of a range: every step-th value from its start. */
  lemma {:induction false} RangeMembers(start: int, stop: int, step: int, v: int)
    requires step >= 1
    ensures v in Range(start, stop, step) <==> start <= v < stop && (v - start) % step == 0
    decreases stop - start
  {
    if start < stop {
      var rest := Range(start + step, stop, step);
      RangeMembers(start + step, stop, step, v);
      assert Range(start, stop, step) == [start] + rest;
      ModMinus(v - start, step);
      assert v - (start + step) == v - start - step;
      if start < v < start + step {
        ModUnique(v - start, step, 0, v - start);
      }
    }
  }

  lemma ModMinus(a: int, k: int)
    requires k >= 1
    ensures (a - k) % k == a % k
  {
    var q, m := a / k, a % k;
    assert a - k == (q - 1) * k + m;
    ModUnique(a - k, k, q - 1, m);
  }

  lemma ModUnique(a: int, k: int, q: int, m: int)
    requires k >= 1 && 0 <= m < k && a == q * k + m
    ensures a % k == m
  {
    var d := a / k - q;
    assert d * k == m - a % k;
    assert -k < d * k < k;
    assert d == 0 by {
      if d >= 1 { SmallMultiple(d, k); } else if d <= -1 { SmallMultiple(-d, k); }
    }
  }

  lemma SmallMultiple(d: int, k: int)
    requires k >= 1 && d >= 1
    ensures d * k >= k
  {
  }

  /** One more value of a sorted set of values. */
  function Insert(s: seq<int>, v: int): (r: seq<int>)
    requires Increasing(s)
    ensures Increasing(r)
    ensures forall x :: x in r <==> x in s || x == v
  {
    if s == [] || v < s[0] then
      IncreasingCons(v, s);
      [v] + s
    else if v == s[0] then s
    else
      var rest := Insert(s[1..], v);
      assert s == [s[0]] + s[1..];
      IncreasingCons(s[0], rest);
      [s[0]] + rest
  }

  function InsertAll(s: seq<int>, values: seq<int>): (r: seq<int>)
    requires Increasing(s)
    ensures Increasing(r)
    ensures forall x :: x in r <==> x in s || x in values
    decreases values
  {
    if values == [] then s
    else
      assert values == [values[0]] + values[1..];
      InsertAll(Insert(s, values[0]), values[1..])
  }

  /** `_expression_to_list`: whatever it accepts, the list is strictly increasing and within the
      field's bounds. */
  function ExpressionToList(expr: string, max: int, min: int, step: int): (r: Parse<seq<int>>)
    requires step >= 0 && 0 <= min
    ensures r.Ok? ==> Increasing(r.value) && InRange(r.value, min, max)
    decreases |expr|, 1, 0
  {
    if ',' in expr then
      SplitShape(expr, ',');
      CollectValues(Split(expr, ','), max, min, step, |expr|)
    else if expr == "*" then
      if step == 0 then ZeroStep else RangeWithin(min, max, step, min, max)
    else if IsNumeric(expr) then
      match TryInt(expr, max, min)
      case Ok(n) => Ok([n])
      case _ => Invalid
    else if '/' in expr then
      var parts := Split(expr, '/');
      SplitShape(expr, '/');
      if |parts| != 2 then Unpack
      else
        match TryInt(parts[1], max, min)
        case Ok(k) => ExpressionToList(parts[0], max, min, k)
        case _ => Invalid
    else if '-' in expr then
      var parts := Split(expr, '-');
      if |parts| != 2 then Unpack
      else
        match (TryInt(parts[0], max, min), TryInt(parts[1], max, min))
        case (Ok(a), Ok(b)) => if step == 0 then ZeroStep else RangeWithin(a, b, step, min, max)
        case _ => Invalid
    else Invalid
  }

  function RangeWithin(a: int, b: int, step: int, min: int, max: int): (r: Parse<seq<int>>)
    requires step >= 1 && min <= a && b <= max
    ensures r == Ok(Range(a, b + 1, step))
    ensures Increasing(r.value) && InRange(r.value, min, max)
  {
    var values := Range(a, b + 1, step);
    assert forall i :: 0 <= i < |values| ==> values[i] in values;
    Ok(values)
  }

  /** The comma case: `sorted` of the set of all values of the parts; the first bad part raises. */
  function CollectValues(parts: seq<string>, max: int, min: int, step: int, limit: nat): (r: Parse<seq<int>>)
    requires step >= 0 && 0 <= min
    requires forall p :: p in parts ==> |p| < limit
    ensures r.Ok? ==> Increasing(r.value) && InRange(r.value, min, max)
    decreases limit, 0, |parts|
  {
    if parts == [] then Ok([])
    else
      match ExpressionToList(parts[0], max, min, step)
      case Ok(values) =>
        (match CollectValues(parts[1..], max, min, step, limit)
         case Ok(rest) =>
           var all := InsertAll(rest, values);
           assert forall i :: 0 <= i < |all| ==> all[i] in all;
           Ok(all)
         case Invalid => Invalid
         case Unpack => Unpack
         case ZeroStep => ZeroStep)
      case Invalid => Invalid
      case Unpack => Unpack
      case ZeroStep => ZeroStep
  }

  // ---------------------------------------------------------------------------------
  // Whole expressions
  // ---------------------------------------------------------------------------------

  /** The `@yearly` family. */
  function ExpandMacro(expression: string): string {
    if expression == "@yearly" || expression == "@annually" then "0 0 1 1 *"
    else if expression == "@monthly" then "0 0 1 * *"
    else if expression == "@weekly" then "0 0 * * 0"
    else if expression == "@daily" || expression == "@midnight" then "0 0 * * *"
    else if expression == "@hourly" then "0 * * * *"
    else expression
  }

  function Fail<T, U>(p: Parse<T>): Parse<U>
    requires !p.Ok?
  {
    match p case Invalid => Invalid case Unpack => Unpack case ZeroStep => ZeroStep
  }

  /** `parse_cron_string` for anything but a solar spec: an accepted expression gives the lists
      the search relies on. */
  function ParseCronString(expression: string): (r: Parse<Crontab>)
    ensures r.Ok? ==> WellFormed(r.value)
  {
    var parts := Split(ExpandMacro(expression), ' ');
    if |parts| != 5 then Invalid
    else
      var minutes := ExpressionToList(parts[0], 59, 0, 1);
      if !minutes.Ok? then Fail(minutes) else
      var hours := ExpressionToList(parts[1], 23, 0, 1);
      if !hours.Ok? then Fail(hours) else
      var daysOfMonth := ExpressionToList(parts[2], 31, 1, 1);
      if !daysOfMonth.Ok? then Fail(daysOfMonth) else
      var months := ExpressionToList(parts[3], 12, 1, 1);
      if !months.Ok? then Fail(months) else
      var daysOfWeek := ExpressionToList(parts[4], 6, 0, 1);
      if !daysOfWeek.Ok? then Fail(daysOfWeek) else
      Ok(Crontab(minutes.value, hours.value, daysOfMonth.value, months.value, daysOfWeek.value,
                 parts[2] == "*", parts[4] == "*"))
  }

  datatype CronResult = Occurs(moment: Moment) | Rejected | Exhausted(error: SearchError)

  /** `next_cron_occurrence` end to end: a rejected text raises, an accepted one gives the least
      matching minute after the base or raises when there is none. */
  method NextCronOccurrence(expression: string, base: Instant) returns (r: CronResult)
    requires ValidInstant(base)
    ensures r.Rejected? <==> !ParseCronString(expression).Ok?
    ensures r.Occurs? ==>
      && Upcoming(ParseCronString(expression).value, base, r.moment)
      && forall t :: Upcoming(ParseCronString(expression).value, base, t) ==> Index(r.moment) <= Index(t)
    ensures r.Exhausted? ==> forall t :: !Upcoming(ParseCronString(expression).value, base, t)
  {
    var parsed := ParseCronString(expression);
    if !parsed.Ok? {
      return Rejected;
    }
    var outcome := NextOccurrence(parsed.value, base);
    match outcome
    case Found(t) => return Occurs(t);
    case NotFound(e) => return Exhausted(e);
  }
}
