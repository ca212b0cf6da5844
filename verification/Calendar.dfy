/**
  The UTC calendar, as far as the fixed format YYYY-MM-DDTHH:MM:SSZ needs it. An instant is a
  number of microseconds since 1970-01-01T00:00:00Z, the resolution of a Python datetime.
 */
module Calendar {
  import opened Wrappers

  type Micros = int

  const SECOND: Micros := 1_000_000
  const DAY := 86400

  predicate IsLeap(y: int) { y % 4 == 0 && (y % 100 != 0 || y % 400 == 0) }

  function YearLength(y: int): nat { if IsLeap(y) then 366 else 365 }

  function MonthLength(y: int, m: nat): nat {
    if m == 2 then (if IsLeap(y) then 29 else 28)
    else if m == 4 || m == 6 || m == 9 || m == 11 then 30
    else 31
  }

  // Days from 1970-01-01 to the first of January of year `y`.
  function YearStart(y: int): int
    decreases if y >= 1970 then y - 1970 else 1970 - y
  {
    if y == 1970 then 0
    else if y > 1970 then YearStart(y - 1) + YearLength(y - 1)
    else YearStart(y + 1) - YearLength(y)
  }

  // Days from the first of January to the first of month `m`.
  function MonthStart(y: int, m: nat): nat {
    if m <= 1 then 0 else MonthStart(y, m - 1) + MonthLength(y, m - 1)
  }

  datatype Civil = Civil(year: int, month: nat, day: nat, hour: nat, minute: nat, second: nat) {
    predicate Valid() {
      && 1 <= year <= 9999
      && 1 <= month <= 12
      && 1 <= day <= MonthLength(year, month)
      && hour < 24 && minute < 60 && second < 60
    }

    function ToSeconds(): int {
      (YearStart(year) + MonthStart(year, month) + day - 1) * DAY + hour * 3600 + minute * 60 + second
    }
  }

  // The first instant that no longer has a four-digit year.
  const END_OF_TIME: Micros := YearStart(10000) * DAY * SECOND

  // ---- splitting a count of days ----

  // `days` days after the first of January of `y`, as a year and a day of that year.
  function SplitYear(y: int, days: nat): (r: (int, nat))
    ensures r.0 >= y && r.1 < YearLength(r.0)
    decreases days
  {
    if days < YearLength(y) then (y, days) else SplitYear(y + 1, days - YearLength(y))
  }

  // `days` days after the first of month `m`, as a month and a day of that month from 1.
  function SplitMonth(y: int, m: nat, days: nat): (nat, nat)
    decreases 12 - m
  {
    if days < MonthLength(y, m) || m >= 12 then (m, days + 1)
    else SplitMonth(y, m + 1, days - MonthLength(y, m))
  }

  function ToCivil(seconds: nat): Civil {
    var (y, dayOfYear) := SplitYear(1970, seconds / DAY);
    var (m, d) := SplitMonth(y, 1, dayOfYear);
    var rest := seconds % DAY;
    Civil(y, m, d, rest / 3600, rest % 3600 / 60, rest % 60)
  }

  lemma {:induction false} SplitYearIsExact(y: int, days: nat)
    requires y >= 1970
    ensures var (y', d) := SplitYear(y, days); YearStart(y') + d == YearStart(y) + days
    decreases days
  {
    if days >= YearLength(y) {
      SplitYearIsExact(y + 1, days - YearLength(y));
    }
  }

  lemma {:induction false} YearStartMonotone(y: int, z: int)
    requires 1970 <= y <= z
    ensures YearStart(y) <= YearStart(z)
    decreases z - y
  {
    if y < z {
      YearStartMonotone(y, z - 1);
    }
  }

  lemma {:induction false} SplitMonthIsExact(y: int, m: nat, days: nat)
    requires 1 <= m <= 12
    requires MonthStart(y, m) + days < YearLength(y)
    ensures var (m', d) := SplitMonth(y, m, days);
      m <= m' <= 12 && 1 <= d <= MonthLength(y, m') && MonthStart(y, m') + d - 1 == MonthStart(y, m) + days
    decreases 12 - m
  {
    hide MonthLength, YearLength;
    if m < 12 {
      if days >= MonthLength(y, m) {
        SplitMonthIsExact(y, m + 1, days - MonthLength(y, m));
      }
    } else {
      DecemberStart(y);
    }
  }

  lemma DecemberStart(y: int)
    ensures MonthStart(y, 12) + 31 == YearLength(y) && MonthLength(y, 12) == 31
  {
    assert MonthStart(y, 2) == 31;
    assert MonthStart(y, 4) == MonthStart(y, 2) + MonthLength(y, 2) + 31;
    assert MonthStart(y, 6) == MonthStart(y, 4) + 61;
    assert MonthStart(y, 8) == MonthStart(y, 6) + 61;
    assert MonthStart(y, 10) == MonthStart(y, 8) + 61;
  }

  lemma TimeOfDay(rest: nat)
    requires rest < DAY
    ensures rest / 3600 < 24 && rest % 3600 / 60 < 60 && rest % 60 < 60
    ensures rest / 3600 * 3600 + rest % 3600 / 60 * 60 + rest % 60 == rest
  {
  }

  /** Splitting an instant into fields loses nothing. */
  lemma ToCivilIsExact(seconds: nat)
    requires seconds * SECOND < END_OF_TIME
    ensures ToCivil(seconds).Valid() && ToCivil(seconds).ToSeconds() == seconds
    ensures ToCivil(seconds).year >= 1970
  {
    hide YearStart, MonthStart, YearLength, MonthLength, SplitYear, SplitMonth;
    var (y, dayOfYear) := SplitYear(1970, seconds / DAY);
    SplitYearIsExact(1970, seconds / DAY);
    SplitYearStarts();
    assert seconds / DAY < YearStart(10000);
    if y >= 10000 {
      YearStartMonotone(10000, y);
    }
    SplitMonthIsExact(y, 1, dayOfYear);
    TimeOfDay(seconds % DAY);
  }

  lemma SplitYearStarts()
    ensures YearStart(1970) == 0 && forall y :: MonthStart(y, 1) == 0
  {
  }

  // ---- printing, strftime("%Y-%m-%dT%H:%M:%SZ") ----

  function Digit(n: nat): char
    requires n < 10
  {
    n as char + '0'
  }

  function Two(n: nat): string
    requires n < 100
  {
    [Digit(n / 10), Digit(n % 10)]
  }

  function Print(c: Civil): string
    requires c.Valid()
  {
    Two(c.year / 100) + Two(c.year % 100) + "-" + Two(c.month) + "-" + Two(c.day) + "T"
    + Two(c.hour) + ":" + Two(c.minute) + ":" + Two(c.second) + "Z"
  }

  // ---- parsing, strptime with the same format ----

  predicate IsDigit(c: char) { '0' <= c <= '9' }

  function DigitValue(c: char): nat
    requires IsDigit(c)
  {
    c as int - '0' as int
  }

  // One or two digits at position `i`, and where they end.
  function Field(s: string, i: nat): Option<(nat, nat)> {
    if i + 1 < |s| && IsDigit(s[i]) && IsDigit(s[i + 1]) then
      Some((10 * DigitValue(s[i]) + DigitValue(s[i + 1]), i + 2))
    else if i < |s| && IsDigit(s[i]) then Some((DigitValue(s[i]), i + 1))
    else None
  }

  // strptime lets a day have a space in place of its leading zero.
  function DayField(s: string, i: nat): Option<(nat, nat)> {
    if i + 1 < |s| && s[i] == ' ' && IsDigit(s[i + 1]) && s[i + 1] != '0' then
      Some((DigitValue(s[i + 1]), i + 2))
    else Field(s, i)
  }

  // A literal character of the format; letters match in either case.
  predicate At(s: string, i: nat, c: char) {
    i < |s| && (s[i] == c || ('A' <= c <= 'Z' && s[i] == c - 'A' + 'a'))
  }

  function ParseFields(s: string): Option<Civil> {
    if |s| < 4 || !IsDigit(s[0]) || !IsDigit(s[1]) || !IsDigit(s[2]) || !IsDigit(s[3]) then None
    else
      var year := 1000 * DigitValue(s[0]) + 100 * DigitValue(s[1]) + 10 * DigitValue(s[2]) + DigitValue(s[3]);
      if !At(s, 4, '-') then None else
      var (month, i) :- Field(s, 5);
      if !At(s, i, '-') then None else
      var (day, j) :- DayField(s, i + 1);
      if !At(s, j, 'T') then None else
      var (hour, k) :- Field(s, j + 1);
      if !At(s, k, ':') then None else
      var (minute, l) :- Field(s, k + 1);
      if !At(s, l, ':') then None else
      var (second, n) :- Field(s, l + 1);
      if !At(s, n, 'Z') || n + 1 != |s| then None
      else Some(Civil(year, month, day, hour, minute, second))
  }

  // The second a timestamp names, or None where strptime raises ValueError.
  function Parse(s: string): Option<int> {
    match ParseFields(s)
    case None => None
    case Some(c) => if c.Valid() then Some(c.ToSeconds()) else None
  }

  lemma TwoParses(n: nat)
    requires n < 100
    ensures IsDigit(Two(n)[0]) && IsDigit(Two(n)[1])
    ensures 10 * DigitValue(Two(n)[0]) + DigitValue(Two(n)[1]) == n
  {
  }

  lemma FieldReads(s: string, i: nat, n: nat)
    requires n < 100 && i + 2 <= |s| && s[i..i + 2] == Two(n)
    ensures Field(s, i) == Some((n, i + 2)) && DayField(s, i) == Some((n, i + 2))
  {
    TwoParses(n);
    assert s[i] == Two(n)[0] && s[i + 1] == Two(n)[1];
  }

  lemma YearReads(s: string, y: nat)
    requires y < 10000 && 4 <= |s| && s[..4] == Two(y / 100) + Two(y % 100)
    ensures forall i :: 0 <= i < 4 ==> IsDigit(s[i])
    ensures 1000 * DigitValue(s[0]) + 100 * DigitValue(s[1]) + 10 * DigitValue(s[2]) + DigitValue(s[3]) == y
  {
    TwoParses(y / 100);
    TwoParses(y % 100);
    hide Two, DigitValue, IsDigit;
    assert s[..4][0] == s[0] && s[..4][1] == s[1] && s[..4][2] == s[2] && s[..4][3] == s[3];
  }

  // A field and its separator behind what is there already.
  lemma Append(t: string, x: string, c: string) returns (u: string)
    requires |c| == 1
    ensures u == t + x + c && |u| == |t| + |x| + 1
    ensures u[|t|..|t| + |x|] == x && u[|t| + |x|] == c[0]
    ensures forall i :: 0 <= i < |t| ==> u[i] == t[i]
    ensures forall i, j :: 0 <= i <= j <= |t| ==> u[i..j] == t[i..j]
  {
    u := t + x + c;
  }

  // Where the parts of a printed timestamp are.
  lemma PrintLayout(c: Civil)
    requires c.Valid()
    ensures var s := Print(c);
      && |s| == 20 && s[4] == '-' && s[7] == '-' && s[10] == 'T' && s[13] == ':' && s[16] == ':' && s[19] == 'Z'
      && s[..4] == Two(c.year / 100) + Two(c.year % 100)
      && s[5..7] == Two(c.month) && s[8..10] == Two(c.day) && s[11..13] == Two(c.hour)
      && s[14..16] == Two(c.minute) && s[17..19] == Two(c.second)
  {
    PairsAreTwo(c);
    hide Two;
    var y := Two(c.year / 100) + Two(c.year % 100);
    var months := Append(y + "-", Two(c.month), "-");
    var days := Append(months, Two(c.day), "T");
    var hours := Append(days, Two(c.hour), ":");
    var minutes := Append(hours, Two(c.minute), ":");
    var seconds := Append(minutes, Two(c.second), "Z");
    assert seconds == Print(c);
    assert (y + "-")[..4] == y;
    assert forall j :: 0 <= j < 5 ==> seconds[j] == (y + "-")[j];
    assert seconds[..4] == (y + "-")[..4];
  }

  lemma PairsAreTwo(c: Civil)
    requires c.Valid()
    ensures |Two(c.year / 100)| == 2 && |Two(c.year % 100)| == 2 && |Two(c.month)| == 2 && |Two(c.day)| == 2
    ensures |Two(c.hour)| == 2 && |Two(c.minute)| == 2 && |Two(c.second)| == 2
  {
  }

  lemma PrintParses(c: Civil)
    requires c.Valid()
    ensures ParseFields(Print(c)) == Some(c)
  {
    hide Print, Two, Field, DayField, DigitValue, IsDigit;
    var s := Print(c);
    PrintLayout(c);
    YearReads(s, c.year);
    FieldReads(s, 5, c.month);
    FieldReads(s, 8, c.day);
    FieldReads(s, 11, c.hour);
    FieldReads(s, 14, c.minute);
    FieldReads(s, 17, c.second);
  }

  // ---- which texts are timestamps ----

  // A number below 100, with or without a leading zero.
  ghost predicate Numeral(x: string, v: nat) {
    || (|x| == 1 && '0' <= x[0] <= '9' && v == x[0] as int - 48)
    || (|x| == 2 && '0' <= x[0] <= '9' && '0' <= x[1] <= '9' && v == 10 * (x[0] as int - 48) + x[1] as int - 48)
  }

  // Days below ten may also have a space there.
  ghost predicate DayNumeral(x: string, v: nat) {
    Numeral(x, v) || (|x| == 2 && x[0] == ' ' && '1' <= x[1] <= '9' && v == x[1] as int - 48)
  }

  ghost predicate YearNumeral(x: string, v: int) {
    && |x| == 4 && (forall i :: 0 <= i < 4 ==> '0' <= x[i] <= '9')
    && v == 1000 * (x[0] as int - 48) + 100 * (x[1] as int - 48) + 10 * (x[2] as int - 48) + x[3] as int - 48
  }

  datatype Parts = Parts(year: string, month: string, day: string, t: char, hour: string, minute: string,
                         second: string, z: char)

  // The text is these parts with their separators, and the parts mean `c`.
  ghost predicate Spells(s: string, p: Parts, c: Civil) {
    && s == p.year + "-" + p.month + "-" + p.day + [p.t] + p.hour + ":" + p.minute + ":" + p.second + [p.z]
    && YearNumeral(p.year, c.year) && Numeral(p.month, c.month) && DayNumeral(p.day, c.day)
    && Numeral(p.hour, c.hour) && Numeral(p.minute, c.minute) && Numeral(p.second, c.second)
    && (p.t == 'T' || p.t == 't') && (p.z == 'Z' || p.z == 'z')
  }

  lemma FieldIsNumeral(s: string, i: nat, x: string, v: nat)
    requires i + |x| < |s| && s[i..i + |x|] == x && !IsDigit(s[i + |x|])
    ensures Numeral(x, v) ==> Field(s, i) == Some((v, i + |x|))
    ensures DayNumeral(x, v) ==> DayField(s, i) == Some((v, i + |x|))
  {
    assert forall k :: 0 <= k < |x| ==> s[i + k] == x[k];
  }

  lemma NumeralAt(s: string, i: nat)
    ensures Field(s, i).Some? ==> var (v, j) := Field(s, i).value; i < j <= |s| && j <= i + 2 && Numeral(s[i..j], v)
    ensures DayField(s, i).Some? ==> var (v, j) := DayField(s, i).value; i < j <= |s| && j <= i + 2 && DayNumeral(s[i..j], v)
  {
  }

  // Where ParseFields finds its fields and separators.
  ghost predicate FieldsAre(s: string, c: Civil, i: nat, j: nat, k: nat, l: nat, n: nat) {
    && |s| > 4 && IsDigit(s[0]) && IsDigit(s[1]) && IsDigit(s[2]) && IsDigit(s[3])
    && c.year == 1000 * DigitValue(s[0]) + 100 * DigitValue(s[1]) + 10 * DigitValue(s[2]) + DigitValue(s[3])
    && At(s, 4, '-') && Field(s, 5) == Some((c.month, i))
    && At(s, i, '-') && DayField(s, i + 1) == Some((c.day, j))
    && At(s, j, 'T') && Field(s, j + 1) == Some((c.hour, k))
    && At(s, k, ':') && Field(s, k + 1) == Some((c.minute, l))
    && At(s, l, ':') && Field(s, l + 1) == Some((c.second, n))
    && At(s, n, 'Z') && n + 1 == |s|
  }

  lemma FieldsAreParsed(s: string, c: Civil, i: nat, j: nat, k: nat, l: nat, n: nat)
    requires FieldsAre(s, c, i, j, k, l, n)
    ensures ParseFields(s) == Some(c)
  {
    hide Field, DayField, At, IsDigit, DigitValue;
  }

  lemma ParsedFields(s: string) returns (i: nat, j: nat, k: nat, l: nat, n: nat)
    requires ParseFields(s).Some?
    ensures FieldsAre(s, ParseFields(s).value, i, j, k, l, n)
  {
    hide Field, DayField, IsDigit, DigitValue;
    i := Field(s, 5).value.1;
    j := DayField(s, i + 1).value.1;
    k := Field(s, j + 1).value.1;
    l := Field(s, k + 1).value.1;
    n := Field(s, l + 1).value.1;
  }

  lemma SpelledParses(s: string, p: Parts, c: Civil)
    requires Spells(s, p, c)
    ensures ParseFields(s) == Some(c)
  {
    hide Field, DayField, Numeral, DayNumeral, ParseFields, YearNumeral, DigitValue;
    var years := p.year + "-";
    var months := years + p.month + "-";
    var days := months + p.day + [p.t];
    var hours := days + p.hour + ":";
    var minutes := hours + p.minute + ":";
    assert s == minutes + p.second + [p.z];
    PrefixOf(minutes, p.second + [p.z], s);
    PrefixOf(hours, p.minute + ":", minutes);
    PrefixOf(days, p.hour + ":", hours);
    PrefixOf(months, p.day + [p.t], days);
    PrefixOf(years, p.month + "-", months);
    PrefixesNest(hours, minutes, s);
    PrefixesNest(days, hours, s);
    PrefixesNest(months, days, s);
    PrefixesNest(years, months, s);
    FieldAfter(s, years, p.month, '-', c.month);
    FieldAfter(s, months, p.day, p.t, c.day);
    FieldAfter(s, days, p.hour, ':', c.hour);
    FieldAfter(s, hours, p.minute, ':', c.minute);
    FieldAfter(s, minutes, p.second, p.z, c.second);
    YearIsFirst(s, p.year, c.year);
    FieldsAreParsed(s, c, |months| - 1, |days| - 1, |hours| - 1, |minutes| - 1, |s| - 1);
  }

  lemma PrefixOf(t: string, rest: string, u: string)
    requires u == t + rest
    ensures t <= u
  {
  }

  lemma PrefixesNest(t: string, u: string, s: string)
    requires t <= u <= s
    ensures t <= s
  {
  }

  lemma FieldAfter(s: string, t: string, x: string, c: char, v: nat)
    requires t + x + [c] <= s && !IsDigit(c)
    ensures s[|t| + |x|] == c
    ensures Numeral(x, v) ==> Field(s, |t|) == Some((v, |t| + |x|))
    ensures DayNumeral(x, v) ==> DayField(s, |t|) == Some((v, |t| + |x|))
  {
    var u := t + x + [c];
    assert u[|t|..|t| + |x|] == x && u[|t| + |x|] == c;
    assert s[..|u|] == u;
    assert s[|t|..|t| + |x|] == s[..|u|][|t|..|t| + |x|];
    assert s[|t| + |x|] == s[..|u|][|t| + |x|];
    FieldIsNumeral(s, |t|, x, v);
  }

  lemma YearIsFirst(s: string, y: string, v: int)
    requires YearNumeral(y, v) && y + "-" <= s
    ensures |y| == 4 && |s| > 4 && s[4] == '-' && forall i :: 0 <= i < 4 ==> IsDigit(s[i])
    ensures 1000 * DigitValue(s[0]) + 100 * DigitValue(s[1]) + 10 * DigitValue(s[2]) + DigitValue(s[3]) == v
  {
    assert forall q :: 0 <= q < 4 ==> s[q] == y[q];
  }

  lemma ParsedIsSpelled(s: string) returns (p: Parts)
    requires ParseFields(s).Some?
    ensures Spells(s, p, ParseFields(s).value)
  {
    hide FieldsAre, Numeral, DayNumeral, ParseFields, YearNumeral;
    var i, j, k, l, n := ParsedFields(s);
    FieldsSpell(s, ParseFields(s).value, i, j, k, l, n);
    p := Parts(s[..4], s[5..i], s[i + 1..j], s[j], s[j + 1..k], s[k + 1..l], s[l + 1..n], s[n]);
    Reassembled(s, p, i, j, k, l, n);
  }

  lemma FieldsSpell(s: string, c: Civil, i: nat, j: nat, k: nat, l: nat, n: nat)
    requires FieldsAre(s, c, i, j, k, l, n)
    ensures 4 < i < j < k < l < n && n + 1 == |s|
    ensures s[4] == s[i] == '-' && s[k] == s[l] == ':' && (s[j] == 'T' || s[j] == 't') && (s[n] == 'Z' || s[n] == 'z')
    ensures YearNumeral(s[..4], c.year) && Numeral(s[5..i], c.month) && DayNumeral(s[i + 1..j], c.day)
    ensures Numeral(s[j + 1..k], c.hour) && Numeral(s[k + 1..l], c.minute) && Numeral(s[l + 1..n], c.second)
  {
    hide Field, DayField, Numeral, DayNumeral, YearNumeral, DigitValue;
    NumeralAt(s, 5);
    NumeralAt(s, i + 1);
    NumeralAt(s, j + 1);
    NumeralAt(s, k + 1);
    NumeralAt(s, l + 1);
    YearIsThere(s);
  }

  lemma Reassembled(s: string, p: Parts, i: nat, j: nat, k: nat, l: nat, n: nat)
    requires 4 < i < j < k < l < n && n + 1 == |s|
    requires p == Parts(s[..4], s[5..i], s[i + 1..j], s[j], s[j + 1..k], s[k + 1..l], s[l + 1..n], s[n])
    requires s[4] == s[i] == '-' && s[k] == s[l] == ':'
    ensures s == p.year + "-" + p.month + "-" + p.day + [p.t] + p.hour + ":" + p.minute + ":" + p.second + [p.z]
  {
    YearEnds(s);
    var months := Chop(s, 5, i, "-");
    var days := Chop(s, i + 1, j, [p.t]);
    var hours := Chop(s, j + 1, k, ":");
    var minutes := Chop(s, k + 1, l, ":");
    var seconds := Chop(s, l + 1, n, [p.z]);
    Whole(s, n);
    Assembled(p, s[..5], months, days, hours, minutes, seconds);
  }

  lemma YearEnds(s: string)
    requires |s| > 4 && s[4] == '-'
    ensures s[..5] == s[..4] + "-"
  {
  }

  lemma Chop(s: string, i: nat, j: nat, c: string) returns (u: string)
    requires i <= j < |s| && |c| == 1 && s[j] == c[0]
    ensures u == s[..j + 1] == s[..i] + s[i..j] + c
  {
    u := s[..j + 1];
  }

  lemma Whole(s: string, n: nat)
    requires n + 1 == |s|
    ensures s[..n + 1] == s
  {
  }

  lemma Assembled(p: Parts, years: string, months: string, days: string, hours: string, minutes: string, seconds: string)
    requires years == p.year + "-" && months == years + p.month + "-" && days == months + p.day + [p.t]
    requires hours == days + p.hour + ":" && minutes == hours + p.minute + ":" && seconds == minutes + p.second + [p.z]
    ensures seconds
         == p.year + "-" + p.month + "-" + p.day + [p.t] + p.hour + ":" + p.minute + ":" + p.second + [p.z]
  {
  }

  lemma YearIsThere(s: string)
    requires |s| > 4 && forall i :: 0 <= i < 4 ==> IsDigit(s[i])
    ensures YearNumeral(s[..4], 1000 * DigitValue(s[0]) + 100 * DigitValue(s[1]) + 10 * DigitValue(s[2]) + DigitValue(s[3]))
  {
  }

  /** A text names the second `t` exactly if it spells the fields of a valid date that is `t`; every
      other text does not parse. */
  lemma ParseExactly(s: string, t: int)
    ensures Parse(s) == Some(t) <==> exists p, c: Civil :: Spells(s, p, c) && c.Valid() && c.ToSeconds() == t
    ensures Parse(s).Some? ==> 14 <= |s| <= 20 && (s[|s| - 1] == 'Z' || s[|s| - 1] == 'z')
  {
    hide ParseFields, Spells;
    if ParseFields(s).Some? {
      var p := ParsedIsSpelled(s);
      SpelledLength(s, p, ParseFields(s).value);
    }
    forall p, c: Civil | Spells(s, p, c)
      ensures ParseFields(s) == Some(c)
    {
      SpelledParses(s, p, c);
    }
  }

  lemma SpelledLength(s: string, p: Parts, c: Civil)
    requires Spells(s, p, c)
    ensures 14 <= |s| <= 20 && (s[|s| - 1] == 'Z' || s[|s| - 1] == 'z')
  {
  }

  lemma EmptyIsNoTimestamp()
    ensures Parse("") == None
  {
  }
}
