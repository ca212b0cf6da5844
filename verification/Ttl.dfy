/** lambda/shardvpn/ttl.py */
module Ttl {
  import opened Calendar
  import opened Words
  import opened Wrappers
  import Decimal

  const NEVER := "never"
  const MAX_TTL_SECONDS := 365 * DAY

  // ttl.py:21-22; fractions of a second are dropped.
  function Rfc3339(now: Micros): string
    requires 0 <= now < END_OF_TIME
  {
    ToCivilIsExact(now / SECOND);
    Print(ToCivil(now / SECOND))
  }

  /** A printed timestamp parses back to its own whole second. */
  lemma Rfc3339Parses(now: Micros)
    requires 0 <= now < END_OF_TIME
    ensures Parse(Rfc3339(now)) == Some(now / SECOND)
  {
    ToCivilIsExact(now / SECOND);
    PrintParses(ToCivil(now / SECOND));
  }

  lemma Rfc3339IsNotNever(now: Micros)
    requires 0 <= now < END_OF_TIME
    ensures Rfc3339(now) != NEVER && Rfc3339(now) != ""
  {
    Rfc3339Parses(now);
  }

  // The ttl field as it comes out of parsed JSON.
  datatype TtlArg = Missing | Text(s: string) | NotText

  datatype TtlError = MalformedTtl

  predicate IsUnit(c: char) { c == 'm' || c == 'h' || c == 'd' }

  function UnitSeconds(c: char): nat {
    if c == 'm' then 60 else if c == 'h' then 3600 else DAY
  }

  predicate IsCount(s: string) {
    |s| >= 1 && forall i :: 0 <= i < |s| ==> IsDigit(s[i])
  }

  predicate HasTtlShape(s: string) {
    |s| >= 2 && IsCount(s[..|s| - 1]) && IsUnit(s[|s| - 1])
  }

  function TtlSeconds(s: string): nat
    requires HasTtlShape(s)
  {
    Decimal.ParseInt(s[..|s| - 1]) * UnitSeconds(s[|s| - 1])
  }

  // Python's int() raises ValueError on a longer run of digits.
  const MAX_INT_DIGITS := 4300

  // ttl.py:29-56
  function ParseTtl(ttl: TtlArg, now: Micros): Result<string, TtlError>
    requires 0 <= now && now + MAX_TTL_SECONDS * SECOND < END_OF_TIME
  {
    match ttl
    case Missing => Success(NEVER)
    case NotText => Failure(MalformedTtl)
    case Text(s) =>
      if s == NEVER || s == "none" then Success(NEVER)
      else if !HasTtlShape(s) || |s| - 1 > MAX_INT_DIGITS then Failure(MalformedTtl)
      else if TtlSeconds(s) < 60 || TtlSeconds(s) > MAX_TTL_SECONDS then Failure(MalformedTtl)
      else Success(Rfc3339(now + TtlSeconds(s) * SECOND))
  }

  // ttl.py:59-70
  predicate IsExpired(expires: string, now: Micros) {
    if expires == NEVER then false
    else match Parse(expires)
      case None => false
      case Some(at) => at * SECOND <= now
  }

  /** An accepted TTL of `s` seconds runs out exactly `s` seconds after the launch second. */
  lemma TtlEndToEnd(ttl: TtlArg, launch: Micros, t: Micros)
    requires 0 <= launch && launch + MAX_TTL_SECONDS * SECOND < END_OF_TIME
    requires ParseTtl(ttl, launch).Success?
    ensures var expires := ParseTtl(ttl, launch).value;
      if expires == NEVER then !IsExpired(expires, t)
      else && ttl.Text? && HasTtlShape(ttl.s) && 60 <= TtlSeconds(ttl.s) <= MAX_TTL_SECONDS
           && Parse(expires) == Some(launch / SECOND + TtlSeconds(ttl.s))
           && (IsExpired(expires, t) <==> t >= (launch / SECOND + TtlSeconds(ttl.s)) * SECOND)
  {
    hide Rfc3339, Parse, HasTtlShape, TtlSeconds;
    if ttl.Text? && ttl.s != NEVER && ttl.s != "none" {
      var s := TtlSeconds(ttl.s);
      Rfc3339Parses(launch + s * SECOND);
      Rfc3339IsNotNever(launch + s * SECOND);
      assert (launch + s * SECOND) / SECOND == launch / SECOND + s;
    }
  }

  // ttl.py:73-82
  function FormatDuration(seconds: int): string {
    var s := if seconds < 0 then 0 else seconds;
    Render(s / DAY, s % DAY / 3600, s % 3600 / 60)
  }

  function Render(days: nat, hours: nat, minutes: nat): string {
    var m := Decimal.Digits(minutes) + ['m'];
    var h := Decimal.Digits(hours) + ['h'] + m;
    if days > 0 then Decimal.Digits(days) + ['d'] + h else if hours > 0 then h else m
  }

  function InMinutes(n: nat, unit: char): nat {
    if unit == 'm' then n else if unit == 'h' then 60 * n else 1440 * n
  }

  // How a reader takes a rendered duration apart again: digits make a count, a unit ends it.
  function ReadMinutes(s: string, count: nat := 0): Option<nat> {
    if s == "" then (if count == 0 then Some(0) else None)
    else if IsDigit(s[0]) then ReadMinutes(s[1..], 10 * count + DigitValue(s[0]))
    else if IsUnit(s[0]) then
      match ReadMinutes(s[1..], 0)
      case None => None
      case Some(rest) => Some(InMinutes(count, s[0]) + rest)
    else None
  }

  lemma {:induction false} ReadCount(digits: string, rest: string)
    requires forall i :: 0 <= i < |digits| ==> IsDigit(digits[i])
    ensures ReadMinutes(digits + rest) == ReadMinutes(rest, Decimal.ParseInt(digits))
  {
    if digits == "" {
      assert digits + rest == rest;
    } else {
      var n := |digits| - 1;
      ReadCount(digits[..n], [digits[n]] + rest);
      assert digits + rest == digits[..n] + ([digits[n]] + rest);
      assert ([digits[n]] + rest)[1..] == rest;
    }
  }

  lemma ReadPart(n: nat, unit: char, rest: string)
    requires IsUnit(unit) && ReadMinutes(rest).Some?
    ensures ReadMinutes(Decimal.Digits(n) + [unit] + rest)
         == Some(InMinutes(n, unit) + ReadMinutes(rest).value)
  {
    hide ReadMinutes, Decimal.Digits, Decimal.ParseInt;
    Decimal.DigitsParse(n);
    ReadCount(Decimal.Digits(n), [unit] + rest);
    ReadUnit(n, unit, rest);
    assert Decimal.Digits(n) + [unit] + rest == Decimal.Digits(n) + ([unit] + rest);
  }

  lemma ReadUnit(count: nat, unit: char, rest: string)
    requires IsUnit(unit) && ReadMinutes(rest).Some?
    ensures ReadMinutes([unit] + rest, count) == Some(InMinutes(count, unit) + ReadMinutes(rest).value)
  {
    var s := [unit] + rest;
    assert s[0] == unit && s[1..] == rest;
  }

  lemma RenderReads(days: nat, hours: nat, minutes: nat)
    ensures ReadMinutes(Render(days, hours, minutes))
         == Some((if days > 0 then 1440 * days else 0) + (if days > 0 || hours > 0 then 60 * hours else 0) + minutes)
  {
    NothingToRead();
    var m := Decimal.Digits(minutes) + ['m'];
    hide ReadMinutes, Decimal.Digits;
    ReadPart(minutes, 'm', "");
    assert m + "" == m;
    ReadPart(hours, 'h', m);
    ReadPart(days, 'd', Decimal.Digits(hours) + ['h'] + m);
  }

  /** A rendered duration tells exactly the whole minutes, so no two differing by one collide. */
  lemma FormatDurationReads(seconds: int)
    ensures ReadMinutes(FormatDuration(seconds)) == Some((if seconds < 0 then 0 else seconds) / 60)
  {
    hide ReadMinutes, Render;
    var s := if seconds < 0 then 0 else seconds;
    RenderReads(s / DAY, s % DAY / 3600, s % 3600 / 60);
    WholeMinutes(s);
  }

  lemma NothingToRead()
    ensures ReadMinutes("") == Some(0)
  {
  }

  lemma WholeMinutes(s: nat)
    ensures 1440 * (s / DAY) + 60 * (s % DAY / 3600) + s % 3600 / 60 == s / 60
  {
    var days, rest := s / DAY, s % DAY;
    var hours, seconds := rest / 3600, rest % 3600;
    DivModUnique(s, 3600, 24 * days + hours, seconds);
    DivModUnique(s, 60, 1440 * days + 60 * hours + seconds / 60, seconds % 60);
  }

  // ---- which texts these operations accept ----

  /** Only a well-formed timestamp that has passed is an expiry that has run out: neither "never"
      nor a text that does not parse ever is. */
  lemma IsExpiredExactly(expires: string, t: Micros)
    ensures IsExpired(expires, t) <==> expires != "never" && exists s :: Parse(expires) == Some(s) && s * 1_000_000 <= t
  {
    hide Parse;
  }

  // `s` is a run of digits and a unit, and stands for `seconds`.
  ghost predicate IsDuration(s: string, digits: string, seconds: nat) {
    && 1 <= |digits| <= 4300 && (forall i :: 0 <= i < |digits| ==> '0' <= digits[i] <= '9')
    && ((s == digits + "m" && seconds == 60 * Decimal.ParseInt(digits))
        || (s == digits + "h" && seconds == 3600 * Decimal.ParseInt(digits))
        || (s == digits + "d" && seconds == 86400 * Decimal.ParseInt(digits)))
  }

  lemma DurationIsTtl(s: string, digits: string, seconds: nat)
    requires IsDuration(s, digits, seconds)
    ensures HasTtlShape(s) && |s| - 1 <= 4300 && TtlSeconds(s) == seconds
  {
    hide Decimal.ParseInt;
    assert s[..|s| - 1] == digits && s[|s| - 1] == s[|digits|];
  }

  lemma TtlIsDuration(s: string)
    requires HasTtlShape(s) && |s| - 1 <= 4300
    ensures IsDuration(s, s[..|s| - 1], TtlSeconds(s))
  {
    hide Decimal.ParseInt;
    assert s == s[..|s| - 1] + [s[|s| - 1]];
  }

  lemma DurationIsAccepted(s: string, digits: string, seconds: nat, now: Micros)
    requires 0 <= now && now + MAX_TTL_SECONDS * SECOND < END_OF_TIME && IsDuration(s, digits, seconds)
    ensures ParseTtl(Text(s), now).Success? <==> 60 <= seconds <= 31_536_000
    ensures 60 <= seconds <= 31_536_000 ==>
              ParseTtl(Text(s), now) == Success(Rfc3339(now + seconds * 1_000_000)) && s != "never" && s != "none"
              && ParseTtl(Text(s), now) != Success("never")
  {
    hide Rfc3339, HasTtlShape, TtlSeconds, IsDuration;
    NamesAreNoDurations();
    DurationIsTtl(s, digits, seconds);
    if 60 <= seconds <= 31_536_000 {
      Rfc3339IsNotNever(now + seconds * SECOND);
    }
  }

  lemma NamesAreNoDurations()
    ensures !HasTtlShape("never") && !HasTtlShape("none")
  {
  }

  lemma AcceptedIsDuration(s: string, now: Micros) returns (digits: string, seconds: nat)
    requires 0 <= now && now + MAX_TTL_SECONDS * SECOND < END_OF_TIME
    requires ParseTtl(Text(s), now).Success? && s != "never" && s != "none"
    ensures IsDuration(s, digits, seconds)
  {
    hide Rfc3339, TtlSeconds, IsDuration;
    TtlIsDuration(s);
    digits, seconds := s[..|s| - 1], TtlSeconds(s);
  }

  /** A TTL is accepted exactly if it is missing, "never", "none", or a duration of a minute to a
      year, and runs that long. */
  lemma ParseTtlExactly(s: string, now: Micros)
    requires 0 <= now && now + MAX_TTL_SECONDS * SECOND < END_OF_TIME
    ensures ParseTtl(Missing, now) == Success("never") && ParseTtl(NotText, now).Failure?
    ensures ParseTtl(Text(s), now) == Success("never") <==> s == "never" || s == "none"
    ensures ParseTtl(Text(s), now).Success?
       <==> || s == "never" || s == "none"
            || exists digits, seconds: nat :: IsDuration(s, digits, seconds) && 60 <= seconds <= 31_536_000
    ensures forall digits, seconds: nat :: IsDuration(s, digits, seconds) && ParseTtl(Text(s), now).Success? ==>
              seconds <= 31_536_000 && ParseTtl(Text(s), now).value == Rfc3339(now + seconds * 1_000_000)
  {
    TtlNames(now);
    hide Rfc3339, IsDuration, ParseTtl;
    forall digits, seconds: nat | IsDuration(s, digits, seconds)
      ensures ParseTtl(Text(s), now).Success? <==> 60 <= seconds <= 31_536_000
      ensures 60 <= seconds <= 31_536_000 ==>
                ParseTtl(Text(s), now) == Success(Rfc3339(now + seconds * 1_000_000)) && s != "never" && s != "none"
                && ParseTtl(Text(s), now) != Success("never")
    {
      DurationIsAccepted(s, digits, seconds, now);
    }
    if ParseTtl(Text(s), now).Success? && s != "never" && s != "none" {
      var digits, seconds := AcceptedIsDuration(s, now);
    }
  }

  lemma TtlNames(now: Micros)
    requires 0 <= now && now + MAX_TTL_SECONDS * SECOND < END_OF_TIME
    ensures ParseTtl(Missing, now) == ParseTtl(Text("never"), now) == ParseTtl(Text("none"), now) == Success("never")
    ensures ParseTtl(NotText, now).Failure?
  {
  }

  /** The larger units appear exactly when there are any. */
  lemma FormatDurationShape(seconds: int)
    ensures var text := FormatDuration(seconds);
      && text != "" && text[|text| - 1] == 'm'
      && ('h' in text <==> seconds >= 3600)
      && ('d' in text <==> seconds >= 86400)
  {
    hide Decimal.Digits;
    var s := if seconds < 0 then 0 else seconds;
    Decimal.DigitsParse(s / DAY);
    Decimal.DigitsParse(s % DAY / 3600);
    Decimal.DigitsParse(s % 3600 / 60);
  }
}
