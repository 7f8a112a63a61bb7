/** CIMDateTime: the 25-character form of points in time and intervals (section 5.2.4 of DSP0004 2.7). */
module DateTime {
  import opened Text

  // ---------------------------------------------------------------- Python's timedelta and datetime

  /** A normalised timedelta: only the days may be negative. */
  datatype Delta = Delta(days: int, seconds: int, microseconds: int)

  predicate DeltaOk(d: Delta) {
    0 <= d.seconds < 86400 && 0 <= d.microseconds < 1000000
  }

  function Microseconds(d: Delta): int {
    (d.days * 86400 + d.seconds) * 1000000 + d.microseconds
  }

  /** timedelta(days, hours, minutes, seconds, microseconds): carries go up, rounding is toward minus infinity. */
  function Timedelta(days: int, hours: int, minutes: int, seconds: int, microseconds: int): (d: Delta)
    ensures DeltaOk(d)
    ensures Microseconds(d) == (((days * 24 + hours) * 60 + minutes) * 60 + seconds) * 1000000 + microseconds
  {
    var s := seconds + minutes * 60 + hours * 3600 + microseconds / 1000000;
    Delta(days + s / 86400, s % 86400, microseconds % 1000000)
  }

  /** A datetime; `offset` is utcoffset() in minutes, None for a naive one. Python 2 admits whole minutes only. */
  datatype Moment = Moment(
    year: nat, month: nat, day: nat, hour: nat, minute: nat, second: nat, microsecond: nat, offset: Option<Delta>)

  predicate IsLeap(year: int) {
    year % 4 == 0 && (year % 100 != 0 || year % 400 == 0)
  }

  function DaysIn(year: int, month: int): int {
    if month == 2 then if IsLeap(year) then 29 else 28
    else if month == 4 || month == 6 || month == 9 || month == 11 then 30
    else 31
  }

  predicate FieldsOk(m: Moment) {
    && 1 <= m.year <= 9999 && 1 <= m.month <= 12 && 1 <= m.day <= DaysIn(m.year, m.month)
    && m.hour < 24 && m.minute < 60 && m.second < 60 && m.microsecond < 1000000
  }

  /** Every fourth year but three in four hundred is a leap year. */
  lemma LeapYears(year: int)
    ensures IsLeap(year) <==> year % 4 == 0 && year % 400 !in {100, 200, 300}
  {
    hide IsLeap;
    var place := year % 400;
    SamePlace(year);
    LeapByPlace(year);
    var century := place / 100;
    assert place == 100 * century + place % 100 && 0 <= century <= 3;
  }

  lemma LeapByPlace(year: int)
    ensures IsLeap(year) <==> year % 4 == 0 && (year % 100 != 0 || year % 400 == 0)
  {
  }

  /** Four hundred years are a cycle of the calendar. */
  lemma SamePlace(year: int)
    ensures year % 100 == year % 400 % 100
  {
    var place := year % 400;
    var centuries := 4 * (year / 400) + place / 100;
    assert place == 100 * (place / 100) + place % 100;
    RestOfCentury(year, centuries, place % 100);
  }

  lemma RestOfCentury(year: int, centuries: int, rest: int)
    requires year == 100 * centuries + rest && 0 <= rest < 100
    ensures year % 100 == rest
  {
  }

  lemma Calendar(year: int, month: int)
    requires 1 <= month <= 12
    ensures var february := if year % 4 == 0 && year % 400 !in {100, 200, 300} then 29 else 28;
            DaysIn(year, month) == [31, february, 31, 30, 31, 30, 31, 31, 30, 31, 30, 31][month - 1]
  {
    hide IsLeap;
    LeapYears(year);
  }

  /** The last moment of a month and the first of all, and nothing beyond them. */
  lemma Bounds(m: Moment)
    requires 1 <= m.year <= 9999 && 1 <= m.month <= 12 && m.day == DaysIn(m.year, m.month)
    requires m.hour == 23 && m.minute == 59 && m.second == 59 && m.microsecond == 999999
    ensures FieldsOk(m) && FieldsOk(Moment(1, 1, 1, 0, 0, 0, 0, m.offset))
    ensures !FieldsOk(m.(day := m.day + 1)) && !FieldsOk(m.(hour := 24)) && !FieldsOk(m.(minute := 60))
    ensures !FieldsOk(m.(second := 60)) && !FieldsOk(m.(microsecond := 1000000))
    ensures !FieldsOk(m.(year := 10000)) && !FieldsOk(m.(month := 13))
    ensures !FieldsOk(m.(year := 0)) && !FieldsOk(m.(month := 0)) && !FieldsOk(m.(day := 0))
  {
  }

  /** MinutesFromUTC(k).utcoffset() */
  function Offset(k: int): Delta {
    Timedelta(0, 0, k, 0, 0)
  }

  /** A CIMDateTime holds one or the other. */
  datatype CIMDateTime = Point(m: Moment) | Interval(d: Delta)

  datatype ValueError = InvalidFormat | OutOfRange

  // ---------------------------------------------------------------- minutes_from_utc

  function MinutesFromUtc(m: Moment): int {
    match m.offset
    case None => 0
    case Some(delta) =>
      var offset := delta.seconds / 60;
      if delta.days == -1 then -(60 * 24 - offset) else offset
  }

  lemma OffsetIsMinutes(k: int)
    ensures DeltaOk(Offset(k)) && Microseconds(Offset(k)) == k * 60 * 1000000
  {
  }

  lemma OffsetIsRecovered(k: int, m: Moment)
    requires -1440 < k < 1440 && m.offset == Some(Offset(k))
    ensures MinutesFromUtc(m) == k
  {
  }

  // ---------------------------------------------------------------- fixed-width numbers

  function Zeros(n: nat): (s: string)
    ensures |s| == n && AllDigits(s)
  {
    if n == 0 then "" else ['0'] + Zeros(n - 1)
  }

  /** '%0wd' of a natural number. */
  function Padded(n: nat, w: nat): (s: string)
    ensures AllDigits(s) && |s| >= w
  {
    var d := Decimal(n);
    if |d| >= w then d else Zeros(w - |d|) + d
  }

  lemma {:induction false} LeadingZeros(n: nat, d: string)
    requires AllDigits(d)
    ensures NumberOf(Zeros(n) + d) == NumberOf(d)
    decreases |d|, n
  {
    var s := Zeros(n) + d;
    if d != "" {
      assert s[..|s| - 1] == Zeros(n) + d[..|d| - 1];
      LeadingZeros(n, d[..|d| - 1]);
    } else if n > 0 {
      assert s == Zeros(n);
      ZerosEnd(n);
      assert s[..n - 1] == Zeros(n - 1) + "";
      LeadingZeros(n - 1, "");
    }
  }

  lemma {:induction false} ZerosEnd(n: nat)
    requires n > 0
    ensures Zeros(n)[..n - 1] == Zeros(n - 1) && Zeros(n)[n - 1] == '0'
  {
    if n > 1 {
      ZerosEnd(n - 1);
      assert Zeros(n)[..n - 1] == ['0'] + Zeros(n - 1)[..n - 2];
    }
  }

  lemma PaddedIs(n: nat, w: nat)
    requires w >= 1
    ensures NumberOf(Padded(n, w)) == n
    ensures |Padded(n, w)| == w <==> n < PowerOfTen(w)
  {
    var d := Decimal(n);
    NumberOfDecimal(n);
    LengthOfDecimal(n, w);
    if |d| < w {
      LeadingZeros(w - |d|, d);
    }
  }

  /** Two digit strings of one length that stand for the same number are the same. */
  lemma {:induction false} SameNumber(s: string, t: string)
    requires AllDigits(s) && AllDigits(t) && |s| == |t| && NumberOf(s) == NumberOf(t)
    ensures s == t
  {
    if s != "" {
      var n := |s| - 1;
      assert DigitValue(s[n]) == DigitValue(t[n]) && NumberOf(s[..n]) == NumberOf(t[..n]);
      SameNumber(s[..n], t[..n]);
      assert s == s[..n] + [s[n]] && t == t[..n] + [t[n]];
    }
  }

  lemma PaddedOfNumber(s: string)
    requires s != "" && AllDigits(s)
    ensures Padded(NumberOf(s), |s|) == s
  {
    NumberBelowPower(s);
    PaddedIs(NumberOf(s), |s|);
    SameNumber(Padded(NumberOf(s), |s|), s);
  }

  // ---------------------------------------------------------------- runs of fields

  function Width(ws: seq<nat>): nat {
    if ws == [] then 0 else ws[0] + Width(ws[1..])
  }

  function PrintFields(ns: seq<nat>, ws: seq<nat>): (s: string)
    requires |ns| == |ws|
    ensures AllDigits(s) && |s| >= Width(ws)
  {
    if ns == [] then "" else Padded(ns[0], ws[0]) + PrintFields(ns[1..], ws[1..])
  }

  /** (\d{w0})(\d{w1})… at the start of s: the numbers, and what follows. */
  function MatchFields(s: string, ws: seq<nat>): (r: Option<(seq<nat>, string)>)
    ensures r.Some? ==> |r.value.0| == |ws|
  {
    if ws == [] then Some(([], s))
    else if |s| < ws[0] || !AllDigits(s[..ws[0]]) then None
    else
      match MatchFields(s[ws[0]..], ws[1..])
      case None => None
      case Some((ns, rest)) => Some(([NumberOf(s[..ws[0]])] + ns, rest))
  }

  predicate Fit(ns: seq<nat>, ws: seq<nat>)
    requires |ns| == |ws|
  {
    forall i :: 0 <= i < |ns| ==> ws[i] >= 1 && ns[i] < PowerOfTen(ws[i])
  }

  lemma MatchNone(t: string)
    ensures MatchFields(PrintFields([], []) + t, []) == Some(([], t))
  {
    assert "" + t == t;
  }

  lemma PrintInParts(ns: seq<nat>, ws: seq<nat>, t: string)
    requires |ns| == |ws| && ns != []
    ensures PrintFields(ns, ws) + t == Padded(ns[0], ws[0]) + (PrintFields(ns[1..], ws[1..]) + t)
    ensures [ns[0]] + ns[1..] == ns
  {
    hide Padded;
    var p, q := Padded(ns[0], ws[0]), PrintFields(ns[1..], ws[1..]);
    assert PrintFields(ns, ws) == p + q;
    hide PrintFields;
    Associate(p, q, t);
  }

  lemma Associate(p: string, q: string, t: string)
    ensures p + q + t == p + (q + t)
  {
  }

  lemma MatchOne(p: string, rest: string, ws: seq<nat>)
    requires ws != [] && AllDigits(p) && |p| == ws[0]
    ensures var tail := MatchFields(rest, ws[1..]);
            MatchFields(p + rest, ws)
            == (if tail.None? then None else Some(([NumberOf(p)] + tail.value.0, tail.value.1)))
  {
  }

  lemma FitInParts(ns: seq<nat>, ws: seq<nat>)
    requires |ns| == |ws| && ns != []
    ensures Fit(ns, ws) <==> ws[0] >= 1 && ns[0] < PowerOfTen(ws[0]) && Fit(ns[1..], ws[1..])
  {
  }

  lemma {:induction false} FieldsArePrinted(ns: seq<nat>, ws: seq<nat>, t: string)
    requires |ns| == |ws| && Fit(ns, ws)
    ensures MatchFields(PrintFields(ns, ws) + t, ws) == Some((ns, t))
    decreases |ns|
  {
    hide Padded, PowerOfTen, NumberOf, MatchFields, Fit, AllDigits, PrintFields;
    if ns == [] {
      MatchNone(t);
    } else {
      FitInParts(ns, ws);
      var p := Padded(ns[0], ws[0]);
      PaddedIs(ns[0], ws[0]);
      FieldsArePrinted(ns[1..], ws[1..], t);
      MatchOne(p, PrintFields(ns[1..], ws[1..]) + t, ws);
      PrintInParts(ns, ws, t);
    }
  }

  lemma MatchedFirst(s: string, ws: seq<nat>)
    requires MatchFields(s, ws).Some? && ws != []
    ensures |s| >= ws[0] && AllDigits(s[..ws[0]]) && MatchFields(s[ws[0]..], ws[1..]).Some?
    ensures var (ns, rest) := MatchFields(s[ws[0]..], ws[1..]).value;
            MatchFields(s, ws).value == ([NumberOf(s[..ws[0]])] + ns, rest)
  {
    hide NumberOf;
  }

  lemma NothingPrinted(s: string)
    ensures PrintFields([], []) + s == s
  {
    assert "" + s == s;
  }

  /** What is matched is exactly what would be printed. */
  lemma {:induction false} MatchedIsPrinted(s: string, ws: seq<nat>)
    requires MatchFields(s, ws).Some? && forall i :: 0 <= i < |ws| ==> ws[i] >= 1
    ensures var (ns, rest) := MatchFields(s, ws).value; Fit(ns, ws) && s == PrintFields(ns, ws) + rest
    decreases |ws|
  {
    if ws == [] {
      NothingPrinted(s);
    } else {
      hide Padded, PowerOfTen, NumberOf, MatchFields, Fit, PrintFields, AllDigits;
      MatchedFirst(s, ws);
      var p, tail := s[..ws[0]], s[ws[0]..];
      var (ns, rest) := MatchFields(tail, ws[1..]).value;
      MatchedIsPrinted(tail, ws[1..]);
      NumberBelowPower(p);
      PaddedOfNumber(p);
      assert s == p + tail;
      FieldInFront(p, ns, ws, rest);
    }
  }

  lemma FieldInFront(p: string, ns: seq<nat>, ws: seq<nat>, rest: string)
    requires p != "" && AllDigits(p) && |ws| == |ns| + 1 && ws[0] == |p| && Fit(ns, ws[1..])
    requires NumberOf(p) < PowerOfTen(|p|) && Padded(NumberOf(p), |p|) == p
    ensures var all := [NumberOf(p)] + ns;
            Fit(all, ws) && PrintFields(all, ws) + rest == p + (PrintFields(ns, ws[1..]) + rest)
  {
    hide Padded, PowerOfTen, NumberOf, Fit;
    var all := [NumberOf(p)] + ns;
    assert all[1..] == ns;
    FitInParts(all, ws);
  }

  /** A run of digits: too short and nothing matches, too long and the rest of it is left over. */
  lemma {:induction false} DigitRun(d: string, t: string, ws: seq<nat>)
    requires AllDigits(d) && t != "" && !IsDigit(t[0])
    ensures |d| < Width(ws) ==> MatchFields(d + t, ws) == None
    ensures |d| >= Width(ws) ==>
      MatchFields(d + t, ws).Some? && MatchFields(d + t, ws).value.1 == d[Width(ws)..] + t
    decreases |ws|
  {
    if ws == [] {
      assert d[0..] == d;
    } else {
      var w := ws[0];
      if |d| < w {
        if |d + t| >= w {
          assert (d + t)[..w][|d|] == t[0];
        }
      } else {
        assert (d + t)[..w] == d[..w] && (d + t)[w..] == d[w..] + t;
        DigitRun(d[w..], t, ws[1..]);
        assert |d| >= Width(ws) ==> d[w..][Width(ws[1..])..] == d[Width(ws)..];
      }
    }
  }

  // ---------------------------------------------------------------- the two patterns

  const DATE: seq<nat> := [4, 2, 2, 2, 2, 2]
  const INTERVAL: seq<nat> := [8, 2, 2, 2]

  datatype Groups = Groups(fields: seq<nat>, micros: nat, mark: char, zone: nat)

  /** \.(\d{6})(.)(\d{3}); neither pattern is anchored at the end. */
  function MatchTail(s: string): Option<(nat, char, nat)> {
    if s == "" || s[0] != '.' then None
    else
      match MatchFields(s[1..], [6])
      case None => None
      case Some((micros, t)) =>
        if t == "" then None
        else
          match MatchFields(t[1..], [3])
          case None => None
          case Some((zone, _)) => Some((micros[0], t[0], zone[0]))
  }

  function Match(s: string, ws: seq<nat>): (r: Option<Groups>)
    ensures r.Some? ==> |r.value.fields| == |ws|
  {
    match MatchFields(s, ws)
    case None => None
    case Some((ns, t)) =>
      match MatchTail(t)
      case None => None
      case Some((micros, mark, zone)) => Some(Groups(ns, micros, mark, zone))
  }

  /** The class [+|-] has three members. */
  predicate IsSign(c: char) {
    c == '+' || c == '|' || c == '-'
  }

  function MomentOf(g: Groups): Moment
    requires |g.fields| == 6
  {
    var zone: int := g.zone;
    Moment(g.fields[0], g.fields[1], g.fields[2], g.fields[3], g.fields[4], g.fields[5], g.micros,
           Some(Offset(if g.mark == '-' then -zone else zone)))
  }

  function DeltaOf(g: Groups): Delta
    requires |g.fields| == 4
  {
    Timedelta(g.fields[0], g.fields[1], g.fields[2], g.fields[3], g.micros)
  }

  /** CIMDateTime(s) */
  function Parse(s: string): Result<CIMDateTime, ValueError> {
    var date := Match(s, DATE);
    if date.Some? && IsSign(date.value.mark) then
      var m := MomentOf(date.value);
      if FieldsOk(m) then Ok(Point(m)) else Err(OutOfRange)
    else
      var interval := Match(s, INTERVAL);
      if interval.Some? && interval.value.mark == ':' && interval.value.zone == 0 then
        Ok(Interval(DeltaOf(interval.value)))
      else Err(InvalidFormat)
  }

  // ---------------------------------------------------------------- printing

  function Tail(micros: nat, mark: char, zone: nat): string {
    "." + (Padded(micros, 6) + ([mark] + Padded(zone, 3)))
  }

  predicate CIMDateTimeOk(c: CIMDateTime) {
    if c.Point? then FieldsOk(c.m) else DeltaOk(c.d)
  }

  function ClockFields(d: Delta): (ns: seq<nat>)
    requires DeltaOk(d)
    ensures |ns| == 3
  {
    var hour := d.seconds / 3600;
    var left := d.seconds - hour * 3600;
    var minute := left / 60;
    [hour, minute, left - minute * 60]
  }

  /** str(): years are not padded, and '%08d' of negative days starts with a minus sign. */
  function Str(c: CIMDateTime): string
    requires CIMDateTimeOk(c)
  {
    match c
    case Interval(d) =>
      (if d.days >= 0 then Padded(d.days, 8) else "-" + Padded(-d.days, 7))
      + PrintFields(ClockFields(d), [2, 2, 2]) + Tail(d.microseconds, ':', 0)
    case Point(m) =>
      var offset := MinutesFromUtc(m);
      Decimal(m.year) + PrintFields([m.month, m.day, m.hour, m.minute, m.second], [2, 2, 2, 2, 2])
      + (if offset < 0 then Tail(m.microsecond, '-', -offset) else Tail(m.microsecond, '+', offset))
  }

  // ---------------------------------------------------------------- printing, then parsing

  lemma Powers()
    ensures PowerOfTen(1) == 10 && PowerOfTen(2) == 100 && PowerOfTen(3) == 1000 && PowerOfTen(4) == 10000
    ensures PowerOfTen(6) == 1000000 && PowerOfTen(7) == 10000000 && PowerOfTen(8) == 100000000
  {
  }

  /** Only the first three digits of a zone are read. */
  function ZoneRead(zone: nat): nat {
    if zone < 1000 then zone else zone / 10
  }

  lemma ZoneIsMatched(zone: nat)
    requires zone < 10000
    ensures MatchFields(Padded(zone, 3), [3]).Some? && MatchFields(Padded(zone, 3), [3]).value.0 == [ZoneRead(zone)]
  {
    Powers();
    var z := ZoneRead(zone);
    var rest := if zone < 1000 then "" else [DigitChar(zone % 10)];
    LengthOfDecimal(z, 3);
    LengthOfDecimal(z, 2);
    LengthOfDecimal(zone, 3);
    assert PrintFields([z], [3]) == Padded(z, 3) + "";
    assert Padded(zone, 3) == PrintFields([z], [3]) + rest;
    FieldsArePrinted([z], [3], rest);
  }

  lemma TailIsMatched(micros: nat, mark: char, zone: nat)
    requires micros < 1000000 && zone < 10000
    ensures MatchTail(Tail(micros, mark, zone)) == Some((micros, mark, ZoneRead(zone)))
  {
    hide Padded, PowerOfTen, MatchFields, ZoneRead;
    Powers();
    var t := [mark] + Padded(zone, 3);
    assert PrintFields([micros], [6]) == Padded(micros, 6) by {
      assert Padded(micros, 6) + "" == Padded(micros, 6);
    }
    FieldsArePrinted([micros], [6], t);
    assert Tail(micros, mark, zone)[1..] == Padded(micros, 6) + t;
    assert t[1..] == Padded(zone, 3);
    ZoneIsMatched(zone);
  }

  lemma Widths()
    ensures Width(DATE) == 14 && Width(INTERVAL) == 14
  {
  }

  /** Fourteen digits in front of the tail are needed and enough for either pattern to get as far as the tail. */
  lemma RunThenTail(d: string, micros: nat, mark: char, zone: nat, ws: seq<nat>)
    requires AllDigits(d) && Width(ws) == 14 && micros < 1000000 && zone < 10000
    ensures var r := Match(d + Tail(micros, mark, zone), ws);
            if |d| != 14 then r == None
            else r.Some? && r.value == Groups(r.value.fields, micros, mark, ZoneRead(zone))
  {
    hide MatchFields, Padded, ZoneRead;
    var t := Tail(micros, mark, zone);
    DigitRun(d, t, ws);
    TailIsMatched(micros, mark, zone);
    assert |d| == 14 ==> d[14..] + t == t;
    assert |d| > 14 ==> (d[14..] + t)[0] == d[14];
  }

  /** The groups both patterns find in a printed interval. */
  lemma IntervalIsMatched(d: Delta)
    requires DeltaOk(d) && d.days >= 0
    ensures var s := Str(Interval(d));
            if d.days >= 100000000 then Match(s, DATE) == None && Match(s, INTERVAL) == None
            else Match(s, INTERVAL) == Some(Groups([d.days] + ClockFields(d), d.microseconds, ':', 0))
                 && Match(s, DATE).Some? && Match(s, DATE).value.mark == ':'
  {
    IntervalInParts(d);
    PaddedDays(d);
    var t := Tail(d.microseconds, ':', 0);
    var ns := [d.days] + ClockFields(d);
    var run := PrintFields(ns, INTERVAL);
    Widths();
    ZeroZone();
    hide Match, Str, Tail, ClockFields, Fit, Width, ZoneRead;
    RunThenTail(run, d.microseconds, ':', 0, DATE);
    RunThenTail(run, d.microseconds, ':', 0, INTERVAL);
    if d.days < 100000000 {
      IntervalFits(d);
      FieldsAreMatched(ns, INTERVAL, t);
    }
  }

  lemma FieldsAreMatched(ns: seq<nat>, ws: seq<nat>, t: string)
    requires |ns| == |ws| && Fit(ns, ws) && Match(PrintFields(ns, ws) + t, ws).Some?
    ensures Match(PrintFields(ns, ws) + t, ws).value.fields == ns
  {
    hide MatchFields, PrintFields, Fit;
    FieldsArePrinted(ns, ws, t);
  }

  /** The main result for intervals: every timedelta, negative or not, comes back exactly when its days are from 0
      to 99999999; any other is refused. */
  lemma IntervalRoundTrip(d: Delta)
    requires DeltaOk(d)
    ensures Parse(Str(Interval(d))) == if 0 <= d.days < 100000000 then Ok(Interval(d)) else Err(InvalidFormat)
  {
    hide Parse, Match, Str, ClockFields, Timedelta, DeltaOk;
    if d.days < 0 {
      NegativeIsRefused(d);
    } else {
      IntervalIsMatched(d);
      DeltaIsRebuilt(d);
      MatchedInterval(Str(Interval(d)));
    }
  }

  /** What the groups of the two patterns say about the result, if the first finds no sign. */
  lemma MatchedInterval(s: string)
    requires Match(s, DATE).None? || Match(s, DATE).value.mark == ':'
    ensures var i := Match(s, INTERVAL);
            Parse(s) == if i.Some? && i.value.mark == ':' && i.value.zone == 0 then Ok(Interval(DeltaOf(i.value)))
                        else Err(InvalidFormat)
  {
    hide Match, Timedelta;
  }

  lemma AcceptedGroups(s: string)
    requires Parse(s).Ok?
    ensures Parse(s).value.Interval? ==>
      var g := Match(s, INTERVAL);
      g.Some? && g.value.mark == ':' && g.value.zone == 0 && Parse(s).value.d == DeltaOf(g.value)
    ensures Parse(s).value.Point? ==>
      var g := Match(s, DATE);
      g.Some? && IsSign(g.value.mark) && Parse(s).value.m == MomentOf(g.value) && FieldsOk(MomentOf(g.value))
  {
    hide Match, FieldsOk, Offset, Timedelta;
  }

  lemma ZeroZone()
    ensures ZoneRead(0) == 0
  {
  }

  lemma NegativeIsRefused(d: Delta)
    requires DeltaOk(d) && d.days < 0
    ensures Parse(Str(Interval(d))) == Err(InvalidFormat)
  {
    hide Padded, PrintFields, Tail, ClockFields;
    var s := Str(Interval(d));
    assert s[0] == '-';
    assert forall w :: 1 <= w <= |s| ==> s[..w][0] == '-';
    assert MatchFields(s, DATE) == None && MatchFields(s, INTERVAL) == None;
  }

  lemma IntervalInParts(d: Delta)
    requires DeltaOk(d) && d.days >= 0
    ensures Str(Interval(d)) == PrintFields([d.days] + ClockFields(d), INTERVAL) + Tail(d.microseconds, ':', 0)
  {
  }

  lemma PaddedDays(d: Delta)
    requires DeltaOk(d) && d.days >= 0
    ensures |PrintFields([d.days] + ClockFields(d), INTERVAL)| == 14 <==> d.days < 100000000
  {
    hide Padded, PowerOfTen;
    Powers();
    var clock := ClockFields(d);
    ClockIsSplit(d);
    var ns := [d.days] + clock;
    assert ns[1..] == clock && INTERVAL[1..] == [2, 2, 2];
    PaddedIs(d.days, 8);
    LengthOfFields(clock, [2, 2, 2]);
    Widths();
  }

  lemma {:induction false} LengthOfFields(ns: seq<nat>, ws: seq<nat>)
    requires |ns| == |ws| && Fit(ns, ws)
    ensures |PrintFields(ns, ws)| == Width(ws)
    decreases |ns|
  {
    if ns != [] {
      PaddedIs(ns[0], ws[0]);
      LengthOfFields(ns[1..], ws[1..]);
    }
  }

  /** Hours, minutes and seconds of the day. */
  lemma ClockIsSplit(d: Delta)
    requires DeltaOk(d)
    ensures var c := ClockFields(d);
            && c[0] < 24 && c[1] < 60 && c[2] < 60 && (c[0] * 60 + c[1]) * 60 + c[2] == d.seconds
            && Fit(c, [2, 2, 2])
  {
  }

  lemma IntervalFits(d: Delta)
    requires DeltaOk(d) && 0 <= d.days < 100000000
    ensures Fit([d.days] + ClockFields(d), INTERVAL)
  {
  }

  lemma DeltaIsRebuilt(d: Delta)
    requires DeltaOk(d) && d.days >= 0
    ensures var c := ClockFields(d); Timedelta(d.days, c[0], c[1], c[2], d.microseconds) == d
  {
  }

  /** A normalised timedelta is its number of microseconds. */
  lemma SameMicroseconds(d: Delta, e: Delta)
    requires DeltaOk(d) && DeltaOk(e) && Microseconds(d) == Microseconds(e)
    ensures d == e
  {
    var a, b := d.days * 86400 + d.seconds, e.days * 86400 + e.seconds;
    SameParts(a, d.microseconds, b, e.microseconds, 1000000);
    SameParts(d.days, d.seconds, e.days, e.seconds, 86400);
  }

  lemma SameParts(a: int, r: int, b: int, t: int, n: nat)
    requires n in {86400, 1000000} && 0 <= r < n && 0 <= t < n && a * n + r == b * n + t
    ensures a == b && r == t
  {
  }

  lemma OffsetIsInjective(k: int, l: int)
    requires -1440 < k < 1440 && -1440 < l < 1440 && Offset(k) == Offset(l)
    ensures k == l
  {
  }

  predicate HasOffset(m: Moment, k: int) {
    -1440 < k < 1440 && (m.offset == Some(Offset(k)) || (m.offset == None && k == 0))
  }

  function SignedZone(k: int): int {
    var zone: int := ZoneRead(if k < 0 then -k else k);
    if k < 0 then -zone else zone
  }

  /** The main result for points in time: what comes back for every datetime Python can hold. Years below 1000 are
      refused, offsets of 1000 minutes or more lose their last digit, a naive datetime comes back in UTC; all others
      come back unchanged. */
  lemma PointRoundTrip(m: Moment, k: int)
    requires FieldsOk(m) && HasOffset(m, k)
    ensures Parse(Str(Point(m)))
         == if m.year < 1000 then Err(InvalidFormat) else Ok(Point(m.(offset := Some(Offset(SignedZone(k))))))
    ensures Parse(Str(Point(m))) == Ok(Point(m)) <==> m.year >= 1000 && m.offset.Some? && -1000 < k < 1000
  {
    ZoneIsKept(k);
    if m.offset.Some? && m.offset == Some(Offset(SignedZone(k))) {
      OffsetIsInjective(k, SignedZone(k));
    }
    PointIsParsed(m, k);
  }

  lemma ZoneIsKept(k: int)
    requires -1440 < k < 1440
    ensures -1440 < SignedZone(k) < 1440 && (SignedZone(k) == k <==> -1000 < k < 1000)
  {
  }

  function DateFields(m: Moment): seq<nat> {
    [m.year, m.month, m.day, m.hour, m.minute, m.second]
  }

  lemma PointInParts(m: Moment, k: int)
    requires FieldsOk(m) && HasOffset(m, k)
    ensures var zone := if k < 0 then -k else k;
            var mark := if k < 0 then '-' else '+';
            Str(Point(m))
            == Decimal(m.year) + PrintFields(DateFields(m)[1..], DATE[1..]) + Tail(m.microsecond, mark, zone)
  {
    if m.offset.Some? {
      OffsetIsRecovered(k, m);
    }
    assert DateFields(m)[1..] == [m.month, m.day, m.hour, m.minute, m.second] && DATE[1..] == [2, 2, 2, 2, 2];
  }

  lemma DateFits(m: Moment)
    requires FieldsOk(m)
    ensures Fit(DateFields(m)[1..], DATE[1..]) && Fit(DateFields(m), DATE)
  {
  }

  lemma YearInFourDigits(year: nat)
    requires year < 10000
    ensures |Decimal(year)| <= 4 && (|Decimal(year)| == 4 <==> year >= 1000)
    ensures year >= 1000 ==> Padded(year, 4) == Decimal(year)
  {
    Powers();
    LengthOfDecimal(year, 4);
    LengthOfDecimal(year, 3);
  }

  /** The groups both patterns find in a printed point in time. */
  lemma PointIsMatched(m: Moment, k: int)
    requires FieldsOk(m) && HasOffset(m, k)
    ensures var zone: nat := if k < 0 then -k else k;
            var mark := if k < 0 then '-' else '+';
            var s := Str(Point(m));
            if m.year < 1000 then Match(s, DATE) == None && Match(s, INTERVAL) == None
            else Match(s, DATE) == Some(Groups(DateFields(m), m.microsecond, mark, ZoneRead(zone)))
  {
    var zone: nat := if k < 0 then -k else k;
    var mark := if k < 0 then '-' else '+';
    var t := Tail(m.microsecond, mark, zone);
    var rest := PrintFields(DateFields(m)[1..], DATE[1..]);
    var run := Decimal(m.year) + rest;
    PointInParts(m, k);
    DateFits(m);
    LengthOfFields(DateFields(m)[1..], DATE[1..]);
    YearInFourDigits(m.year);
    Widths();
    hide Match, Str, Tail, Decimal, Fit, Width, ZoneRead, Padded, HasOffset, FieldsOk;
    RunThenTail(run, m.microsecond, mark, zone, DATE);
    RunThenTail(run, m.microsecond, mark, zone, INTERVAL);
    if m.year >= 1000 {
      assert run == PrintFields(DateFields(m), DATE);
      FieldsAreMatched(DateFields(m), DATE, t);
    }
  }

  lemma PointIsParsed(m: Moment, k: int)
    requires FieldsOk(m) && HasOffset(m, k)
    ensures Parse(Str(Point(m)))
         == if m.year < 1000 then Err(InvalidFormat) else Ok(Point(m.(offset := Some(Offset(SignedZone(k))))))
  {
    hide Match, Str, Offset, ZoneRead;
    PointIsMatched(m, k);
  }

  // ---------------------------------------------------------------- parsing, then printing

  /** What a match says about the text: it starts with the fields as they would be printed. */
  lemma MatchedText(s: string, ws: seq<nat>) returns (rest: string)
    requires Match(s, ws).Some? && forall i :: 0 <= i < |ws| ==> ws[i] >= 1
    ensures var g := Match(s, ws).value;
            && Fit(g.fields, ws) && g.micros < 1000000 && g.zone < 1000
            && |PrintFields(g.fields, ws)| == Width(ws) && |Tail(g.micros, g.mark, g.zone)| == 11
            && s == PrintFields(g.fields, ws) + Tail(g.micros, g.mark, g.zone) + rest
  {
    var (ns, t) := MatchFields(s, ws).value;
    hide MatchFields, PrintFields, Fit, Tail, MatchTail;
    MatchedIsPrinted(s, ws);
    LengthOfFields(ns, ws);
    rest := MatchedTail(t);
    var (micros, mark, zone) := MatchTail(t).value;
    assert PrintFields(ns, ws) + (Tail(micros, mark, zone) + rest)
        == PrintFields(ns, ws) + Tail(micros, mark, zone) + rest;
  }

  lemma MatchedTail(t: string) returns (rest: string)
    requires MatchTail(t).Some?
    ensures var (micros, mark, zone) := MatchTail(t).value;
            && micros < 1000000 && zone < 1000
            && |Tail(micros, mark, zone)| == 11 && t == Tail(micros, mark, zone) + rest
  {
    var (micros, u) := MatchFields(t[1..], [6]).value;
    var (zone, v) := MatchFields(u[1..], [3]).value;
    hide MatchFields, Padded;
    MatchedField(t[1..], 6);
    MatchedField(u[1..], 3);
    TailInParts(t, micros[0], u, zone[0], v);
    rest := v;
  }

  lemma TailInParts(t: string, micros: nat, u: string, zone: nat, v: string)
    requires t != "" && t[0] == '.' && t[1..] == Padded(micros, 6) + u
    requires u != "" && u[1..] == Padded(zone, 3) + v
    ensures t == Tail(micros, u[0], zone) + v
  {
    hide Padded;
    var p, q := Padded(micros, 6), Padded(zone, 3);
    assert u == [u[0]] + (q + v) && t == "." + (p + u);
    Associate([u[0]], q, v);
    Associate(p, [u[0]] + q, v);
    Associate(".", p + ([u[0]] + q), v);
  }

  lemma MatchedField(s: string, w: nat)
    requires w in {3, 6} && MatchFields(s, [w]).Some?
    ensures var (ns, rest) := MatchFields(s, [w]).value;
            s == Padded(ns[0], w) + rest && |Padded(ns[0], w)| == w && ns[0] < if w == 3 then 1000 else 1000000
  {
    hide MatchFields, Padded;
    MatchedIsPrinted(s, [w]);
    OneField(MatchFields(s, [w]).value.0, w);
  }

  lemma OneField(ns: seq<nat>, w: nat)
    requires |ns| == 1 && w >= 1 && Fit(ns, [w]) && w in {3, 6}
    ensures PrintFields(ns, [w]) == Padded(ns[0], w) && |Padded(ns[0], w)| == w
    ensures ns[0] < if w == 3 then 1000 else 1000000
  {
    Powers();
    PaddedIs(ns[0], w);
    assert Padded(ns[0], w) + "" == Padded(ns[0], w);
  }

  /** Every interval string that is accepted keeps its microseconds, whatever its hours, minutes and seconds; and it
      is what str() would print exactly when none of them has to be carried. */
  lemma AcceptedInterval(s: string)
    requires Parse(s).Ok? && Parse(s).value.Interval?
    ensures Match(s, INTERVAL).Some? && |s| >= 25
    ensures var g := Match(s, INTERVAL).value;
            var (days, hours, minutes, seconds) := (g.fields[0], g.fields[1], g.fields[2], g.fields[3]);
            var d := Parse(s).value.d;
            && DeltaOk(d)
            && Microseconds(d) == (((days * 24 + hours) * 60 + minutes) * 60 + seconds) * 1000000 + g.micros
            && (Str(Interval(d)) == s[..25] <==> hours < 24 && minutes < 60 && seconds < 60)
  {
    hide Parse, Match, Str, PrintFields, Tail, Fit, ClockFields, Width;
    AcceptedGroups(s);
    var g := Match(s, INTERVAL).value;
    var d := Parse(s).value.d;
    var rest := MatchedText(s, INTERVAL);
    Widths();
    IntervalInParts(d);
    var text := PrintFields(g.fields, INTERVAL) + Tail(g.micros, ':', 0);
    assert s[..25] == text;
    if g.fields[1] < 24 && g.fields[2] < 60 && g.fields[3] < 60 {
      NothingCarried(g);
    } else if Str(Interval(d)) == s[..25] {
      Reparsed(s, d);
    }
  }

  lemma NothingCarried(g: Groups)
    requires |g.fields| == 4 && g.fields[1] < 24 && g.fields[2] < 60 && g.fields[3] < 60 && g.micros < 1000000
    ensures [DeltaOf(g).days] + ClockFields(DeltaOf(g)) == g.fields && DeltaOf(g).microseconds == g.micros
  {
    var d := Delta(g.fields[0], (g.fields[1] * 60 + g.fields[2]) * 60 + g.fields[3], g.micros);
    SameMicroseconds(d, DeltaOf(g));
    assert d.seconds / 3600 == g.fields[1];
    assert (d.seconds - g.fields[1] * 3600) / 60 == g.fields[2];
  }

  /** Text that is printed for an interval holds hours, minutes and seconds of a clock. */
  lemma Reparsed(s: string, d: Delta)
    requires |s| >= 25 && DeltaOk(d) && d.days >= 0 && Str(Interval(d)) == s[..25] && Match(s, INTERVAL).Some?
    ensures var g := Match(s, INTERVAL).value; g.fields[1] < 24 && g.fields[2] < 60 && g.fields[3] < 60
  {
    var ns := [d.days] + ClockFields(d);
    var t := Tail(d.microseconds, ':', 0);
    IntervalInParts(d);
    PaddedDays(d);
    TailIsLong(d.microseconds, ':', 0);
    ClockIsSplit(d);
    hide Str, Fit, PrintFields, ClockFields, Tail, MatchTail, MatchFields;
    IntervalFits(d);
    Regroup(s, 25, PrintFields(ns, INTERVAL), t);
    FieldsArePrinted(ns, INTERVAL, t + s[25..]);
  }

  lemma Regroup(s: string, n: nat, p: string, t: string)
    requires n <= |s| && s[..n] == p + t
    ensures s == p + (t + s[n..])
  {
  }

  lemma TailIsLong(micros: nat, mark: char, zone: nat)
    ensures |Tail(micros, mark, zone)| >= 11
  {
  }

  /** An accepted date is what str() would print exactly when its year is at least 1000 and its sign is the one
      str() chooses: '+' or, for an offset that is not zero, '-'. */
  lemma AcceptedPoint(s: string)
    requires Parse(s).Ok? && Parse(s).value.Point?
    ensures Match(s, DATE).Some? && |s| >= 25 && FieldsOk(Parse(s).value.m)
    ensures var g := Match(s, DATE).value;
            var m := Parse(s).value.m;
            Str(Point(m)) == s[..25] <==> m.year >= 1000 && (g.mark == '+' || (g.mark == '-' && g.zone != 0))
  {
    hide Parse, Match, Str, FieldsOk, MomentOf;
    AcceptedGroups(s);
    PrintedAs(s, Match(s, DATE).value);
  }

  lemma PrintedAs(s: string, g: Groups)
    requires Match(s, DATE) == Some(g) && IsSign(g.mark) && FieldsOk(MomentOf(g))
    ensures |s| >= 25
    ensures Str(Point(MomentOf(g))) == s[..25]
        <==> MomentOf(g).year >= 1000 && (g.mark == '+' || (g.mark == '-' && g.zone != 0))
  {
    hide Match, Str, PrintFields, Tail, Fit, Decimal, FieldsOk, MomentOf, HasOffset, Width, DateFields;
    var m, k := MomentOf(g), SignedMinutes(g);
    var rest := MatchedText(s, DATE);
    MomentHasOffset(g);
    Widths();
    assert s[..25] == PrintFields(g.fields, DATE) + Tail(g.micros, g.mark, g.zone);
    PrintedPoint(m, k);
    MarkShows(m, g.micros, g.mark, if k < 0 then '-' else '+', g.zone);
  }

  function SignedMinutes(g: Groups): int {
    var zone: int := g.zone;
    if g.mark == '-' then -zone else zone
  }

  lemma MomentHasOffset(g: Groups)
    requires |g.fields| == 6 && g.zone < 1000
    ensures HasOffset(MomentOf(g), SignedMinutes(g)) && DateFields(MomentOf(g)) == g.fields
    ensures MomentOf(g).microsecond == g.micros
  {
  }

  /** The text of a point in time: 25 characters, one less for each digit the year lacks and one more for an offset
      of 1000 minutes or more. */
  lemma PrintedPoint(m: Moment, k: int)
    requires FieldsOk(m) && HasOffset(m, k)
    ensures var zone: nat := if k < 0 then -k else k;
            var mark := if k < 0 then '-' else '+';
            && |Str(Point(m))| == |Decimal(m.year)| + (if zone < 1000 then 21 else 22)
            && (|Decimal(m.year)| < 4 <==> m.year < 1000) && |Decimal(m.year)| <= 4
            && (m.year >= 1000 ==>
                 Str(Point(m)) == PrintFields(DateFields(m), DATE) + Tail(m.microsecond, mark, zone))
  {
    var zone: nat := if k < 0 then -k else k;
    var mark := if k < 0 then '-' else '+';
    PointInParts(m, k);
    DateFits(m);
    LengthOfFields(DateFields(m)[1..], DATE[1..]);
    YearInFourDigits(m.year);
    Widths();
    LengthOfTail(m.microsecond, mark, zone);
    hide Str, Tail, Decimal, Fit, Width, Padded, HasOffset;
  }

  lemma LengthOfTail(micros: nat, mark: char, zone: nat)
    requires micros < 1000000 && zone < 10000
    ensures |Tail(micros, mark, zone)| == (if zone < 1000 then 11 else 12) && Tail(micros, mark, zone)[7] == mark
  {
    Powers();
    PaddedIs(micros, 6);
    PaddedIs(zone, 3);
    LengthOfDecimal(zone, 4);
    LengthOfDecimal(zone, 3);
  }

  lemma MarkShows(m: Moment, micros: nat, mark: char, other: char, zone: nat)
    requires micros < 1000000 && zone < 1000
    ensures var p := PrintFields(DateFields(m), DATE);
            p + Tail(micros, mark, zone) == p + Tail(micros, other, zone) <==> mark == other
  {
    hide PrintFields, Tail;
    LengthOfTail(micros, mark, zone);
    LengthOfTail(micros, other, zone);
    var p := PrintFields(DateFields(m), DATE);
    assert (p + Tail(micros, mark, zone))[|p| + 7] == mark && (p + Tail(micros, other, zone))[|p| + 7] == other;
  }

  // ---------------------------------------------------------------- exactly the accepted texts

  lemma TailThenRest(micros: nat, mark: char, zone: nat, rest: string)
    requires micros < 1000000 && zone < 1000
    ensures MatchTail(Tail(micros, mark, zone) + rest) == Some((micros, mark, zone))
  {
    hide Padded, PowerOfTen, MatchFields;
    Powers();
    var t := [mark] + (Padded(zone, 3) + rest);
    assert PrintFields([micros], [6]) == Padded(micros, 6) && PrintFields([zone], [3]) == Padded(zone, 3) by {
      assert Padded(micros, 6) + "" == Padded(micros, 6) && Padded(zone, 3) + "" == Padded(zone, 3);
    }
    FieldsArePrinted([micros], [6], t);
    FieldsArePrinted([zone], [3], rest);
    assert (Tail(micros, mark, zone) + rest)[1..] == Padded(micros, 6) + t;
    assert t[1..] == Padded(zone, 3) + rest;
  }

  function TextOf(ns: seq<nat>, ws: seq<nat>, micros: nat, mark: char, zone: nat, rest: string): string
    requires |ns| == |ws|
  {
    PrintFields(ns, ws) + (Tail(micros, mark, zone) + rest)
  }

  lemma TextIsMatched(ns: seq<nat>, ws: seq<nat>, micros: nat, mark: char, zone: nat, rest: string)
    requires |ns| == |ws| && Fit(ns, ws) && micros < 1000000 && zone < 1000
    ensures Match(TextOf(ns, ws, micros, mark, zone, rest), ws) == Some(Groups(ns, micros, mark, zone))
  {
    hide MatchFields, MatchTail, PrintFields, Fit, Tail;
    FieldsArePrinted(ns, ws, Tail(micros, mark, zone) + rest);
    TailThenRest(micros, mark, zone, rest);
  }

  /** Fields as str() prints them, any of the three signs, and anything behind the zone. */
  ghost predicate PointText(s: string, m: Moment, mark: char, zone: nat, rest: string) {
    && FieldsOk(m) && IsSign(mark) && zone < 1000
    && (var minutes: int := zone; m.offset == Some(Offset(if mark == '-' then -minutes else minutes)))
    && s == TextOf(DateFields(m), DATE, m.microsecond, mark, zone, rest)
  }

  lemma PointTexts(s: string, m: Moment)
    ensures Parse(s) == Ok(Point(m)) <==> exists mark, zone, rest :: PointText(s, m, mark, zone, rest)
  {
    hide Match, Offset, PrintFields, Tail, Fit, FieldsOk, Width;
    if Parse(s) == Ok(Point(m)) {
      var g := Match(s, DATE).value;
      var rest := MatchedText(s, DATE);
      assert DateFields(m) == g.fields;
      assert PrintFields(g.fields, DATE) + Tail(g.micros, g.mark, g.zone) + rest
          == PrintFields(g.fields, DATE) + (Tail(g.micros, g.mark, g.zone) + rest);
      assert PointText(s, m, g.mark, g.zone, rest);
    }
    if mark, zone, rest :| PointText(s, m, mark, zone, rest) {
      DateFits(m);
      MicrosFit(m);
      TextIsMatched(DateFields(m), DATE, m.microsecond, mark, zone, rest);
    }
  }

  /** The shape of a date, but no such date or time of day. */
  ghost predicate ImpossibleText(s: string, ns: seq<nat>, micros: nat, mark: char, zone: nat, rest: string) {
    && |ns| == 6 && Fit(ns, DATE) && micros < 1000000 && IsSign(mark) && zone < 1000
    && !FieldsOk(Moment(ns[0], ns[1], ns[2], ns[3], ns[4], ns[5], micros, None))
    && s == TextOf(ns, DATE, micros, mark, zone, rest)
  }

  /** datetime() raises for exactly these; every other text that is not read has no known shape. */
  lemma ImpossibleTexts(s: string)
    ensures Parse(s) == Err(OutOfRange) <==>
            exists ns, micros, mark, zone, rest :: ImpossibleText(s, ns, micros, mark, zone, rest)
    ensures Parse(s).Err? ==> Parse(s).error == OutOfRange || Parse(s).error == InvalidFormat
  {
    hide Match, Offset, PrintFields, Tail, Fit, Width, FieldsOk;
    if Parse(s) == Err(OutOfRange) {
      var g := Match(s, DATE).value;
      var rest := MatchedText(s, DATE);
      OffsetIsFree(g);
      assert PrintFields(g.fields, DATE) + Tail(g.micros, g.mark, g.zone) + rest
          == PrintFields(g.fields, DATE) + (Tail(g.micros, g.mark, g.zone) + rest);
      assert ImpossibleText(s, g.fields, g.micros, g.mark, g.zone, rest);
    }
    if ns, micros, mark, zone, rest :| ImpossibleText(s, ns, micros, mark, zone, rest) {
      TextIsMatched(ns, DATE, micros, mark, zone, rest);
      OffsetIsFree(Groups(ns, micros, mark, zone));
    }
  }

  lemma OffsetIsFree(g: Groups)
    requires |g.fields| == 6
    ensures var ns := g.fields;
            FieldsOk(MomentOf(g)) <==> FieldsOk(Moment(ns[0], ns[1], ns[2], ns[3], ns[4], ns[5], g.micros, None))
  {
  }

  /** A minus sign, the number of days in at least seven digits, and the 17 characters behind them. */
  predicate NegativeText(s: string, days: nat) {
    && |s| >= 25 && (|s| == 25 <==> days < 10000000)
    && s[0] == '-' && AllDigits(s[1..|s| - 17]) && NumberOf(s[1..|s| - 17]) == days
  }

  lemma PrintedNegative(d: Delta)
    requires DeltaOk(d) && d.days < 0
    ensures NegativeText(Str(Interval(d)), -d.days)
  {
    hide Padded, PrintFields, Tail, ClockFields, NumberOf, Str, Fit, Width, AllDigits, NegativeText;
    var clock, t := PrintFields(ClockFields(d), [2, 2, 2]), Tail(d.microseconds, ':', 0);
    NegativeInParts(d);
    ClockIsSplit(d);
    LengthOfFields(ClockFields(d), [2, 2, 2]);
    ClockWidth();
    LengthOfTail(d.microseconds, ':', 0);
    MinusDays(-d.days, clock, t);
  }

  lemma MinusDays(n: nat, clock: string, t: string)
    requires |clock| == 6 && |t| == 11
    ensures NegativeText("-" + Padded(n, 7) + clock + t, n)
  {
    hide Padded, NumberOf, AllDigits, PowerOfTen;
    PaddedIs(n, 7);
    Powers();
    Middle(Padded(n, 7), clock, t);
  }

  lemma NegativeInParts(d: Delta)
    requires DeltaOk(d) && d.days < 0
    ensures Str(Interval(d))
         == "-" + Padded(-d.days, 7) + PrintFields(ClockFields(d), [2, 2, 2]) + Tail(d.microseconds, ':', 0)
  {
    hide Padded, PrintFields, Tail, ClockFields;
  }

  lemma ClockWidth()
    ensures Width([2, 2, 2]) == 6
  {
  }

  lemma Middle(days: string, clock: string, t: string)
    requires |clock| == 6 && |t| == 11
    ensures var s := "-" + days + clock + t; |s| == |days| + 18 && s[0] == '-' && s[1..|s| - 17] == days
  {
  }

  lemma MicrosFit(m: Moment)
    requires FieldsOk(m)
    ensures m.microsecond < 1000000
  {
  }

  /** Hours, minutes and seconds of an interval may have any two digits. */
  ghost predicate IntervalText(s: string, d: Delta, ns: seq<nat>, micros: nat, rest: string) {
    && |ns| == 4 && Fit(ns, INTERVAL) && micros < 1000000
    && d == Timedelta(ns[0], ns[1], ns[2], ns[3], micros)
    && s == TextOf(ns, INTERVAL, micros, ':', 0, rest)
  }

  lemma IntervalTexts(s: string, d: Delta)
    ensures Parse(s) == Ok(Interval(d)) <==> exists ns, micros, rest :: IntervalText(s, d, ns, micros, rest)
  {
    hide Match, Timedelta, PrintFields, Tail, Fit, FieldsOk, Width;
    if Parse(s) == Ok(Interval(d)) {
      var g := Match(s, INTERVAL).value;
      var rest := MatchedText(s, INTERVAL);
      assert PrintFields(g.fields, INTERVAL) + Tail(g.micros, g.mark, g.zone) + rest
          == PrintFields(g.fields, INTERVAL) + (Tail(g.micros, g.mark, g.zone) + rest);
      assert IntervalText(s, d, g.fields, g.micros, rest);
    }
    if ns, micros, rest :| IntervalText(s, d, ns, micros, rest) {
      TextIsMatched(ns, INTERVAL, micros, ':', 0, rest);
      NoDate(ns, micros, rest);
    }
  }

  /** The other pattern finds a colon where it wants a sign. */
  lemma NoDate(ns: seq<nat>, micros: nat, rest: string)
    requires |ns| == 4 && Fit(ns, INTERVAL) && micros < 1000000
    ensures var r := Match(TextOf(ns, INTERVAL, micros, ':', 0, rest), DATE); r.Some? ==> r.value.mark == ':'
  {
    var run, t := PrintFields(ns, INTERVAL), Tail(micros, ':', 0) + rest;
    LengthOfFields(ns, INTERVAL);
    Widths();
    assert t[0] == '.';
    hide MatchFields, MatchTail, PrintFields, Fit, Tail, Width;
    DigitRun(run, t, DATE);
    assert run[14..] + t == t;
    TailThenRest(micros, ':', 0, rest);
  }

  // ---------------------------------------------------------------- texts that come back

  /** The text is what str() prints for what is read from it. */
  predicate Canonical(s: string)
    requires Parse(s).Ok?
  {
    match Parse(s).value
    case Point(m) =>
      var g := Match(s, DATE).value;
      m.year >= 1000 && (g.mark == '+' || (g.mark == '-' && g.zone != 0))
    case Interval(_) =>
      var g := Match(s, INTERVAL).value;
      g.fields[1] < 24 && g.fields[2] < 60 && g.fields[3] < 60
  }

  /** What is printed for what has been read can be read again, at its full width, unless the year has too few digits
      or the days, after a carry, too many. */
  predicate ComesBack(c: CIMDateTime) {
    match c
    case Point(m) => m.year >= 1000
    case Interval(d) => d.days < 100000000
  }

  lemma TextRoundTrip(s: string)
    requires |s| == 25 && Parse(s).Ok?
    ensures var c := Parse(s).value;
            && CIMDateTimeOk(c)
            && (|Str(c)| == 25 && Parse(Str(c)).Ok? <==> ComesBack(c))
            && (Str(c) == s <==> Canonical(s))
  {
    assert s[..25] == s;
    match Parse(s).value
    case Point(m) =>
      AcceptedPoint(s);
      PointComesBack(s, Match(s, DATE).value);
    case Interval(d) =>
      AcceptedInterval(s);
      IntervalComesBack(d);
  }

  lemma PointComesBack(s: string, g: Groups)
    requires Match(s, DATE) == Some(g) && IsSign(g.mark) && FieldsOk(MomentOf(g))
    ensures var m := MomentOf(g);
            |Str(Point(m))| == 25 && Parse(Str(Point(m))).Ok? <==> m.year >= 1000
  {
    hide Match, Str, FieldsOk, MomentOf, HasOffset, Decimal, PrintFields, Tail, Fit, Width, Parse, DateFields;
    hide SignedZone;
    var m, k := MomentOf(g), SignedMinutes(g);
    var rest := MatchedText(s, DATE);
    MomentHasOffset(g);
    PrintedPoint(m, k);
    PointRoundTrip(m, k);
  }

  lemma IntervalComesBack(d: Delta)
    requires DeltaOk(d) && d.days >= 0
    ensures |Str(Interval(d))| == 25 && Parse(Str(Interval(d))).Ok? <==> d.days < 100000000
  {
    hide Parse, Str, PrintFields, Tail, ClockFields;
    IntervalRoundTrip(d);
    IntervalInParts(d);
    PaddedDays(d);
    LengthOfTail(d.microseconds, ':', 0);
  }

  /** A datetime with a wildcard, as Pegasus may send it, is refused. */
  lemma WildcardIsRefused(s: string)
    requires |s| == 25
    ensures Parse(s).Ok? ==> '*' !in s
  {
    hide Match, Parse, FieldsOk, MomentOf, PrintFields, Tail, Fit, Width;
    if Parse(s).Ok? {
      AcceptedGroups(s);
      var ws := if Parse(s).value.Point? then DATE else INTERVAL;
      var g := Match(s, ws).value;
      var rest := MatchedText(s, ws);
      Widths();
      NoWildcard(PrintFields(g.fields, ws), g.micros, g.mark, g.zone);
      assert s == PrintFields(g.fields, ws) + Tail(g.micros, g.mark, g.zone);
    }
  }

  lemma NoWildcard(run: string, micros: nat, mark: char, zone: nat)
    requires AllDigits(run) && (IsSign(mark) || mark == ':')
    ensures '*' !in run + Tail(micros, mark, zone)
  {
    var p, q := Padded(micros, 6), Padded(zone, 3);
    hide Padded;
    assert '*' !in p && '*' !in q && '*' !in run;
  }

  lemma SomePadded()
    ensures Padded(1000, 4) == "1000" && Padded(1, 2) == "01" && Padded(0, 2) == "00"
    ensures Padded(0, 3) == "000" && Padded(0, 6) == "000000"
  {
    assert DigitChar(0) == '0' && DigitChar(1) == '1';
    assert Decimal(0) == "0" && Decimal(1) == "1";
    assert Decimal(10) == "10";
    assert Decimal(100) == "100";
    assert Decimal(1000) == "1000";
    assert Zeros(1) == "0" && Zeros(2) == "00";
    assert Zeros(4) == "00" + Zeros(2);
    assert Zeros(5) == "0" + Zeros(4);
  }

  lemma PrintFirst(ns: seq<nat>, ws: seq<nat>, first: string, rest: string)
    requires |ns| == |ws| && ns != []
    requires Padded(ns[0], ws[0]) == first && PrintFields(ns[1..], ws[1..]) == rest
    ensures PrintFields(ns, ws) == first + rest
  {
    hide Padded;
  }

  lemma PrintClock()
    ensures PrintFields([1, 0, 0, 0], [2, 2, 2, 2]) == "01" + ("00" + ("00" + ("00" + "")))
  {
    SomePadded();
    hide Padded, PrintFields;
    assert PrintFields([], []) == "" by {
      PrintNone();
    }
    assert [0][1..] == [] && [2][1..] == [];
    PrintFirst([0], [2], "00", "");
    assert [0, 0][1..] == [0] && [2, 2][1..] == [2];
    PrintFirst([0, 0], [2, 2], "00", "00" + "");
    assert [0, 0, 0][1..] == [0, 0] && [2, 2, 2][1..] == [2, 2];
    PrintFirst([0, 0, 0], [2, 2, 2], "00", "00" + ("00" + ""));
    assert [1, 0, 0, 0][1..] == [0, 0, 0] && [2, 2, 2, 2][1..] == [2, 2, 2];
    PrintFirst([1, 0, 0, 0], [2, 2, 2, 2], "01", "00" + ("00" + ("00" + "")));
  }

  lemma PrintNone()
    ensures PrintFields([], []) == ""
  {
  }

  lemma PrintDate()
    ensures PrintFields([1000, 1, 1, 0, 0, 0], DATE) == "10000101000000"
  {
    var clock := "01" + ("00" + ("00" + ("00" + "")));
    SomePadded();
    PrintClock();
    hide Padded, PrintFields;
    assert [1, 1, 0, 0, 0][1..] == [1, 0, 0, 0] && [2, 2, 2, 2, 2][1..] == [2, 2, 2, 2];
    PrintFirst([1, 1, 0, 0, 0], [2, 2, 2, 2, 2], "01", clock);
    assert [1000, 1, 1, 0, 0, 0][1..] == [1, 1, 0, 0, 0] && DATE[1..] == [2, 2, 2, 2, 2];
    PrintFirst([1000, 1, 1, 0, 0, 0], DATE, "1000", "01" + clock);
  }

  lemma TextInParts()
    ensures "10000101000000.000000|000 or so" == "10000101000000" + (".000000|000" + " or so")
  {
  }

  lemma TailOfBar()
    ensures Tail(0, '|', 0) == ".000000|000"
  {
    SomePadded();
    hide Padded;
  }

  lemma PointIsRead(s: string, m: Moment, mark: char, zone: nat, rest: string)
    requires PointText(s, m, mark, zone, rest)
    ensures Parse(s) == Ok(Point(m))
  {
    hide Parse, PointText;
    PointTexts(s, m);
  }

  /** A vertical bar stands for a plus, and what follows the offset is not looked at. */
  lemma BarAndMore()
    ensures Parse("10000101000000.000000|000 or so")
         == Ok(Point(Moment(1000, 1, 1, 0, 0, 0, 0, Some(Offset(0)))))
  {
    hide PrintFields, Offset, Parse, Tail, DATE;
    var m := Moment(1000, 1, 1, 0, 0, 0, 0, Some(Offset(0)));
    PrintDate();
    TailOfBar();
    TextInParts();
    PointIsRead("10000101000000.000000|000 or so", m, '|', 0, " or so");
  }
}
