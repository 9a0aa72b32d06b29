/** The PDF date parser of aes/utils/dates.py: `pdf_date_pattern` and
    `pdfdatetime`, for strings of the form `D:YYYYMMDDHHmmSSOHH'mm'` (the
    date format of section 7.9.4 of ISO 32000-1:2008, with every field up to
    the seconds required). */
module Dates {
  import opened Wrappers
  import opened Text

  /** The groups of `pdf_date_pattern`, in the order `groupdict` lists them. */
  datatype Key = Year | Month | Day | Hour | Minute | Second | TzOffset | TzHour | TzMinute

  const Keys: seq<Key> := [Year, Month, Day, Hour, Minute, Second, TzOffset, TzHour, TzMinute]

  /** A successful match: the six date and time groups, and the three
      optional time-zone groups. */
  datatype Groups = Groups(date: seq<string>, designator: Option<char>, tzHour: Option<string>, tzMinute: Option<string>)

  /** `[+-zZ]`: a character range from '+' to 'z', so every digit, every
      upper-case letter and most punctuation count as a designator. */
  predicate AsWrittenDesignator(c: char)
  {
    '+' <= c <= 'z'
  }

  /** The designator set the date format defines: '+', '-', 'Z' (and 'z'). */
  predicate IntendedDesignator(c: char)
  {
    c == '+' || c == '-' || c == 'z' || c == 'Z'
  }

  /** Two digits at `i`, if there are. */
  function TwoDigits(s: string, i: nat): (r: Option<string>)
    ensures r.Some? ==> i + 2 <= |s| && r.value == s[i..i + 2] && AllDigits(r.value)
  {
    if i + 2 <= |s| && IsDigit(s[i]) && IsDigit(s[i + 1]) then Some(s[i..i + 2]) else None
  }

  /** Where the fourteen digits start: after "D:" when the string has it. */
  function DigitsStart(s: string): nat
  {
    if |s| >= 2 && s[..2] == "D:" then 2 else 0
  }

  /** `re.match(pdf_date_pattern, s)` with the given designator class: the
      match is anchored at the start only, and every group after the
      seconds is optional and greedy. */
  function PdfMatch(s: string, designator: char -> bool): (m: Option<Groups>)
    ensures m.Some? ==> |m.value.date| == 6
  {
    var k := DigitsStart(s);
    if !(k + 14 <= |s| && AllDigits(s[k..k + 14])) then None
    else
      var date := [s[k..k + 4], s[k + 4..k + 6], s[k + 6..k + 8], s[k + 8..k + 10], s[k + 10..k + 12], s[k + 12..k + 14]];
      var j := k + 14;
      var offset := if j < |s| && designator(s[j]) then Some(s[j]) else None;
      var j1 := if offset.Some? then j + 1 else j;
      var hour := TwoDigits(s, j1);
      var j2 := if hour.Some? then j1 + 2 else j1;
      var j3 := if j2 < |s| && s[j2] == '\'' then j2 + 1 else j2;
      Some(Groups(date, offset, hour, TwoDigits(s, j3)))
  }

  datatype Zone = Utc | Offset(seconds: int)

  /** The `tzinfo` `pdfdatetime` builds: UTC for no designator or 'z'/'Z';
      otherwise `±(3600·HH + 60·mm)`, positive only for '+', and a
      `TypeError` when HH or mm is missing. */
  function ZoneOf(g: Groups): (z: Result<Zone>)
  {
    if g.designator.None? || ToLower(g.designator.value) == 'z' then Ok(Utc)
    else if g.tzHour.None? || g.tzMinute.None? then Err(TypeError)
    else
      var magnitude := 3600 * DigitsValue(g.tzHour.value) + 60 * DigitsValue(g.tzMinute.value);
      Ok(Offset(if ToLower(g.designator.value) == '+' then magnitude else -magnitude))
  }

  datatype DateTime = DateTime(year: int, month: int, day: int, hour: int, minute: int, second: int, zone: Zone)

  predicate IsLeap(year: int)
  {
    (year % 4 == 0 && year % 100 != 0) || year % 400 == 0
  }

  function DaysInMonth(year: int, month: int): int
    requires 1 <= month <= 12
  {
    if month == 2 then (if IsLeap(year) then 29 else 28)
    else if month == 4 || month == 6 || month == 9 || month == 11 then 30
    else 31
  }

  /** `datetime.datetime(...)`: a `ValueError` for the first field out of
      range, checked in the order year, month, day, hour, minute, second. */
  function MakeDateTime(year: int, month: int, day: int, hour: int, minute: int, second: int, zone: Zone): (r: Result<DateTime>)
  {
    if !(1 <= year <= 9999) then Err(ValueError("year"))
    else if !(1 <= month <= 12) then Err(ValueError("month"))
    else if !(1 <= day <= DaysInMonth(year, month)) then Err(ValueError("day"))
    else if !(0 <= hour < 24) then Err(ValueError("hour"))
    else if !(0 <= minute < 60) then Err(ValueError("minute"))
    else if !(0 <= second < 60) then Err(ValueError("second"))
    else Ok(DateTime(year, month, day, hour, minute, second, zone))
  }

  /** `pdfdatetime` with the given designator class: no match gives `None`. */
  function PdfDateWith(s: string, designator: char -> bool): Result<Option<DateTime>>
  {
    match PdfMatch(s, designator)
    case None => Ok(None)
    case Some(g) => DateOf(g)
  }

  /** The datetime a match stands for: the time zone first, then the
      calendar fields. */
  function DateOf(g: Groups): Result<Option<DateTime>>
    requires |g.date| == 6
  {
    match ZoneOf(g)
    case Err(e) => Err(e)
    case Ok(zone) =>
      var d := g.date;
      match MakeDateTime(DigitsValue(d[0]), DigitsValue(d[1]), DigitsValue(d[2]),
                         DigitsValue(d[3]), DigitsValue(d[4]), DigitsValue(d[5]), zone)
      case Err(e) => Err(e)
      case Ok(t) => Ok(Some(t))
  }

  /** `pdfdatetime` as written. */
  function PdfDate(s: string): Result<Option<DateTime>>
  {
    PdfDateWith(s, AsWrittenDesignator)
  }

  /** `pdfdatetime` with the designator class the format intends. */
  function PdfDateIntended(s: string): Result<Option<DateTime>>
  {
    PdfDateWith(s, IntendedDesignator)
  }

  /** A value of the `groupdict` while `pdfdatetime` rewrites it. */
  datatype Entry = Missing | Raw(text: string) | Number(n: int) | Designator(c: char)

  function RawOf(v: Option<string>): Entry
  {
    if v.Some? then Raw(v.value) else Missing
  }

  /** `match.groupdict()`: every group under its name, `None` for an
      optional group that did not take part. */
  method GroupDict(g: Groups) returns (info: map<Key, Entry>)
    requires |g.date| == 6
    ensures forall k :: k in info
    ensures info[Year] == Raw(g.date[0]) && info[Month] == Raw(g.date[1]) && info[Day] == Raw(g.date[2])
    ensures info[Hour] == Raw(g.date[3]) && info[Minute] == Raw(g.date[4]) && info[Second] == Raw(g.date[5])
    ensures info[TzOffset] == if g.designator.Some? then Raw([g.designator.value]) else Missing
    ensures info[TzHour] == RawOf(g.tzHour) && info[TzMinute] == RawOf(g.tzMinute)
  {
    info := map[Year := Raw(g.date[0]), Month := Raw(g.date[1]), Day := Raw(g.date[2]),
                Hour := Raw(g.date[3]), Minute := Raw(g.date[4]), Second := Raw(g.date[5]),
                TzOffset := RawOf(if g.designator.Some? then Some([g.designator.value]) else None),
                TzHour := RawOf(g.tzHour), TzMinute := RawOf(g.tzMinute)];
    forall k ensures k in info {
      match k
      case Year => case Month => case Day => case Hour => case Minute => case Second =>
      case TzOffset => case TzHour => case TzMinute =>
    }
  }

  /** The loop body's rewrite of one entry: `None` stays, the designator is
      lower-cased, every other value becomes `int(v)`. */
  function Convert(k: Key, v: Entry): Entry
  {
    match v
    case Raw(text) =>
      if k == TzOffset then (if |text| == 1 then Designator(ToLower(text[0])) else v)
      else Number(DigitsValue(text))
    case _ => v
  }

  lemma EveryKeyListed(k: Key)
    ensures k in Keys
  {
    match k
    case Year => case Month => case Day => case Hour => case Minute => case Second =>
    case TzOffset => case TzHour => case TzMinute =>
  }

  /** The `for k, v in date_info.items()` loop: each entry rewritten once,
      in key order. */
  method ConvertAll(raw: map<Key, Entry>) returns (info: map<Key, Entry>)
    requires forall k :: k in raw
    ensures forall k :: k in info && info[k] == Convert(k, raw[k])
  {
    info := raw;
    var i := 0;
    while i < |Keys|
      invariant 0 <= i <= |Keys|
      invariant forall k :: k in info && info[k] == if k in Keys[..i] then Convert(k, raw[k]) else raw[k]
    {
      var k := Keys[i];
      var v := info[k];
      if v.Missing? {
      } else if k == TzOffset {
        if v.Raw? && |v.text| == 1 {
          info := info[k := Designator(ToLower(v.text[0]))];
        }
      } else if v.Raw? {
        info := info[k := Number(DigitsValue(v.text))];
      }
      assert Keys[..i + 1] == Keys[..i] + [k];
      i := i + 1;
    }
    assert Keys[..i] == Keys;
    forall k {
      EveryKeyListed(k);
    }
  }

  /** `pdfdatetime`: `None` without a match, else the datetime it stands for. */
  method PdfDateTime(s: string) returns (r: Result<Option<DateTime>>)
    ensures r == PdfDate(s)
  {
    var m := PdfMatch(s, AsWrittenDesignator);
    if m.None? {
      return Ok(None);
    }
    r := BuildDate(m.value);
  }

  /** The `tzinfo` from the rewritten time-zone entries: UTC for no
      designator or 'z', a `TypeError` when HH or mm is `None`, otherwise
      the signed offset in seconds. */
  method TimeZone(offset: Entry, hour: Entry, minute: Entry) returns (zone: Result<Zone>)
    requires offset.Missing? || offset.Designator?
    requires hour.Missing? || hour.Number?
    requires minute.Missing? || minute.Number?
    ensures zone.Ok? <==> offset.Missing? || offset.c == 'z' || (hour.Number? && minute.Number?)
    ensures offset.Missing? || offset.c == 'z' ==> zone == Ok(Utc)
    ensures zone.Err? ==> zone.error == TypeError
    ensures offset.Designator? && offset.c != 'z' && hour.Number? && minute.Number? ==>
      zone == Ok(Offset((if offset.c == '+' then 1 else -1) * (3600 * hour.n + 60 * minute.n)))
  {
    if offset.Missing? || offset.c == 'z' {
      zone := Ok(Utc);
    } else if hour.Missing? || minute.Missing? {
      zone := Err(TypeError);
    } else {
      var multiplier := if offset.c == '+' then 1 else -1;
      zone := Ok(Offset(multiplier * (3600 * hour.n + 60 * minute.n)));
    }
  }

  /** `datetime.datetime(**date_info)` once only the six date and time
      entries are left, each an integer. */
  method Construct(fields: map<Key, Entry>, zone: Zone) returns (made: Result<DateTime>)
    requires Year in fields && Month in fields && Day in fields && Hour in fields && Minute in fields && Second in fields
    requires fields[Year].Number? && fields[Month].Number? && fields[Day].Number?
    requires fields[Hour].Number? && fields[Minute].Number? && fields[Second].Number?
    ensures made.Ok? ==> made.value.zone == zone
    ensures made == MakeDateTime(fields[Year].n, fields[Month].n, fields[Day].n,
                                 fields[Hour].n, fields[Minute].n, fields[Second].n, zone)
  {
    made := MakeDateTime(fields[Year].n, fields[Month].n, fields[Day].n, fields[Hour].n, fields[Minute].n, fields[Second].n, zone);
  }

  /** `groupdict()` followed by the rewriting loop: the date and time
      fields as numbers, the designator lower-cased, HH and mm as numbers
      when present. */
  method Rewritten(g: Groups) returns (info: map<Key, Entry>)
    requires |g.date| == 6
    ensures forall k :: k in info
    ensures info[Year] == Number(DigitsValue(g.date[0])) && info[Month] == Number(DigitsValue(g.date[1]))
    ensures info[Day] == Number(DigitsValue(g.date[2])) && info[Hour] == Number(DigitsValue(g.date[3]))
    ensures info[Minute] == Number(DigitsValue(g.date[4])) && info[Second] == Number(DigitsValue(g.date[5]))
    ensures info[TzOffset] == if g.designator.Some? then Designator(ToLower(g.designator.value)) else Missing
    ensures info[TzHour] == if g.tzHour.Some? then Number(DigitsValue(g.tzHour.value)) else Missing
    ensures info[TzMinute] == if g.tzMinute.Some? then Number(DigitsValue(g.tzMinute.value)) else Missing
  {
    var raw := GroupDict(g);
    info := ConvertAll(raw);
    if g.designator.Some? {
      assert [g.designator.value][0] == g.designator.value;
    }
  }

  /** The body of `pdfdatetime` after a match: rewrite the group values one
      by one, build the time zone, drop the three time-zone keys and
      construct the datetime. */
  method BuildDate(g: Groups) returns (r: Result<Option<DateTime>>)
    requires |g.date| == 6
    ensures r == DateOf(g)
  {
    var info := Rewritten(g);
    var zone := TimeZone(info[TzOffset], info[TzHour], info[TzMinute]);
    assert zone == ZoneOf(g);
    if zone.Err? {
      return Err(zone.error);
    }
    var fields := info - {TzOffset, TzHour, TzMinute};
    var made := Construct(fields, zone.value);
    if made.Err? {
      return Err(made.error);
    }
    r := Ok(Some(made.value));
  }

  // ---------------------------------------------------------------------------
  // Properties
  // ---------------------------------------------------------------------------

  /** `None` exactly when the string does not start, after an optional "D:",
      with fourteen digits. */
  lemma NoneUnlessFourteenDigits(s: string)
    ensures PdfDate(s) == Ok(None) <==>
      !((|s| >= 14 && AllDigits(s[..14])) || (|s| >= 16 && s[..2] == "D:" && AllDigits(s[2..16])))
  {
    var m := PdfMatch(s, AsWrittenDesignator);
    if m.Some? && ZoneOf(m.value).Ok? {
      var d := m.value.date;
      var made := MakeDateTime(DigitsValue(d[0]), DigitsValue(d[1]), DigitsValue(d[2]),
                               DigitsValue(d[3]), DigitsValue(d[4]), DigitsValue(d[5]), ZoneOf(m.value).value);
      if made.Ok? {
        assert PdfDate(s) == Ok(Some(made.value));
      }
    }
    if |s| >= 2 && s[..2] == "D:" && |s| >= 14 {
      assert !IsDigit(s[..14][0]);
    }
  }

  /** The date and time fields are the fixed-width digit groups, read in
      order as integers. */
  lemma FieldsAreDigitGroups(s: string)
    requires PdfDate(s).Ok? && PdfDate(s).value.Some?
    ensures var k := DigitsStart(s); var t := PdfDate(s).value.value;
      && k + 14 <= |s| && AllDigits(s[k..k + 14])
      && t.year == DigitsValue(s[k..k + 4]) && t.month == DigitsValue(s[k + 4..k + 6])
      && t.day == DigitsValue(s[k + 6..k + 8]) && t.hour == DigitsValue(s[k + 8..k + 10])
      && t.minute == DigitsValue(s[k + 10..k + 12]) && t.second == DigitsValue(s[k + 12..k + 14])
  {
  }

  /** The time zone: UTC for 'z', 'Z' or no designator; a positive offset
      only for '+'; every other designator, digits and letters included,
      negates; a missing HH or mm after such a designator is a `TypeError`. */
  lemma ZoneRules(g: Groups)
    ensures g.designator.None? || g.designator.value in "zZ" ==> ZoneOf(g) == Ok(Utc)
    ensures g.designator.Some? && g.designator.value !in "zZ" && (g.tzHour.None? || g.tzMinute.None?) ==> ZoneOf(g) == Err(TypeError)
    ensures g.designator.Some? && g.designator.value !in "zZ" && g.tzHour.Some? && g.tzMinute.Some? ==>
      var magnitude := 3600 * DigitsValue(g.tzHour.value) + 60 * DigitsValue(g.tzMinute.value);
      ZoneOf(g) == Ok(Offset(if g.designator.value == '+' then magnitude else -magnitude))
  {
  }

  /** Where `re.match(pdf_date_pattern, s)` ends: after the fourteen
      digits, each optional part (designator, HH, quote, mm, quote) taken
      when it is there. */
  function MatchEnd(s: string, designator: char -> bool): (e: nat)
    requires PdfMatch(s, designator).Some?
    ensures DigitsStart(s) + 14 <= e <= |s|
  {
    var j := DigitsStart(s) + 14;
    var j1 := if j < |s| && designator(s[j]) then j + 1 else j;
    var j2 := if TwoDigits(s, j1).Some? then j1 + 2 else j1;
    var j3 := if j2 < |s| && s[j2] == '\'' then j2 + 1 else j2;
    var j4 := if TwoDigits(s, j3).Some? then j3 + 2 else j3;
    if j4 < |s| && s[j4] == '\'' then j4 + 1 else j4
  }

  /** A prefix sees the same two digits at `i` as the whole string when
      they lie inside it, and sees none where the whole string has none. */
  lemma TwoDigitsPrefix(s: string, p: string, i: nat)
    requires p <= s
    ensures TwoDigits(p, i).Some? ==> TwoDigits(s, i) == TwoDigits(p, i)
    ensures i + 2 <= |p| ==> TwoDigits(p, i) == TwoDigits(s, i)
  {
    if i + 2 <= |p| {
      assert p[i..i + 2] == s[i..i + 2];
    }
  }

  /** The match of a prefix that still holds the whole match of `s` has
      the same groups. */
  lemma PrefixMatches(s: string, p: string, designator: char -> bool)
    requires PdfMatch(s, designator).Some? && p <= s && MatchEnd(s, designator) <= |p|
    ensures PdfMatch(p, designator) == PdfMatch(s, designator)
  {
    var k := DigitsStart(s);
    assert DigitsStart(p) == k by {
      if |p| >= 2 {
        assert p[..2] == s[..2];
      }
    }
    assert p[k..k + 14] == s[k..k + 14];
    var j := k + 14;
    var j1 := if j < |s| && designator(s[j]) then j + 1 else j;
    assert j1 == (if j < |p| && designator(p[j]) then j + 1 else j);
    TwoDigitsPrefix(s, p, j1);
    var j2 := if TwoDigits(s, j1).Some? then j1 + 2 else j1;
    var j3 := if j2 < |s| && s[j2] == '\'' then j2 + 1 else j2;
    assert j3 == (if j2 < |p| && p[j2] == '\'' then j2 + 1 else j2);
    TwoDigitsPrefix(s, p, j3);
    DateSlicesPrefix(s, p, k);
  }

  /** The six date groups read the same in a prefix that holds them. */
  lemma DateSlicesPrefix(s: string, p: string, k: nat)
    requires p <= s && k + 14 <= |p|
    ensures p[k..k + 4] == s[k..k + 4] && p[k + 4..k + 6] == s[k + 4..k + 6] && p[k + 6..k + 8] == s[k + 6..k + 8]
    ensures p[k + 8..k + 10] == s[k + 8..k + 10] && p[k + 10..k + 12] == s[k + 10..k + 12] && p[k + 12..k + 14] == s[k + 12..k + 14]
  {
  }

  /** `re.match` is anchored at the start only: the text after the match is
      never read, so cutting it off does not change the groups or the
      result, whatever that text is. */
  lemma AfterMatchIgnored(s: string, designator: char -> bool)
    requires PdfMatch(s, designator).Some?
    ensures PdfMatch(s[..MatchEnd(s, designator)], designator) == PdfMatch(s, designator)
    ensures PdfDateWith(s[..MatchEnd(s, designator)], designator) == PdfDateWith(s, designator)
  {
    PrefixMatches(s, s[..MatchEnd(s, designator)], designator);
  }

  /** For the parser as written: `pdfdatetime(s)` is `pdfdatetime` of the
      matched prefix alone, so "D:20120321183444Zjunk" reads as
      "D:20120321183444Z". */
  lemma PdfDateIgnoresRest(s: string)
    requires PdfMatch(s, AsWrittenDesignator).Some?
    ensures PdfDate(s[..MatchEnd(s, AsWrittenDesignator)]) == PdfDate(s)
  {
    AfterMatchIgnored(s, AsWrittenDesignator);
  }

  /** A corollary for a string whose match took every optional part, up to
      the closing quote: any text appended to it is never read. */
  lemma TrailingIgnored(s: string, t: string)
    requires PdfMatch(s, AsWrittenDesignator).Some?
    requires var g := PdfMatch(s, AsWrittenDesignator).value;
      g.designator.Some? && g.tzHour.Some? && g.tzMinute.Some?
    requires |s| == DigitsStart(s) + 14 + 1 + 2 + 1 + 2 + 1 && s[|s| - 1] == '\''
    ensures PdfDate(s + t) == PdfDate(s)
  {
    var u := s + t;
    var k := DigitsStart(s);
    forall a, b | 0 <= a <= b <= |s| ensures u[a..b] == s[a..b] {
    }
    assert DigitsStart(u) == k;
    assert PdfMatch(u, AsWrittenDesignator) == PdfMatch(s, AsWrittenDesignator);
  }

  /** The datetime constructor accepts exactly the dates of the proleptic
      Gregorian calendar from year 1 to 9999 and the times of a day, and
      keeps every field as given. */
  lemma MakeDateTimeValid(year: int, month: int, day: int, hour: int, minute: int, second: int, zone: Zone)
    ensures var r := MakeDateTime(year, month, day, hour, minute, second, zone);
      && (r.Ok? <==> 1 <= year <= 9999 && 1 <= month <= 12 && 1 <= day <= DaysInMonth(year, month)
                     && 0 <= hour < 24 && 0 <= minute < 60 && 0 <= second < 60)
      && (r.Ok? ==> r.value == DateTime(year, month, day, hour, minute, second, zone))
      && (r.Err? ==> r.error.ValueError?)
  {
  }

  /** A month outside 1..12 is a `ValueError` from the datetime
      constructor, after a year in range. */
  lemma MonthOutOfRange(year: int, month: int, day: int, hour: int, minute: int, second: int, zone: Zone)
    requires 1 <= year <= 9999 && !(1 <= month <= 12)
    ensures MakeDateTime(year, month, day, hour, minute, second, zone) == Err(ValueError("month"))
  {
  }

  /** The designator range in practice: after fourteen digits, a fifteenth
      digit is read as a designator, negative and without its HH, so every
      such string raises `TypeError`, whatever its date. */
  lemma DigitDesignatorAsWritten(s: string)
    requires |s| == 15 && AllDigits(s)
    ensures PdfDate(s) == Err(TypeError)
  {
    assert s[..2] != "D:" by {
      assert IsDigit(s[0]);
    }
    assert AllDigits(s[0..14]);
  }

  /** With the intended class the fifteenth digit is trailing text: the
      string reads as its first fourteen digits, a date in UTC. */
  lemma DigitDesignatorIntended(s: string)
    requires |s| == 15 && AllDigits(s)
    ensures PdfDateIntended(s) == PdfDate(s[..14])
    ensures PdfDateIntended(s).Ok? ==> PdfDateIntended(s).value.Some? && PdfDateIntended(s).value.value.zone == Utc
  {
    assert s[..2] != "D:" by {
      assert IsDigit(s[0]);
    }
    assert s[..14][..2] == s[..2];
    assert AllDigits(s[0..14]);
    assert s[..14][0..14] == s[0..14];
    forall a, b | 0 <= a <= b <= 14 ensures s[..14][a..b] == s[a..b] {
    }
  }

  /** With the intended class, a designator is one of '+', '-', 'z', 'Z':
      a digit or another letter after the seconds is never taken for one. */
  lemma IntendedDesignatorsOnly(s: string)
    requires PdfMatch(s, IntendedDesignator).Some?
    ensures var g := PdfMatch(s, IntendedDesignator).value;
      g.designator.Some? ==> g.designator.value in "+-zZ"
  {
  }
}
