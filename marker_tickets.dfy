/** The ticket array of a marker. A request sends one entry per hour of the
    day (index 0 is midnight); createMarker and updateMarker turn the entries
    worth keeping into `{ hour: "<h>:00 AM|PM", availableTickets }` records,
    and the read handlers strip every ":00" from the labels they return.
    The two handlers differ in which entries they keep. */
module MarkerTickets {
  import opened Wrappers
  import opened Text
  import opened Json

  datatype Ticket = Ticket(hour: string, availableTickets: Option<int>)

  /** The handler doing the transform. */
  datatype Handler = Create | Update

  /** createMarker keeps the truthy entries; updateMarker keeps every entry
      that is not null, undefined or the empty string. */
  predicate Kept(handler: Handler, entry: Value) {
    match handler
    case Create => Truthy(entry)
    case Update => !StrictEquals(entry, Null) && !StrictEquals(entry, Undefined) && !StrictEquals(entry, Str(""))
  }

  /** `${hour % 12 === 0 ? 12 : hour % 12}:00 ${hour < 12 ? "AM" : "PM"}` */
  function HourLabel(hour: nat): string {
    var formattedHour := if hour % 12 == 0 then 12 else hour % 12;
    NatToString(formattedHour) + ":00 " + (if hour < 12 then "AM" else "PM")
  }

  // ---------------------------------------------------------------------------
  // parseInt(value, 10)
  // ---------------------------------------------------------------------------

  /** The longest prefix of decimal digits. */
  function DigitPrefix(s: string): (r: string)
    ensures AllDigits(r) && |r| <= |s| && r == s[..|r|]
    ensures |r| < |s| ==> !IsDigit(s[|r|])
  {
    if s != [] && IsDigit(s[0]) then [s[0]] + DigitPrefix(s[1..]) else []
  }

  /** parseInt on a string: leading white space, an optional sign, then as many
      digits as there are; None (NaN) when there is no digit. */
  function ParseIntString(s: string): Option<int> {
    ParseIntTrimmed(TrimStart(s))
  }

  /** The sign and digits, once the leading white space is gone. */
  function ParseIntTrimmed(t: string): Option<int> {
    var negative := |t| > 0 && t[0] == '-';
    var unsigned := if |t| > 0 && (t[0] == '-' || t[0] == '+') then t[1..] else t;
    var digits := DigitPrefix(unsigned);
    if digits == [] then None
    else if negative then Some(-(DigitsValue(digits) as int))
    else Some(DigitsValue(digits))
  }

  /** The integer part of a number, towards zero, as parseInt reads its decimal text. */
  function Truncate(n: real): int {
    if n >= 0.0 then n.Floor else -((-n).Floor)
  }

  /** parseInt(entry, 10): the entry is converted to its string first. */
  function ParseInt(entry: Value): Option<int> {
    match entry
    case Str(s) => ParseIntString(s)
    case Num(n) => Some(Truncate(n))
    case _ => None
  }

  /** A decimal numeral reads back as its value; so do signs and trailing text. */
  lemma ParseIntDecimal(n: nat, rest: string)
    requires rest == [] || !IsDigit(rest[0])
    ensures ParseIntString(NatToString(n) + rest) == Some(n)
  {
    ParseDigits(NatToString(n), rest);
    NatToStringRoundTrip(n);
  }

  lemma ParseIntNegativeDecimal(n: nat, rest: string)
    requires rest == [] || !IsDigit(rest[0])
    ensures ParseIntString("-" + NatToString(n) + rest) == Some(-(n as int))
  {
    NatToStringRoundTrip(n);
    ParseNegativeDigits(NatToString(n), rest, n);
  }

  /** Digits followed by a non-digit read as the digits' value. */
  lemma ParseDigits(d: string, rest: string)
    requires d != [] && AllDigits(d)
    requires rest == [] || !IsDigit(rest[0])
    ensures ParseIntString(d + rest) == Some(DigitsValue(d))
  {
    var s := d + rest;
    assert s[0] == d[0];
    TrimStartUntouched(s);
    DigitPrefixOfDigits(d, rest);
  }

  lemma ParseNegativeDigits(d: string, rest: string, v: nat)
    requires d != [] && AllDigits(d) && DigitsValue(d) == v
    requires rest == [] || !IsDigit(rest[0])
    ensures ParseIntString("-" + d + rest) == Some(-(v as int))
  {
    var s := "-" + d + rest;
    TrimStartUntouched(s);
    assert s[1..] == d + rest;
    DigitPrefixOfDigits(d, rest);
    ParseSigned(s, d + rest, v);
  }

  lemma ParseSigned(t: string, unsigned: string, v: nat)
    requires |t| > 0 && t[0] == '-' && t[1..] == unsigned
    requires DigitPrefix(unsigned) != [] && DigitsValue(DigitPrefix(unsigned)) == v
    ensures ParseIntTrimmed(t) == Some(-(v as int))
  {
  }

  lemma TrimStartUntouched(s: string)
    requires s == [] || !IsJsWhitespace(s[0])
    ensures TrimStart(s) == s
  {
  }

  lemma {:induction false} DigitPrefixOfDigits(d: string, rest: string)
    requires AllDigits(d)
    requires rest == [] || !IsDigit(rest[0])
    ensures DigitPrefix(d + rest) == d
  {
    if d != [] {
      assert (d + rest)[1..] == d[1..] + rest;
      DigitPrefixOfDigits(d[1..], rest);
    }
  }

  /** An integral number parses to itself. */
  lemma ParseIntIntegral(k: int)
    ensures ParseInt(Num(k as real)) == Some(k)
  {
  }

  // ---------------------------------------------------------------------------
  // The transform: map with the index, then filter out the nulls
  // ---------------------------------------------------------------------------

  /** The `.map` step for the entry at index `hour`: a ticket, or null. */
  function TicketAt(handler: Handler, entry: Value, hour: nat): Option<Ticket> {
    if Kept(handler, entry) then Some(Ticket(HourLabel(hour), ParseInt(entry))) else None
  }

  /** `entries.map(...)` from index `from` on. */
  function MapFrom(handler: Handler, entries: seq<Value>, from: nat): (r: seq<Option<Ticket>>)
    requires from <= |entries|
    ensures |r| == |entries| - from
    ensures forall j :: 0 <= j < |r| ==> r[j] == TicketAt(handler, entries[from + j], from + j)
    decreases |entries| - from
  {
    if from == |entries| then [] else [TicketAt(handler, entries[from], from)] + MapFrom(handler, entries, from + 1)
  }

  /** `.filter((ticket) => ticket !== null)` */
  function Present(mapped: seq<Option<Ticket>>): (r: seq<Ticket>)
    ensures |r| <= |mapped|
  {
    if mapped == [] then []
    else if mapped[0].Some? then [mapped[0].value] + Present(mapped[1..])
    else Present(mapped[1..])
  }

  /** The tickets the handler stores. */
  function TransformTickets(handler: Handler, entries: seq<Value>): seq<Ticket> {
    Present(MapFrom(handler, entries, 0))
  }

  /** The hours kept, in increasing order: an index appears iff its entry is kept. */
  function KeptHours(handler: Handler, entries: seq<Value>, from: nat): (hours: seq<nat>)
    requires from <= |entries|
    ensures forall j :: 0 <= j < |hours| ==> from <= hours[j] < |entries| && Kept(handler, entries[hours[j]])
    ensures forall h :: from <= h < |entries| && Kept(handler, entries[h]) ==> h in hours
    ensures forall i, j :: 0 <= i < j < |hours| ==> hours[i] < hours[j]
    decreases |entries| - from
  {
    if from == |entries| then []
    else if Kept(handler, entries[from]) then [from] + KeptHours(handler, entries, from + 1)
    else KeptHours(handler, entries, from + 1)
  }

  /** The ticket for the entry at index `hour`. */
  function TicketFor(entries: seq<Value>, hour: nat): Ticket
    requires hour < |entries|
  {
    Ticket(HourLabel(hour), ParseInt(entries[hour]))
  }

  /** tickets[j] is the ticket for hour hours[j], for every j. */
  predicate TicketsOfHours(entries: seq<Value>, tickets: seq<Ticket>, hours: seq<nat>) {
    && |tickets| == |hours|
    && forall j :: 0 <= j < |hours| ==> hours[j] < |entries| && tickets[j] == TicketFor(entries, hours[j])
  }

  lemma TicketsOfHoursCons(entries: seq<Value>, tickets: seq<Ticket>, hours: seq<nat>, hour: nat)
    requires TicketsOfHours(entries, tickets, hours) && hour < |entries|
    ensures TicketsOfHours(entries, [TicketFor(entries, hour)] + tickets, [hour] + hours)
  {
  }

  /** The transform is the ticket of every kept hour, in order: each label is
      made from the entry's original index, not from its place in the output. */
  lemma {:induction false} TransformIsKeptHours(handler: Handler, entries: seq<Value>, from: nat)
    requires from <= |entries|
    ensures TicketsOfHours(entries, Present(MapFrom(handler, entries, from)), KeptHours(handler, entries, from))
    decreases |entries| - from
  {
    if from < |entries| {
      var mapped := MapFrom(handler, entries, from);
      var rest := MapFrom(handler, entries, from + 1);
      assert mapped == [TicketAt(handler, entries[from], from)] + rest;
      assert mapped[1..] == rest;
      TransformIsKeptHours(handler, entries, from + 1);
      if Kept(handler, entries[from]) {
        assert Present(mapped) == [TicketFor(entries, from)] + Present(rest);
        TicketsOfHoursCons(entries, Present(rest), KeptHours(handler, entries, from + 1), from);
      }
    }
  }

  /** The output is never longer than the input, and is as long exactly when
      every entry is kept. */
  lemma TransformLength(handler: Handler, entries: seq<Value>)
    ensures |TransformTickets(handler, entries)| <= |entries|
    ensures (forall h :: 0 <= h < |entries| ==> Kept(handler, entries[h]))
            <==> |TransformTickets(handler, entries)| == |entries|
  {
    TransformIsKeptHours(handler, entries, 0);
    if forall h :: 0 <= h < |entries| ==> Kept(handler, entries[h]) {
      AllKeptHours(handler, entries, 0);
    } else {
      var dropped :| 0 <= dropped < |entries| && !Kept(handler, entries[dropped]);
      DroppedEntryShortens(handler, entries, 0, dropped);
    }
  }

  /** Every hour from `from` on is kept at most once, and an entry that is
      not kept leaves its hour out. */
  lemma {:induction false} DroppedEntryShortens(handler: Handler, entries: seq<Value>, from: nat, dropped: nat)
    requires from <= dropped < |entries| && !Kept(handler, entries[dropped])
    ensures |KeptHours(handler, entries, from)| < |entries| - from
    decreases |entries| - from
  {
    if dropped > from {
      DroppedEntryShortens(handler, entries, from + 1, dropped);
    } else {
      KeptHoursBound(handler, entries, from + 1);
    }
  }

  lemma {:induction false} KeptHoursBound(handler: Handler, entries: seq<Value>, from: nat)
    requires from <= |entries|
    ensures |KeptHours(handler, entries, from)| <= |entries| - from
    decreases |entries| - from
  {
    if from < |entries| {
      KeptHoursBound(handler, entries, from + 1);
    }
  }

  lemma {:induction false} AllKeptHours(handler: Handler, entries: seq<Value>, from: nat)
    requires from <= |entries|
    requires forall h :: from <= h < |entries| ==> Kept(handler, entries[h])
    ensures |KeptHours(handler, entries, from)| == |entries| - from
    decreases |entries| - from
  {
    if from < |entries| {
      AllKeptHours(handler, entries, from + 1);
    }
  }

  /** Every entry kept on create is kept on update; the converse fails only
      for the falsy entries other than null, undefined and "": 0 and false. */
  lemma CreateKeepsLessThanUpdate(entry: Value)
    ensures Kept(Create, entry) ==> Kept(Update, entry)
    ensures Kept(Update, entry) && !Kept(Create, entry) <==> entry == Num(0.0) || entry == Bool(false)
  {
  }

  /** A 0 entry gets a ticket on update but not on create. */
  lemma ZeroSurvivesUpdateOnly(entries: seq<Value>, hour: nat)
    requires hour < |entries| && entries[hour] == Num(0.0)
    ensures hour in KeptHours(Update, entries, 0)
    ensures hour !in KeptHours(Create, entries, 0)
  {
  }

  /** The labels of midnight, noon and one in the afternoon. */
  lemma HourLabelExamples()
    ensures HourLabel(0) == "12:00 AM"
    ensures HourLabel(12) == "12:00 PM"
    ensures HourLabel(13) == "1:00 PM"
  {
    TwelveNumeral();
    assert NatToString(1) == "1";
  }

  /** Two numerals followed by text starting with ':' only agree when the numbers do. */
  lemma NumeralsBeforeColon(a: nat, b: nat, x: string, y: string)
    requires |x| > 0 && |y| > 0 && x[0] == ':' && y[0] == ':'
    requires NatToString(a) + x == NatToString(b) + y
    ensures a == b && x == y
  {
    var sa, sb := NatToString(a), NatToString(b);
    assert sa == (sa + x)[..|sa|];
    assert sb == (sb + y)[..|sb|];
    NatToStringRoundTrip(a);
    NatToStringRoundTrip(b);
    assert x == (sa + x)[|sa|..];
    assert y == (sb + y)[|sb|..];
  }

  /** The 24 hours of a day get 24 different labels. */
  lemma HourLabelInjective(a: nat, b: nat)
    requires a < 24 && b < 24
    requires HourLabel(a) == HourLabel(b)
    ensures a == b
  {
    var fa := if a % 12 == 0 then 12 else a % 12;
    var fb := if b % 12 == 0 then 12 else b % 12;
    var pa := ":00 " + (if a < 12 then "AM" else "PM");
    var pb := ":00 " + (if b < 12 then "AM" else "PM");
    assert HourLabel(a) == NatToString(fa) + pa;
    assert HourLabel(b) == NatToString(fb) + pb;
    NumeralsBeforeColon(fa, fb, pa, pb);
    assert pa[4] == pb[4];
  }

  // ---------------------------------------------------------------------------
  // Reading: hour.replace(/:00/g, "")
  // ---------------------------------------------------------------------------

  /** Every ":00", found left to right without overlap, removed. */
  function StripColonZeroZero(s: string): (r: string)
    ensures |r| <= |s|
  {
    if |s| >= 3 && s[..3] == ":00" then StripColonZeroZero(s[3..])
    else if s == [] then []
    else [s[0]] + StripColonZeroZero(s[1..])
  }

  /** Text without a colon passes unchanged. */
  lemma {:induction false} StripWithoutColon(d: string, rest: string)
    requires forall i :: 0 <= i < |d| ==> d[i] != ':'
    ensures StripColonZeroZero(d + rest) == d + StripColonZeroZero(rest)
  {
    if d == [] {
      assert d + rest == rest;
    } else {
      assert d + rest == [d[0]] + (d[1..] + rest);
      StripNonColonHead(d[0], d[1..] + rest);
      StripWithoutColon(d[1..], rest);
      assert d == [d[0]] + d[1..];
    }
  }

  lemma StripNonColonHead(c: char, u: string)
    requires c != ':'
    ensures StripColonZeroZero([c] + u) == [c] + StripColonZeroZero(u)
  {
    var s := [c] + u;
    if |s| >= 3 {
      assert s[..3][0] == c;
    }
    assert s[1..] == u;
  }

  /** Read back, a label loses its ":00": "12:00 AM" is shown as "12 AM". */
  lemma ReadLabel(hour: nat)
    ensures var formattedHour := if hour % 12 == 0 then 12 else hour % 12;
            StripColonZeroZero(HourLabel(hour)) == NatToString(formattedHour) + " " + (if hour < 12 then "AM" else "PM")
  {
    var formattedHour := if hour % 12 == 0 then 12 else hour % 12;
    var digits := NatToString(formattedHour);
    var period := if hour < 12 then "AM" else "PM";
    assert HourLabel(hour) == digits + (":00 " + period);
    StripWithoutColon(digits, ":00 " + period);
    StripPeriod(period);
    assert digits + (" " + period) == digits + " " + period;
  }

  /** The tail ":00 AM" or ":00 PM" reads as " AM" or " PM". */
  lemma StripPeriod(period: string)
    requires period == "AM" || period == "PM"
    ensures StripColonZeroZero(":00 " + period) == " " + period
  {
    assert (":00 " + period)[3..] == " " + period;
    StripWithoutColon(" " + period, []);
    assert " " + period + [] == " " + period;
  }

  lemma TwelveNumeral()
    ensures NatToString(12) == "12"
  {
    assert NatToString(1) == "1";
  }

  lemma ReadLabelExample()
    ensures StripColonZeroZero("12:00 AM") == "12 AM"
  {
    HourLabelExamples();
    ReadLabel(0);
    TwelveNumeral();
    assert "12" + " " + "AM" == "12 AM";
  }
}
