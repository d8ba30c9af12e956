/**
 * The card of frontend/src/components/UpcomingEvent.tsx: the flags derived
 * from `daysUntil` (the whole days from now to the scheduled date, as
 * `differenceInDays` gives them), the badge text, class and variant, the
 * sparkle, and the background gradient picked from the contact's name.
 */
module UpcomingEvent {
  import opened Strings
  import opened FrontendTypes

  datatype Flags = Flags(isToday: bool, isPast: bool, isThisWeek: bool)

  /** `isToday`, `isPast` and `isThisWeek`. */
  function FlagsOf(daysUntil: int): (f: Flags)
    ensures f.isToday <==> daysUntil == 0
    ensures f.isPast <==> daysUntil < 0
    ensures f.isThisWeek <==> 0 <= daysUntil <= 7
    ensures f.isPast ==> !f.isToday && !f.isThisWeek
    ensures f.isToday ==> f.isThisWeek && !f.isPast
  {
    Flags(daysUntil == 0, daysUntil < 0, daysUntil <= 7 && daysUntil >= 0)
  }

  /** `isThisWeek && !isPast`, the condition for the sparkle icon. */
  predicate ShowsSparkle(daysUntil: int) {
    var f := FlagsOf(daysUntil);
    f.isThisWeek && !f.isPast
  }

  /** The sparkle is shown exactly in the coming week, today included. */
  lemma SparkleIff(daysUntil: int)
    ensures ShowsSparkle(daysUntil) <==> 0 <= daysUntil <= 7
  {
  }

  /** The text after the icon of the badge for an event due today. */
  const TodayText: string := " Today!"

  /** The badge text for an event due today: a party popper and "Today!". */
  const TodayLabel: string := "\U{1F389}" + TodayText

  /** The badge text for today as the source file holds it. */
  const TodayLabelAsWritten: string := "\U{00F0}\U{0178}\U{017D}\U{2030}" + TodayText

  /** The badge text: `Sent`, else `Missed` when past, else the today text, else `<days>d`. */
  function Label(status: Status, daysUntil: int): (s: string)
    ensures s == "Sent" <==> status == Sent
    ensures status == Scheduled && daysUntil < 0 ==> s == "Missed"
    ensures status == Scheduled && daysUntil == 0 ==> s == TodayLabel
    ensures status == Scheduled && daysUntil > 0 ==> s == Decimal(daysUntil) + "d"
  {
    var f := FlagsOf(daysUntil);
    if status == Sent then "Sent"
    else if f.isPast then "Missed"
    else if f.isToday then TodayLabel
    else
      var s := Decimal(daysUntil) + "d";
      assert s[|s| - 2] != 'n';
      s
  }

  /** The badge text as written, with the today text garbled; every other text is the intended one. */
  function LabelAsWritten(status: Status, daysUntil: int): (s: string)
    ensures status == Scheduled && daysUntil == 0 ==> s == TodayLabelAsWritten
    ensures !(status == Scheduled && daysUntil == 0) ==> s == Label(status, daysUntil)
    ensures s == "Sent" <==> status == Sent
  {
    var f := FlagsOf(daysUntil);
    if status == Sent then "Sent"
    else if f.isPast then "Missed"
    else if f.isToday then TodayLabelAsWritten
    else Decimal(daysUntil) + "d"
  }

  /**
   * For a scheduled event the badge text tells the days apart: two events show
   * the same text exactly when both are past or both are due in the same number
   * of days.
   */
  lemma LabelTellsDaysApart(d1: int, d2: int)
    ensures Label(Scheduled, d1) == Label(Scheduled, d2) <==> (d1 < 0 && d2 < 0) || d1 == d2
  {
    var l1, l2 := Label(Scheduled, d1), Label(Scheduled, d2);
    if l1 == l2 && d1 > 0 && d2 > 0 {
      assert Decimal(d1) == l1[..|l1| - 1];
      assert Decimal(d2) == l2[..|l2| - 1];
      DecimalInjective(d1, d2);
    }
    if d1 > 0 {
      assert IsDigit(l1[0]);
    }
    if d2 > 0 {
      assert IsDigit(l2[0]);
    }
  }

  /** The UTF-8 encoding of a character. */
  function Utf8(c: char): (bytes: seq<int>)
    ensures 1 <= |bytes| <= 4
    ensures forall i :: 0 <= i < |bytes| ==> 0 <= bytes[i] < 256
  {
    var n := c as int;
    if n < 0x80 then [n]
    else if n < 0x800 then [0xC0 + n / 0x40, 0x80 + n % 0x40]
    else if n < 0x10000 then [0xE0 + n / 0x1000, 0x80 + n / 0x40 % 0x40, 0x80 + n % 0x40]
    else [0xF0 + n / 0x40000, 0x80 + n / 0x1000 % 0x40, 0x80 + n / 0x40 % 0x40, 0x80 + n % 0x40]
  }

  /** The characters Windows-1252 gives the bytes 0x80..0x9F (the five unassigned ones read as C1 controls). */
  const Windows1252High: seq<char> := [
    '\U{20AC}', '\U{0081}', '\U{201A}', '\U{0192}', '\U{201E}', '\U{2026}', '\U{2020}', '\U{2021}',
    '\U{02C6}', '\U{2030}', '\U{0160}', '\U{2039}', '\U{0152}', '\U{008D}', '\U{017D}', '\U{008F}',
    '\U{0090}', '\U{2018}', '\U{2019}', '\U{201C}', '\U{201D}', '\U{2022}', '\U{2013}', '\U{2014}',
    '\U{02DC}', '\U{2122}', '\U{0161}', '\U{203A}', '\U{0153}', '\U{009D}', '\U{017E}', '\U{0178}']

  /** A byte read as a Windows-1252 character. */
  function Windows1252(b: int): char
    requires 0 <= b < 256
  {
    if 0x80 <= b < 0xA0 then Windows1252High[b - 0x80] else b as char
  }

  function BytesAsWindows1252(bytes: seq<int>): string
    requires forall i :: 0 <= i < |bytes| ==> 0 <= bytes[i] < 256
  {
    if bytes == [] then [] else [Windows1252(bytes[0])] + BytesAsWindows1252(bytes[1..])
  }

  /** Text encoded as UTF-8 and the bytes read back as Windows-1252. */
  function MisreadAsWindows1252(s: string): string {
    if s == [] then [] else BytesAsWindows1252(Utf8(s[0])) + MisreadAsWindows1252(s[1..])
  }

  /** ASCII text reads back unchanged. */
  lemma {:induction false} AsciiReadsBack(s: string)
    requires forall i :: 0 <= i < |s| ==> s[i] < '\U{0080}'
    ensures MisreadAsWindows1252(s) == s
  {
    if s != [] {
      AsciiReadsBack(s[1..]);
      assert Utf8(s[0]) == [s[0] as int];
      assert BytesAsWindows1252([s[0] as int]) == [s[0]];
    }
  }

  /** U+1F389 PARTY POPPER in UTF-8. */
  lemma PartyPopperBytes()
    ensures Utf8('\U{1F389}') == [0xF0, 0x9F, 0x8E, 0x89]
  {
    var n := '\U{1F389}' as int;
    assert n == 0x1F389;
    assert n / 0x40000 == 0 && n / 0x1000 % 0x40 == 0x1F && n / 0x40 % 0x40 == 0x0E && n % 0x40 == 0x09;
  }

  /** Those four bytes in Windows-1252. */
  lemma PartyPopperBytesAsWindows1252()
    ensures BytesAsWindows1252([0xF0, 0x9F, 0x8E, 0x89]) == "\U{00F0}\U{0178}\U{017D}\U{2030}"
  {
    assert BytesAsWindows1252([0x89]) == ['\U{2030}'];
    assert BytesAsWindows1252([0x8E, 0x89]) == ['\U{017D}', '\U{2030}'];
    assert BytesAsWindows1252([0x9F, 0x8E, 0x89]) == ['\U{0178}', '\U{017D}', '\U{2030}'];
  }

  /** The today text as written is the party-popper text with its UTF-8 bytes F0 9F 8E 89 read as Windows-1252. */
  lemma TodayLabelIsMisread()
    ensures MisreadAsWindows1252(TodayLabel) == TodayLabelAsWritten
    ensures TodayLabelAsWritten != TodayLabel
  {
    assert TodayLabel == ['\U{1F389}'] + TodayText;
    MisreadCons('\U{1F389}', TodayText);
    PartyPopperBytes();
    PartyPopperBytesAsWindows1252();
    TodayTextReadsBack();
    assert TodayLabelAsWritten[0] != TodayLabel[0];
  }

  lemma TodayTextReadsBack()
    ensures MisreadAsWindows1252(TodayText) == TodayText
  {
    assert TodayText == [' ', 'T', 'o', 'd', 'a', 'y', '!'];
    AsciiReadsBack(TodayText);
  }

  lemma MisreadCons(c: char, rest: string)
    ensures MisreadAsWindows1252([c] + rest) == BytesAsWindows1252(Utf8(c)) + MisreadAsWindows1252(rest)
  {
    assert ([c] + rest)[1..] == rest;
  }

  /** The garbled text is the only difference: every other badge text is as intended. */
  lemma LabelAsWrittenDiffersOnlyToday(status: Status, daysUntil: int)
    ensures LabelAsWritten(status, daysUntil) != Label(status, daysUntil) <==> status == Scheduled && daysUntil == 0
  {
    TodayLabelIsMisread();
  }

  const GoldBadge: string := "bg-celebration-gold text-foreground animate-pulse shadow-glow"
  const OrangeBadge: string := "bg-celebration-orange text-white"
  const PrimaryBadge: string := "bg-primary text-primary-foreground"
  const MutedBadge: string := "bg-muted text-muted-foreground"

  /** The colour classes of the badge. */
  function BadgeClass(status: Status, daysUntil: int): (c: string)
    ensures status == Scheduled && daysUntil == 0 ==> c == GoldBadge
    ensures status == Scheduled && 1 <= daysUntil <= 7 ==> c == OrangeBadge
    ensures status == Scheduled && (daysUntil < 0 || daysUntil > 7) ==> c == PrimaryBadge
    ensures status == Sent && daysUntil < 0 ==> c == MutedBadge
    ensures status == Sent && daysUntil >= 0 ==> c == ""
  {
    var f := FlagsOf(daysUntil);
    if status == Scheduled then
      if f.isToday then GoldBadge else if f.isThisWeek then OrangeBadge else PrimaryBadge
    else if f.isPast then MutedBadge else ""
  }

  /** The badge variant: `secondary` for a sent event, `default` otherwise. */
  function BadgeVariant(status: Status): (v: string)
    ensures v == "secondary" <==> status == Sent
    ensures status != Sent ==> v == "default"
  {
    if status == Sent then "secondary" else "default"
  }

  const Gradients: seq<string> := [
    "from-celebration-purple/20 to-celebration-pink/20",
    "from-celebration-blue/20 to-celebration-purple/20",
    "from-celebration-pink/20 to-celebration-orange/20",
    "from-celebration-gold/20 to-celebration-orange/20"]

  /** `s.length`: UTF-16 code units, two for a character outside the Basic Multilingual Plane. */
  function Utf16Length(s: string): (n: nat)
    ensures n >= |s|
    ensures n == |s| <==> forall i :: 0 <= i < |s| ==> s[i] <= '\U{FFFF}'
  {
    if s == [] then 0
    else (if s[0] <= '\U{FFFF}' then 1 else 2) + Utf16Length(s[1..])
  }

  /** `contactName.length % eventGradients.length`. */
  function GradientIndex(name: string): (i: nat)
    ensures i < |Gradients|
    ensures i == Utf16Length(name) % 4
    ensures (forall k :: 0 <= k < |name| ==> name[k] <= '\U{FFFF}') ==> i == |name| % 4
  {
    Utf16Length(name) % |Gradients|
  }

  function Gradient(name: string): (g: string)
    ensures g in Gradients
    ensures g == Gradients[GradientIndex(name)]
  {
    Gradients[GradientIndex(name)]
  }
}
