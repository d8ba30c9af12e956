/**
 * The logic of frontend/src/pages/Dashboard.tsx: the auto-schedule effect,
 * which lists the next birthday and anniversary of every contact; the
 * `upcomingEvents` view; and the branches of the contact and template save
 * handlers. `today` is the local date at midnight, taken from the clock by
 * the caller; `parse` stands for `new Date(text)` on a stored date: the local
 * calendar date it denotes, or `None` for an Invalid Date.
 */
module Dashboard {
  import opened Wrappers
  import opened Calendar
  import opened FrontendTypes
  import ContactDialog
  import TemplateDialog

  /**
   * The next occurrence as the effect computes it:
   * `new Date(today.getFullYear(), d.getMonth(), d.getDate())`, moved with
   * `setFullYear(today.getFullYear() + 1)` when strictly before today. The
   * second step keeps the month and day of the first, after its rollover.
   */
  function NextOccurrenceAsWritten(today: CivilDate, stored: CivilDate): (next: CivilDate)
    ensures NotAfter(today, next)
    ensures NotAfter(next, Date(today.year + 1, today.month, today.day))
    ensures next.year == today.year || next.year == today.year + 1
    ensures stored.month == today.month && stored.day == today.day ==> next == today
    ensures !(stored.month == 2 && stored.day == 29) ==> next.month == stored.month && next.day == stored.day
  {
    var n := MakeDate(today.year, stored.month, stored.day);
    if Before(n, today) then MakeDate(today.year + 1, n.month, n.day) else n
  }

  /**
   * The 29th of February seen after the 1st of March of the year before a leap
   * year: the 1st of March of the leap year is listed, though the 29th of
   * February of that year exists and comes first.
   */
  lemma LeapDayAsWritten()
    ensures NextOccurrenceAsWritten(Date(2027, 3, 5), Date(2000, 2, 29)) == Date(2028, 3, 1)
    ensures ValidDate(Date(2028, 2, 29)) && Before(Date(2027, 3, 5), Date(2028, 2, 29))
    ensures Before(Date(2028, 2, 29), Date(2028, 3, 1))
  {
    assert MakeDate(2027, 2, 29) == Date(2027, 3, 1);
    assert MakeDate(2028, 3, 1) == Date(2028, 3, 1);
  }

  /**
   * The next occurrence of a stored month and day: this year's, or next year's
   * when this year's is already past; a day a year lacks (the 29th of February)
   * rolls over to the 1st of March, as the `Date` constructor does.
   */
  function NextOccurrence(today: CivilDate, stored: CivilDate): (next: CivilDate)
    ensures NotAfter(today, next)
    ensures NotAfter(next, Date(today.year + 1, today.month, today.day))
    ensures next.year == today.year || next.year == today.year + 1
    ensures stored.month == today.month && stored.day == today.day ==> next == today
    ensures !(stored.month == 2 && stored.day == 29) ==> next.month == stored.month && next.day == stored.day
  {
    var n := MakeDate(today.year, stored.month, stored.day);
    if Before(n, today) then MakeDate(today.year + 1, stored.month, stored.day) else n
  }

  /** The next occurrence is the earliest date on or after today with the stored month and day. */
  lemma NextOccurrenceIsEarliest(today: CivilDate, stored: CivilDate, e: CivilDate)
    requires e.month == stored.month && e.day == stored.day && NotAfter(today, e)
    ensures NotAfter(NextOccurrence(today, stored), e)
  {
    var y := today.year;
    var n := MakeDate(y, stored.month, stored.day);
    if e.year == y {
      assert n == e;
    } else if Before(n, today) && e.year == y + 1 {
      assert MakeDate(y + 1, stored.month, stored.day) == e;
    }
  }

  /** For the 29th of February after the 1st of March of a common year, the next leap day is found. */
  lemma LeapDayCorrected()
    ensures NextOccurrence(Date(2027, 3, 5), Date(2000, 2, 29)) == Date(2028, 2, 29)
  {
    assert MakeDate(2027, 2, 29) == Date(2027, 3, 1);
    assert MakeDate(2028, 2, 29) == Date(2028, 2, 29);
  }

  /** Away from the 29th of February the code as written finds the earliest occurrence too. */
  lemma AsWrittenAgrees(today: CivilDate, stored: CivilDate)
    requires !(stored.month == 2 && stored.day == 29)
    ensures NextOccurrenceAsWritten(today, stored) == NextOccurrence(today, stored)
  {
  }

  /** The entry pushed for one present date, dated as the effect as written dates it. */
  function EntryFor(today: CivilDate, c: Contact, kind: EventKind, stored: CivilDate): ScheduledMessage {
    ScheduledMessage(c.id + "-" + KindName(kind), c.id, c.name, NextOccurrenceAsWritten(today, stored),
                     kind, Scheduled, KindName(kind))
  }

  /** Both results, concatenated, or `None` when either failed. */
  function Both<T>(a: Option<seq<T>>, b: Option<seq<T>>): Option<seq<T>> {
    if a.Some? && b.Some? then Some(a.value + b.value) else None
  }

  /** The entry for one date field: none when the field is falsy, a failure when it is not a date. */
  function FieldEntries(today: CivilDate, c: Contact, kind: EventKind, field: Option<string>,
                        parse: string -> Option<CivilDate>): Option<seq<ScheduledMessage>>
  {
    if !Truthy(field) then Some([])
    else match parse(field.value)
      case None => None
      case Some(d) => Some([EntryFor(today, c, kind, d)])
  }

  /** Whether `new Date(field)` would be an Invalid Date, which makes `toISOString` throw. */
  predicate FieldFails(field: Option<string>, parse: string -> Option<CivilDate>) {
    Truthy(field) && parse(field.value).None?
  }

  /** Whether either date of the contact makes the effect throw. */
  predicate ContactFails(c: Contact, parse: string -> Option<CivilDate>) {
    FieldFails(c.birthday, parse) || FieldFails(c.anniversary, parse)
  }

  /** A contact's entries: the birthday's, then the anniversary's, one per present date. */
  function ContactEntries(today: CivilDate, c: Contact, parse: string -> Option<CivilDate>): (r: Option<seq<ScheduledMessage>>)
    ensures r.None? <==> ContactFails(c, parse)
    ensures r.Some? ==> |r.value| == (if Truthy(c.birthday) then 1 else 0) + (if Truthy(c.anniversary) then 1 else 0)
    ensures r.Some? && Truthy(c.birthday) ==> r.value[0] == EntryFor(today, c, Birthday, parse(c.birthday.value).value)
    ensures r.Some? && Truthy(c.anniversary) ==>
      r.value[|r.value| - 1] == EntryFor(today, c, Anniversary, parse(c.anniversary.value).value)
  {
    Both(FieldEntries(today, c, Birthday, c.birthday, parse), FieldEntries(today, c, Anniversary, c.anniversary, parse))
  }

  /** The list the effect stores: the entries of every contact, in contact order; `None` when it throws. */
  function Schedule(today: CivilDate, contacts: seq<Contact>, parse: string -> Option<CivilDate>): Option<seq<ScheduledMessage>> {
    if contacts == [] then Some([])
    else Both(Schedule(today, contacts[..|contacts| - 1], parse), ContactEntries(today, contacts[|contacts| - 1], parse))
  }

  lemma ScheduleStep(today: CivilDate, contacts: seq<Contact>, parse: string -> Option<CivilDate>, i: nat)
    requires i < |contacts|
    ensures Schedule(today, contacts[..i + 1], parse) == Both(Schedule(today, contacts[..i], parse), ContactEntries(today, contacts[i], parse))
  {
    assert contacts[..i + 1][..i] == contacts[..i];
  }

  lemma BothAssociative<T>(a: Option<seq<T>>, b: Option<seq<T>>, c: Option<seq<T>>)
    ensures Both(Both(a, b), c) == Both(a, Both(b, c))
  {
    if a.Some? && b.Some? && c.Some? {
      assert (a.value + b.value) + c.value == a.value + (b.value + c.value);
    }
  }

  /** Contacts are handled one after another: the list for `a + b` is the list for `a`, then for `b`. */
  lemma {:induction false} ScheduleAppend(today: CivilDate, a: seq<Contact>, b: seq<Contact>, parse: string -> Option<CivilDate>)
    ensures Schedule(today, a + b, parse) == Both(Schedule(today, a, parse), Schedule(today, b, parse))
    decreases |b|
  {
    if b == [] {
      assert a + b == a;
      if Schedule(today, a, parse).Some? {
        assert Schedule(today, a, parse).value + [] == Schedule(today, a, parse).value;
      }
    } else {
      var b', last := b[..|b| - 1], b[|b| - 1];
      assert (a + b)[..|a + b| - 1] == a + b';
      assert (a + b)[|a + b| - 1] == last;
      ScheduleAppend(today, a, b', parse);
      var sa, sb', sl := Schedule(today, a, parse), Schedule(today, b', parse), ContactEntries(today, last, parse);
      assert Schedule(today, a + b, parse) == Both(Both(sa, sb'), sl);
      assert Schedule(today, b, parse) == Both(sb', sl);
      BothAssociative(sa, sb', sl);
    }
  }

  lemma ScheduleLastFails(today: CivilDate, contacts: seq<Contact>, parse: string -> Option<CivilDate>)
    requires contacts != []
    ensures Schedule(today, contacts, parse).None? <==>
      Schedule(today, contacts[..|contacts| - 1], parse).None? || ContactFails(contacts[|contacts| - 1], parse)
  {
  }

  /** The effect throws exactly when some contact has a present date that is not a date. */
  lemma {:induction false} ScheduleFailsIff(today: CivilDate, contacts: seq<Contact>, parse: string -> Option<CivilDate>)
    ensures Schedule(today, contacts, parse).None? <==> exists c :: c in contacts && ContactFails(c, parse)
  {
    if contacts != [] {
      var init := contacts[..|contacts| - 1];
      var last := contacts[|contacts| - 1];
      ScheduleFailsIff(today, init, parse);
      ScheduleLastFails(today, contacts, parse);
      assert contacts == init + [last];
      if Schedule(today, contacts, parse).None? {
        if Schedule(today, init, parse).None? {
          var c :| c in init && ContactFails(c, parse);
          assert c in contacts;
        } else {
          assert last in contacts;
        }
      } else {
        forall c | c in contacts
          ensures !ContactFails(c, parse)
        {
          if c != last {
            assert c in init;
          }
        }
      }
    }
  }

  /**
   * Every entry is `scheduled`, uses the template named after its type, has the
   * id `<contact id>-<type>`, and falls on or after today, for a contact of the list.
   */
  lemma {:induction false} ScheduleEntriesWellFormed(today: CivilDate, contacts: seq<Contact>, parse: string -> Option<CivilDate>, e: ScheduledMessage)
    requires Schedule(today, contacts, parse).Some? && e in Schedule(today, contacts, parse).value
    ensures e.status == Scheduled && e.templateId == KindName(e.kind) && e.id == e.contactId + "-" + KindName(e.kind)
    ensures NotAfter(today, e.scheduledDate)
    ensures exists c :: c in contacts && c.id == e.contactId && c.name == e.contactName
  {
    var init := contacts[..|contacts| - 1];
    var last := contacts[|contacts| - 1];
    var s := Schedule(today, init, parse).value;
    if e in s {
      ScheduleEntriesWellFormed(today, init, parse, e);
      var c :| c in init && c.id == e.contactId && c.name == e.contactName;
      assert c in contacts;
    } else {
      assert e in ContactEntries(today, last, parse).value;
      assert last in contacts;
    }
  }

  /** Every present birthday and anniversary gets its entry. */
  lemma {:induction false} ScheduleCoversDates(today: CivilDate, contacts: seq<Contact>, parse: string -> Option<CivilDate>, c: Contact)
    requires Schedule(today, contacts, parse).Some? && c in contacts
    ensures Truthy(c.birthday) ==>
      (parse(c.birthday.value).Some? &&
       EntryFor(today, c, Birthday, parse(c.birthday.value).value) in Schedule(today, contacts, parse).value)
    ensures Truthy(c.anniversary) ==>
      (parse(c.anniversary.value).Some? &&
       EntryFor(today, c, Anniversary, parse(c.anniversary.value).value) in Schedule(today, contacts, parse).value)
  {
    var init := contacts[..|contacts| - 1];
    var last := contacts[|contacts| - 1];
    if c == last {
      var r := ContactEntries(today, c, parse).value;
      assert Truthy(c.birthday) ==> r[0] in r;
      assert Truthy(c.anniversary) ==> r[|r| - 1] in r;
    } else {
      assert contacts == init + [last];
      ScheduleCoversDates(today, init, parse, c);
    }
  }

  /** Once a prefix of the contacts makes the effect throw, the whole list does. */
  lemma SchedulePrefixFails(today: CivilDate, contacts: seq<Contact>, parse: string -> Option<CivilDate>, k: nat)
    requires k <= |contacts| && Schedule(today, contacts[..k], parse).None?
    ensures Schedule(today, contacts, parse).None?
  {
    ScheduleAppend(today, contacts[..k], contacts[k..], parse);
    assert contacts[..k] + contacts[k..] == contacts;
  }

  /**
   * The callback of `forEach` for one contact: pushes the birthday's entry, then
   * the anniversary's; `None` when a present date is not a date.
   */
  method PushEntries(today: CivilDate, c: Contact, parse: string -> Option<CivilDate>, updated: seq<ScheduledMessage>)
    returns (r: Option<seq<ScheduledMessage>>)
    ensures r == Both(Some(updated), ContactEntries(today, c, parse))
  {
    var pushed := updated;
    ghost var fromBirthday: seq<ScheduledMessage> := [];
    ghost var fromAnniversary: seq<ScheduledMessage> := [];
    if Truthy(c.birthday) {
      var d := parse(c.birthday.value);
      if d.None? {
        return None;
      }
      pushed := pushed + [EntryFor(today, c, Birthday, d.value)];
      fromBirthday := [EntryFor(today, c, Birthday, d.value)];
    }
    assert FieldEntries(today, c, Birthday, c.birthday, parse) == Some(fromBirthday);
    if Truthy(c.anniversary) {
      var d := parse(c.anniversary.value);
      if d.None? {
        return None;
      }
      pushed := pushed + [EntryFor(today, c, Anniversary, d.value)];
      fromAnniversary := [EntryFor(today, c, Anniversary, d.value)];
    }
    assert FieldEntries(today, c, Anniversary, c.anniversary, parse) == Some(fromAnniversary);
    assert pushed == updated + (fromBirthday + fromAnniversary);
    r := Some(pushed);
  }

  /** The loop of the effect: `forEach` over the contacts, with the entries pushed onto one list. */
  method BuildSchedule(today: CivilDate, contacts: seq<Contact>, parse: string -> Option<CivilDate>)
    returns (r: Option<seq<ScheduledMessage>>)
    ensures r == Schedule(today, contacts, parse)
  {
    var updated: seq<ScheduledMessage> := [];
    var i := 0;
    while i < |contacts|
      invariant 0 <= i <= |contacts|
      invariant Schedule(today, contacts[..i], parse) == Some(updated)
    {
      var next := PushEntries(today, contacts[i], parse, updated);
      ScheduleStep(today, contacts, parse, i);
      if next.None? {
        SchedulePrefixFails(today, contacts, parse, i + 1);
        return None;
      }
      updated := next.value;
      i := i + 1;
    }
    assert contacts[..i] == contacts;
    r := Some(updated);
  }

  /** A number that orders entries by date, year first, then month, then day. */
  function TimeKey(m: ScheduledMessage): int {
    m.scheduledDate.year * 416 + m.scheduledDate.month * 32 + m.scheduledDate.day
  }

  /** Entries are ordered by their dates as comparing `getTime()` orders them. */
  lemma TimeKeyOrdersAsTime(a: ScheduledMessage, b: ScheduledMessage)
    ensures TimeKey(a) <= TimeKey(b) <==> DayNumber(a.scheduledDate) <= DayNumber(b.scheduledDate)
  {
    BeforeIsDayOrder(a.scheduledDate, b.scheduledDate);
    BeforeIsDayOrder(b.scheduledDate, a.scheduledDate);
  }

  predicate SortedByDate(s: seq<ScheduledMessage>) {
    forall i, j :: 0 <= i < j < |s| ==> TimeKey(s[i]) <= TimeKey(s[j])
  }

  /** `filter((m) => m.status === "scheduled")`. */
  function OnlyScheduled(ms: seq<ScheduledMessage>): (r: seq<ScheduledMessage>)
    ensures forall e :: e in r <==> e in ms && e.status == Scheduled
    ensures multiset(r) <= multiset(ms)
  {
    if ms == [] then []
    else
      assert ms == [ms[0]] + ms[1..];
      (if ms[0].status == Scheduled then [ms[0]] else []) + OnlyScheduled(ms[1..])
  }

  /** `filter` keeps every scheduled entry as often as it occurs, and no other. */
  lemma {:induction false} OnlyScheduledCounts(ms: seq<ScheduledMessage>, e: ScheduledMessage)
    ensures multiset(OnlyScheduled(ms))[e] == if e.status == Scheduled then multiset(ms)[e] else 0
  {
    if ms != [] {
      assert ms == [ms[0]] + ms[1..];
      OnlyScheduledCounts(ms[1..], e);
    }
  }

  /** The filter keeps the order of the list: filtering a concatenation filters each part. */
  lemma {:induction false} OnlyScheduledAppend(a: seq<ScheduledMessage>, b: seq<ScheduledMessage>)
    ensures OnlyScheduled(a + b) == OnlyScheduled(a) + OnlyScheduled(b)
  {
    if a != [] {
      var head := if a[0].status == Scheduled then [a[0]] else [];
      assert (a + b)[0] == a[0] && (a + b)[1..] == a[1..] + b;
      assert OnlyScheduled(a + b) == head + OnlyScheduled(a[1..] + b);
      assert OnlyScheduled(a) == head + OnlyScheduled(a[1..]);
      OnlyScheduledAppend(a[1..], b);
    } else {
      assert a + b == b;
    }
  }

  /** In a sorted list the first entry is no later than any other. */
  lemma SortedHeadIsLeast(s: seq<ScheduledMessage>, e: ScheduledMessage)
    requires SortedByDate(s) && s != [] && e in s[1..]
    ensures TimeKey(s[0]) <= TimeKey(e)
  {
    var k :| 0 <= k < |s[1..]| && s[1..][k] == e;
    assert s[k + 1] == e;
  }

  /** An entry no later than every entry of a sorted list can go in front of it. */
  lemma SortedCons(h: ScheduledMessage, t: seq<ScheduledMessage>)
    requires SortedByDate(t) && forall e :: e in t ==> TimeKey(h) <= TimeKey(e)
    ensures SortedByDate([h] + t)
  {
    var s := [h] + t;
    forall i, j | 0 <= i < j < |s| ensures TimeKey(s[i]) <= TimeKey(s[j]) {
      if i == 0 {
        assert s[j] == t[j - 1];
        assert s[j] in t;
      } else {
        assert s[i] == t[i - 1] && s[j] == t[j - 1];
      }
    }
  }

  /** `x` in front of a sorted list whose first entry is not earlier keeps it sorted. */
  lemma InsertFrontSorted(x: ScheduledMessage, s: seq<ScheduledMessage>)
    requires s == [] || TimeKey(x) <= TimeKey(s[0])
    ensures SortedByDate(s) ==> SortedByDate([x] + s)
  {
    if SortedByDate(s) {
      forall e | e in s ensures TimeKey(x) <= TimeKey(e) {
        if e != s[0] {
          assert s == [s[0]] + s[1..];
          SortedHeadIsLeast(s, e);
        }
      }
      SortedCons(x, s);
    }
  }

  /** The first entry of a sorted list in front of the rest with a later `x` inserted keeps it sorted. */
  lemma InsertBehindSorted(x: ScheduledMessage, s: seq<ScheduledMessage>, t: seq<ScheduledMessage>)
    requires s != [] && TimeKey(s[0]) < TimeKey(x)
    requires forall e :: e in t ==> e in s[1..] || e == x
    requires SortedByDate(s[1..]) ==> SortedByDate(t)
    ensures SortedByDate(s) ==> SortedByDate([s[0]] + t)
  {
    if SortedByDate(s) {
      assert SortedByDate(s[1..]) by {
        forall i, j | 0 <= i < j < |s[1..]| ensures TimeKey(s[1..][i]) <= TimeKey(s[1..][j]) {
          assert s[1..][i] == s[i + 1] && s[1..][j] == s[j + 1];
        }
      }
      forall e | e in t ensures TimeKey(s[0]) <= TimeKey(e) {
        if e != x {
          SortedHeadIsLeast(s, e);
        }
      }
      SortedCons(s[0], t);
    }
  }

  /** Puts `x` before the first entry that is not earlier, so equal dates keep their order. */
  function InsertByDate(x: ScheduledMessage, s: seq<ScheduledMessage>): (r: seq<ScheduledMessage>)
    ensures multiset(r) == multiset(s) + multiset{x}
    ensures forall e :: e in r <==> e in s || e == x
    ensures SortedByDate(s) ==> SortedByDate(r)
  {
    if s == [] || TimeKey(x) <= TimeKey(s[0]) then
      InsertFrontSorted(x, s);
      [x] + s
    else
      assert s == [s[0]] + s[1..];
      var t := InsertByDate(x, s[1..]);
      InsertBehindSorted(x, s, t);
      [s[0]] + t
  }

  /** `sort((a, b) => time(a) - time(b))`: ascending by date, equal dates in their original order. */
  function SortByDate(s: seq<ScheduledMessage>): (r: seq<ScheduledMessage>)
    ensures multiset(r) == multiset(s) && |r| == |s|
    ensures SortedByDate(r)
  {
    if s == [] then []
    else
      assert s == [s[0]] + s[1..];
      InsertByDate(s[0], SortByDate(s[1..]))
  }

  /** A prefix of a sorted list is sorted and holds only entries of the list. */
  lemma SortedPrefix(sorted: seq<ScheduledMessage>, k: nat)
    requires k <= |sorted|
    ensures SortedByDate(sorted) ==> SortedByDate(sorted[..k])
    ensures forall e :: e in sorted[..k] ==> e in multiset(sorted)
  {
    if SortedByDate(sorted) {
      forall i, j | 0 <= i < j < k ensures TimeKey(sorted[..k][i]) <= TimeKey(sorted[..k][j]) {
        assert sorted[..k][i] == sorted[i] && sorted[..k][j] == sorted[j];
      }
    }
  }

  /** `upcomingEvents`: the scheduled entries, by date, at most ten. */
  function UpcomingEvents(ms: seq<ScheduledMessage>): (r: seq<ScheduledMessage>)
    ensures |r| <= 10
    ensures forall e :: e in r ==> e in ms && e.status == Scheduled
    ensures SortedByDate(r)
  {
    var sorted := SortByDate(OnlyScheduled(ms));
    var k := if |sorted| < 10 then |sorted| else 10;
    SortedPrefix(sorted, k);
    sorted[..k]
  }

  /** No entry of a sorted list past position `k` is earlier than one before it. */
  lemma SortedPrefixIsEarliest(sorted: seq<ScheduledMessage>, k: nat)
    requires SortedByDate(sorted) && k <= |sorted|
    ensures forall e, x :: e in sorted[k..] && x in sorted[..k] ==> TimeKey(x) <= TimeKey(e)
  {
    forall e, x | e in sorted[k..] && x in sorted[..k] ensures TimeKey(x) <= TimeKey(e) {
      var j :| 0 <= j < |sorted[k..]| && sorted[k..][j] == e;
      var i :| 0 <= i < |sorted[..k]| && sorted[..k][i] == x;
      assert sorted[i] == x && sorted[k + j] == e;
    }
  }

  /** What a prefix leaves out of a list is its suffix. */
  lemma PrefixRemainder(sorted: seq<ScheduledMessage>, all: seq<ScheduledMessage>, k: nat)
    requires multiset(sorted) == multiset(all) && k <= |sorted|
    ensures multiset(all) - multiset(sorted[..k]) == multiset(sorted[k..])
    ensures multiset(sorted[..k]) <= multiset(all)
  {
    assert sorted == sorted[..k] + sorted[k..];
  }

  /**
   * The view shows the ten earliest scheduled entries, or all of them when there
   * are fewer: none left out is earlier than any shown.
   */
  lemma UpcomingEventsAreEarliest(ms: seq<ScheduledMessage>)
    ensures var r := UpcomingEvents(ms); var all := OnlyScheduled(ms);
      && |r| == (if |all| < 10 then |all| else 10)
      && multiset(r) <= multiset(all)
      && forall e, x :: e in multiset(all) - multiset(r) && x in r ==> TimeKey(x) <= TimeKey(e)
  {
    var all := OnlyScheduled(ms);
    var sorted := SortByDate(all);
    var k := if |sorted| < 10 then |sorted| else 10;
    PrefixRemainder(sorted, all, k);
    SortedPrefixIsEarliest(sorted, k);
    assert UpcomingEvents(ms) == sorted[..k];
    forall e | e in multiset(all) - multiset(sorted[..k]) ensures e in sorted[k..] {
      assert e in multiset(sorted[k..]);
    }
  }

  datatype ContactRequest = UpdateContact(variables: ContactPayload) | AddContact(variables: ContactPayload)

  /** `handleSaveContact`'s choice: `updateContact` when the record has a non-empty id, `addContact` otherwise. */
  function ContactRequestFor(data: ContactPayload): (r: ContactRequest)
    ensures r.UpdateContact? <==> Truthy(data.id)
    ensures r.variables == data
  {
    if Truthy(data.id) then UpdateContact(data) else AddContact(data)
  }

  datatype TemplateUpdate = TemplateUpdate(id: string, content: string, design: Design)

  /** `handleSaveTemplate`'s choice: an update of content and design when there is an id, and nothing otherwise. */
  function TemplateRequestFor(data: TemplatePayload): (r: Option<TemplateUpdate>)
    ensures r.Some? <==> Truthy(data.id)
    ensures r.Some? ==> r.value.id == data.id.value && r.value.content == data.content && r.value.design == data.design
  {
    if Truthy(data.id) then Some(TemplateUpdate(data.id.value, data.content, data.design)) else None
  }

  /** Which awaited server call rejected, if any. */
  datatype Outcome = Resolved | MutationRejected | RefetchRejected

  datatype Toast = Toast(title: string, destructive: bool)

  /** The contact dialog feeds the handler: editing a contact with an id updates it, a new contact is added. */
  lemma DialogSaveChoosesRequest(form: ContactDialog.ContactForm, contact: Option<Contact>)
    ensures var p := ContactDialog.Submit(form, contact)[0].payload;
      ContactRequestFor(p).UpdateContact? <==> contact.Some? && contact.value.id != ""
  {
  }

  /** A template created in the dialog, not edited, is never sent to the server. */
  lemma NewTemplateIsNotSaved(form: TemplateDialog.TemplateForm)
    ensures var events := form.Submit(None);
      events != [] ==> TemplateRequestFor(events[0].payload) == None
  {
  }

  class DashboardState {
    var contacts: seq<Contact>
    var scheduledMessages: seq<ScheduledMessage>
    var dialogOpen: bool
    var templateDialogOpen: bool
    var editingTemplate: Option<MessageTemplate>

    constructor ()
      ensures contacts == [] && scheduledMessages == []
      ensures !dialogOpen && !templateDialogOpen && editingTemplate.None?
    {
      contacts := [];
      scheduledMessages := [];
      dialogOpen := false;
      templateDialogOpen := false;
      editingTemplate := None;
    }

    /**
     * The auto-schedule effect: the stored list is replaced by the list built
     * from the current contacts; when the effect throws it stays as it was.
     */
    method AutoSchedule(today: CivilDate, parse: string -> Option<CivilDate>)
      modifies this
      ensures scheduledMessages == match Schedule(today, contacts, parse)
        case Some(s) => s
        case None => old(scheduledMessages)
      ensures contacts == old(contacts) && dialogOpen == old(dialogOpen)
      ensures templateDialogOpen == old(templateDialogOpen) && editingTemplate == old(editingTemplate)
    {
      var built := BuildSchedule(today, contacts, parse);
      if built.Some? {
        scheduledMessages := built.value;
      }
    }

    /**
     * `handleSaveContact`: the request of `ContactRequestFor`, a success toast
     * once the mutation resolves, and the dialog closed only when the refetch
     * resolves too; any rejection shows the failure toast.
     */
    method SaveContact(data: ContactPayload, outcome: Outcome) returns (request: ContactRequest, toasts: seq<Toast>)
      modifies this
      ensures request == ContactRequestFor(data)
      ensures var success := Toast(if Truthy(data.id) then "Contact updated successfully!" else "Contact added successfully!", false);
        var failure := Toast("Failed to save contact", true);
        toasts == match outcome
          case Resolved => [success]
          case MutationRejected => [failure]
          case RefetchRejected => [success, failure]
      ensures dialogOpen == (if outcome == Resolved then false else old(dialogOpen))
      ensures contacts == old(contacts) && scheduledMessages == old(scheduledMessages)
      ensures templateDialogOpen == old(templateDialogOpen) && editingTemplate == old(editingTemplate)
    {
      request := ContactRequestFor(data);
      var success := Toast(if request.UpdateContact? then "Contact updated successfully!" else "Contact added successfully!", false);
      var failure := Toast("Failed to save contact", true);
      if outcome == MutationRejected {
        toasts := [failure];
        return;
      }
      toasts := [success];
      if outcome == RefetchRejected {
        toasts := toasts + [failure];
        return;
      }
      dialogOpen := false;
    }

    /**
     * `handleSaveTemplate`: with an id, the update of `TemplateRequestFor`, its
     * toast, and the dialog closed once the refetch resolves; without one,
     * nothing is sent and the dialog just closes.
     */
    method SaveTemplate(data: TemplatePayload, outcome: Outcome) returns (request: Option<TemplateUpdate>, toasts: seq<Toast>)
      modifies this
      ensures request == TemplateRequestFor(data)
      ensures var success := Toast("Template updated successfully!", false);
        var failure := Toast("Error updating template", true);
        toasts == if !Truthy(data.id) then [] else match outcome
          case Resolved => [success]
          case MutationRejected => [failure]
          case RefetchRejected => [success, failure]
      ensures var closes := !Truthy(data.id) || outcome == Resolved;
        && templateDialogOpen == (if closes then false else old(templateDialogOpen))
        && editingTemplate == (if closes then None else old(editingTemplate))
      ensures contacts == old(contacts) && scheduledMessages == old(scheduledMessages) && dialogOpen == old(dialogOpen)
    {
      request := TemplateRequestFor(data);
      toasts := [];
      if request.Some? {
        if outcome == MutationRejected {
          toasts := [Toast("Error updating template", true)];
          return;
        }
        toasts := [Toast("Template updated successfully!", false)];
        if outcome == RefetchRejected {
          toasts := toasts + [Toast("Error updating template", true)];
          return;
        }
      }
      templateDialogOpen := false;
      editingTemplate := None;
    }
  }
}
