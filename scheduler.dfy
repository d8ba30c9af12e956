/**
 * The daily greeting tick of backend/src/scheduler.ts: once a day (the cron
 * schedule `0 8 * * *` is the caller of `RunTick`) it reads every contact of
 * every user and texts a fixed birthday or anniversary greeting to each
 * contact whose birthday, or else whose anniversary, has today's month and
 * day. `today` is the local calendar date the tick computed once at its start.
 */
module Scheduler {
  import opened Wrappers
  import opened Strings
  import opened Calendar
  import opened ContactResolver
  import Sms

  /** `${date.getMonth() + 1}-${date.getDate()}`: month and day, unpadded; the year plays no part. */
  function MonthDayKey(d: CivilDate): string {
    Decimal(d.month) + "-" + Decimal(d.day)
  }

  /** The key of a stored date, and `""` for a contact without one. */
  function StoredKey(d: Option<CivilDate>): string {
    match d
    case None => ""
    case Some(date) => MonthDayKey(date)
  }

  /** A key splits back into the month and the day it was built from. */
  lemma MonthDayKeyParts(d: CivilDate)
    ensures var k := MonthDayKey(d); var i := IndexOf(k, '-');
      i < |k| && k[..i] == Decimal(d.month) && k[i + 1..] == Decimal(d.day)
  {
    var m := Decimal(d.month);
    var k := MonthDayKey(d);
    assert forall j :: 0 <= j < |m| ==> k[j] == m[j];
    IndexOfIs(k, '-', |m|);
    assert k[..|m|] == m;
    assert k[|m| + 1..] == Decimal(d.day);
  }

  /** The key encoding is injective on month and day, and ignores the year. */
  lemma MonthDayKeyInjective(a: CivilDate, b: CivilDate)
    ensures MonthDayKey(a) == MonthDayKey(b) <==> a.month == b.month && a.day == b.day
  {
    if MonthDayKey(a) == MonthDayKey(b) {
      MonthDayKeyParts(a);
      MonthDayKeyParts(b);
      DecimalInjective(a.month, b.month);
      DecimalInjective(a.day, b.day);
    }
  }

  /**
   * The comparison `dateStr === birthdayStr` the tick makes: true exactly when a
   * date is stored and it has today's month and day, in any year.
   */
  lemma StoredKeyMatchesIff(today: CivilDate, stored: Option<CivilDate>)
    ensures MonthDayKey(today) == StoredKey(stored)
        <==> stored.Some? && stored.value.month == today.month && stored.value.day == today.day
  {
    if stored.Some? {
      MonthDayKeyInjective(today, stored.value);
    } else {
      assert |MonthDayKey(today)| > 0;
    }
  }

  function BirthdayText(name: string): string {
    "\U{1F382} Happy Birthday " + name + "!"
  }

  function AnniversaryText(name: string): string {
    "\U{1F48D} Happy Anniversary " + name + "!"
  }

  /** The text a contact gets today, as the tick's `if`/`else if` chooses it. */
  function Greeting(today: CivilDate, c: Contact): Option<Sms.Message> {
    var dateStr := MonthDayKey(today);
    if dateStr == StoredKey(c.birthday) then Some(Sms.Message(c.phoneNumber, BirthdayText(c.name)))
    else if dateStr == StoredKey(c.anniversary) then Some(Sms.Message(c.phoneNumber, AnniversaryText(c.name)))
    else None
  }

  predicate FallsOn(stored: Option<CivilDate>, today: CivilDate) {
    stored.Some? && stored.value.month == today.month && stored.value.day == today.day
  }

  /**
   * What a contact gets: the birthday text when the birthday falls today, even
   * if the anniversary does too; otherwise the anniversary text when it falls
   * today; otherwise nothing (so never anything without a stored date).
   */
  lemma GreetingIff(today: CivilDate, c: Contact)
    ensures Greeting(today, c) ==
      if FallsOn(c.birthday, today) then Some(Sms.Message(c.phoneNumber, BirthdayText(c.name)))
      else if FallsOn(c.anniversary, today) then Some(Sms.Message(c.phoneNumber, AnniversaryText(c.name)))
      else None
  {
    StoredKeyMatchesIff(today, c.birthday);
    StoredKeyMatchesIff(today, c.anniversary);
  }

  function AsSeq<T>(o: Option<T>): seq<T> {
    match o
    case None => []
    case Some(x) => [x]
  }

  /** The texts one tick sends for `contacts`, in contact order. */
  function DailySends(today: CivilDate, contacts: seq<Contact>): seq<Sms.Message> {
    if contacts == [] then []
    else DailySends(today, contacts[..|contacts| - 1]) + AsSeq(Greeting(today, contacts[|contacts| - 1]))
  }

  /** Each contact is handled on its own: the sends for a list are those of its parts, in order. */
  lemma {:induction false} DailySendsAppend(today: CivilDate, a: seq<Contact>, b: seq<Contact>)
    ensures DailySends(today, a + b) == DailySends(today, a) + DailySends(today, b)
    decreases |b|
  {
    if b == [] {
      assert a + b == a;
    } else {
      var b' := b[..|b| - 1];
      assert (a + b)[..|a + b| - 1] == a + b';
      DailySendsAppend(today, a, b');
    }
  }

  /** At most one text per contact per tick. */
  lemma {:induction false} DailySendsAtMostOnePerContact(today: CivilDate, contacts: seq<Contact>)
    ensures |DailySends(today, contacts)| <= |contacts|
  {
    if contacts != [] {
      DailySendsAtMostOnePerContact(today, contacts[..|contacts| - 1]);
    }
  }

  /** Every contact that has a greeting today gets it: no contact is filtered out. */
  lemma {:induction false} DailySendsReachEveryMatch(today: CivilDate, contacts: seq<Contact>, c: Contact)
    requires c in contacts && Greeting(today, c).Some?
    ensures Greeting(today, c).value in DailySends(today, contacts)
  {
    var last := contacts[|contacts| - 1];
    var init := contacts[..|contacts| - 1];
    if c != last {
      assert contacts == init + [last];
      DailySendsReachEveryMatch(today, init, c);
    }
  }

  /** Every text sent is the greeting of one of the contacts. */
  lemma {:induction false} DailySendsComeFromContacts(today: CivilDate, contacts: seq<Contact>, m: Sms.Message)
    requires m in DailySends(today, contacts)
    ensures exists c :: c in contacts && Greeting(today, c) == Some(m)
  {
    var last := contacts[|contacts| - 1];
    var init := contacts[..|contacts| - 1];
    if m in DailySends(today, init) {
      DailySendsComeFromContacts(today, init, m);
      var c :| c in init && Greeting(today, c) == Some(m);
      assert c in contacts;
    } else {
      assert Greeting(today, last) == Some(m);
    }
  }

  lemma DailySendsStep(today: CivilDate, contacts: seq<Contact>, i: nat)
    requires i < |contacts|
    ensures DailySends(today, contacts[..i + 1]) == DailySends(today, contacts[..i]) + AsSeq(Greeting(today, contacts[i]))
  {
    assert contacts[..i + 1][..i] == contacts[..i];
  }

  /** The loop of the tick over the contacts it read, in their order; each send returns normally. */
  method SendGreetings(today: CivilDate, contacts: seq<Contact>, outbox: Sms.Outbox)
    modifies outbox
    ensures outbox.sent == old(outbox.sent) + DailySends(today, contacts)
  {
    var i := 0;
    while i < |contacts|
      invariant 0 <= i <= |contacts|
      invariant outbox.sent == old(outbox.sent) + DailySends(today, contacts[..i])
    {
      var c := contacts[i];
      var dateStr := MonthDayKey(today);
      var birthdayStr := StoredKey(c.birthday);
      var anniversaryStr := StoredKey(c.anniversary);
      DailySendsStep(today, contacts, i);
      if dateStr == birthdayStr {
        outbox.Send(c.phoneNumber, BirthdayText(c.name));
      } else if dateStr == anniversaryStr {
        outbox.Send(c.phoneNumber, AnniversaryText(c.name));
      }
      i := i + 1;
    }
    assert contacts[..i] == contacts;
  }

  /**
   * One tick: `today` is fixed before the loop, and every stored contact, of
   * every user, is examined in turn.
   */
  method RunTick(today: CivilDate, store: ContactTable, outbox: Sms.Outbox)
    requires store.Valid()
    modifies outbox
    ensures outbox.sent == old(outbox.sent) + DailySends(today, store.All())
  {
    var contacts := store.All();
    SendGreetings(today, contacts, outbox);
  }

  /** Nothing records what was sent: a second tick on the same day sends every greeting again. */
  method RunTickTwice(today: CivilDate, store: ContactTable, outbox: Sms.Outbox)
    requires store.Valid()
    modifies outbox
    ensures outbox.sent == old(outbox.sent) + DailySends(today, store.All()) + DailySends(today, store.All())
  {
    RunTick(today, store, outbox);
    RunTick(today, store, outbox);
  }
}
