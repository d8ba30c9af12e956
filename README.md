# celebrato: a verified model of the greeting logic

celebrato is a small web app that texts birthday and anniversary greetings.
A Node/GraphQL backend keeps contacts and message templates in Prisma tables.
Once a day a cron job texts every contact whose birthday or anniversary is
today. A React dashboard lists the upcoming events and edits contacts and
templates.

This project models, in Dafny, the logic of that app (no I/O and no UI):

- **Daily tick** (`scheduler.dfy`). `today` is computed once. Every contact of
  every user is examined. An unpadded `month-day` key is compared first for the
  birthday, and only otherwise for the anniversary. One fixed text is sent per
  match. The tick is a method with a loop that appends to the send log of an
  `Sms.Outbox`. It is proved equal to the function `DailySends`, and the lemmas
  below are about that function.
- **Resolvers** (`contact_store.dfy`, `template_store.dfy`, `context.dfy`,
  `tables.dfy`). The Prisma tables are classes over a `map` from id to record,
  plus the next autoincrement id.
  - Queries are functions. Every one starts with the `Unauthorized` guard.
  - Mutations are methods that state the whole new table.
  - `sendTestMessage` picks `floor(random * n)` among the templates of the
    requested type, or throws when there are none.
- **Authentication** (`auth.dfy`). This covers the `Authorization` header parse
  (`split(" ")`, scheme `Bearer`, non-empty token) and the secret's fallback to
  `"supersecret"`. `authMiddleware` is a method on a request object: it attaches
  the user and calls `next` exactly once.
- **Dashboard** (`dashboard.dfy`).
  - The auto-schedule effect is a `forEach` loop mirrored by `BuildSchedule` and
    `PushEntries`, proved equal to `Schedule`.
  - The next occurrence of a stored date uses the `Date` constructor's day
    rollover, modelled in `Calendar.MakeDate`.
  - The `upcomingEvents` pipeline is filter, stable sort by date, then first ten.
  - The branches of the contact and template save handlers are modelled, with
    the toasts they show and the dialog state they change.
- **Contact dialog** (`contact_dialog.dfy`).
  - `toInputDate` is modelled over the JavaScript values it can receive: it
    handles falsy values, numbers and digit strings as epoch milliseconds,
    `YYYY-MM-DD` pass-through, and other strings through `new Date`.
  - The prefill effect and `handleSubmit` are modelled too.
  - `Calendar` gives the time-value range of `Date`, the civil date of an
    instant, and `toISOString` with its four-digit or signed six-digit year
    (the extended calendar date of ISO 8601, section 4.1.2.2 of ISO 8601:2004).
- **Template dialog** (`template_dialog.dfy`). A class with the three state
  cells, the reset/prefill effect, and `handleSubmit`, which refuses blank
  content and saves it trimmed.
- **Event card** (`upcoming_event.dfy`). The `daysUntil` flags, badge text,
  class and variant, the sparkle, and the gradient picked by the name's length.
  `.length` counts UTF-16 code units.

Everything outside the model is a parameter:
- **Clock**: `today` and `daysUntil`.
- **`new Date(text)` on free text**: `parse` and `parseDate`.
- **`Math.random()`**: `random`.
- **`jwt.sign` / `jwt.verify`**: `sign` and `verify`.
- **`process.env.JWT_SECRET`**: `env`.
- **Which awaited server calls reject**: `outcome`.

Two facts about the code:
- The daily tick sends fixed texts. It does not select one of the stored
  templates.
- `messageTemplates` returns every template in the table. Templates carry no owner.

## Model

| member | source | states |
|---|---|---|
| Scheduler.MonthDayKeyInjective | backend/src/scheduler.ts:12-14 | two dates give the same `month-day` key exactly when month and day agree; the year plays no part |
| Scheduler.StoredKeyMatchesIff | backend/src/scheduler.ts:12-16 | a stored date matches today's key exactly when it is present and has today's month and day; a missing date (`""`) never matches |
| Scheduler.GreetingIff | backend/src/scheduler.ts:13-20 | a contact gets `🎂 Happy Birthday <name>!` when the birthday falls today (even if the anniversary does too), else `💍 Happy Anniversary <name>!` when the anniversary does, else nothing; always to its phone number |
| Scheduler.DailySendsAtMostOnePerContact | backend/src/scheduler.ts:11-21 | a tick sends at most one text per contact |
| Scheduler.DailySendsReachEveryMatch | backend/src/scheduler.ts:11-21 | every contact with a greeting today receives it; no contact is filtered out |
| Scheduler.DailySendsComeFromContacts | backend/src/scheduler.ts:11-21 | every text sent is the greeting of some contact of the list |
| Scheduler.DailySendsAppend | backend/src/scheduler.ts:11-21 | contacts are handled independently and in order: the sends for `a + b` are those for `a` followed by those for `b` |
| Scheduler.SendGreetings | backend/src/scheduler.ts:11-21 | the loop appends exactly `DailySends(today, contacts)` to the send log, in contact order; a send never stops the loop |
| Scheduler.RunTick | backend/src/scheduler.ts:8-21 | one tick examines every stored contact of every user, in id order, against the one `today` |
| Scheduler.RunTickTwice | backend/src/scheduler.ts:6-22 | nothing records what was sent: a second tick on the same day sends the same texts again |
| Sms.Outbox.Send | backend/src/sms.ts:4-15 | a send records one more attempt and always returns normally |
| Context.RequireUser | backend/src/resolvers/contactResolver.ts:6 | a resolver proceeds exactly when a user is present, else fails with `Unauthorized` |
| Tables.RowsInIdOrder | backend/src/resolvers/messageResolver.ts:10 | the listing holds every row exactly once, in ascending id order |
| ContactResolver.StoredDate | backend/src/resolvers/contactResolver.ts:23-24 | a missing or empty date argument is stored as null; any other is read as a date, and one that is no date makes the mutation fail |
| ContactResolver.OwnedBy | backend/src/resolvers/contactResolver.ts:9 | the filter keeps exactly the contacts of that owner and keeps ascending id order |
| ContactResolver.ContactTable.All | backend/src/scheduler.ts:9 | every stored contact, of every owner, once each, in ascending id order |
| ContactResolver.ContactTable.Contacts | backend/src/resolvers/contactResolver.ts:5-12 | `Unauthorized` without a user; otherwise exactly the caller's contacts, in ascending id order |
| ContactResolver.ContactTable.AddContact | backend/src/resolvers/contactResolver.ts:16-28 | `Unauthorized` or an unreadable date changes nothing; otherwise a row under a fresh id, owned by the caller, with name, phone number and normalised dates |
| ContactResolver.ContactTable.UpdateContact | backend/src/resolvers/contactResolver.ts:30-42 | rewrites name, phone number and both dates of the row with that id, whoever owns it; id and owner unchanged; a missing id fails and changes nothing |
| ContactResolver.ContactTable.DeleteContact | backend/src/resolvers/contactResolver.ts:44-52 | removes the row with that id, whoever owns it, and answers true; a missing id fails and changes nothing |
| MessageResolver.OfKind | backend/src/resolvers/messageResolver.ts:56-58 | keeps exactly the templates of the requested type |
| MessageResolver.OfKindCounts | backend/src/resolvers/messageResolver.ts:56-58 | each template of the type is kept as often as it occurs, every other template not at all |
| MessageResolver.OfKindAppend | backend/src/resolvers/messageResolver.ts:56-58 | the filter keeps the order of the list: the result for `a + b` is the result for `a` followed by the result for `b` |
| MessageResolver.RandomIndex | backend/src/resolvers/messageResolver.ts:65 | `floor(random * n)` lies in `[0, n)` for `random` in `[0, 1)` |
| MessageResolver.RandomIndexIff | backend/src/resolvers/messageResolver.ts:65 | index `i` is chosen exactly for `random` in `[i/n, (i+1)/n)`, so each template has an equal share |
| MessageResolver.PickTestTemplate | backend/src/resolvers/messageResolver.ts:56-65 | fails with `No templates found for type: <type>` exactly when no template has that type; otherwise picks a stored template of that type |
| MessageResolver.EveryTemplateCanBePicked | backend/src/resolvers/messageResolver.ts:56-65 | every template of the requested type is picked for some value of `random` |
| MessageResolver.TemplateTable.All | backend/src/resolvers/messageResolver.ts:9-11 | every template once, in ascending id order |
| MessageResolver.TemplateTable.MessageTemplates | backend/src/resolvers/messageResolver.ts:6-13 | `Unauthorized` without a user; otherwise every template in the table, in ascending id order |
| MessageResolver.TemplateTable.AddMessageTemplate | backend/src/resolvers/messageResolver.ts:16-26 | `Unauthorized` changes nothing; otherwise stores type, content and design as given under a fresh id |
| MessageResolver.TemplateTable.UpdateMessageTemplate | backend/src/resolvers/messageResolver.ts:28-39 | replaces content and design only; id and type unchanged; a missing id fails and changes nothing |
| MessageResolver.TemplateTable.DeleteMessageTemplate | backend/src/resolvers/messageResolver.ts:41-46 | removes that id and answers true; a missing id fails and changes nothing |
| MessageResolver.TemplateTable.SendTestMessage | backend/src/resolvers/messageResolver.ts:48-69 | `Unauthorized` or no template of the type: the error, nothing sent; otherwise sends the chosen content verbatim to the number and answers true |
| Auth.Secret | backend/src/auth.ts:13 | an unset or empty `JWT_SECRET` gives `"supersecret"`, any other value is used as is |
| Auth.BearerTokenIff | backend/src/auth.ts:37-41 | a token is read exactly from `Bearer <token>` with a non-empty token without spaces, followed by the end or a space (so a double space carries no token, and pieces after the token are ignored) |
| Auth.Authenticate | backend/src/auth.ts:31-48 | no header, no user |
| Auth.AuthenticateBearer | backend/src/auth.ts:37-48 | with a well-formed header the user is `{ id: userId }` of a verified token, and none when verification fails |
| Auth.AuthenticateMalformed | backend/src/auth.ts:37-41 | a header that is not a bearer header attaches no user, whatever `verify` does |
| Auth.GeneratedTokenAuthenticates | backend/src/auth.ts:12-20 | a token from `generateToken` sent back as `Bearer <token>` authenticates its user: signing and verifying use the same secret |
| Auth.AuthMiddleware | backend/src/auth.ts:26-58 | `next` is called exactly once on every path; the authenticated user is attached, and otherwise the request is left as it was |
| Strings.Split | backend/src/auth.ts:37 | `split` on one character gives at least one piece, and no piece holds the separator |
| Strings.SplitPieces | backend/src/auth.ts:37 | the first piece is the text before the first separator; there is a second piece exactly when the separator occurs, and it runs up to the next one |
| Strings.JoinSplit | backend/src/auth.ts:37 | `split` on one character loses nothing: joining the pieces with it gives the header back |
| Strings.TrimIsInfix | frontend/src/components/TemplateDialog.tsx:74 | `trim` removes only whitespace, from both ends, and leaves text neither starting nor ending with whitespace |
| Strings.TrimEmptyIff | frontend/src/components/TemplateDialog.tsx:68 | the trimmed text is empty exactly when the text is only whitespace |
| Strings.DecimalInjective | backend/src/scheduler.ts:12 | distinct numbers have distinct decimal texts |
| Strings.ParseDecimalOfDecimal | frontend/src/components/ContactDialog.tsx:28 | `Number` of the decimal text of a number gives that number back |
| Calendar.MakeDate | frontend/src/pages/Dashboard.tsx:156 | for a year of 100 or later, `new Date(y, m - 1, d)` is the day `d - 1` days after the first of the month: a valid day is kept, a day past the month's end rolls into the next month |
| Calendar.BeforeIsDayOrder | frontend/src/pages/Dashboard.tsx:157 | comparing dates field by field orders them as their day numbers, and so their time values, do; equal day numbers mean equal dates |
| Calendar.CivilFromDayNumber | frontend/src/components/ContactDialog.tsx:29-31 | the civil date of a day number and the day number of a date are inverse |
| Calendar.UtcDate | frontend/src/components/ContactDialog.tsx:31 | an instant lies within the UTC day of its calendar date |
| Calendar.IsoString | frontend/src/components/ContactDialog.tsx:31 | `toISOString` of a time value in the range of `Date` is at least ten characters long, so `slice(0, 10)` takes a whole date part |
| Calendar.IsoStringDatePrefix | frontend/src/components/ContactDialog.tsx:31 | the first ten characters of `toISOString` are the UTC calendar date when the year has four digits |
| Calendar.IsoCalendarDateShape | frontend/src/components/ContactDialog.tsx:36 | a valid date with a four-digit year prints as `YYYY-MM-DD` and its fields read back |
| ContactDialog.TimeOfNumber | frontend/src/components/ContactDialog.tsx:28-30 | a number gives a time exactly when it is finite and within the range of `Date`, and the time is the number truncated toward zero |
| ContactDialog.TimeOfDigits | frontend/src/components/ContactDialog.tsx:27-30 | a digit string gives its decimal value as the time exactly when it is within the range |
| ContactDialog.DatePart | frontend/src/components/ContactDialog.tsx:30-31 | `""` exactly for a NaN time; otherwise the UTC date, `YYYY-MM-DD` when the year has four digits |
| ContactDialog.ToInputDate | frontend/src/components/ContactDialog.tsx:23-44 | falsy values and values that are neither numbers, strings nor digit texts give `""`; a `YYYY-MM-DD` string is passed through unchecked; every output is `""`, `YYYY-MM-DD`, or text starting with `+` or `-` (as `toISOString` prints years outside 0..9999) |
| ContactDialog.ToInputDateOfNumber | frontend/src/components/ContactDialog.tsx:24-31 | a non-zero epoch-milliseconds number gives the UTC date of that instant; 0 is falsy and gives `""` |
| ContactDialog.ToInputDateOfDigits | frontend/src/components/ContactDialog.tsx:27-31 | an all-digit string is read as epoch milliseconds (`"0"` included) and gives the UTC date |
| ContactDialog.ToInputDateOutOfRange | frontend/src/components/ContactDialog.tsx:29-30 | a timestamp past the range of `Date`, as a number or as digits, gives `""` |
| ContactDialog.ToInputDateIdempotent | frontend/src/components/ContactDialog.tsx:31-36 | a non-empty output with a four-digit year is returned unchanged when fed back |
| ContactDialog.Prefill | frontend/src/components/ContactDialog.tsx:60-76 | an edited contact's name and phone number are copied, and each date field is `toInputDate` of the stored value; no contact gives the empty form |
| ContactDialog.OrUndefined | frontend/src/components/ContactDialog.tsx:84-85 | an empty field becomes `undefined`, any other is kept |
| ContactDialog.Submit | frontend/src/components/ContactDialog.tsx:78-89 | one `onSave` then `onOpenChange(false)`; the payload keeps name and phone number, has `id = contact?.id`, and empty dates become `undefined` |
| ContactDialog.EditRoundTrip | frontend/src/components/ContactDialog.tsx:60-89 | opening a contact and saving it unchanged keeps id, name, phone number, `YYYY-MM-DD` dates and missing dates |
| TemplateDialog.TemplateForm.constructor | frontend/src/components/TemplateDialog.tsx:49-51 | the form starts as `birthday`, `confetti`, `""` |
| TemplateDialog.TemplateForm.Prefill | frontend/src/components/TemplateDialog.tsx:53-63 | editing copies type, design and content from the template; otherwise they reset to `birthday`/`confetti`/`""` |
| TemplateDialog.TemplateForm.Submit | frontend/src/components/TemplateDialog.tsx:65-78 | blank content: no call at all, and the dialog stays open; otherwise one `onSave` with the trimmed content (no whitespace at either end), type and design unchanged, the id exactly when the edited template has a non-empty one, then `onOpenChange(false)` |
| TemplateDialog.EditRoundTrip | frontend/src/components/TemplateDialog.tsx:53-78 | opening a template and saving it unchanged keeps id, type and design, with the content trimmed |
| UpcomingEvent.FlagsOf | frontend/src/components/UpcomingEvent.tsx:18-20 | `isToday` iff 0 days, `isPast` iff negative, `isThisWeek` iff 0..7; past excludes the two others |
| UpcomingEvent.SparkleIff | frontend/src/components/UpcomingEvent.tsx:61 | the sparkle shows exactly for 0..7 days |
| UpcomingEvent.Label | frontend/src/components/UpcomingEvent.tsx:90-96 | the corrected label of the first finding: `Sent` exactly for a sent event; otherwise `Missed` when past, the party-popper text `🎉 Today!` at 0 days, else `<days>d` |
| UpcomingEvent.LabelAsWritten | frontend/src/components/UpcomingEvent.tsx:90-96 | the label as the code writes it: the garbled today text for a scheduled event due today, and the corrected `Label` in every other case |
| UpcomingEvent.LabelTellsDaysApart | frontend/src/components/UpcomingEvent.tsx:90-96 | two scheduled events show the same text exactly when both are past or both are the same number of days away |
| UpcomingEvent.TodayLabelIsMisread | frontend/src/components/UpcomingEvent.tsx:95 | the today text as written is the UTF-8 bytes of `🎉 Today!` read as Windows-1252, and differs from it |
| UpcomingEvent.LabelAsWrittenDiffersOnlyToday | frontend/src/components/UpcomingEvent.tsx:90-96 | the text as written differs from the intended one exactly for a scheduled event due today |
| UpcomingEvent.BadgeClass | frontend/src/components/UpcomingEvent.tsx:78-88 | scheduled: gold today, orange in the coming week, primary otherwise; sent: muted when past, none otherwise |
| UpcomingEvent.BadgeVariant | frontend/src/components/UpcomingEvent.tsx:77 | `secondary` for a sent event and `default` for every other |
| UpcomingEvent.Utf16Length | frontend/src/components/UpcomingEvent.tsx:30 | `.length` is at least the number of characters, and equal exactly when all are in the Basic Multilingual Plane |
| UpcomingEvent.GradientIndex | frontend/src/components/UpcomingEvent.tsx:30 | the index is the UTF-16 length of the name mod 4, in `[0, 4)`; for a name in the Basic Multilingual Plane, its length mod 4 |
| UpcomingEvent.Gradient | frontend/src/components/UpcomingEvent.tsx:23-31 | one of the four listed gradients: the one at `GradientIndex(name)`, the name's UTF-16 length mod 4 |
| Dashboard.NextOccurrenceAsWritten | frontend/src/pages/Dashboard.tsx:155-157 | the next occurrence as the code computes it: on or after today and no later than the same day a year on; this year or the next; an event falling today stays today; any stored day other than 29 February keeps its month and day |
| Dashboard.LeapDayAsWritten | frontend/src/pages/Dashboard.tsx:155-157 | a 29 February seen on 5 March 2027 is listed as 1 March 2028, though 29 February 2028 exists and comes first |
| Dashboard.NextOccurrence | frontend/src/pages/Dashboard.tsx:155-157 | the corrected date of the second finding: on or after today and no later than the same day a year on; this year or the next; an event falling today stays today; any stored day other than 29 February keeps its month and day |
| Dashboard.AsWrittenAgrees | frontend/src/pages/Dashboard.tsx:155-157 | for any stored day other than 29 February, the code as written gives the corrected, earliest occurrence |
| Dashboard.NextOccurrenceIsEarliest | frontend/src/pages/Dashboard.tsx:155-157 | no date on or after today with the stored month and day comes before the next occurrence |
| Dashboard.LeapDayCorrected | frontend/src/pages/Dashboard.tsx:155-157 | a 29 February seen on 5 March 2027 is next on 29 February 2028 |
| Dashboard.ContactEntries | frontend/src/pages/Dashboard.tsx:154-181 | one entry per present date field, birthday first, dated as the code dates it; the contact fails exactly when a present date is no date |
| Dashboard.ScheduleAppend | frontend/src/pages/Dashboard.tsx:152-183 | entries follow contact order: the list for `a + b` is the list for `a` followed by the list for `b` |
| Dashboard.ScheduleFailsIff | frontend/src/pages/Dashboard.tsx:153-182 | the effect throws exactly when some contact has a present date that is not a date |
| Dashboard.ScheduleEntriesWellFormed | frontend/src/pages/Dashboard.tsx:158-166 | every entry is `scheduled`, has `templateId` equal to its type and id `<contact id>-<type>`, falls on or after today, and belongs to a contact of the list |
| Dashboard.ScheduleCoversDates | frontend/src/pages/Dashboard.tsx:153-182 | every present birthday and anniversary has its entry |
| Dashboard.PushEntries | frontend/src/pages/Dashboard.tsx:154-181 | the `forEach` callback pushes exactly the contact's entries, or fails |
| Dashboard.BuildSchedule | frontend/src/pages/Dashboard.tsx:152-182 | the loop builds exactly `Schedule(today, contacts, parse)` |
| Dashboard.DashboardState.AutoSchedule | frontend/src/pages/Dashboard.tsx:148-184 | the whole stored list is replaced by the list built from the contacts; a thrown effect leaves it as it was; nothing else changes |
| Dashboard.TimeKeyOrdersAsTime | frontend/src/pages/Dashboard.tsx:250-254 | the sort key orders entries as their dates' time values do |
| Dashboard.OnlyScheduled | frontend/src/pages/Dashboard.tsx:249 | keeps exactly the scheduled entries, each no more often than before |
| Dashboard.OnlyScheduledCounts | frontend/src/pages/Dashboard.tsx:249 | each scheduled entry is kept as often as it occurs, every other entry not at all |
| Dashboard.OnlyScheduledAppend | frontend/src/pages/Dashboard.tsx:249 | `filter` keeps the order of the list: the result for `a + b` is the result for `a` followed by the result for `b` |
| Dashboard.InsertByDate | frontend/src/pages/Dashboard.tsx:250-254 | inserting adds the entry once and keeps a sorted list sorted |
| Dashboard.SortByDate | frontend/src/pages/Dashboard.tsx:250-254 | the result is a permutation of the input, sorted ascending by date |
| Dashboard.UpcomingEvents | frontend/src/pages/Dashboard.tsx:248-255 | at most ten entries, all scheduled and drawn from the stored list, ascending by date |
| Dashboard.UpcomingEventsAreEarliest | frontend/src/pages/Dashboard.tsx:248-255 | the view holds the ten earliest scheduled entries (all of them when fewer): none left out is earlier than any shown |
| Dashboard.ContactRequestFor | frontend/src/pages/Dashboard.tsx:191-197 | `updateContact` exactly when the record has a non-empty id, else `addContact`, with the record as variables |
| Dashboard.TemplateRequestFor | frontend/src/pages/Dashboard.tsx:225-232 | an update of content and design exactly when there is a non-empty id; no create path |
| Dashboard.DialogSaveChoosesRequest | frontend/src/pages/Dashboard.tsx:191-195 | a contact from the dialog is updated exactly when the edited contact has a non-empty id |
| Dashboard.NewTemplateIsNotSaved | frontend/src/pages/Dashboard.tsx:225-236 | a new template from the dialog is never sent to the server |
| Dashboard.DashboardState.SaveContact | frontend/src/pages/Dashboard.tsx:187-203 | the request chosen; the success toast once the mutation resolves, the failure toast on any rejection; the dialog closes only when the refetch resolves too |
| Dashboard.DashboardState.SaveTemplate | frontend/src/pages/Dashboard.tsx:221-241 | with an id, the update, its toast and the refetch; without one nothing is sent; the dialog closes and the edited template is cleared unless a call rejected |

## Left out

- The Twilio transport (backend/src/sms.ts): `Send` records the attempt and never fails, because `sendSMS` catches every error. Whether a text was delivered is not observable to its callers.
- The cron wiring (`"0 8 * * *"`) and the server setup. `RunTick` is the cron callback, and the clock is its `today` argument.
- Time zones. Stored dates, `today`, and the dates the `Date` constructor builds are local calendar dates. The dashboard keeps `scheduledDate` as that calendar date, not as its `toISOString` text. In a zone east of UTC that text names the previous day.
- Parsing of free text by `new Date(text)`. It is the parameter `parse` (or `parseDate`), a function from text to the date it denotes or to an Invalid Date.
- `differenceInDays` and `format` from date-fns, and the clock in `UpcomingEvent`. These are the input `daysUntil`.
- `Math.random()`. It is the parameter `random`, a number in `[0, 1)`.
- `jwt.sign`, `jwt.verify` and the `7d` expiry. They are the parameters `sign` and `verify`.
- Prisma's order. Prisma gives no order for `findMany` without `orderBy`. This is the case in the tick and in `sendTestMessage` (backend/src/resolvers/messageResolver.ts:56-58). The model takes ascending id order. `SendGreetings` is proved for a contact list in any order.
- MessageResolver.TemplateTable.SendTestMessage and MessageResolver.PickTestTemplate: which template a given `random` picks depends on the assumed ascending id order. `PickTestTemplate`, `RandomIndexIff` and `EveryTemplateCanBePicked` are stated for any list of templates, so what they prove holds for any order.
- The GraphQL `ID` argument of `updateContact` and `deleteContact` is modelled as the number `Number(args.id)` yields. A non-numeric id, which Prisma refuses, is not modelled.
- MessageResolver.TemplateTable.UpdateMessageTemplate and MessageResolver.TemplateTable.DeleteMessageTemplate take the id as a number. The source passes the `ID!` argument to Prisma uncoerced, so Prisma receives it as a string (the `id: number` annotation converts nothing). The model assumes Prisma resolves that string like the number it spells, and does not model the rejection Prisma may give a string for a numeric id column. The Prisma schema is not part of this model.
- JavaScript numbers. They are exact reals (`ContactDialog.JsValue.Num`). Double rounding is not modelled: it cannot change `toInputDate`'s answer for digit strings in the range of `Date`. An object reaches `toInputDate` only through the text `String(obj)` gives.
- Asynchronous ordering and React's scheduling of state updates and effects. Each effect and handler is one call, and each awaited server call is summarised by `outcome`.
- The effect that loads contacts and templates from the server (frontend/src/pages/Dashboard.tsx:141-145), `handleDeleteContact`, `handleEditContact` and `handleEditTemplate`. These are not part of this model.
- All rendering: card and icon classes other than the badge and gradient, and the dialogs' markup.
- The user resolvers, password hashing, the GraphQL schema and the other frontend components. These are not part of this model.
- Calendar.MakeDate: the `Date` constructor reads a year of 0..99 as 1900..1999; this is not modelled. The year always comes from `getFullYear()` of the clock's date, so it never falls in that range.
- Dashboard.UpcomingEvents: the sort is stable, like JavaScript's, and `InsertByDate` keeps equal dates in their order; no contract states this stability.
- Dashboard.NextOccurrence and Dashboard.NextOccurrenceAsWritten: the upper bound is "no later than the same day a year on", not "strictly before". For a stored 29 February seen on 1 March of a leap year, the next occurrence is 1 March of the next year, exactly one year later.

## Findings

| source | as written | input that shows it | evidently intended | confidence | as-written member | corrected member |
|---|---|---|---|---|---|---|
| frontend/src/components/UpcomingEvent.tsx:95 | The badge text for an event due today is `ðŸŽ‰ Today!` (U+00F0 U+0178 U+017D U+2030, then ` Today!`). | a scheduled event with `daysUntil` = 0 | `🎉 Today!`: U+1F389 PARTY POPPER, whose UTF-8 bytes F0 9F 8E 89, read as Windows-1252, are the four characters as written | high; not executed | UpcomingEvent.LabelAsWritten, with UpcomingEvent.TodayLabelIsMisread and UpcomingEvent.LabelAsWrittenDiffersOnlyToday | UpcomingEvent.Label |
| frontend/src/pages/Dashboard.tsx:156-157 | After the constructor rolls 29 February of a common year to 1 March, `setFullYear` moves that 1 March, not the stored day, to the next year. | today 2027-03-05 and a stored date of 2000-02-29: listed as 2028-03-01 | 2028-02-29, the earliest date on or after today with the stored month and day | medium; not executed | Dashboard.NextOccurrenceAsWritten, with Dashboard.LeapDayAsWritten | Dashboard.NextOccurrence, with Dashboard.NextOccurrenceIsEarliest and Dashboard.LeapDayCorrected |

The schedule the model builds (`Dashboard.EntryFor`) uses `NextOccurrenceAsWritten`, as the program does. `Dashboard.AsWrittenAgrees` shows the two agree for every stored day other than 29 February. The badge text of the code as written is `LabelAsWritten`.
