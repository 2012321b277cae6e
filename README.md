# Wedding RSVP site — a verified model of its core logic

This project models the server logic and the pure derivations of a wedding RSVP site, written in Dafny. The hosted database becomes an in-memory `Database` object holding two tables, `rsvps` and `guest_list`. Every query becomes an operation on those sequences. How the store answers a call (it succeeds, returns an error, or throws) becomes an oracle parameter of type `Reply`.

The model covers:

- the base64url confirmation token;
- the public RSVP submission, both as a server action and as an HTTP route;
- the admin actions over RSVPs and guests: paging, export, update, delete and guest creation;
- the confirmation-page lookup;
- the bulk reminder run;
- the content choices of the reminder email and the venue panel;
- the admin dashboard: its totals, labels, CSV export and edit/delete state;
- the admin password check.

One module stands for each source file. The shared modules are:

- `Text`: JavaScript's `trim`, ASCII `toLowerCase`, `join`, `split` and number formatting.
- `Records`: the rows, the replies, the attendance filter and the counts.
- `Ordering`: the store's `ORDER BY`, modelled as a stable sort.

## Model

| member | source | states |
|---|---|---|
| ConfirmationToken.GenerateConfirmationToken | lib/confirmation.ts:10-12 | the token uses only `A–Z a–z 0–9 - _` (no `=` padding), has length 4·⌊n/3⌋ plus 0, 2 or 3, and is empty exactly for the empty id |
| ConfirmationToken.DecodeConfirmationToken | lib/confirmation.ts:17-23 | the lenient decoder never fails, so `null` is never returned; the id has at most 3/4 as many bytes as the token has characters |
| ConfirmationToken.SextetsOfChars | lib/confirmation.ts:11-19 | the decoder reads back exactly the sextets the encoder wrote |
| ConfirmationToken.DecodeEncodeSextets | lib/confirmation.ts:11-19 | regrouping the sextets gives the original bytes back |
| ConfirmationToken.TokenRoundTrip | lib/confirmation.ts:10-23 | decoding the token of any id gives that id |
| ConfirmationToken.TokenInjective | lib/confirmation.ts:10-12 | distinct ids give distinct tokens |
| RsvpSubmission.IsValidEmail | app/actions/rsvp.ts:33-34 | the check accepts a string iff it matches `^[^\s@]+@[^\s@]+\.[^\s@]+$` |
| RsvpSubmission.ValidEmailMatches | app/actions/rsvp.ts:33-34 | both directions: no white space, one `@` after a non-empty local part, and an inner `.` in the domain, iff the pattern matches |
| RsvpSubmission.CheckedImpliesPattern | app/actions/rsvp.ts:33-34 | a string that passes the check matches the pattern |
| RsvpSubmission.PatternImpliesChecked | app/actions/rsvp.ts:33-34 | a string that matches the pattern passes the check |
| RsvpSubmission.LowerKeepsPattern | app/actions/rsvp.ts:33-45 | lower-casing keeps an accepted address accepted |
| RsvpSubmission.PatternHasNoSpace | app/actions/rsvp.ts:33-45 | an accepted address has no white space, so trimming it changes nothing |
| RsvpSubmission.CheckSubmission | app/actions/rsvp.ts:25-47 | missing fields iff a raw name or email is absent or empty; invalid format iff both are present and the pattern fails; otherwise the record holds the trimmed name, the lower-cased email and `attending ?? false` |
| RsvpSubmission.BlankNameStoredEmpty | app/actions/rsvp.ts:25-44 | a whitespace-only name passes the presence check and is stored as `''` |
| RsvpSubmission.SubmitRsvp | app/actions/rsvp.ts:22-75 | a rejection, a failed insert or a throw leaves the table unchanged with the matching message; success appends exactly one row |
| RsvpRoute.CheckBody | app/api/rsvp/route.ts:14-37 | on any JSON values for name and email: 400 `Name and email are required` iff either is falsy; else 400 `Invalid email format` iff the email's text fails the pattern; else a throw iff either is not a string; otherwise the record of trimmed name, lower-cased address and `attending ?? false` |
| RsvpRoute.StringBodyAgrees | app/api/rsvp/route.ts:14-37 | with string fields the route's guards never throw and give exactly the `submitRSVP` verdict and record |
| RsvpRoute.NumberNameThrows | app/api/rsvp/route.ts:34 | a number for the name passes both guards and then throws at `trim` |
| RsvpRoute.NumberEmailRejected | app/api/rsvp/route.ts:24 | a number for the email is matched as its text and rejected as an invalid format |
| RsvpRoute.ArrayEmailThrows | app/api/rsvp/route.ts:35 | an array holding an address passes the pattern and then throws at `trim` |
| RsvpRoute.Post | app/api/rsvp/route.ts:10-62 | an unparsable or `null` body, a throw from `trim` or a thrown insert gives 500 `Internal server error`; a guard failure gives 400 with no insert; a failed insert gives 500; success gives 201 and appends one row |
| Ordering.Insert | app/actions/rsvps.ts:42 | inserting into an ordered list keeps it ordered and adds exactly that element |
| Ordering.Sort | app/actions/rsvps.ts:42 | the result is in the requested order and is a permutation of the input |
| Ordering.StrLeTotal | app/actions/rsvps.ts:42 | text order is total |
| Ordering.StrLeTransitive | app/actions/rsvps.ts:42 | text order is transitive |
| RsvpAdmin.PageWindow | app/actions/rsvps.ts:36-43 | the inclusive range `[page·size, page·size+size−1]` gives at most `size` rows, exactly the ones from position `page·size` on |
| RsvpAdmin.PagesTile | app/actions/rsvps.ts:36-43 | the first k pages together are exactly the first k·size rows, so consecutive pages are adjacent and disjoint |
| RsvpAdmin.PageDataFromRows | app/actions/rsvps.ts:39-47 | a page holds only table rows that pass the filter, in the requested order |
| RsvpAdmin.GetRsvpsPaginated | app/actions/rsvps.ts:18-78 | a thrown query or a page error gives the empty result with every total 0; otherwise the page is the window of the filtered, ordered rows, each total is its count over the table (all rows, attending, not attending, attending of each type) or 0 when that count query failed, and when the counts succeed attending + not attending = all and the per-type totals are at most attending |
| RsvpAdmin.GetAllRsvpsForExport | app/actions/rsvps.ts:84-109 | a permutation of the filtered rows, newest first; `[]` on an error or a throw |
| RsvpAdmin.PatchFor | app/actions/rsvps.ts:125-147 | `updated_at` is always set; each field is present iff it was supplied with the right type; the type only if it is church, reception or both (the values are stated by `RsvpAdmin.PatchNormalised`) |
| RsvpAdmin.PatchNormalised | app/actions/rsvps.ts:129-147 | each field present holds its input normalised: `trim` of each name, `trim().toLowerCase()` of the address, the flag and the type as sent; the names and address written are fixpoints of that normalisation |
| RsvpAdmin.UpdateWhere | app/actions/rsvps.ts:149-152 | rows with the id take the payload; every other row is unchanged; no row is added or removed |
| RsvpAdmin.SaveUnchangedRow | app/actions/rsvps.ts:125-147 | saving a row's own normalised fields changes only `updated_at` |
| RsvpAdmin.UpdateKeepsTypesValid | app/actions/rsvps.ts:145-147 | an update never stores an attendance type outside the three |
| RsvpAdmin.UpdateRsvp | app/actions/rsvps.ts:116-164 | the payload is built field by field and applied on success; `Failed to update RSVP.` on an error and `An unexpected error occurred.` on a throw, with the table unchanged |
| RsvpAdmin.DeleteRsvp | app/actions/rsvps.ts:170-186 | on success the rows with the id are removed and the rest kept in order; on an error or a throw the table is unchanged with the matching message |
| Records.Filtered | app/actions/rsvps.ts:45-47 | `all` keeps every row; any other filter keeps exactly the attending rows of that type |
| Records.FilteredAppend | components/AdminDashboard.tsx:172-174 | filtering preserves order: the filter of a concatenation is the concatenation of the filters |
| Records.AttendingPartition | components/AdminDashboard.tsx:166-167 | attending + not attending = number of rows |
| Records.TypeCountsBound | components/AdminDashboard.tsx:166-170 | the three per-type counts sum to at most attending, with equality iff every attending row has one of the three types |
| Records.RemoveId | app/actions/rsvps.ts:174 | an element survives iff it was in the table and its id differs; exactly the rows with the id are gone |
| Records.RowWithIdUnique | app/actions/confirmation.ts:40-44 | when exactly one row has an id, `.single()` returns that row |
| Records.GuestIsInc | app/actions/confirmation.ts:58-72 | when the lookup answers, the flag is the `is_inc` of the first guest whose names match; it is false when the lookup fails, and true only when some matching guest is an INC member |
| GuestAdmin.GetAllGuests | app/actions/guests.ts:14-31 | a permutation of the guest list, newest first; `[]` on an error or a throw |
| GuestAdmin.CheckGuestExists | app/actions/guests.ts:39-61 | true iff the lookup succeeds and some guest matches both trimmed names case-insensitively (fail-open) |
| GuestAdmin.CheckGuestInRsvps | app/actions/guests.ts:109-131 | true iff the lookup succeeds and some RSVP matches both trimmed names case-insensitively (fail-open) |
| GuestAdmin.LookupsOfTrimmed | app/actions/guests.ts:141-153 | handing the lookups names that are already trimmed changes nothing |
| GuestAdmin.CreateGuard | app/actions/guests.ts:141-159 | the guards run in order (empty name, then guest list, then RSVPs) and the first failure wins |
| GuestAdmin.CreateGuest | app/actions/guests.ts:136-181 | a rejection inserts nothing; success appends one guest with the trimmed names; an insert error or a throw leaves the list unchanged |
| GuestAdmin.CreateKeepsNamesDistinct | app/actions/guests.ts:148-169 | when the lookup answers, a created guest keeps the list free of duplicate names |
| GuestAdmin.FailedLookupAdmitsDuplicate | app/actions/guests.ts:51-59 | a failing guest lookup lets an already-listed guest through the guards |
| GuestAdmin.GuestPatchFor | app/actions/guests.ts:77-87 | `updated_at` always; each name is present iff supplied as a string, and it is trimmed |
| GuestAdmin.UpdateGuestWhere | app/actions/guests.ts:89-92 | guests with the id take the payload and keep their INC flag; the others are unchanged |
| GuestAdmin.UpdateGuest | app/actions/guests.ts:68-104 | the payload is applied on success; `Failed to update guest.` or the generic error otherwise, with the list unchanged |
| GuestAdmin.DeleteGuest | app/actions/guests.ts:187-203 | removes the guests with the id on success; `Failed to delete guest.` or the generic error otherwise |
| ConfirmationLookup.GetRsvpByToken | app/actions/confirmation.ts:28-85 | a token decoding to `''` gives `Invalid confirmation token`; a fetch error or no unique row gives `RSVP not found`; a throw gives `Failed to retrieve RSVP`; a token decoding to a non-empty id held by exactly one row, with the fetch answering and the guest query not throwing, is always `Found`; success returns the stored row unchanged plus its guest's INC flag |
| ConfirmationLookup.TokenFindsOwnRsvp | app/actions/confirmation.ts:28-77 | the token of a stored row whose id is unique finds that row |
| ConfirmationLookup.FailedGuestLookupIsNotInc | app/actions/confirmation.ts:58-72 | a failed guest lookup leaves `guest_is_inc` false |
| ReminderEmail.EmailSections | emails/ReminderEmail.tsx:35-36 | church iff church or both; reception iff reception or both; the reminders box only inside the church section; the divider only between two sections |
| ReminderEmail.EveryTypeShowsAVenue | emails/ReminderEmail.tsx:35-36 | every valid type shows at least one section |
| ReminderEmail.SectionsPerType | emails/ReminderEmail.tsx:79-132 | per type: the exact sections, the reminders box iff the guest is not INC, and the divider only for both |
| ReminderEmail.UnknownTypeShowsNothing | emails/ReminderEmail.tsx:35-36 | a value outside the three types shows neither section |
| ReminderEmail.DaysLabelShape | emails/ReminderEmail.tsx:38-43 | any count other than 0 or 1 gives its signed digits followed by ` days away` |
| ReminderEmail.DaysLabelInjective | emails/ReminderEmail.tsx:38-43 | different counts give different labels |
| VenueInfo.VenueInfoSections | components/VenueInfo.tsx:14-17 | church iff church or both; reception iff reception or both; reminders iff church and not INC, with an omitted `isInc` read as false |
| VenueInfo.OmittedIsIncShowsReminders | components/VenueInfo.tsx:14-17 | without `isInc` the reminders appear wherever the church section does |
| VenueInfo.VenuesPerType | components/VenueInfo.tsx:15-16 | church shows no reception, reception shows no church, both shows both |
| VenueInfo.AgreesWithReminderEmail | components/VenueInfo.tsx:15-17 | the panel and the reminder email choose the same sections for every type and every INC flag |
| ReminderDispatch.Candidates | app/api/reminders/send/route.ts:52-57 | the candidates are exactly the rows that are attending and not yet reminded, in table order |
| ReminderDispatch.SubjectLabelIsDaysLabel | app/api/reminders/send/route.ts:96-97 | the subject-line label equals the email's `daysLabel` |
| ReminderDispatch.MarkSent | app/api/reminders/send/route.ts:112-116 | the rows with the id get `reminder_sent` and its timestamp; the others are unchanged |
| ReminderDispatch.StepEffect | app/api/reminders/send/route.ts:73-122 | one pass composes one email; it marks the row only after a delivery whose update succeeded; it counts the address as sent or as failed, never both |
| ReminderDispatch.FirstThrow | app/api/reminders/send/route.ts:73-82 | the run stops at the first candidate whose guest lookup throws, or at the end |
| ReminderDispatch.SendReminders | app/api/reminders/send/route.ts:37-130 | 401 for any cookie but `true`; 500 before any fetch without the key or the sender; 500 on a fetch error; the no-pending message; otherwise the table, the outbox and the report are those of the loop run |
| ReminderDispatch.Dispatch | app/api/reminders/send/route.ts:71-123 | the loop processes each candidate once, in order, up to the first thrown guest lookup; its state equals the step-by-step run |
| ReminderDispatch.Deliver | app/api/reminders/send/route.ts:84-122 | the `try` block for candidate i takes the state of the run after i candidates to the state after i + 1: one email composed, then sent and marked, or the address recorded as failed |
| ReminderDispatch.RunCounts | app/api/reminders/send/route.ts:71-123 | after n candidates, sent + failed = n, the outbox holds n emails, and no row is added or removed |
| ReminderDispatch.RunSentCount | app/api/reminders/send/route.ts:112-118 | `sent` is the number of candidates whose send succeeded |
| ReminderDispatch.RunFailedAddresses | app/api/reminders/send/route.ts:106-122 | every failed address belongs to a processed candidate whose send did not succeed |
| ReminderDispatch.RunOnlyMarksDelivered | app/api/reminders/send/route.ts:106-118 | a row changes only by being marked, and only when its send was delivered and recorded |
| ReminderDispatch.RunMarksDelivered | app/api/reminders/send/route.ts:112-116 | every delivered and recorded candidate's row ends up marked |
| ReminderDispatch.PendingOnlyShrinks | app/api/reminders/send/route.ts:52-57 | a run never creates pending rows, so a marked guest is not reminded again |
| ReminderDispatch.SummaryInjective | app/api/reminders/send/route.ts:125-129 | the message `Sent n reminder(s).` plus ` k failed.` determines both counts |
| ReminderDispatch.AfterCountWording | app/api/reminders/send/route.ts:128 | for all counts: `reminder`, then `s` unless exactly one was sent, and a failed note exactly when some failed |
| ReminderDispatch.SummaryOneSent | app/api/reminders/send/route.ts:128 | one sent and none failed reads `Sent 1 reminder.`: the singular, and no failed note |
| ReminderDispatch.SummaryNoneSent | app/api/reminders/send/route.ts:128 | none sent reads `Sent 0 reminders.`: the plural for 0 |
| ReminderDispatch.SummarySomeFailed | app/api/reminders/send/route.ts:128 | three sent and two failed reads `Sent 3 reminders.` followed by ` 2 failed.` |
| ReminderDispatch.FailedNoteInjective | app/api/reminders/send/route.ts:128 | the failed note determines the failed count |
| AdminDashboard.AttendanceTypeLabel | components/AdminDashboard.tsx:124-135 | church → `Church Only`, reception → `Reception Only`, anything else → `Both` |
| AdminDashboard.LabelsDistinct | components/AdminDashboard.tsx:124-135 | the three types get three different labels |
| AdminDashboard.DashboardStats | components/AdminDashboard.tsx:166-170 | total = rows; attending and not attending are the counts of attending and non-attending rows and add up to total; the per-type counts are the filter sizes, sum to at most attending, and reach it iff every attending row has one of the three types |
| AdminDashboard.PageTotalsMatchStats | app/actions/rsvps.ts:51-72 | when every count query succeeds, the totals of `getRSVPsPaginated` equal the dashboard's counts over the same rows |
| AdminDashboard.RowCells | components/AdminDashboard.tsx:140-147 | six cells per row, with the attending cell `Yes` or `No` |
| AdminDashboard.EscapeKeepsOthers | components/AdminDashboard.tsx:151 | escaping leaves text without quotes unchanged and adds or removes no character but the quote |
| AdminDashboard.ReadEscaped | components/AdminDashboard.tsx:151 | a quoted, escaped cell reads back in full up to its closing quote |
| AdminDashboard.LineRoundTrip | components/AdminDashboard.tsx:151 | every written line reads back as its cells |
| AdminDashboard.LineAsWrittenAgrees | components/AdminDashboard.tsx:151 | for cells without a double quote the code's quoting and the escaped quoting agree |
| AdminDashboard.LineAsWrittenLosesQuote | components/AdminDashboard.tsx:151 | a cell holding `"`, quoted as the code does, no longer reads back |
| AdminDashboard.CsvRoundTrip | components/AdminDashboard.tsx:149-152 | for the export with quotes doubled (the corrected quoting) and no cell holding a line break: filtered rows + 1 lines, the header first, then each line reading back as its row's cells in order |
| AdminDashboard.CsvAsWrittenLines | components/AdminDashboard.tsx:139-152 | for the export as the dashboard writes it, when no cell holds a line break: filtered rows + 1 lines, the header first, then each row's cells quoted as written, in order |
| AdminDashboard.CsvAsWrittenAgrees | components/AdminDashboard.tsx:151 | when no cell holds a double quote, the export as written equals the corrected export, so it reads back row for row |
| AdminDashboard.SavedRowShowsForm | components/AdminDashboard.tsx:85-91 | a saved row takes every form field, normalised as the update does |
| AdminDashboard.Dashboard.FilteredRsvps | components/AdminDashboard.tsx:172-174 | the shown rows are exactly those passing the current filter |
| AdminDashboard.Dashboard.LoadRsvps | components/AdminDashboard.tsx:42-55 | the table is reloaded, or the load error is shown; the message is cleared and loading ends |
| AdminDashboard.Dashboard.SetAttendanceFilter | components/AdminDashboard.tsx:219 | only the filter changes |
| AdminDashboard.Dashboard.StartEdit | components/AdminDashboard.tsx:57-67 | the form takes the row's six fields and the message is cleared |
| AdminDashboard.Dashboard.CancelEdit | components/AdminDashboard.tsx:69-78 | the form is reset to no id, empty strings, attending and `both` |
| AdminDashboard.Dashboard.SaveEdit | components/AdminDashboard.tsx:80-102 | without an id nothing happens (every field, `isLoading` included, is kept); on success the store holds the update, the table is reloaded with loading ended, the form is reset and success is reported; otherwise the error is shown, the form kept and `isLoading` unchanged |
| AdminDashboard.Dashboard.FinishSave | components/AdminDashboard.tsx:99-101 | after an accepted save the table is reloaded (or the load error shown) and loading has ended, the form is reset, and the success message is shown; the filter, `isSaving` and `isDeleting` are kept |
| AdminDashboard.Dashboard.HandleDelete | components/AdminDashboard.tsx:104-122 | nothing without confirmation (the store, the table, the messages and `isLoading` are kept); on success the row is removed, the table reloaded with loading ended and success reported; otherwise the error is shown and `isLoading` unchanged |
| AdminAuth.AdminPassword | app/actions/admin.ts:13 | the configured password, or `admin` when it is unset or empty |
| AdminAuth.VerifyAdminPassword | app/actions/admin.ts:12-15 | true iff the password equals, exactly (no trimming, no case folding), the configured password when it is set and non-empty, and `admin` otherwise |
| AdminAuth.OnePasswordAccepted | app/actions/admin.ts:13-14 | exactly one password is accepted, and it is never empty |
| AdminAuth.EmptySettingFallsBack | app/actions/admin.ts:13 | an empty setting behaves like no setting, and `admin` then opens the dashboard |

## Left out

- The database client and its query builder are not modelled. `.ilike` is modelled as ASCII case-insensitive equality. The source passes names as ILIKE patterns, so an unescaped `%` or `_` in a name acts as a wildcard; the model does not capture that.
- `toLowerCase` and `trim` are modelled on ASCII letters and on JavaScript's white-space set. Unicode case mapping is not modelled.
- Text ordering is code-point order. The store's collation is not modelled.
- The store guarantees no order among rows with equal sort keys, nor which match an unordered `.limit(1)` returns. The model chooses stored order for ties (`Ordering.Sort` is stable) and the first match in table order for the guest lookups of `getRSVPByToken` and the reminder run (`Records.FirstGuestMatch`). A store returning another match can give another `guest_is_inc`.
- Ids are byte sequences. The UTF-8 conversion `Buffer` performs between id text and bytes is not modelled.
- The concurrent count queries of `getRSVPsPaginated` (`Promise.all`) are modelled as independent replies. Any one throw rejects them all.
- The read-then-insert race in guest creation is a concurrency property and is not modelled.
- Email rendering and delivery are foreign calls. Each send is an oracle outcome (`Attempt`), and an email is modelled by its sender, its recipient and the props the template is rendered from (days away, first name, attendance type, INC flag); its subject line and its sections are functions of those props. The markup is not modelled.
- `computeDaysAway` uses dates and floating point, so `daysAway` is an integer input. Timestamps (`toISOString`, `toLocaleString`) are opaque strings. The bulk run uses one timestamp for all the rows it marks, where the code takes a fresh time for each row.
- Cookies and environment variables are inputs.
- RsvpSubmission.SubmitRsvp: its form fields are strings or absent, as the client's typed form sends them. Other JSON values from a direct server-action call are modelled only for the HTTP route (`RsvpRoute.CheckBody`).
- RsvpRoute.CheckBody: `attending` is a boolean or absent. A value of another type is passed to the insert as it is, and what the store does with it is not modelled.
- ReminderDispatch.SendReminders: requires one oracle entry per pending row, because the model has no other source for the provider's answers.
- AdminDashboard.Dashboard.LoadRsvps: the dashboard imports `getAllRSVPs`, which `app/actions/rsvps.ts` does not define. A load is modelled as reading the table in stored order, or failing with `Failed to load RSVPs`.
- The flags `isLoading`, `isSaving` and `isDeleting` are modelled only at the end of each action; their intermediate values during an await are not modelled.
- `window.confirm`, the file download and the rendering of every component are left out. The confirmation answer is an input.
- GuestList.tsx, RSVPForm.tsx and the presentation-only pages are not part of this model.

## Findings

| source | as written | input that shows it | evidently intended | confidence | as-written member | corrected member |
|---|---|---|---|---|---|---|
| components/AdminDashboard.tsx:151 | each CSV cell is wrapped in `"` with nothing inside escaped | a name such as `a"b`: the line `"a"b"` no longer reads back as one cell | a CSV that any reader following RFC 4180 reads back cell for cell, which requires doubling the `"` inside a quoted field | medium, not executed | AdminDashboard.LineAsWrittenLosesQuote | AdminDashboard.LineRoundTrip |

The corrected export is `AdminDashboard.CsvContent`; the export as written is `AdminDashboard.CsvContentAsWritten`. A cell holding a line break, which `trim` keeps inside a name, adds lines to both. `AdminDashboard.LineAsWrittenAgrees` shows that the two quotings agree on every cell without a double quote.
