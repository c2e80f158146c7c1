# Shift manager — a Dafny model of its core

The shift manager is a small web application. Administrators open
*recruitments*: a title, a target group of staff and a list of *slots*, each a
date, a start and end time, a head count and a position. Staff members answer
each slot with an availability: `o` (available), `triangle` (maybe) or `x`
(not available). Administrators then see, slot by slot, who answered what and
who has not answered. Everything lives in one JSON document of admins, staff,
recruitments and responses.

This project models:

- the data layer (`Db`): the in-memory document as a `Store` class whose four
  lists are the fields its operations change. The operations are adding an
  admin or a staff member with a unique id, putting a new open recruitment in
  front, and upserting a response under its (recruitment, slot, staff) key.
- the request handlers (`Server`):
  - the login lookup;
  - staff creation;
  - recruitment creation with its defaults;
  - the per-slot aggregation of responses into three availability buckets
    and a no-response list;
  - the list of open recruitments aimed at a staff member;
  - response validation and submission.
- the administrator calendar page (`Calendar`):
  - the `year-MM-DD` date keys;
  - the insertion-ordered selection of dates with their times, as a
    `DateSelection` class;
  - the 42-cell month grid;
  - the pending-shift statistic;
  - the checks that decide whether shifts are created, and which.
- the recruitment form (`Recruit`):
  - the group choices;
  - the slot rows and their id counter;
  - the guard against removing the last row;
  - the payload the form sends.

`Common` holds `Option`, `Result` and the array searches (`find`,
`findIndex`, `filter`). `Text` holds the string primitives the code uses:
`trim`, `String(n)`, `padStart(2, '0')` and `parseInt` on decimal text.
`Records` holds the stored record types.

Each selection, list or store that the source changes in place is a class
field that a method reassigns. Each method is specified against a function
(`Db.Upserted`, `Calendar.Without`, `Calendar.AsMap`, `Server.Bucket`,
`Server.SummaryOf`, …), and the lemmas beside it state what that function
guarantees.

## Notes on the source

- The recruitment form loads its group choices from `/api/mestaff` and posts
  to `/api/merecruitments` (`public/admin/recruit.js`, lines 21 and 98).
  `server/index.js` serves neither URL. The model describes what the page
  computes and sends, not whether a server accepts it.

## Model

| member | source | states |
|---|---|---|
| Db.UpsertExisting | server/db.js:74-86 | upserting under a key that is present overwrites that entry where it stands; the length and every other entry are unchanged |
| Db.UpsertNew | server/db.js:85-89 | upserting under an absent key appends exactly that response at the end |
| Db.UpsertKeepsKeysUnique | server/db.js:72-92 | at most one response per (recruitment, slot, staff) key before an upsert means at most one after it |
| Db.UpsertIdempotent | server/db.js:72-92 | upserting the identical record, timestamp included, a second time leaves the list as one upsert did |
| Db.UpsertSupersedes | server/db.js:72-92 | a later submission under the same key, with new contents or a new time, overwrites the earlier one: the list ends as if only the later one had been submitted |
| Db.Store.AddAdmin | server/db.js:37-45 | fails with "id in use" exactly when some admin has the id, changing nothing; otherwise appends the admin, returns it without the password and keeps admin ids unique; the other lists are untouched |
| Db.Store.AddStaff | server/db.js:47-55 | fails exactly when some staff member has the id; otherwise appends the record with a missing group stored as '', returns it without the password and keeps staff ids unique |
| Db.Store.CreateRecruitment | server/db.js:57-70 | the new recruitment is open, targets 'all' unless a group is given, and is put in front of the existing recruitments, which keep their order |
| Db.Store.UpsertResponse | server/db.js:72-92 | the response list becomes `Upserted` of the old one; key uniqueness is preserved; nothing else changes |
| Server.Login | server/index.js:44-71 | for role 'admin' or 'staff', succeeds exactly when a record of that list has both the given id and password, and the session is the first such record's id, role and name; otherwise 401; any other role is 400 |
| Server.PostStaff | server/index.js:101-108 | 400 and no change unless id, name and password are all non-empty; a valid request with a taken id is 500 and changes nothing; a valid request succeeds exactly when no staff member has the id, and then returns the given id and name and the staff list gains exactly the new record, with the group defaulted to ''; ids stay unique |
| Server.SlotOf | server/index.js:124-131 | a stored slot copies date and times, takes the given id, keeps a nonzero head count and uses 1 for a missing or zero one, and defaults the position to '' |
| Server.CheckRecruitment | server/index.js:118-133 | 400 exactly when the title is missing or empty or `slots` is missing, not an array or empty; otherwise the title, one slot per requested slot in order, and the target group defaulted to 'all' |
| Server.PostRecruitment | server/index.js:117-135 | fails exactly when validation fails, changing nothing; otherwise the new open recruitment is put first in the store |
| Server.EntryFor | server/index.js:150-151 | a bucket entry carries the response's staff id and comment; its name is that of the first staff member with that id when that name is non-empty, and '不明' when the name is empty or no staff member has the id |
| Server.SplitByAvailability | server/index.js:148-155 | the forEach fills each of the three buckets with exactly `Bucket` of the slot's responses for that availability |
| Server.BucketsPartition | server/index.js:152-154 | every response lands in exactly one bucket: the three bucket sizes add up to the number of responses |
| Server.BucketAppend | server/index.js:149-155 | bucketing keeps response order: the buckets of a concatenation are the concatenated buckets |
| Server.BucketHas | server/index.js:152-154 | each response's entry is in the bucket its availability names, with anything other than 'o' or 'triangle' going to 'x' |
| Server.BucketOnlyHas | server/index.js:152-154 | every bucket entry is the entry of some response with that bucket's availability |
| Server.NoResponseExactly | server/index.js:156-158 | a staff reference is in the no-response list exactly when it is some staff member's id and name and that id has no response to the slot |
| Server.NoResponseAppend | server/index.js:156-158 | the no-response list follows staff-list order |
| Server.SummarizeSlot | server/index.js:146-163 | one slot's summary is its slot, its three buckets and its no-response list over the responses to that slot of that recruitment |
| Server.Aggregate | server/index.js:138-166 | 404 exactly when no recruitment has the id; otherwise the first recruitment with that id and one summary per slot, in slot order |
| Server.Visible | server/index.js:174-177 | a recruitment is listed exactly when it is stored, open, and targeted at 'all' or at the non-empty group of the staff member with the caller's id |
| Server.MyRecruitments | server/index.js:175-181 | one entry per visible recruitment, in order, each holding exactly the caller's responses to that recruitment |
| Server.CheckResponse | server/index.js:187-193 | accepted exactly when recruitment id, slot id and availability are non-empty and the availability is 'o', 'triangle' or 'x'; otherwise 400; a missing comment becomes '' |
| Server.SubmitResponse | server/index.js:186-202 | fails exactly when validation fails, changing nothing; otherwise the response under the session's user id is upserted and key uniqueness is kept |
| Text.Trim | public/admin/admin_calendar.js:404-405 | the trimmed text is empty exactly when the input is all whitespace; otherwise it neither starts nor ends with whitespace and is the input without its leading and trailing whitespace |
| Text.ParseIntOfDecimal | public/admin/recruit.js:88 | `parseInt` reads back the number a non-negative decimal text spells |
| Calendar.FormatParts | public/admin/admin_calendar.js:384-389 | a key is the year's digits, '-', two month digits (month + 1), '-', two day digits |
| Calendar.FormatRoundTrip | public/admin/admin_calendar.js:384-389 | the key of a valid date reads back as that date |
| Calendar.FormatInjective | public/admin/admin_calendar.js:384-389 | two valid dates with the same key are the same date |
| Calendar.AsMapKeys | public/admin/admin_calendar.js:304 | a key is in the selection map exactly when some entry has that date |
| Calendar.Without | public/admin/admin_calendar.js:305 | removing a key keeps exactly the entries with other dates |
| Calendar.WithoutAppend | public/admin/admin_calendar.js:305 | removal keeps the remaining entries in their order: removing from a concatenation removes from each part |
| Calendar.AsMapWithout | public/admin/admin_calendar.js:305 | removing a key keeps keys unique and takes exactly that key out of the map |
| Calendar.AsMapAppend | public/admin/admin_calendar.js:307-311 | adding an entry under a new key adds exactly that key to the map |
| Calendar.AsMapUpdate | public/admin/admin_calendar.js:367 | overwriting an entry in place under the same key changes only that key's value |
| Calendar.ToggleTwiceRestores | public/admin/admin_calendar.js:301-316 | selecting an unselected date and then toggling it again restores the selection exactly, order included |
| Calendar.PreviousMonthCells | public/admin/admin_calendar.js:255-259 | `startDay` greyed cells numbered up to the previous month's last day, in increasing order |
| Calendar.NextMonthCells | public/admin/admin_calendar.js:275-279 | greyed cells numbered 1 to the remaining count |
| Calendar.PendingCount | public/admin/admin_calendar.js:105 | at most all the shifts; 0 exactly when all are assigned, all of them exactly when none are |
| Calendar.PendingCountOne | public/admin/admin_calendar.js:105 | a single shift counts 1 exactly when it has no assignee |
| Calendar.PendingCountAppend | public/admin/admin_calendar.js:105 | the count adds up over any split of the list, so with the single-shift case it is the number of shifts without an assignee |
| Calendar.DateSelection.Clear | public/admin/admin_calendar.js:219 | the selection becomes empty |
| Calendar.DateSelection.Toggle | public/admin/admin_calendar.js:301-316 | a selected date is removed from the selection and its map; an unselected one is appended with 09:00 to 18:00; keys stay unique |
| Calendar.DateSelection.Remove | public/admin/admin_calendar.js:358-362 | exactly the given key leaves the selection and its map; keys stay unique |
| Calendar.DateSelection.UpdateTime | public/admin/admin_calendar.js:365-369 | a selected date gets the one time field set in place, and only that key's value changes; an unselected date changes nothing |
| Calendar.DateSelection.MonthCells | public/admin/admin_calendar.js:262-272 | one cell per day of the month, each marked today, selected and has-time from the selection |
| Calendar.DateSelection.RenderGrid | public/admin/admin_calendar.js:234-280 | 42 cells: the tail of the previous month, every day of the month, then the head of the next month, each cell as numbered there |
| Calendar.DateSelection.ComplexShiftRequests | public/admin/admin_calendar.js:403-429 | stops for a blank title, then for an empty selection; otherwise one request per selected date, in selection order, with the trimmed title and description and that date's times |
| Recruit.Groups | public/admin/recruit.js:23 | the group choices are distinct and are exactly the non-empty groups of the staff records |
| Recruit.GroupsInFirstSeenOrder | public/admin/recruit.js:23 | the group choices come in the order in which each group first appears |
| Recruit.SlotList.AddSlot | public/admin/recruit.js:34-35 | the counter is incremented and the new row gets its new value, which no existing row has; row ids stay increasing |
| Recruit.SlotList.RemoveSlot | public/admin/recruit.js:68-74 | a row is removed exactly when it is not the only one left; then only that id leaves the list, otherwise nothing changes; at least one row always remains |
| Recruit.Needed | public/admin/recruit.js:88 | unparsable text and text that parses to 0 give 1; any nonzero parsed number is kept |
| Recruit.NeededOfDecimal | public/admin/recruit.js:88 | a typed positive count is sent as that count, and a typed 0 as 1 |
| Recruit.SlotOf | public/admin/recruit.js:85-89 | a slot copies the row's date and times, reads the count as `parseInt(...) \|\| 1` does and sends the trimmed position |
| Recruit.SubmitRecruitment | public/admin/recruit.js:77-95 | nothing is sent exactly when some row lacks a date, start or end; otherwise the trimmed title, the target group and one slot per row, in order |

## Left out

- File I/O: loading and saving the JSON data file is not modelled. A `Db.Store` is the loaded document, and each method's new state is what would be saved.
- UUIDs and timestamps: the recruitment id, the slot ids and the `createdAt`/`updatedAt` times are parameters of the operations that use them.
- Express plumbing is not modelled: routing, sessions, `requireAdmin`/`requireStaff`, logout, the session query and the static pages. The session's user id is a parameter. An exception from the data layer becomes `ServerError`.
- The listing handlers are not modelled. `GET /api/recruitments` returns the stored recruitments as they are. `GET /api/staff` returns each staff record without its password, with a missing group shown as ''.
- The server's initial setup is not modelled. When the admin list is empty it adds the admin `admin`; when the staff list is empty it adds the sample staff accounts `staff1` and `staff2`.
- Request bodies are modelled with string fields that may be missing. JSON values of other types (a number as a title, an object as an availability) are not represented.
- Server.SlotOf: `needed` is an optional integer. JavaScript's `s.needed || 1` also replaces other falsy values (`NaN`, `''`, `false`), which the model cannot express.
- Server.Login: passwords are compared as plain strings, as the source does; there is no hashing to model.
- JavaScript `Date` arithmetic is not modelled. The first weekday of the month, its number of days, the previous month's last day and which day is today are inputs of `Calendar.DateSelection.RenderGrid`. Years are non-negative.
- Calendar.DateSelection.MonthCells: `isToday` is modelled by a `todayDay` parameter (0 when today is in another month) rather than by comparing `toDateString()` values.
- The DOM is not modelled: element creation, alerts, modals, CSS classes, `displayRecentShifts`, the other statistics of `updateStats`, and the month navigation buttons, which only move `currentDate`.
- Network requests are not modelled. `Calendar.DateSelection.ComplexShiftRequests` yields the request bodies. It does not model posting them one at a time or stopping at the first failed one. `Recruit.SubmitRecruitment` yields the payload but not the request itself.
- Calendar.DateSelection.UpdateTime: the field name is one of `startTime` and `endTime`. The page only ever passes these two, although JavaScript would accept any property name.
- Calendar.PendingCount: a shift record is reduced to its `assigned_user_id`, modelled as a possibly missing string.
- Text.ParseInt: it reads decimal digits only. The `0x` prefix, rounding of very large values and the `-0` result are not modelled.
- Text.Trim: the whitespace set is the ECMAScript WhiteSpace and LineTerminator characters, listed by code point. `char` is a Unicode scalar value, not a UTF-16 code unit.
- Concurrency is not modelled: two requests that read and write the data file at once.
