# Temple devotee records: a verified model of the occasion and completion logic

The application keeps one record per devotee. A record holds a name, a phone number, a
gothram (family lineage), an address, a date of birth, an optional marriage date, spouse
and children details, and a call log. The call log lists the blessing calls already made,
one `{date, type, timestamp}` entry per call. The main behaviours are:

- On every day the reminders page lists the devotees whose birthday or wedding anniversary
  falls today, and lets the priest mark each call done or reset it.
- An upcoming view sorts the year's occasions into today, tomorrow, this week and this month.
- Dates are typed as `DD MM YYYY` digits, checked, and stored as `YYYY-MM-DD` text.
- The enrolment form refuses incomplete records and duplicates.
- The directory can be searched and filtered by gothram.
- Names and gothrams are stored bilingually, as `"English / Telugu"` or `"English (Telugu)"`,
  and are shown in the selected language.

The model is in Dafny, one module per concern:

| file | module | models |
|---|---|---|
| `wrappers.dfy` | `Wrappers` | `Option` |
| `seqs.dfy` | `Seqs` | `Array.prototype.filter`, the order-preserving sub-list relation, removal at an index |
| `strings.dfy` | `Strings` | `includes`/`indexOf`, `split`, `replace` with a string pattern, `trim`, `toLowerCase`, `/\D/g`, `slice`, `parseInt` of digits, zero padding, string `<` |
| `dates.dfy` | `DateMath` | Gregorian dates as triples, days per month, a day count, the `YYYY-MM-DD` text form |
| `records.dfy` | `Records` | the stored records (types.ts) with the form's `Child` |
| `app.dfy` | `App` | the call-log toggle and the list's save/delete/toggle, with the list state as a class |
| `reminders.dfy` | `DailyReminders` | today's occasions and the reminders page's name display |
| `upcoming.dfy` | `UpcomingEvents` | the four upcoming buckets |
| `dateinput.dfy` | `ManualDateInput` | the typed date field, with its state as a class |
| `form.dfy` | `DevoteeForm` | the enrolment form's rules, with its state as a class |
| `directory.dfy` | `DevoteeList` | the directory filter and the bilingual label helpers |

Each stateful component becomes a class whose methods rewrite its fields. Each method is
proved against a pure function. The lemmas beside that function prove what the source
promises: flips, round trips, order preservation, bucket exactness, and the validation rules.

"Today" and every clock reading are parameters. The reminders page uses two readings of
"today" and the model keeps them apart:

- `today`, a calendar date, is compared against stored month and day;
- `todayStr`, the `YYYY-MM-DD` text, is the call-log key.

The source takes one clock reading and renders it in local time and in UTC
(DailyReminders.tsx:28-31). A stored date that is not a
valid `YYYY-MM-DD` text is treated as JavaScript's Invalid Date: it matches no day and
lands in no bucket.

### Behaviour worth knowing

- The toggle removes every record for the occasion, not only the first (App.tsx:71).
- Toggling twice restores the log only when it held no record for the occasion
  (`App.ToggleTwiceRestores`). From a log that held one, the record moves to the end with a
  new timestamp (`App.ToggleTwiceFromLoggedMoves`).
- Only `Birthday` and `Anniversary` occasions exist. There are no spouse or child
  occasions and no range search.
- Upcoming occasions are placed in the current year with no roll-over into the next
  (`UpcomingEvents.NoNextYearRollover`).
- 29 February in a non-leap year becomes 1 March, not 28 February
  (`UpcomingEvents.EventDateThisYear`).
- Buckets keep input order and are not sorted.

## Model

| member | source | states |
|---|---|---|
| Seqs.Filter | App.tsx:50 | the kept elements all pass the test and are no more than the input |
| Seqs.FilterIsSubsequence | components/DevoteeList.tsx:40-49 | a filter's result is an order-preserving sub-list of its input |
| Seqs.FilterCount | App.tsx:71 | a filter keeps each passing element as often as it occurs and drops every failing one |
| Seqs.FilterMembership | components/DevoteeList.tsx:40-49 | an element is in the result exactly when it is in the input and passes |
| Seqs.FilterConcat | components/UpcomingEvents.tsx:52-70 | filtering a concatenation filters each part |
| Seqs.FilterKeepsAll | components/DevoteeList.tsx:40-49 | a filter every element passes is the identity |
| Seqs.RemoveAt | components/DevoteeForm.tsx:134 | in range, the result is the input without position `i`, the rest in order; out of range nothing is removed |
| Strings.IndexOf | components/DevoteeList.tsx:30 | the result is the first position where the pattern occurs, or none when it occurs nowhere |
| Strings.Contains | components/DevoteeList.tsx:43-45 | `includes`: `Strings.IndexOf` finds a position, which by its contract happens exactly when the pattern occurs somewhere |
| Strings.Split | components/DevoteeList.tsx:31 | splitting on a non-empty separator gives at least one piece |
| Strings.JoinSplit | components/DevoteeList.tsx:31 | joining the pieces of a split with the separator gives back the text |
| Strings.SplitPiecesFree | components/DevoteeList.tsx:31 | no piece of a split contains the separator |
| Strings.SplitWithout | components/DevoteeList.tsx:30-34 | a text without the separator is a single piece |
| Strings.SplitCharSeparator | components/ManualDateInput.tsx:22 | splitting on one character peels off a leading piece that lacks it |
| Strings.SplitSlashSeparator | components/DevoteeList.tsx:25-31 | splitting `a + " / " + rest` for a slash-free `a` peels off `a` |
| Strings.SplitParenSeparator | components/DailyReminders.tsx:45 | splitting `a + " (" + rest` for a `(`-free `a` peels off `a` |
| Strings.BeforeFirst | components/DevoteeList.tsx:31-32 | a prefix of the text that is the first split piece |
| Strings.AfterFirst | components/DevoteeList.tsx:31-32 | when the separator occurs, the pieces of the rest are the remaining split pieces |
| Strings.ReplaceFirst | components/DailyReminders.tsx:45 | without the pattern the text is unchanged; with it, one occurrence's length is replaced |
| Strings.RemoveCloseParen | components/DailyReminders.tsx:45 | `replace(')', '')` removes the first `)` and nothing else |
| Strings.Trim | components/DailyReminders.tsx:49-50 | the result has no surrounding whitespace, is the input without leading and trailing whitespace, and a trimmed text is unchanged |
| Strings.ToLower | components/DevoteeList.tsx:43 | same length, each character lowered, no upper-case letter left |
| Strings.ToLowerIdempotent | components/DevoteeList.tsx:41-45 | lowering twice is lowering once |
| Strings.KeepDigits | components/ManualDateInput.tsx:49 | only digits remain, and the result is no longer than the input |
| Strings.KeepDigitsConcat | components/ManualDateInput.tsx:49 | removing non-digits from a concatenation works part by part |
| Strings.KeepDigitsOfDigits | components/ManualDateInput.tsx:49 | a digit text passes unchanged |
| Strings.Take | components/ManualDateInput.tsx:49 | the first `n` characters, or all when fewer |
| Strings.Slice | components/ManualDateInput.tsx:38-40 | `slice` with bounds clamped to the length |
| Strings.DigitsValue | components/ManualDateInput.tsx:58-60 | `parseInt` of `k` digits is below 10^k |
| Strings.Pad | components/ManualDateInput.tsx:75 | `width` digits |
| Strings.ValuePad | components/ManualDateInput.tsx:75 | parsing a padded number gives the number |
| Strings.PadValue | components/ManualDateInput.tsx:75 | padding a parsed digit text to its width gives the text |
| Strings.StrLessConcat | components/ManualDateInput.tsx:78 | string `<` on concatenations with equal-length heads compares heads, then tails |
| Strings.StrLessPad | components/ManualDateInput.tsx:78 | on equal-width padded numbers, string order and equality are numeric order and equality |
| Strings.StrLess | components/ManualDateInput.tsx:78 | JavaScript's string `<`, character by character with a proper prefix first; `Strings.StrLessConcat` and `Strings.StrLessPad` give its laws and `DateMath.IsoOrderIsChronological` makes it chronological order on stored dates |
| DateMath.DaysInMonth | components/ManualDateInput.tsx:69 | `new Date(y, m, 0).getDate()` lies in 28..31 and is 29 exactly for February of a leap year |
| DateMath.NextDay | components/UpcomingEvents.tsx:63 | the next day is a real date and later |
| DateMath.DayNumberNextDay | components/UpcomingEvents.tsx:58-59 | the day count goes up by one from a day to the next |
| DateMath.DayNumberMonotone | components/UpcomingEvents.tsx:58-59 | an earlier day has a smaller day count |
| DateMath.DayNumberInjective | components/UpcomingEvents.tsx:58-59 | two real days have equal counts exactly when they are the same day |
| DateMath.DayNumberOrder | components/UpcomingEvents.tsx:58-59 | the sign of a distance is chronological order, both ways |
| DateMath.FormatIso | components/ManualDateInput.tsx:75 | ten characters with dashes at positions 4 and 7 |
| DateMath.ParseIso | components/DailyReminders.tsx:59 | a parsed text names a real date with a four-digit year |
| DateMath.ParseFormatIso | components/DailyReminders.tsx:59 | formatting then parsing a date gives it back |
| DateMath.FormatParseIso | components/DailyReminders.tsx:59 | a text that parses is the formatted form of its date |
| DateMath.IsoOrderIsChronological | components/ManualDateInput.tsx:78 | on `YYYY-MM-DD` texts string `<` is chronological order, both ways |
| App.IsCalled | App.tsx:69 | some record of the log has the occasion's date and type; `App.ToggleHistory` flips it |
| App.ToggleHistory | App.tsx:69-72 | afterwards the occasion is logged exactly when it was not; a new record is appended at the end of an unchanged log; removing makes the log shorter |
| App.ToggleRemovesEveryMatch | App.tsx:71 | removal deletes every record for the occasion and keeps the others in order with their multiplicities |
| App.ToggleKeepsOtherRecords | App.tsx:71-72 | the records for other occasions are exactly the same, in order, after either branch |
| App.ToggleKeepsOtherOccasions | App.tsx:69-72 | whether any other `(date, type)` is logged does not change |
| App.ToggleTwiceRestores | App.tsx:69-72 | from a log without the occasion, toggling twice gives back the log exactly |
| App.ToggleTwiceFromLoggedMoves | App.tsx:69-72 | for every log that holds the occasion, toggling twice gives the other records in their order followed by one record for the occasion with the second timestamp |
| App.ToggleCallIn | App.tsx:67-78 | length kept; devotees with other ids untouched; the devotee with that id gets the toggled log |
| App.ToggleUnknownId | App.tsx:67-78 | a toggle for an id no one has leaves the list unchanged |
| App.ReplaceById | App.tsx:38 | length kept; each entry with the saved id is replaced in place, the others unchanged |
| App.SaveInto | App.tsx:36-43 | in edit mode, same length, same-id entries replaced, others kept; otherwise the old list plus the record at the end |
| App.RemoveById | App.tsx:50 | no remaining entry has the deleted id |
| App.RemoveByIdKeepsOthers | App.tsx:50 | a delete keeps every other devotee, in order, with its multiplicity |
| App.DevoteeStore.constructor | App.tsx:16-23 | the list starts as loaded, nothing being edited |
| App.DevoteeStore.Edit | App.tsx:55-58 | the record is remembered for editing, the list unchanged |
| App.DevoteeStore.Save | App.tsx:35-45 | the new list is the save rule applied to the old one, and editing ends |
| App.DevoteeStore.Delete | App.tsx:47-53 | a confirmed delete removes that id; a refused one changes nothing |
| App.DevoteeStore.ToggleCall | App.tsx:65-81 | the new list is the toggle applied to the old one |
| DailyReminders.FallsTodayAnyYear | components/DailyReminders.tsx:59-60 | a stored date falls today exactly when its month and day are today's, whatever its year |
| DailyReminders.FallsToday | components/DailyReminders.tsx:59-64 | the stored text parses and has today's month and day; `DailyReminders.FallsTodayAnyYear` shows the year never matters |
| DailyReminders.SpecialsOf | components/DailyReminders.tsx:56-71 | at most two cards per devotee; `DailyReminders.SpecialsSound` and `DailyReminders.SpecialsComplete` say which cards appear and with what mark |
| DailyReminders.EntriesFor | components/DailyReminders.tsx:58-69 | at most two cards per devotee, Birthday before Anniversary, all for that devotee |
| DailyReminders.SpecialsConcat | components/DailyReminders.tsx:58-69 | the cards of a concatenated list are the cards of each part, in order |
| DailyReminders.PushEntries | components/DailyReminders.tsx:59-68 | the callback appends exactly the devotee's cards: the birthday card when the birth date falls today, then the anniversary card when a marriage date is present and falls today |
| DailyReminders.Specials | components/DailyReminders.tsx:56-71 | the loop builds exactly the card list of the devotees |
| DailyReminders.SpecialsSound | components/DailyReminders.tsx:59-68 | at most two cards per devotee; each card is for a listed devotee whose date (a present marriage date for anniversaries) falls today; finished exactly when the log holds `(todayStr, type)` |
| DailyReminders.SpecialsComplete | components/DailyReminders.tsx:59-68 | every devotee whose birthday, or present anniversary, falls today has its card with the right finished mark |
| DailyReminders.ToggleFlipsCards | components/DailyReminders.tsx:106 | after Done/Reset toggles `(id, type, todayStr)`, the same cards are shown, and exactly those of that id and type flip their finished mark |
| DailyReminders.FlippedConcat | components/DailyReminders.tsx:58-69 | flipping card lists piece by piece flips the whole |
| DailyReminders.EntriesFlip | components/DailyReminders.tsx:61-66 | one devotee's cards flip only for the toggled type |
| DailyReminders.ShownName | components/DailyReminders.tsx:39-54 | empty gives empty; without `" / "` or `" ("` the text is unchanged; otherwise the trimmed parts around the first separator (the first `)` dropped for `" ("`) are shown in the chosen language |
| DailyReminders.FormatBilingual | components/DailyReminders.tsx:39-54 | the step-by-step display computes the shown name |
| DailyReminders.ShownNameOfLabel | components/DailyReminders.tsx:39-54 | a stored `"en / te"` label of trimmed slash-free parts is shown as the label helper shows `en` and `te` |
| DailyReminders.ShownNameOfParenthesised | components/DailyReminders.tsx:44-53 | a gothram stored as `"en (te)"` is shown as the label helper shows `en` and `te` |
| UpcomingEvents.EventDateThisYear | components/UpcomingEvents.tsx:57 | a real date in the current year with the source's month and day, except that 29 February of a non-leap year becomes 1 March |
| UpcomingEvents.BucketOf | components/UpcomingEvents.tsx:62-65 | distance 0 is today, 1 tomorrow, 2..7 this week, 8..30 this month, and every other distance no bucket, each both ways |
| UpcomingEvents.DaysDiff | components/UpcomingEvents.tsx:58-59 | the distance is zero exactly on today and positive exactly for a later day |
| UpcomingEvents.Join | components/UpcomingEvents.tsx:62-65 | each bucket is the first's followed by the second's |
| UpcomingEvents.EventsFor | components/UpcomingEvents.tsx:53-54 | at most two events, the birthday first; no anniversary without a marriage date |
| UpcomingEvents.EventsOf | components/UpcomingEvents.tsx:52-69 | at most two events per devotee; `UpcomingEvents.EventsOfSound` and `UpcomingEvents.EventsOfComplete` say which events appear |
| UpcomingEvents.Categorize | components/UpcomingEvents.tsx:62-65 | each bucket holds, in order, the events whose distance selects it |
| UpcomingEvents.CategorizeConcat | components/UpcomingEvents.tsx:52-70 | bucketing a concatenation buckets each part and appends |
| UpcomingEvents.EventsOfConcat | components/UpcomingEvents.tsx:52 | the events of a concatenated list are those of each part, in order |
| UpcomingEvents.CategorizeStep | components/UpcomingEvents.tsx:68-69 | one more devotee adds its birthday, then its anniversary when a marriage date is present |
| UpcomingEvents.CheckAndPush | components/UpcomingEvents.tsx:56-66 | the event is pushed onto the one bucket its distance selects; an unparsed date pushes nothing |
| UpcomingEvents.CategorizeEvents | components/UpcomingEvents.tsx:41-73 | the loop builds exactly the bucketing of every devotee's events |
| UpcomingEvents.BucketMembership | components/UpcomingEvents.tsx:62-65 | an event is in a bucket exactly when it is an event and its distance selects the bucket; it is in no other bucket; each bucket keeps input order |
| UpcomingEvents.EventsForSound | components/UpcomingEvents.tsx:53-69 | each of a devotee's events is theirs and carries the current-year date of the stored date of its occasion |
| UpcomingEvents.EventsOfSound | components/UpcomingEvents.tsx:53-57 | each event is for a listed devotee, in the current year, from a stored date that parses (a present marriage date for anniversaries) |
| UpcomingEvents.EventsOfComplete | components/UpcomingEvents.tsx:53-69 | every parsed birthday, and every parsed present anniversary, gives its event |
| UpcomingEvents.BucketDates | components/UpcomingEvents.tsx:43-63 | the today bucket holds exactly the events on today, tomorrow exactly those on the next calendar day, and no bucket a day before today |
| UpcomingEvents.NoNextYearRollover | components/UpcomingEvents.tsx:57 | on 31 December a 1 January birthday is in no bucket though it is tomorrow |
| ManualDateInput.ToDisplayDigits | components/ManualDateInput.tsx:20-25 | empty or not three `-` parts gives empty; otherwise day, month and year parts joined |
| ManualDateInput.DisplayDigitsOfIso | components/ManualDateInput.tsx:20-25 | a stored date shows as its padded day, month and year digits |
| ManualDateInput.FormatDisplay | components/ManualDateInput.tsx:37-46 | the whole mask: up to two digits as typed; three or four give `DD / M…`; more give `DD / MM / Y…` with at most four year digits; retyping the shown text gives back the digits |
| ManualDateInput.RawDigits | components/ManualDateInput.tsx:49 | only digits, at most eight |
| ManualDateInput.Message | components/ManualDateInput.tsx:63-80 | the English and Telugu texts of the three errors; `ManualDateInput.MessagesTellErrorsApart` shows they tell the errors apart |
| ManualDateInput.MessagesTellErrorsApart | components/ManualDateInput.tsx:63-80 | in either language two different errors show two different messages |
| ManualDateInput.ErrorText | components/ManualDateInput.tsx:108-114 | the line under the field is empty exactly when there is no error and either no digits or eight are typed; with an error it is the error's message, with none and one to seven digits the "Finish Date" hint; English for the English interface, Telugu otherwise |
| ManualDateInput.HintIsNoMessage | components/ManualDateInput.tsx:108-114 | the hint differs from every error message of the same language |
| ManualDateInput.Decide | components/ManualDateInput.tsx:49-86 | what a change leads to; its meaning is stated by `ManualDateInput.ValidityRule`, `ManualDateInput.FutureRule`, `ManualDateInput.AcceptedIsTypedDate` and `ManualDateInput.ShortInput` |
| ManualDateInput.IsoTextOfDate | components/ManualDateInput.tsx:75 | the text built from eight digits of a real day is that day's stored form and shows again as the same digits |
| ManualDateInput.ValidityRule | components/ManualDateInput.tsx:63-73 | eight digits are refused as invalid exactly when they are not a real day of a year from 1900 on |
| ManualDateInput.AcceptedIsTypedDate | components/ManualDateInput.tsx:75-83 | a handed-over text is the stored form of the typed date, parses back to it, and shows as the typed digits |
| ManualDateInput.FutureRule | components/ManualDateInput.tsx:78-83 | with today's stored form, the future error is raised exactly for a real day after today without `allowFuture`; every other real day from 1900 on is handed over |
| ManualDateInput.ShortInput | components/ManualDateInput.tsx:53-86 | no digits hands over the empty text; one to seven digits hand over nothing |
| ManualDateInput.RetypeStoredDate | components/ManualDateInput.tsx:20-83 | in a field that accepts future dates, retyping a stored date's digits hands back the same stored text, whatever today is |
| ManualDateInput.RetypeStoredDateAnyMode | components/ManualDateInput.tsx:15-83 | in either mode, including the default that refuses future dates, retyping the digits of a stored date that is not after today hands back the same stored text |
| ManualDateInput.DateField.constructor | components/ManualDateInput.tsx:27-28 | the field opens on the stored value's digits with no error |
| ManualDateInput.DateField.Sync | components/ManualDateInput.tsx:30-35 | the digits are replaced only when the stored value's digits differ from those typed |
| ManualDateInput.DateField.HandleChange | components/ManualDateInput.tsx:48-87 | the typed digits are kept; the owner is called, or the error set, exactly as the decision says |
| DevoteeForm.WithField | components/DevoteeForm.tsx:117 | the named field takes the value and every other field keeps its own |
| DevoteeForm.FormExtensional | components/DevoteeForm.tsx:86-95 | forms with the same field values are equal |
| DevoteeForm.WithFieldLaws | components/DevoteeForm.tsx:117 | writing back a field's own value changes nothing; of two writes the last wins |
| DevoteeForm.SanitizePhone | components/DevoteeForm.tsx:216 | only digits, at most ten |
| DevoteeForm.SanitizePhoneIdempotent | components/DevoteeForm.tsx:216 | a sanitised number passes the sanitiser unchanged |
| DevoteeForm.UpdateChildAt | components/DevoteeForm.tsx:125-131 | same length, other children unchanged, only the named field of child `i` set |
| DevoteeForm.BuildRecord | components/DevoteeForm.tsx:154-160 | the form's fields and children; edit keeps id, creation time and call log; a new record gets the fresh id, the clock reading and an empty log |
| DevoteeForm.ErrorText | components/DevoteeForm.tsx:192-195 | a banner shows exactly when the form has an error; its text is the English message unless the language is Telugu |
| DevoteeForm.MessagesTellErrorsApart | components/DevoteeForm.tsx:137-151 | the missing-fields and duplicate messages differ in every language |
| DevoteeForm.Incomplete | components/DevoteeForm.tsx:139 | full name, date of birth, phone or gothram is empty |
| DevoteeForm.Clashes | components/DevoteeForm.tsx:144-147 | a record other than the one being edited with the same phone and the same lower-cased trimmed name |
| DevoteeForm.IsDuplicate | components/DevoteeForm.tsx:144-147 | some listed record clashes with the form; `DevoteeForm.DuplicateRule` and `DevoteeForm.SavedRecordIsNew` show it blocks exactly those saves |
| DevoteeForm.Submit | components/DevoteeForm.tsx:137-161 | what a submission leads to; its meaning is stated by `DevoteeForm.SavedRecordIsNew`, `DevoteeForm.DuplicateRule` and `DevoteeForm.SubmitWithoutListThrows` |
| DevoteeForm.SavedRecordIsNew | components/DevoteeForm.tsx:139-160 | a saved record has every required field, carries the form's fields and children, and clashes with no other listed record |
| DevoteeForm.DuplicateRule | components/DevoteeForm.tsx:144-152 | any other record with the same phone and the same lower-cased trimmed name blocks the save |
| DevoteeForm.EditUnchanged | components/DevoteeForm.tsx:100-160 | opening a record and saving it unchanged gives it back, without its notes |
| DevoteeForm.SubmitWithoutListThrows | App.tsx:117-122 | mounted without the list, every complete submission throws |
| DevoteeForm.FormState.constructor | components/DevoteeForm.tsx:86-98 | empty fields, no children, no error |
| DevoteeForm.FormState.Load | components/DevoteeForm.tsx:100-114 | an edited record's fields and children are loaded; without one nothing changes |
| DevoteeForm.FormState.UpdateField | components/DevoteeForm.tsx:116-119 | only the named field changes and the error is cleared |
| DevoteeForm.FormState.TypePhone | components/DevoteeForm.tsx:216 | the phone field becomes the sanitised input |
| DevoteeForm.FormState.AddChild | components/DevoteeForm.tsx:121-123 | one empty child is appended, the others unchanged |
| DevoteeForm.FormState.UpdateChild | components/DevoteeForm.tsx:125-131 | the children become the single-field update |
| DevoteeForm.FormState.RemoveChild | components/DevoteeForm.tsx:133-135 | exactly position `i` is removed |
| DevoteeForm.FormState.HandleSubmit | components/DevoteeForm.tsx:137-161 | an incomplete or duplicate form sets that error and saves nothing; otherwise the built record is handed to `onSave` |
| DevoteeList.GetLabel | components/DevoteeList.tsx:22-26 | English, Telugu, or both joined so that splitting on `" / "` gives back the two slash-free parts |
| DevoteeList.MatchesSearch | components/DevoteeList.tsx:43-45 | the term occurs in the lower-cased name, the phone number or the lower-cased gothram |
| DevoteeList.MatchesGothram | components/DevoteeList.tsx:46 | the filter is the "Select Gothram" sentinel or the devotee's gothram itself |
| DevoteeList.FormatBilingual | components/DevoteeList.tsx:28-35 | empty gives empty; without `" / "` unchanged; otherwise English is the text before the first separator, Telugu the text after it up to the next, both the whole text |
| DevoteeList.FormatBilingualOfLabel | components/DevoteeList.tsx:22-35 | showing a both-languages label gives, in every language, what the label helper gives |
| DevoteeList.FilteredDevotees | components/DevoteeList.tsx:40-49 | every shown devotee matches the lower-cased search and the gothram choice |
| DevoteeList.FilteredDevoteesExact | components/DevoteeList.tsx:40-49 | the filter is an order-preserving sub-list keeping a devotee, with its multiplicity, exactly when both tests pass |
| DevoteeList.EmptySearchShowsAll | components/DevoteeList.tsx:41-47 | an empty search with the "Select Gothram" sentinel shows the whole list |

## Left out

- Storage (services/storageService.ts) is left out: localStorage, JSON and random ids. The
  record id and every timestamp are parameters. The `updateDevotee`/`saveDevotee`/`deleteDevotee`
  side effects of App.tsx are not modelled.
- Records are taken as `getDevotees` normalises them on a reload (storageService.ts:21-25):
  every record has a `callHistory` and a `children` list. On the first launch it returns the
  sample records of constants.ts:41-60 unchanged (storageService.ts:14-17), and those have no
  `callHistory`. Sample records dated today would then make `.some` on the missing log throw
  at DailyReminders.tsx:61 and App.tsx:69. That first-launch case is not modelled.
- `confirm()` in App.tsx:48 is not modelled as a dialog: the answer is the `confirmed`
  parameter of `Delete`.
- Navigation between views (`setView`, App.tsx:44, 51, 57, 62), the stored language choice
  and all rendering are left out.
- Clock and timezone are parameters. JavaScript parses `new Date('YYYY-MM-DD')` as UTC but
  reads it back with local `getMonth`/`getDate`; the model reads a stored date as the local
  calendar day it names.
- UpcomingEvents.CheckAndPush: the distance is the whole-day count between local midnights.
  The source takes `Math.ceil` of a millisecond difference, which a 25-hour day at a
  daylight-saving change would round up. That case is not modelled.
- Dates are parsed only in the `YYYY-MM-DD` form the application stores. Other texts that
  JavaScript's date parser accepts count as invalid.
- DateMath.ParseIso: treats a `YYYY-MM-DD` text with an out-of-range day, such as
  `2023-02-30`, as invalid, where some JavaScript engines roll it over into the next month.
  The typed date input hands over real days only.
- Strings.ToLower lowers ASCII letters only; JavaScript's full Unicode case mapping is not
  modelled. It only matters for names in other scripts with case.
- Strings.StrLess compares Unicode characters, not UTF-16 code units. They order alike on the
  digits and dashes that are compared.
- services/transliterationService.ts and the TransliteratedInput keystroke handling
  (DevoteeForm.tsx:17-80) need a foreign library and are not modelled.
- components/Header.tsx, components/TempleSettings.tsx and components/CustomDatePicker.tsx
  are UI widgets and are left out. So is the Excel/PDF export of components/DevoteeList.tsx.
- components/DevoteeDetails.tsx is display only and is left out. Its name helper is the
  directory's again, and its history sort is locale dependent.
- constants.ts holds static data; only the "Select Gothram" sentinel `GOTHRAMS[0]` is used.
  `getLocalISOString`, which ManualDateInput imports, is not part of this model, so `todayStr`
  is a parameter.
- DevoteeForm.ErrorText, ManualDateInput.ErrorText: the source stores the message text in the
  language current when the error is set (DevoteeForm.tsx:140, 150; ManualDateInput.tsx:64, 71,
  79), so after a language switch it keeps showing the old language. The model keeps the error
  kind and shows it in the language it is given.
- Optional record fields are `""` when absent. `undefined` and `''` pass the same
  truthiness tests in every component modelled.
- The form does not carry `notes`, so a record saved through it has none
  (`DevoteeForm.EditUnchanged`).
- DevoteeForm.FormState.UpdateChild: it is only called with the index of a child on
  screen. An index beyond the list, which JavaScript would answer with a sparse array, is
  excluded by its precondition.
- types.ts declares no `children`, `wifeName` or `wifeDOB`, but the form reads and writes them.
  `Records.Devotee` carries all three and `Records.Child` follows the form.
- Spouse and child occasions and single-day or range search appear in no component and are
  not modelled.

## Findings

| source | as written | input that shows it | evidently intended | confidence | as-written member | corrected member |
|---|---|---|---|---|---|---|
| App.tsx:117-122 | App mounts `DevoteeForm` without its `devotees` prop, so the duplicate test at DevoteeForm.tsx:144 calls `.some` on `undefined` | any submission with full name, date of birth, phone and gothram filled in: the handler throws and `onSave` is never called | App passes its `devotees` list, so the duplicate test runs over it | medium; not executed (a build that type-checks would refuse the missing prop) | DevoteeForm.SubmitWithoutListThrows | DevoteeForm.SavedRecordIsNew |
