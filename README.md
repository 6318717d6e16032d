# Class schedule and holiday calendar: record-list logic

This project models the logic behind two pages of a small class-schedule web front end, and
proves properties of that model.

- **Course section page** (`frontend/components/SchedulePage.tsx`). It shows a stored list of
  courses. The list can be narrowed by a case-insensitive search over name and instructor, and
  by a weekday filter. Three figures summarise the filtered list. A weekly grid has one column
  per weekday, sorted by time text. An editor dialog creates, updates and deletes courses, and
  toggles meeting days in the form.
- **Holiday calendar page** (`frontend/pages/Holidays.tsx`). It has:
  - a type and name filter, sorted by date;
  - an "Upcoming" panel of the next three holidays;
  - three count cards;
  - the same create / update / delete editor;
  - a relative-date label ("Today", "In 3 days", "In 2 weeks", ...).

Modules:

- `Wrappers`: `Option`.
- `Lists`: JavaScript's `Array.filter`, and `Array.sort` as a stable insertion sort under a
  comparator that is a total preorder. Also `slice(0, n)`.
- `Text`: ASCII `toLowerCase`, `String.includes`, and lexicographic order by code point,
  used for `localeCompare`. Also the decimal rendering of the label numbers.
- `Records`: the two list updates both editors use. One replaces every record with an id (the
  `map` in update). The other removes every record with an id (the `filter` in delete).
- `Schedule`: the course page.
  - The search, filter, summary figures and weekly column are functions.
  - The page state (`courses`, form draft, course being edited, dialog flag) is the class
    `SchedulePage`. Its methods reassign that state as the handlers do.
- `Holidays`: the holiday page, in the same form, plus the relative-date label.
- `ScheduleData`, `HolidayData`: the seed lists from `frontend/data/`, with facts about what the
  pages show for them.

Things outside the program are parameters:

- the new record's id (`Date.now().toString()`);
- the current moment `now`;
- the conversion of a date text to a moment, `timeOf` (`new Date(text).getTime()`);
- the whole-day difference `diffDays` behind the relative label.

Holiday dates stay the text the form produces. Only `timeOf` gives them an order.

## Model

| member | source | states |
|---|---|---|
| Lists.Filter | frontend/components/SchedulePage.tsx:77-86 | `Array.filter`: an element is kept exactly when it passes. Each kept value keeps its number of copies. The result is an order-preserving subsequence of the input. |
| Lists.FilterAppend | frontend/components/SchedulePage.tsx:182-184 | Filtering a concatenation filters each part. |
| Lists.FilterAllPass | frontend/components/SchedulePage.tsx:82-85 | When every element passes, the filter returns the list unchanged. |
| Lists.FilterIdempotent | frontend/components/SchedulePage.tsx:183 | Filtering twice by the same test is filtering once. |
| Lists.Insert | frontend/components/SchedulePage.tsx:204 | Insertion into a sorted list. The result holds one more copy of the element and stays sorted. |
| Lists.Sort | frontend/components/SchedulePage.tsx:204 | `Array.sort` with a comparator that is a total preorder. The result is a permutation of the input (same multiset, same length) and is sorted. |
| Lists.SortTwo | frontend/components/SchedulePage.tsx:204 | Two elements keep their order unless the second must go first (stability on a pair). |
| Lists.Take | frontend/pages/Holidays.tsx:52 | `slice(0, n)`: the first `min(n, length)` elements, unchanged. |
| Lists.DistinctIffCountsAtMostOne | frontend/components/SchedulePage.tsx:179-186 | A list repeats no value exactly when every value occurs at most once in its multiset. |
| Text.LowerChar | frontend/components/SchedulePage.tsx:78 | Each capital letter A to Z becomes the lower-case letter at the same position of the alphabet table. Every other character is unchanged. No capital is left. |
| Text.Lower | frontend/components/SchedulePage.tsx:78 | `toLowerCase` keeps the length and lower-cases each character. |
| Text.IncludesIff | frontend/components/SchedulePage.tsx:78-79 | `includes(t)` holds exactly when `t` occurs at some position. |
| Text.Includes | frontend/components/SchedulePage.tsx:78-79 | `s.includes(t)`: every text includes the empty text, and no text includes anything longer than itself. `IncludesIff` gives the exact meaning. |
| Text.LexLeTotal | frontend/components/SchedulePage.tsx:204 | Any two time texts are comparable. |
| Text.LexLeTransitive | frontend/components/SchedulePage.tsx:204 | The time-text order is transitive. |
| Text.LexLeAntisymmetric | frontend/components/SchedulePage.tsx:204 | Texts that are each at most the other are equal. |
| Text.NatToString | frontend/pages/Holidays.tsx:152-154 | The number in a label: at least one decimal digit, no leading zero. |
| Text.ParseNatToString | frontend/pages/Holidays.tsx:152-154 | The digits of a label number read back as that number. |
| Text.NatToStringInjective | frontend/pages/Holidays.tsx:152-154 | Different numbers render as different digit strings. |
| Records.CountKey | frontend/components/SchedulePage.tsx:171-172 | The number of records with an id. It is zero exactly when no record carries the id. |
| Records.CountKeyUnique | frontend/components/SchedulePage.tsx:171-172 | When ids are unique, an id is carried by one record or by none. |
| Records.FilterKeepsKeysUnique | frontend/components/SchedulePage.tsx:172 | Filtering a list with unique ids keeps them unique. |
| Records.RemoveKey | frontend/components/SchedulePage.tsx:171-172 | Delete by id. No record with the id is left. The others remain, with their multiplicities, in their original order. The length drops by the number of matches. Nothing changes when the id is absent. Unique ids stay unique. |
| Records.RemoveKeyCount | frontend/components/SchedulePage.tsx:172 | Delete shortens the list by exactly the number of records carrying the id. |
| Records.ReplaceKey | frontend/components/SchedulePage.tsx:131-136 | Update by id. Length, ids and order are kept. Every record with the id becomes the edited record. Every other record is unchanged. Nothing changes when the id is absent. |
| Records.ReplaceKeyIdempotent | frontend/components/SchedulePage.tsx:131-136 | Submitting the same update twice is submitting it once. |
| Records.AppendKeepsKeysUnique | frontend/components/SchedulePage.tsx:141-146 | Appending a record with a fresh id keeps the ids unique. |
| Records.AppendThenRemove | frontend/components/SchedulePage.tsx:141-146 | Deleting the id of a record just created with a fresh id restores the list. |
| Records.RemoveThenReplace | frontend/components/SchedulePage.tsx:131-136 | After a delete, an update of the same id changes nothing. |
| Schedule.FilteredCourses | frontend/components/SchedulePage.tsx:76-87 | A course is shown exactly when (a) the term is empty or its lower-case form occurs in the lower-cased name or instructor, and (b) the day filter is "all" or is one of the course's days. The shown list is an order-preserving subsequence of the stored list and keeps each shown course's copies. |
| Schedule.UnfilteredShowsAll | frontend/components/SchedulePage.tsx:76-87 | With no term and the filter on "all", every stored course is shown, in order. |
| Schedule.CourseStats | frontend/components/SchedulePage.tsx:98-117 | Total Courses is the length of the filtered list. All three figures are 0 when that list is empty. |
| Schedule.TotalCreditsAppend | frontend/components/SchedulePage.tsx:107 | The credit sum of a concatenation is the sum of the parts. |
| Schedule.TotalCreditsPermutation | frontend/components/SchedulePage.tsx:107 | The credit sum does not depend on the order of the courses. |
| Schedule.TotalCreditsBounds | frontend/components/SchedulePage.tsx:466-471 | With credits in the form's 1 to 6 range, the credit sum lies between 1 and 6 times the course count. |
| Schedule.DayBucket | frontend/components/SchedulePage.tsx:202-204 | A weekday column holds exactly the filtered courses meeting that day, as a permutation of them, sorted by time text. |
| Schedule.BucketOfTwo | frontend/components/SchedulePage.tsx:202-204 | A column with two courses lists the earlier time first, keeping list order on a tie. |
| Schedule.WeeklyHoursByDay | frontend/components/SchedulePage.tsx:113 | When every course meets on distinct weekdays, Weekly Hours equals the credits summed down the five grid columns. |
| Schedule.FromDraft | frontend/components/SchedulePage.tsx:142-145 | A created course carries the supplied id and the form's fields. |
| Schedule.DraftOf | frontend/components/SchedulePage.tsx:158-169 | The form filled from a course gives that course back when submitted under its id. |
| Schedule.Toggle | frontend/components/SchedulePage.tsx:179-186 | A day button flips whether the day is chosen. An absent day is appended at the end. A present day loses every occurrence, and the rest is a subsequence. No other day's count changes. |
| Schedule.ToggleKeepsOtherDays | frontend/components/SchedulePage.tsx:179-186 | The other chosen days keep their relative order. |
| Schedule.ToggleTwice | frontend/components/SchedulePage.tsx:179-186 | Toggling an absent day twice restores the list. |
| Schedule.ToggleKeepsValidDays | frontend/components/SchedulePage.tsx:479-491 | Toggling a weekday keeps a list of distinct weekdays a list of distinct weekdays. |
| Schedule.SchedulePage.constructor | frontend/components/SchedulePage.tsx:31-44 | The page starts on its data with an empty form (three credits), nothing under edit and the dialog closed. |
| Schedule.IsComplete | frontend/components/SchedulePage.tsx:122 | The required-field test: name, instructor, room and time non-empty and at least one day. The freshly reset form never passes. |
| Schedule.SchedulePage.Submit | frontend/components/SchedulePage.tsx:119-156 | An incomplete form (name, instructor, room or time empty, or no day) is rejected with nothing changed. Otherwise the course being edited is replaced through `ReplaceKey`, or `old + [new course with newId]` is stored. The form then resets and the dialog closes. |
| Schedule.SchedulePage.Edit | frontend/components/SchedulePage.tsx:158-169 | Editing a course records it, copies its fields into the form and opens the dialog. |
| Schedule.SchedulePage.Delete | frontend/components/SchedulePage.tsx:171-177 | The stored list becomes `RemoveKey` of the old list. |
| Schedule.SchedulePage.ToggleDay | frontend/components/SchedulePage.tsx:179-186 | Only the form's days change, to `Toggle` of the old days. |
| Schedule.SchedulePage.Cancel | frontend/components/SchedulePage.tsx:507-510 | Cancel closes the dialog and resets the form, leaving the list alone. |
| Schedule.EditUnchangedIsNoop | frontend/components/SchedulePage.tsx:131-136 | With unique ids, editing a course and submitting the form unchanged leaves the list as it was. |
| ScheduleData.TuesdayFilter | frontend/data/scheduleData.ts:21-47 | Section A filtered by Tuesday is Calculus III then Computer Graphics. |
| ScheduleData.TenBeforeEleven | frontend/data/scheduleData.ts:26-44 | In code-point order the Computer Graphics time sorts before the Calculus III time. |
| ScheduleData.TuesdayColumn | frontend/components/SchedulePage.tsx:202-204 | Section A's Tuesday column shows Computer Graphics (10:00 AM) above Calculus III (11:00 AM). |
| ScheduleData.SectionAStats | frontend/data/scheduleData.ts:11-57 | Section A unfiltered: 5 courses, 17 credits, 41 weekly hours. |
| Holidays.FilteredHolidays | frontend/pages/Holidays.tsx:37-45 | A holiday is listed exactly when the type filter is "all" or equals its type, and the term is empty or occurs case-insensitively in its name. The list is a permutation of the passing holidays, sorted by date. |
| Holidays.UpcomingHolidays | frontend/pages/Holidays.tsx:47-53 | It is computed from the whole list and holds `min(3, number of upcoming holidays)` entries. All are drawn from the list and dated at or after `now`. They are in date order. No upcoming holiday left out is dated before one shown. |
| Holidays.UpcomingFacts | frontend/pages/Holidays.tsx:49-52 | Keeping upcoming holidays, sorting by date and taking three gives entries that are upcoming, in order, and the earliest. |
| Holidays.UpcomingAreEarliest | frontend/pages/Holidays.tsx:51-52 | The front of a date-sorted list is dated no later than anything behind it. |
| Holidays.HolidayCounts | frontend/pages/Holidays.tsx:55-74 | Total is the length of the unfiltered list. Academic plus National equals Total. |
| Holidays.TypeCountsAddUp | frontend/pages/Holidays.tsx:19 | Every holiday is either academic or national, so the two counts add up to the length. |
| Holidays.FromDraft | frontend/pages/Holidays.tsx:88-102 | A submitted holiday carries the given id and always has a description (possibly empty). |
| Holidays.DraftOf | frontend/pages/Holidays.tsx:115-124 | Submitting an unchanged form gives the holiday back, except that a missing description becomes "". A holiday that had a description comes back exactly. |
| Holidays.EditUnchanged | frontend/pages/Holidays.tsx:88-93 | An unchanged resubmit rewrites the edited holiday with its description filled in and touches no other id. With unique ids and a description present, the list is unchanged. |
| Holidays.HolidayPage.constructor | frontend/pages/Holidays.tsx:24-34 | The page starts on its data with an empty academic form, nothing under edit and the dialog closed. |
| Holidays.IsComplete | frontend/pages/Holidays.tsx:79 | The required-field test: name and date non-empty. The freshly reset form never passes. |
| Holidays.HolidayPage.Submit | frontend/pages/Holidays.tsx:76-113 | A form without a name or a date is rejected with nothing changed. Otherwise the edited holiday is replaced through `ReplaceKey`, or `old + [new holiday with newId]` is stored. The form then resets and the dialog closes. |
| Holidays.HolidayPage.Edit | frontend/pages/Holidays.tsx:115-124 | Editing a holiday records it, copies it into the form and opens the dialog. |
| Holidays.HolidayPage.Delete | frontend/pages/Holidays.tsx:126-132 | The stored list becomes `RemoveKey` of the old list. |
| Holidays.HolidayPage.Cancel | frontend/pages/Holidays.tsx:301-304 | Cancel closes the dialog and resets the form, leaving the list alone. |
| Holidays.Classify | frontend/pages/Holidays.tsx:149-154 | The buckets are exactly: below 0 Past; 0 Today; 1 Tomorrow; 2 to 7 days; 8 to 30 weeks; above 30 months. Days show d. Weeks show n in 2..5 with 7(n-1) < d <= 7n, i.e. ceil(d/7). Months show n >= 2 with 30(n-1) < d <= 30n, i.e. ceil(d/30). |
| Holidays.ParseLabelText | frontend/pages/Holidays.tsx:149-154 | Every label reads back as the bucket and number it was made from. |
| Holidays.RelativeDateDistinguishesBuckets | frontend/pages/Holidays.tsx:143-155 | Two day differences get the same label exactly when they fall in the same bucket with the same number. |
| Holidays.LabelText | frontend/pages/Holidays.tsx:149-154 | The template literals. Each numbered label starts with "In " and ends with its unit (" days", " weeks", " months"). `ParseLabelText` reads every label back to its bucket. |
| Holidays.RelativeDate | frontend/pages/Holidays.tsx:143-155 | `getRelativeDate` from the day difference. Below 0 gives "Past", 0 "Today", 1 "Tomorrow". From 2 on, the label starts with "In " and ends in " days" (2 to 7), " weeks" (8 to 30) or " months" (above 30). |
| Holidays.RelativeDateWords | frontend/pages/Holidays.tsx:149-151 | -1, 0 and 1 days give "Past", "Today" and "Tomorrow". |
| Holidays.RelativeDateDays | frontend/pages/Holidays.tsx:152 | 2 and 7 days give "In 2 days" and "In 7 days": 7 is still counted in days. |
| Holidays.RelativeDateWeeks | frontend/pages/Holidays.tsx:153 | 8 and 30 days give "In 2 weeks" and "In 5 weeks": 30 is still counted in weeks, rounded up. |
| Holidays.RelativeDateMonths | frontend/pages/Holidays.tsx:154 | 31 days gives "In 2 months". |
| HolidayData.AcademicFirstHalf | frontend/data/holidayData.ts:10-44 | Holidays 1 to 5 of the seed list include three academic ones. |
| HolidayData.AcademicSecondHalf | frontend/data/holidayData.ts:45-79 | Holidays 6 to 10 of the seed list include three academic ones. |
| HolidayData.CountsFromHalves | frontend/pages/Holidays.tsx:55-74 | The cards of a list follow from the academic counts of its two parts. |
| HolidayData.SeedCounts | frontend/data/holidayData.ts:9-80 | The seed list's cards read 10 in total, 6 academic and 4 national. |

## Left out

- `useLocalStorage` persistence (`frontend/hooks/useLocalStorage` is not part of this model).
  A page's state starts from the list it is given.
- Clock, ids and date parsing are parameters: `Date.now()` ids are `newId`, `new Date()` is
  `now`, and `new Date(text).getTime()` is `timeOf`.
  - Invalid dates (`NaN` times) are not modelled. Every date text has an integer moment.
- `getRelativeDate`'s millisecond subtraction, floating-point division and `Math.ceil` that
  produce `diffDays` are left out. `Classify` starts from the integer `diffDays`.
- `formatDate` / `toLocaleDateString` formatting is not modelled (locale I/O).
- `localeCompare` is modelled as plain lexicographic order by code point. The browser's
  collation is not visible. JavaScript strings are UTF-16, so an order by code units would
  differ from this one for characters beyond U+FFFF (U+10000 sorts before U+FFFF by code
  units, after it by code points).
- `toLowerCase` is modelled on ASCII letters only. Unicode case mapping is not modelled.
- `parseInt` of the credits input can give `NaN`. Credits are modelled as an `int`.
- Toasts, the dialog's own open/close wiring (`onOpenChange`), the view switcher, theme class
  tables, the course/holiday card markup and all other JSX rendering are left out.
  - `dialogOpen` is kept only as the flag the handlers set.
- `Schedule.SchedulePage.Submit` and `Holidays.HolidayPage.Submit` model validation as a yes/no
  test (`IsComplete`). The source shows one generic error notice, and the model does not carry
  the notice text.
- Lists.Sort: stability is shown for two elements (`SortTwo`), not stated for lists in general.
- Holidays.UpcomingHolidays: states that the panel holds the earliest upcoming holidays, but not
  which of several holidays on the same moment make the cut.
- `frontend/pages/Home.tsx`, `frontend/components/Navigation.tsx`, `frontend/App.tsx` and the
  thin section wrappers hold no list logic and are not modelled.
- Section B and Section C seed lists are not transcribed. Only Section A and the holiday seed
  serve as examples.
