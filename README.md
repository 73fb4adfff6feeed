# Universal Yoga admin app: local store, sync and validation, in Dafny

This project models the data layer of the Universal Yoga admin app, an Android app a studio uses to manage yoga
courses and the dated class instances of each course. The layer sits inside the app's screens:

- **The local SQLite store** (`DatabaseHelper`): the `courses` and `class_instances` tables. Each table is a map
  from its AUTOINCREMENT `_id` to a row, together with its `sqlite_sequence` counter (`Database.LocalStore`).
  Nullable columns are `Option`s.
- **The remote Firestore mirror**: a map from document path to field map (`Remote.Mirror`). It supports single
  `set`/`delete` and an all-or-nothing `WriteBatch`.
- **The course form screen** (`CourseDetailsActivity`, module `CourseDetails`): the form validation, the confirmed
  insert or update, and the one-document sync. `Double.parseDouble` is modelled on exact decimals.
- **The instance screen** (`ClassInstanceActivity`, module `ClassInstances`):
  - the dialog validation and save;
  - add, update and delete, each followed by a sync and a reload of the list;
  - the day-name mapping and `isDateValid`.

  `isDateValid` rests on a strict `dd/MM/yyyy` parse and proleptic Gregorian arithmetic (module `Dates`).
- **The home screen** (`MainActivity`, module `MainScreen`): the course list, course delete, the batch upload of
  the whole store and the database reset.
- **The search screen** (`SearchActivity`, module `Search`): the inner join of instances to courses. The join is
  filtered by SQLite `LIKE '%q%'` on teacher, date and day. `LIKE` is modelled with its wildcards.
- **The date-picker rule** (`DayOfWeekValidator`, module `DayOfWeekValidators`): the UTC weekday test on epoch
  milliseconds, and its parcel round trip.
- **The three records** `Course`, `ClassInstance` and `SearchResult` (module `Models`). These are immutable
  datatypes; each getter is the destructor of the same name.

The screens are classes that hold references to one `LocalStore` and one `Mirror`. Each method states the whole
new state of both. The outside world enters as parameters:

- Connectivity is the `network: bool` argument.
- The remote outcome of a batch commit is `accepted: bool`.
- The confirmation screen's answer is `requestCode`/`resultCode`.
- A cursor's row order is left open: every loop picks an arbitrary unvisited id, so each listing is proved for every
  order.

Where the app's own descriptions and the code disagree, the model follows the code:

- **Deleting a course does not cascade.** `MainActivity.deleteCourseFromDb` deletes only the `courses` row, and the
  foreign key has no `ON DELETE` action. The confirmation dialog says that the course's instances go too
  (`MainActivity.java:168`), but they stay in the table as orphans (`Database.DeleteCourseOrphans`).
- **Orphans are invisible.** They are never uploaded (`MainScreen.OrphansNotUploaded`) and never found by a search
  (`Search.OrphansNeverFound`).
- **Instance dates are barely checked on save.** The weekday and "not before today" rules exist only in the date
  picker. The save path checks only that the date text is not blank, so text that is not a date is stored
  (`ClassInstances.DialogAcceptsUnparsableDate`).
- **`isDateValid` has no caller in the app.** It is modelled anyway, and proved to agree with the picker's
  `DayOfWeekValidator` on every parsed date (`ClassInstances.IsDateValidMatchesPicker`).
- **Search matching is `LIKE`, not plain substring search.** The query is bound into `LIKE` without an `ESCAPE`
  clause, so `%` and `_` typed by the user are wildcards. The filter is a case-insensitive substring test only for
  queries without those characters (`Search.LikeSearchPatternIsContains`), and the query `%` matches every row
  (`Search.PercentQueryMatchesAll`).
- **Resetting keeps the id counters.** `resetDatabase` uses `DELETE`, which keeps the AUTOINCREMENT sequences, so ids
  keep growing after a reset. `onUpgrade` drops the tables, which resets the sequences.

## Model

| member | source | states |
|---|---|---|
| Database.LocalStore.constructor | app/src/main/java/com/example/universalyoga/admin/data/database/DatabaseHelper.java:57-61 | onCreate leaves both tables empty with both sequences at 0 |
| Database.LocalStore.OnUpgrade | app/src/main/java/com/example/universalyoga/admin/data/database/DatabaseHelper.java:64-70 | dropping and recreating empties both tables and resets both sequences, whatever they held |
| Database.LocalStore.InsertCourse | app/src/main/java/com/example/universalyoga/admin/data/database/DatabaseHelper.java:33-41 | the new id is one past the sequence, is fresh and greater than every existing id; only that row is added; -1 and no change once the sequence is exhausted |
| Database.LocalStore.UpdateCourse | app/src/main/java/com/example/universalyoga/admin/activities/CourseDetailsActivity.java:219-222 | returns 1 and replaces only row `id` when it exists, otherwise 0 and no change |
| Database.LocalStore.DeleteCourse | app/src/main/java/com/example/universalyoga/admin/MainActivity.java:202-206 | removes only row `id` of `courses`, reports 1/0, and leaves `class_instances` untouched |
| Database.LocalStore.DeleteAllCourses | app/src/main/java/com/example/universalyoga/admin/MainActivity.java:324-326 | empties `courses`, returns the number of rows removed, keeps the sequence |
| Database.LocalStore.InsertInstance | app/src/main/java/com/example/universalyoga/admin/data/database/DatabaseHelper.java:44-50 | as InsertCourse, on `class_instances` |
| Database.LocalStore.UpdateInstance | app/src/main/java/com/example/universalyoga/admin/activities/ClassInstanceActivity.java:271-281 | rewrites date, teacher and comments of row `id` only; its `course_id` is kept |
| Database.LocalStore.DeleteInstance | app/src/main/java/com/example/universalyoga/admin/activities/ClassInstanceActivity.java:294-298 | removes only row `id`, reports 1/0 |
| Database.LocalStore.DeleteAllInstances | app/src/main/java/com/example/universalyoga/admin/MainActivity.java:327-327 | empties `class_instances`, keeps the sequence |
| Database.DeleteCourseOrphans | app/src/main/java/com/example/universalyoga/admin/data/database/DatabaseHelper.java:50-50 | deleting a course orphans exactly the instances that pointed at it, and no others |
| MainScreen.CourseOf | app/src/main/java/com/example/universalyoga/admin/models/Course.java:10-21 | the Course loadCourses builds from a row carries that row's id, day, time and type, in the constructor's order |
| ClassInstances.InstanceOf | app/src/main/java/com/example/universalyoga/admin/models/ClassInstance.java:8-18 | the ClassInstance loadInstances builds from a row carries that row's id, date, teacher and comments |
| Search.ResultFor | app/src/main/java/com/example/universalyoga/admin/models/SearchResult.java:13-36 | the result performSearch builds from a joined pair takes courseId, type and day from the course and date and teacher from the instance, day last |
| Remote.CourseDocument | app/src/main/java/com/example/universalyoga/admin/activities/CourseDetailsActivity.java:245-252 | a course document has exactly the seven keys dayOfWeek, time, type, capacity, duration, price, description |
| Remote.InstanceDocument | app/src/main/java/com/example/universalyoga/admin/activities/ClassInstanceActivity.java:318-321 | an instance document has exactly the keys date, teacher, comments |
| Remote.CourseDocumentRoundTrip | app/src/main/java/com/example/universalyoga/admin/MainActivity.java:256-274 | reading a course document back gives the row it was built from, null description included |
| Remote.InstanceDocumentRoundTrip | app/src/main/java/com/example/universalyoga/admin/MainActivity.java:284-295 | reading an instance document back under its course gives the row it was built from |
| Remote.Pending | app/src/main/java/com/example/universalyoga/admin/MainActivity.java:244-298 | a batch writes exactly the paths of its `set`s |
| Remote.PendingSnoc | app/src/main/java/com/example/universalyoga/admin/MainActivity.java:274-274 | appending a `set` overrides that one path of what the batch leaves |
| Remote.ApplyWritesIsOverlay | app/src/main/java/com/example/universalyoga/admin/MainActivity.java:301-301 | applying a batch's writes in order equals overlaying its last write per path |
| Remote.Mirror.SetDocument | app/src/main/java/com/example/universalyoga/admin/activities/CourseDetailsActivity.java:254-255 | `set` replaces the document wholesale and touches no other path |
| Remote.Mirror.DeleteDocument | app/src/main/java/com/example/universalyoga/admin/MainActivity.java:226-227 | `delete` removes that one path, never documents below it |
| Remote.Mirror.Commit | app/src/main/java/com/example/universalyoga/admin/MainActivity.java:301-305 | a commit applies every write of the batch or none of them |
| Text.TrimIsCore | app/src/main/java/com/example/universalyoga/admin/activities/CourseDetailsActivity.java:305-305 | String.trim keeps a contiguous piece of the text and cuts only chars up to U+0020 at both ends |
| Text.TrimEmptyIff | app/src/main/java/com/example/universalyoga/admin/activities/CourseDetailsActivity.java:305-306 | a trimmed text is empty exactly when every char is at most U+0020 |
| Text.TrimIdempotent | app/src/main/java/com/example/universalyoga/admin/activities/ClassInstanceActivity.java:201-226 | trimming an already trimmed text changes nothing |
| CourseDetails.ParseDoubleOfTrimmed | app/src/main/java/com/example/universalyoga/admin/activities/CourseDetailsActivity.java:208-208 | parsing the raw price text gives the same value as parsing the trimmed text that was validated |
| CourseDetails.ValidateInputIff | app/src/main/java/com/example/universalyoga/admin/activities/CourseDetailsActivity.java:274-326 | validateInput holds exactly when no spinner is on position 0 and the price parses to a value in (0, 1000] |
| CourseDetails.CourseErrorsComplete | app/src/main/java/com/example/universalyoga/admin/activities/CourseDetailsActivity.java:278-302 | every check runs: each spinner error is reported exactly when that spinner is on its placeholder; at most one price error |
| CourseDetails.PriceAtMaximumAccepted | app/src/main/java/com/example/universalyoga/admin/activities/CourseDetailsActivity.java:315-318 | "1000" is accepted |
| CourseDetails.PriceOneCentAccepted | app/src/main/java/com/example/universalyoga/admin/activities/CourseDetailsActivity.java:310-318 | "0.01" is accepted |
| CourseDetails.PriceZeroRejected | app/src/main/java/com/example/universalyoga/admin/activities/CourseDetailsActivity.java:312-314 | "0" is rejected as not positive |
| CourseDetails.PriceNegativeRejected | app/src/main/java/com/example/universalyoga/admin/activities/CourseDetailsActivity.java:312-314 | "-5" is rejected as not positive |
| CourseDetails.PriceAboveMaximumRejected | app/src/main/java/com/example/universalyoga/admin/activities/CourseDetailsActivity.java:315-317 | "1000.01" is rejected as too high |
| CourseDetails.PriceBlankRequired | app/src/main/java/com/example/universalyoga/admin/activities/CourseDetailsActivity.java:305-308 | a blank price is reported as required |
| CourseDetails.PriceWordInvalid | app/src/main/java/com/example/universalyoga/admin/activities/CourseDetailsActivity.java:319-322 | text that does not parse is reported as invalid |
| CourseDetails.RowOf | app/src/main/java/com/example/universalyoga/admin/activities/CourseDetailsActivity.java:201-208 | the saved row's price is the parsed price, within (0, 1000]; its description is the trimmed text, never null |
| CourseDetails.CourseDetailsScreen.OnActivityResult | app/src/main/java/com/example/universalyoga/admin/activities/CourseDetailsActivity.java:187-193 | nothing local or remote changes unless the confirmation request returns RESULT_OK; then the save happens, with the same effect on rows, id sequences and remote documents as SaveCourseToDatabase |
| CourseDetails.CourseDetailsScreen.SaveCourseToDatabase | app/src/main/java/com/example/universalyoga/admin/activities/CourseDetailsActivity.java:199-231 | insert in add mode, update of `courseId` only in edit mode; the course id sequence advances only on a successful insert; instances and their sequence untouched; the remote document at the written id is replaced only after a successful local write and with a network |
| CourseDetails.CourseDetailsScreen.SyncSingleCourseToFirestore | app/src/main/java/com/example/universalyoga/admin/activities/CourseDetailsActivity.java:238-258 | without a network no remote change; otherwise `courses/{id}` becomes exactly the row's seven fields |
| Dates.EpochDay | app/src/main/java/com/example/universalyoga/admin/activities/DayOfWeekValidator.java:43-44 | the UTC day of an instant is the floor of ms / 86400000 |
| Dates.WeekdayOfEpochDaySteps | app/src/main/java/com/example/universalyoga/admin/activities/DayOfWeekValidator.java:43-46 | day 0 is a Thursday (5) and the weekday steps 1..7 cyclically |
| Dates.EpochDayOfMidnight | app/src/main/java/com/example/universalyoga/admin/activities/DayOfWeekValidator.java:43-46 | every instant of epoch day k lies in day k and has k's weekday |
| Dates.DaysBeforeNextYear | app/src/main/java/com/example/universalyoga/admin/activities/ClassInstanceActivity.java:437-441 | a Gregorian year has 366 days when it is a leap year and 365 otherwise |
| Dates.NextDateIsNextDay | app/src/main/java/com/example/universalyoga/admin/activities/ClassInstanceActivity.java:437-441 | the calendar day after a valid date is valid and has the next epoch day |
| Dates.EpochStartsOn19700101 | app/src/main/java/com/example/universalyoga/admin/activities/DayOfWeekValidator.java:43-46 | 1970-01-01 is epoch day 0, a Thursday |
| Dates.ParseDate | app/src/main/java/com/example/universalyoga/admin/activities/ClassInstanceActivity.java:437-439 | a non-lenient parse yields only real calendar dates a GregorianCalendar can hold (year 1 to 292278994) |
| Dates.ParseDateFields | app/src/main/java/com/example/universalyoga/admin/activities/ClassInstanceActivity.java:437-439 | three digit runs, each after any spaces and tabs and separated by slashes, are read as day, month and year, and the result is that date exactly when the calendar can hold it |
| Dates.SkipBlanksOf | app/src/main/java/com/example/universalyoga/admin/activities/ClassInstanceActivity.java:437-439 | the blanks skipped before a numeric field are exactly its leading spaces and tabs |
| Dates.ParseSkipsBlanks | app/src/main/java/com/example/universalyoga/admin/activities/ClassInstanceActivity.java:437-439 | " 05/ 03/\t2024" parses to 5 March 2024 |
| Dates.ParseRejectsYearBeyondCalendar | app/src/main/java/com/example/universalyoga/admin/activities/ClassInstanceActivity.java:438-438 | with leniency off, a year past 292278994 is refused |
| Dates.ParseFormattedDate | app/src/main/java/com/example/universalyoga/admin/activities/ClassInstanceActivity.java:182-185 | formatting a date the calendar can hold as dd/MM/yyyy and parsing the text gives back that date |
| Dates.StrictParseRejectsFebruary31 | app/src/main/java/com/example/universalyoga/admin/activities/ClassInstanceActivity.java:438-438 | with leniency off, 31/02/2024 is refused rather than rolled over |
| Dates.ParseIgnoresTrailingText | app/src/main/java/com/example/universalyoga/admin/activities/ClassInstanceActivity.java:439-439 | text after the year is ignored by the parse |
| DayOfWeekValidators.DayOfWeekValidator.WriteToParcel | app/src/main/java/com/example/universalyoga/admin/activities/DayOfWeekValidator.java:58-61 | the validator rebuilt from the parcel it writes is the same validator |
| DayOfWeekValidators.ParcelRoundTrip | app/src/main/java/com/example/universalyoga/admin/activities/DayOfWeekValidator.java:63-67 | a validator rebuilt from its parcel accepts exactly the same instants |
| DayOfWeekValidators.SameDaySameAnswer | app/src/main/java/com/example/universalyoga/admin/activities/DayOfWeekValidator.java:41-47 | two instants of the same UTC day get the same answer |
| DayOfWeekValidators.WeeklyPeriodic | app/src/main/java/com/example/universalyoga/admin/activities/DayOfWeekValidator.java:41-47 | the answer repeats every 7 * 86400000 ms |
| DayOfWeekValidators.OutOfRangeAdmitsNothing | app/src/main/java/com/example/universalyoga/admin/activities/DayOfWeekValidator.java:46-46 | a required day outside 1..7, such as -1, admits no instant |
| DayOfWeekValidators.InRangeAdmitsOneDayPerWeek | app/src/main/java/com/example/universalyoga/admin/activities/DayOfWeekValidator.java:41-47 | a required day in 1..7 admits the midnight of exactly one day in every week |
| ClassInstances.LowerDayName | app/src/main/java/com/example/universalyoga/admin/activities/ClassInstanceActivity.java:409-416 | the switch labels are the lower-cased English day names |
| ClassInstances.DayOfWeekFromString | app/src/main/java/com/example/universalyoga/admin/activities/ClassInstanceActivity.java:408-419 | the result is -1 or a Calendar day constant 1..7 |
| ClassInstances.DayOfWeekFromStringIff | app/src/main/java/com/example/universalyoga/admin/activities/ClassInstanceActivity.java:408-419 | a name maps to day w exactly when it equals w's English name ignoring case |
| ClassInstances.DayOfWeekFromStringUnknown | app/src/main/java/com/example/universalyoga/admin/activities/ClassInstanceActivity.java:417-417 | a name maps to -1 exactly when it matches no day name |
| ClassInstances.DayOfWeekFromName | app/src/main/java/com/example/universalyoga/admin/activities/ClassInstanceActivity.java:409-416 | every English day name maps back to its own day |
| ClassInstances.IsDateValidMatchesPicker | app/src/main/java/com/example/universalyoga/admin/activities/ClassInstanceActivity.java:435-445 | on a parsed date, isDateValid agrees with the DayOfWeekValidator built from the course's day at that date's UTC midnight |
| ClassInstances.PickedDatePassesIsDateValid | app/src/main/java/com/example/universalyoga/admin/activities/ClassInstanceActivity.java:168-186 | a date the picker's weekday rule admits, formatted as dd/MM/yyyy in UTC, passes isDateValid |
| ClassInstances.ValidateInstanceInputIff | app/src/main/java/com/example/universalyoga/admin/activities/ClassInstanceActivity.java:224-245 | the dialog accepts exactly when the date text has a char above U+0020 and a teacher is chosen |
| ClassInstances.DialogAcceptsUnparsableDate | app/src/main/java/com/example/universalyoga/admin/activities/ClassInstanceActivity.java:233-236 | the save check accepts a date text that does not parse |
| ClassInstances.InstanceScreen.LoadInstances | app/src/main/java/com/example/universalyoga/admin/activities/ClassInstanceActivity.java:352-377 | the list becomes exactly the rows of this course, each once and as stored; the old contents are discarded |
| ClassInstances.InstanceScreen.OnSaveClicked | app/src/main/java/com/example/universalyoga/admin/activities/ClassInstanceActivity.java:200-213 | nothing changes and the dialog stays unless the input validates; otherwise add or update with the trimmed texts, then sync, then reload; the instance id sequence advances only on a successful add and the course sequence never |
| ClassInstances.InstanceScreen.AddInstanceToDb | app/src/main/java/com/example/universalyoga/admin/activities/ClassInstanceActivity.java:250-266 | inserts one row of this course; only on success syncs it under the new id and reloads the list |
| ClassInstances.InstanceScreen.UpdateInstanceInDb | app/src/main/java/com/example/universalyoga/admin/activities/ClassInstanceActivity.java:271-289 | changes date, teacher and comments of that row only; syncs and reloads only when a row changed |
| ClassInstances.InstanceScreen.DeleteInstanceFromDb | app/src/main/java/com/example/universalyoga/admin/activities/ClassInstanceActivity.java:294-306 | removes that row only; deletes the remote document and reloads only when a row was removed |
| ClassInstances.InstanceScreen.SyncInstanceToFirestore | app/src/main/java/com/example/universalyoga/admin/activities/ClassInstanceActivity.java:311-329 | without a network no remote change; otherwise `courses/{courseId}/instances/{id}` becomes exactly {date, teacher, comments} |
| ClassInstances.InstanceScreen.DeleteInstanceFromFirestore | app/src/main/java/com/example/universalyoga/admin/activities/ClassInstanceActivity.java:334-346 | without a network no remote change; otherwise only that instance document goes |
| MainScreen.ListsCoursesSize | app/src/main/java/com/example/universalyoga/admin/MainActivity.java:134-159 | a complete course listing has exactly one entry per row |
| MainScreen.UploadPaths | app/src/main/java/com/example/universalyoga/admin/MainActivity.java:255-298 | the upload writes every course path and, under it, the path of every instance of that course, and nothing else |
| MainScreen.UploadCarriesRows | app/src/main/java/com/example/universalyoga/admin/MainActivity.java:255-298 | every course row and every non-orphan instance row is uploaded and reads back unchanged |
| MainScreen.OrphansNotUploaded | app/src/main/java/com/example/universalyoga/admin/MainActivity.java:276-281 | an instance whose course row is gone is uploaded under no path |
| MainScreen.AppendInstanceWrites | app/src/main/java/com/example/universalyoga/admin/MainActivity.java:276-297 | the inner loop adds one `set` per instance of the course and leaves every other pending path as it was |
| MainScreen.UploadStep | app/src/main/java/com/example/universalyoga/admin/MainActivity.java:255-298 | one pass of the outer loop extends what is uploaded by one course and its instances |
| MainScreen.UploadComplete | app/src/main/java/com/example/universalyoga/admin/MainActivity.java:255-299 | once every course is processed the batch leaves exactly the upload's documents |
| MainScreen.BuildUploadBatch | app/src/main/java/com/example/universalyoga/admin/MainActivity.java:244-299 | in any cursor order, the batch leaves exactly one document per course and per non-orphan instance |
| MainScreen.HomeScreen.LoadCourses | app/src/main/java/com/example/universalyoga/admin/MainActivity.java:134-159 | the list becomes exactly the course rows, each once and as stored |
| MainScreen.HomeScreen.DeleteCourseFromDb | app/src/main/java/com/example/universalyoga/admin/MainActivity.java:202-214 | removes only that course row and no instance; deletes only `courses/{id}` remotely, and only after a local delete |
| MainScreen.HomeScreen.DeleteCourseFromFirestore | app/src/main/java/com/example/universalyoga/admin/MainActivity.java:219-230 | without a network no remote change; otherwise only `courses/{id}` goes |
| MainScreen.HomeScreen.UploadData | app/src/main/java/com/example/universalyoga/admin/MainActivity.java:235-306 | nothing is committed without a network or without courses; otherwise one batch of the whole store, applied entirely or not at all |
| MainScreen.HomeScreen.ResetDatabase | app/src/main/java/com/example/universalyoga/admin/MainActivity.java:324-330 | both tables end empty, the sequences are kept, and the reloaded list is empty |
| Search.SearchPattern | app/src/main/java/com/example/universalyoga/admin/activities/SearchActivity.java:108-108 | the bound pattern is exactly the query with one `%` before and one after |
| Search.LikeTrailingPercent | app/src/main/java/com/example/universalyoga/admin/activities/SearchActivity.java:108-108 | a trailing `%` matches the rest of any text |
| Search.LikePrefix | app/src/main/java/com/example/universalyoga/admin/activities/SearchActivity.java:115-117 | a wildcard-free query followed by `%` matches exactly the texts that start with it, ignoring ASCII case |
| Search.LikeSearchPatternIsContains | app/src/main/java/com/example/universalyoga/admin/activities/SearchActivity.java:108-119 | for a wildcard-free query, LIKE '%q%' holds exactly when q is a case-insensitive substring |
| Search.PercentQueryMatchesAll | app/src/main/java/com/example/universalyoga/admin/activities/SearchActivity.java:108-108 | typing `%` alone matches every text |
| Search.OrphansNeverFound | app/src/main/java/com/example/universalyoga/admin/activities/SearchActivity.java:113-114 | the inner join never yields an instance whose course row is gone |
| Search.SearchScreen.PerformSearch | app/src/main/java/com/example/universalyoga/admin/activities/SearchActivity.java:102-140 | an empty query gives no results; otherwise exactly one result per joined pair matching on teacher, date or day, built from that pair; the store is only read |

## Left out

- User interface: layouts, toolbars, spinner adapters, `setSpinnerToValue`, toasts, dialogs, navigation intents,
  `checkScrollAndShowFab`, the three RecyclerView adapters and `ConfirmCourseActivity` (display only). A spinner is
  a position and the item there; the option lists are resources that are not part of this model.
- Firestore listeners and asynchrony: a single `set`/`delete` with a network is applied at once. Its possible remote
  rejection, the completion order and races between overlapping writes are not modelled. A batch commit's outcome is
  the `accepted` parameter.
- `isNetworkAvailable` (ConnectivityManager) is the `network` parameter.
- SQLite failures other than AUTOINCREMENT exhaustion (disk full, I/O errors, constraint violations from outside the
  app) are not modelled; an insert fails only once the sequence has reached 2^63 - 1.
- `Integer.parseInt` on the capacity and duration items: those spinners' items are modelled as integers.
- CourseDetails.ParseDouble: accepts only an optional sign and ASCII digits with an optional fraction, as an exact
  real. Java's exponents, hexadecimal floats, `NaN`, `Infinity`, `f`/`d` suffixes and binary rounding are not
  modelled. `NaN` would pass both price comparisons in the app.
- Dates.ParseDate: SimpleDateFormat's handling of signs, non-ASCII digits, field values beyond `int`, the Julian
  calendar before 1582 and time zones other than UTC is not modelled. Spaces and tabs before each numeric field are
  skipped, as SimpleDateFormat does; other whitespace is not.
- ClassInstances.PickedDatePassesIsDateValid: the date is formatted in UTC. The picker's positive-button handler
  formats the chosen UTC-midnight instant in the device's default zone, which west of UTC writes the day before;
  that handler is not modelled.
- The "not before today" picker rule (`DateValidatorPointForward.now()`) depends on the clock and is not modelled.
- Text.Lower and Search.Like: case folding is ASCII only. Non-ASCII case rules, locale-dependent `toLowerCase`
  (such as the Turkish dotless i) and SQLite's byte-wise comparison of non-ASCII text are not modelled.
- The parcel's binary layout: a parcel carries the single int written into it; `describeContents` and `newArray`
  are not modelled.
- The form is assumed unchanged between validation and the confirmation result
  (CourseDetails.CourseDetailsScreen.OnActivityResult requires `ValidateInput(form)`): the activity is paused while
  the confirmation screen is shown.
