# Lapino core in Dafny

Lapino is a small React Native app for a rabbit breeder. It tracks:

- cages (*clapets*) and does (*femelles*);
- vaccines and the vaccinations given to each doe;
- the feed stock;
- each doe's reproduction cycle.

This project models the sequential logic at the core of the app:

- **Date helpers** (`utils/dateUtils.js`). Dates are proleptic-Gregorian civil dates `(year, month, day)`, in bijection with an integer day number. `addDays` moves the day number. The `YYYY-MM-DD` text orders like the dates it encodes. The due-date status, colour and text follow from the whole-day difference.
- **The SQLite store** (`database/db.js`). Each table is a map from id to row, plus the last id issued (AUTOINCREMENT). The declared constraints are modelled: NOT NULL, the UNIQUE cage number, the `statut` CHECK, `ON DELETE CASCADE` and `ON DELETE SET NULL`. Every write is a function from store to store and result. Every read query is a set of rows, and `ORDER BY` puts that set in order.
- **The dashboard's cycle actions** (`screens/DashboardScreen.js`). The screen state is a value. A handler maps it to the next state plus the list of persistence calls it makes, which are opaque events.
- **Small helpers and the form save guards.** These are the progress bar and days-remaining helpers, the daily-reminder time parser, and the save paths of the vaccine, feed, cage and doe screens.

JavaScript semantics are written out where the code relies on them:

- `parseInt` reads a prefix, skips leading whitespace and gives NaN when there are no digits.
- `String(n)` and `padStart` are modelled.
- `trim` and `split` are modelled.
- `!!x` treats `''`, `0` and `null` as false.
- `new Date(null)` is the epoch.
- Every comparison with NaN is false.
- React state updates take effect only at the next render.

"Today" and "now" are parameters.

Files:

| file | module | what it holds |
|---|---|---|
| base.dfy | `Base` | `Option` (a present or `null` value) and `Result` |
| strings.dfy | `Strings` | whitespace and `trim`, `split`/`join`, decimal text, `padStart`, the BINARY string order |
| numbers.dfy | `Numbers` | JavaScript numbers that may be NaN, `parseInt`, `Math.ceil` of a millisecond span in days |
| calendar.dfy | `Calendar` | civil dates, day numbers, `AddDays` |
| date_utils.dfy | `DateUtils` | the helpers of `utils/dateUtils.js` |
| store.dfy | `Store` | the schema and the writes of `database/db.js` |
| sorting.dfy | `Sorting` | `ORDER BY` on a text key |
| queries.dfy | `Queries` | `getAllClapets`, `getStatistics`, `getVaccinsEnRetard`, `getVaccinsBientot` |
| dashboard.dfy | `Dashboard` | `handleAction` and the cycle handlers, the low-feed filter |
| status_card.dfy | `StatusCard` | `calculateProgress`, `getDaysRemaining` |
| reminder.dfy | `Reminder` | `scheduleDailyReminder` |
| vaccins_form.dfy | `VaccinsForm` | the vaccine dialog |
| aliments_form.dfy | `AlimentsForm` | the feed list's thresholds and the feed dialog |
| clapets_form.dfy | `ClapetsForm` | the cage dialog and the occupied badge |
| femelle_form.dfy | `FemelleForm` | the doe add/edit form |

## Model

| member | source | states |
|---|---|---|
| Calendar.AddDays | utils/dateUtils.js:4-8 | Shifting a date by `n` days gives the date whose day number is `n` more. This holds across month ends, year ends and leap days, and for negative `n`. |
| Calendar.AddDaysCompose | utils/dateUtils.js:4-8 | Shifting by `a` and then by `b` is shifting by `a + b`. |
| Calendar.AddDaysInverse | utils/dateUtils.js:4-8 | Shifting by 0 is the identity. Shifting by `n` and then by `-n` gives the date back. |
| Calendar.AddDaysOrder | utils/dateUtils.js:4-8 | The shifted date is later exactly when `n > 0`. |
| Calendar.DayNumberOrder | utils/dateUtils.js:4-8 | The calendar order of civil dates is the order of their day numbers. |
| Calendar.DayNumberInjective | utils/dateUtils.js:4-8 | Two civil dates with the same day number are the same date. |
| Calendar.FromDayNumber | utils/dateUtils.js:4-8 | Every integer is the day number of some civil date. |
| Calendar.FromDayNumberRoundTrip | utils/dateUtils.js:4-8 | Turning a date into its day number and back gives the date. |
| Calendar.YearLength | utils/dateUtils.js:4-8 | A year has 366 days when it is a leap year and 365 otherwise. |
| Store.YearlyBoosterExample | database/db.js:307-308 | A 365-day interval from 2024-01-10 ends on 2025-01-09, because 2024 is a leap year. |
| DateUtils.ShiftDays | utils/dateUtils.js:4-8 | `addDays` gives an invalid date exactly when its argument is invalid. Otherwise the day number moves by exactly `n`. |
| DateUtils.FormatDateIso | utils/dateUtils.js:11-20 | `null` exactly for a falsy or unparseable argument. Otherwise the text of a four-digit year is 10 characters long and parses back to the same date. |
| DateUtils.IsoRoundTrip | utils/dateUtils.js:11-20 | Parsing the `YYYY-MM-DD` text of a date gives back that date. |
| DateUtils.IsoLayout | utils/dateUtils.js:16-19 | For a four-digit year the text is 4 digits, `-`, 2 digits, `-`, 2 digits. |
| DateUtils.IsoInjective | utils/dateUtils.js:11-20 | Distinct dates have distinct ISO texts. |
| DateUtils.IsoOrder | database/db.js:382 | The ISO texts of two dates compare with `<` exactly as the dates do. |
| DateUtils.IsoOrderEq | database/db.js:403 | The ISO texts compare with `<=` exactly as the dates do. |
| DateUtils.NewDateOfIso | utils/dateUtils.js:11-20 | `new Date(formatDateISO(d))` is `d` again, and the text is truthy. |
| DateUtils.FormatDateFr | utils/dateUtils.js:23-32 | The result is `'-'` exactly for a falsy or unparseable argument. Otherwise it is the French text of the date the argument names. |
| DateUtils.FrLayout | utils/dateUtils.js:28-31 | For a four-digit year, the French text is the two-digit day, the two-digit month and the four-digit year, joined by `/`. |
| DateUtils.FrReadBack | utils/dateUtils.js:28-31 | The French text is ten characters with `/` at positions 2 and 5. Its three digit groups read back as the day, the month and the year. |
| DateUtils.FrInjective | utils/dateUtils.js:28-31 | Two dates with four-digit years and the same French text are the same date. |
| DateUtils.FrOfIso | utils/dateUtils.js:23-32 | `formatDateFR(formatDateISO(d))` is `DD/MM/YYYY` of the same day, month and year. |
| DateUtils.DaysUntil | utils/dateUtils.js:35-47 | `null` exactly for a falsy argument. NaN exactly for an unparseable one. Otherwise the difference of day numbers from today. |
| DateUtils.DaysUntilIso | utils/dateUtils.js:35-47 | The day count to a stored `YYYY-MM-DD` date is the difference between its day number and today's. |
| DateUtils.DaysUntilShift | utils/dateUtils.js:35-47 | `daysUntil(formatDateISO(addDays(today, n)))` is `n`. |
| DateUtils.VaccinationStatus | utils/dateUtils.js:50-59 | `'none'` exactly for a falsy argument. `'overdue'` exactly when days < 0. `'soon'` exactly when 0 <= days <= 7. `'ok'` when days > 7, and also, as written, for an unparseable date. |
| DateUtils.VaccinationStatusCorrected | utils/dateUtils.js:50-59 | `'none'` for a falsy or unparseable argument. On every valid date it agrees with the code as written. |
| DateUtils.UnparseableDueDateIsOk | utils/dateUtils.js:53-58 | The text "pas une date" is classified `'ok'` by the code as written and `'none'` by the corrected classification. |
| DateUtils.StatusBoundaries | utils/dateUtils.js:56-58 | A due date 1 day ago is overdue. Due in 0 or 7 days is soon. Due in 8 days is ok. |
| DateUtils.StatusColor | utils/dateUtils.js:62-73 | Overdue, soon and ok each get their own colour, and everything else gets grey `#9E9E9E`, both ways round. |
| DateUtils.StatusText | utils/dateUtils.js:76-85 | `En retard (nj)` with n the absolute value for d < 0, `Aujourd'hui` for 0, `Demain` for 1 and `Dans d jours` up to 7. The empty text otherwise, and for a missing or unparseable date. |
| DateUtils.StatusTextMatchesStatus | utils/dateUtils.js:76-85 | The status text is non-empty exactly when the status is overdue or soon. |
| Store.InsertRow | database/db.js:13 | AUTOINCREMENT issues an id that no row holds and records it as the last id. |
| Store.AddClapet | database/db.js:116-127 | A null number or one already in use is rejected with the matching constraint, and nothing is written. Otherwise exactly one new cage is added. The invariant is kept. |
| Store.DeleteClapet | database/db.js:129-140 | The cage goes. Every doe keeps her row and her other fields, and a doe that was in that cage gets a null `clapet_id`. |
| Store.GetFemelleById | database/db.js:166-180 | Gives the row exactly when the id exists. |
| Store.FemelleRow | database/db.js:28-31 | NOT NULL on `numero` and the `statut` CHECK are the only reasons a doe row is refused. |
| Store.AddFemelle | database/db.js:182-193 | Rejects a null number or a status outside {vivante, vendue, morte}, writing nothing. A left-out status is `'vivante'`. Otherwise exactly one doe is added. |
| Store.UpdateFemelle | database/db.js:195-206 | Rewrites exactly that doe's row. A missing id changes nothing. A constraint failure changes nothing. |
| Store.DeleteFemelle | database/db.js:208-219 | The doe and, by cascade, exactly her vaccinations go. Every other row is unchanged. |
| Store.VaccinRow | database/db.js:44-48 | A vaccine row is refused only for a null name or duration. |
| Store.AddVaccin | database/db.js:236-247 | Adds exactly one vaccine, or rejects a null field and writes nothing. |
| Store.UpdateVaccin | database/db.js:249-260 | Rewrites only that vaccine's row. Every vaccination, including its `date_prochain`, is unchanged. |
| Store.DeleteVaccin | database/db.js:262-273 | The vaccine and, by cascade, exactly the vaccinations with it go. Every other row is unchanged. |
| Store.AddVaccination | database/db.js:294-322 | An unknown vaccine is rejected with "Vaccin non trouvé" and nothing is inserted. An unparseable date gives a null `date_prochain`, which NOT NULL rejects. Otherwise one row is inserted whose due date is the given date plus the vaccine's current duration. |
| Store.AddVaccinationDueDate | database/db.js:307-313 | For an ISO vaccination date, the stored `date_prochain` parses to the date plus the duration, and `daysUntil` from the vaccination day is the duration. |
| Sorting.Insert | database/db.js:107 | Inserting into a sorted list keeps it sorted and adds exactly the new row. |
| Sorting.SortRows | database/db.js:107 | `ORDER BY` returns each row of the result set once, in ascending key order. |
| Queries.CageJoinRows | database/db.js:104-107 | A row of the cage LEFT JOIN is either a cage with a living doe housed in it, or a cage with none plus NULLs. |
| Queries.GetAllClapets | database/db.js:100-114 | The cage list is sorted by number and holds exactly the join rows, once each, with the occupant's number. |
| Queries.GetStatistics | database/db.js:339-371 | `totalFemelles` counts living does only. `clapetsRemplis` and `clapetsVides` count the matched and unmatched join rows, and together make the size of the join. |
| Queries.SplitJoin | database/db.js:354-364 | The join's matched rows are the housed does, and its NULL rows are the empty cages. |
| Queries.ImageCard | database/db.js:354-364 | A one-to-one map from one set onto another preserves the count, which lets the join rows be counted by does and by cages. |
| Queries.StatisticsCoverCages | database/db.js:354-364 | When each cage holds at most one living doe, filled plus empty equals the number of cages. |
| Queries.GetVaccinsEnRetard | database/db.js:373-390 | Exactly the vaccinations of living does with `date_prochain < today`. They are sorted by due date, each once. |
| Queries.GetVaccinsBientot | database/db.js:392-411 | Exactly the vaccinations of living does with today <= `date_prochain` <= today + 7. They are sorted by due date, each once. |
| Queries.AlertRowsMember | database/db.js:378-383 | A row is an alert exactly when the vaccination, its living doe and its vaccine join and the date filter keeps it. |
| Queries.AlertsDisjoint | database/db.js:373-411 | No vaccination is in both the overdue list and the soon list. |
| Queries.OverdueMatchesStatus | database/db.js:382 | For an ISO due date, the overdue list holds a vaccination exactly when its status is `'overdue'`. |
| Queries.SoonMatchesStatus | database/db.js:403 | For an ISO due date, the soon list holds a vaccination exactly when its status is `'soon'`. |
| Dashboard.Initial | screens/DashboardScreen.js:41-48 | No doe is selected, all dialogs are closed, the date is today, live-born is `''` and stillborn is `'0'`. |
| Dashboard.HandleStartCycle | screens/DashboardScreen.js:108-113 | `addCycle(doe, date)` and a reload happen exactly when a doe is selected and the date is non-empty. Otherwise nothing happens. |
| Dashboard.StillbornCount | screens/DashboardScreen.js:117 | An empty stillborn field counts as 0. Anything else goes through `parseInt`. |
| Dashboard.HandleConfirmBirth | screens/DashboardScreen.js:115-120 | `confirmBirth` happens exactly when a doe with a cycle is selected and the live-born field is non-empty, and it uses her cycle. Otherwise nothing happens. |
| Dashboard.HandleStopCycle | screens/DashboardScreen.js:122-127 | `stopCycle` happens exactly when a doe with a cycle is selected, and always on that cycle. Otherwise nothing happens. |
| Dashboard.HandleAction | screens/DashboardScreen.js:86-106 | As written, the doe is selected and the date reset, and `'fail'` opens the failure dialog with no call. For a nursing doe the calls are those of `handleStopCycle` on the previously selected doe. |
| Dashboard.HandleActionCorrected | screens/DashboardScreen.js:86-106 | For every action other than ending a nursing doe's cycle, it is the same as the code as written. |
| Dashboard.ActionDispatch | screens/DashboardScreen.js:90-104 | `'fail'` opens the failure dialog whatever the cycle. No cycle opens the start dialog. `saillie` opens the gestation check. `gestante` opens the birth dialog with `''` and `'0'`. `allaitante` stops the doe's own cycle with reason `termine`. Any other status does nothing. |
| Dashboard.StaleSelectionOnNursingDoe | screens/DashboardScreen.js:103-104 | On a fresh screen, the code as written stops no cycle for a nursing doe. After an action on another doe, it stops that other doe's cycle. The corrected dispatch stops the nursing doe's own cycle both times. |
| Dashboard.FailThenConfirm | screens/DashboardScreen.js:90-127 | Failing a doe and confirming calls `stopCycle(her cycle, 'echec')`, or nothing when she has no cycle. |
| Dashboard.BirthFlow | screens/DashboardScreen.js:99-120 | Opening the birth dialog for a pregnant doe and entering live-born records the birth on her cycle with 0 stillborn. |
| Dashboard.LowFeed | screens/DashboardScreen.js:63 | The low-feed list holds exactly the feeds with at most 7 days left. |
| Dashboard.LowFeedAppend | screens/DashboardScreen.js:63 | The filter keeps the list's order. |
| StatusCard.CalculateProgress | components/RabbitStatusCard.js:6-18 | 0 before the start and 1 after the end. In between it is the elapsed fraction, within [0, 1]. NaN exactly for an invalid date, or a zero-length phase at its instant, inside the range. |
| StatusCard.ProgressMonotone | components/RabbitStatusCard.js:6-18 | Over a phase that lasts, progress never decreases. |
| StatusCard.GetDaysRemaining | components/RabbitStatusCard.js:20-26 | The ceiling of the span in days. NaN exactly for an invalid target. Positive exactly when the target is still to come. |
| StatusCard.WholeDaysRemaining | components/RabbitStatusCard.js:20-26 | A target exactly `k` days away gives `k`, in either direction. |
| Numbers.ParseIntOfText | screens/VaccinsScreen.js:66 | `parseInt` with the radix omitted or 10 reads back any integer printed by `String(n)`. This holds whatever non-digit text follows, except an `x` after a lone `0`. |
| Numbers.ParseIntWithoutDigits | screens/VaccinsScreen.js:66 | Text with no digit after the leading whitespace and an optional sign reads as NaN. |
| Numbers.ZeroReadsZero | screens/DashboardScreen.js:117 | `"0"` reads as 0. |
| Numbers.CeilDays | components/RabbitStatusCard.js:24 | `Math.ceil(ms / 86400000)` is the unique `r` with `(r-1)·day < ms <= r·day`. |
| Reminder.ReminderTime | utils/notifications.js:49-58 | 9:00 unless the value is truthy and splits on `:` into exactly two parts. In that case each part goes through `parseInt(·, 10)`. |
| Reminder.ScheduleDailyReminder | utils/notifications.js:45-76 | On web there are no calls. Elsewhere there is one read of `daily_time`, then the cancellation of every schedule, then one repeating trigger. |
| Reminder.TimeRoundTrip | utils/notifications.js:53-58 | A value written as `H:MM` is read back as that hour and minute. |
| Reminder.NoRangeCheck | utils/notifications.js:56-57 | `"25:99"` schedules hour 25, minute 99. |
| Reminder.NaNNotDefaulted | utils/notifications.js:56-57 | `"ab:cd"` gives NaN and NaN, not the default. |
| Reminder.DefaultCases | utils/notifications.js:50-55 | No value, `""`, `"0930"` and `"9:30:00"` all give 9:00. |
| VaccinsForm.OpenAddModal | screens/VaccinsScreen.js:46-51 | A blank dialog for a new vaccine. |
| VaccinsForm.OpenEditModal | screens/VaccinsScreen.js:53-58 | The dialog holds the vaccine's name, and a duration text that `parseInt` reads back as the duration. |
| VaccinsForm.HandleSave | screens/VaccinsScreen.js:60-87 | A blank name is refused first. A duration that parses to NaN or at most 0 is refused next, and refusals write nothing. Otherwise it is `updateVaccin` when editing and `addVaccin` when adding, with the untrimmed name. The dialog is closed and emptied, and the invariant is kept. |
| VaccinsForm.WriteVaccin | screens/VaccinsScreen.js:72-77 | The update rewrites exactly the edited vaccine. The add inserts exactly one new vaccine. Nothing else changes. |
| VaccinsForm.EditRoundTrip | screens/VaccinsScreen.js:53-87 | Opening a stored vaccine and saving it unchanged leaves the store as it was. |
| VaccinsForm.TrailingUnitAccepted | screens/VaccinsScreen.js:66 | `"30j"` is accepted as 30 days. |
| VaccinsForm.ZeroDurationRefused | screens/VaccinsScreen.js:66-70 | A duration of `"0"` is refused. |
| VaccinsForm.WhitespaceNameRefused | screens/VaccinsScreen.js:61-64 | An all-whitespace name is refused whatever the duration. |
| AlimentsForm.FeedLevel | screens/AlimentsScreen.js:78-88 | At most 3 days is critical, 4 to 7 is a warning, and more than 7 is fine. |
| AlimentsForm.DaysLabel | screens/AlimentsScreen.js:102 | `Infini` exactly for the sentinel 999. Otherwise a label that `parseInt` reads back as the days. |
| AlimentsForm.HandleAdd | screens/AlimentsScreen.js:37-43 | A blank dialog whose ration is `'150'`. |
| AlimentsForm.HandleEdit | screens/AlimentsScreen.js:45-51 | The dialog holds the feed's values, and its ration text reads back as the ration. |
| AlimentsForm.HandleSave | screens/AlimentsScreen.js:62-76 | No call at all when a field is empty, with no trimming. Otherwise `updateAliment` with the edited id or `addAliment`, with the ration through `parseInt`, then the dialog is hidden and the list reloaded. |
| AlimentsForm.EditSaveRoundTrip | screens/AlimentsScreen.js:45-76 | Reopening a feed and saving writes back its own values. |
| AlimentsForm.ThresholdsAgainstDashboard | screens/AlimentsScreen.js:83-88 | A feed is in the dashboard's low-feed list exactly when it is drawn critical or warning here. The two red thresholds differ only at exactly 3 days. |
| AlimentsForm.UnlimitedIsFine | screens/AlimentsScreen.js:102 | The sentinel is fine and labelled `Infini`. |
| ClapetsForm.HandleAdd | screens/ClapletsScreen.js:44-59 | A blank number is refused without calling `addClapet`. Otherwise the untrimmed text goes to `addClapet`. Success closes and empties the dialog. A number in use alerts and keeps the dialog and its text. |
| ClapetsForm.AddTwiceRefused | screens/ClapletsScreen.js:44-59 | Adding the same number twice: the second add is refused and changes nothing. |
| ClapetsForm.Occupant | screens/ClapletsScreen.js:102-106 | The occupant is shown exactly when the cage is occupied, and it is the doe's number. |
| ClapetsForm.OccupiedMeansHoused | screens/ClapletsScreen.js:84 | On the cage list, a cage is occupied exactly when a living doe with a non-empty number is housed in it. |
| FemelleForm.Initial | screens/Femelles/AddEditScreen.js:29-35 | A new form has no number, no cage, today's date and `'vivante'`, and is not loading. |
| FemelleForm.LoadFemelle | screens/Femelles/AddEditScreen.js:53-65 | It copies number, cage and status. It takes the date only when one is stored. An unknown doe leaves the form unchanged. |
| FemelleForm.HandleSave | screens/Femelles/AddEditScreen.js:67-98 | A blank number is refused with no write. Otherwise it is `updateFemelle` in edit mode and `addFemelle` otherwise, with the date through `formatDateISO`. Success leaves the screen. A rejected status alerts. The loading flag is cleared in both cases. |
| FemelleForm.SaveEdit | screens/Femelles/AddEditScreen.js:73-97 | The edit branch fails only for a stored doe whose status the CHECK refuses, and then writes nothing. On success the doe's row becomes the form's row, or nothing is written when the id has no row. The form comes back with the loading flag cleared. |
| FemelleForm.SaveNew | screens/Femelles/AddEditScreen.js:83-97 | The add branch fails only when the CHECK refuses the status, and then writes nothing. On success the doe table gains exactly the form's row, under an id that was unused in a consistent store. The other tables are unchanged. |
| FemelleForm.NewDoeDefaults | screens/Femelles/AddEditScreen.js:29-90 | A new doe saved from the defaults is in no cage, living, and born on the day the form was opened. |
| FemelleForm.LoadedRow | screens/Femelles/AddEditScreen.js:53-90 | Loading a stored doe whose date is `YYYY-MM-DD` text gives back exactly the row that a save would write. |
| FemelleForm.EditRoundTrip | screens/Femelles/AddEditScreen.js:53-98 | Loading a stored doe and saving her unchanged leaves the store as it was. |

## Left out

- Persistence plumbing is left out: Promises, transactions, `initDatabase`, logging and the SQLite engine itself. Only the relational effect of each statement is modelled.
- `PRAGMA foreign_keys` is never turned on in `database/db.js`, so SQLite does not enforce the declared cascades. The model applies the declared `ON DELETE CASCADE` and `SET NULL` anyway.
- Foreign-key checks on insert are not modelled. A doe's cage id and a vaccination's doe id are stored as given.
- Operations whose code is not part of this model are left out: `addCycle`, `confirmBirth`, `stopCycle`, `verifyGestation`, `getAllAliments`, `getFemellesWithStatus`, `getDailyCheckStatus`, `performDailyCheck`, `getSetting`, `addAliment`, `updateAliment`. They appear only as opaque calls, or their results are parameters.
- `handleVerifyGestation`, which the dashboard refers to but never defines, is left out.
- `getAllFemelles`, `getAllVaccins`, `getVaccinationsByFemelle` and `deleteVaccination` are left out. Each is a plain select or delete with no logic of its own.
- The screens' delete buttons (`handleDelete`) are left out. Each is a confirmation dialog around a store delete that is modelled.
- Time zones and daylight saving are left out. A zero UTC offset is assumed, so `toISOString()` and the local getters agree. This hides one consequence. `daysUntil` subtracts two local midnights, and a span that crosses the autumn clock change is 25 hours, so on a device `Math.ceil` gives one day more. A due date 7 days away across that weekend then reads 8 and gets `'ok'`, while `getVaccinsBientot`, which compares text, still lists it. `DateUtils.DaysUntil` and `Queries.SoonMatchesStatus` hold only under the zero-offset assumption.
- `new Date(string)` accepts only the date-only `YYYY-MM-DD` form. Any other string is treated as an invalid date.
- `parseFloat` of the stock and the kilogram figures are left out. The stock is carried as its text.
- Every number that is not a ratio is an integer.
- `DateUtils.IsoOrder`, `DateUtils.IsoRoundTrip` and the lemmas built on them cover only years 1000 to 9999. Outside that range `formatDateISO` does not print four digits.
- `Dashboard.HandleAction` and the handlers treat `await` as completing before the next line. A rejected persistence call is not modelled.
- `AlimentsForm.HandleSave` does not model a failing `addAliment`/`updateAliment`, which would keep the dialog open.
- `FemelleForm.HandleSave` does not model a rejection by the database engine other than the `statut` CHECK.
- `Store.AddVaccination` takes the given date as text, so it cannot receive the `null` a caller would pass when `formatDateISO` fails. The date picker always holds a valid date, so that call does not occur.
- `Store.AddFemelle` and `Store.UpdateFemelle` do not model an explicit `null` status, which SQLite would store and the CHECK would let through.
- `Store.GetFemelleById` returns the doe's own row without the `clapet_numero` column that the query adds through its LEFT JOIN on the cages. The modelled caller does not read that column.
- JSX, styles, navigation, notification delivery and permission requests are left out.

## Findings

| source | as written | input that shows it | evidently intended | confidence | as-written member | corrected member |
|---|---|---|---|---|---|---|
| utils/dateUtils.js:50-59 | An unparseable, non-empty due date makes `daysUntil` NaN. Every comparison with NaN is false, so the status falls through to `'ok'` and is drawn green. | `getVaccinationStatus('pas une date')` gives `'ok'` | `'none'`, as for a missing date | medium, not executed | DateUtils.UnparseableDueDateIsOk | DateUtils.VaccinationStatusCorrected |
| screens/DashboardScreen.js:86-106 | For a nursing doe, `handleStopCycle('termine')` runs in the same event as `setSelectedFemelle(femelle)`. It therefore reads the doe selected before this click. | On a fresh dashboard, the primary action (`'primary'`) on a nursing doe calls no `stopCycle`. After an action on another doe with cycle 20, it calls `stopCycle(20, 'termine')`. | `stopCycle(femelle.cycle.id, 'termine')` for the doe acted on | high, not executed | Dashboard.StaleSelectionOnNursingDoe | Dashboard.HandleActionCorrected |

Where the two agree on valid input, the alert-query lemmas and the dashboard flows are stated against the corrected members.
