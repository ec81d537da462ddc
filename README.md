# Eden ERP mobile — a verified model of its screen logic

Eden ERP mobile is a React Native app for a church community. Members use it for events, tasks, support, a media library, notifications, attendance and their profile. Each screen holds mock data and a little logic: list filters and sorts, lookups, and handlers that update component state. This project models that logic in Dafny and proves what the screens promise:

- the month grid of the calendar component;
- the filters and sorts of the list screens;
- the state handlers of each screen and of the media player.

Layout, one module per source file, plus three shared modules:

| module | file | models |
|---|---|---|
| `Options` | options.dfy | optional values (`T \| null \| undefined`) |
| `Seqs` | seqs.dfy | `Array.prototype.filter`; the subsequence relation; a stable `sort` driven by a comparator; first-occurrence deduplication (`Array.from(new Set(...))`) |
| `Text` | text.dfy | `toLowerCase`/`toUpperCase` on ASCII; `includes`; `trim`; `split`/`join` on one character; two- and four-digit decimal strings |
| `Calendar` | calendar.dfy | components/eden/EdenCalendar.tsx: the Gregorian calendar behind `Date`, the normalisation done by `new Date(y, m, d)`, `generateDays`, the event/day matcher, month navigation |
| `EventsScreen` | events_screen.dfy | app/mockups/EventsScreen.tsx |
| `TasksScreen` | tasks_screen.dfy | app/mockups/TasksScreen.tsx |
| `SupportScreen` | support_screen.dfy | app/mockups/SupportScreen.tsx |
| `MediaLibrary` | media_library.dfy | app/mockups/MediaLibraryScreen.tsx |
| `NotificationCenter` | notification_center.dfy | app/mockups/NotificationCenterScreen.tsx |
| `PresenceScreen` | presence_screen.dfy | app/mockups/PresenceScreen.tsx |
| `ProfileScreen` | profile_screen.dfy | app/mockups/ProfileScreen.tsx |
| `MediaPlayer` | media_player.dfy | components/eden/EdenMediaPlayer.tsx |

How the source maps onto Dafny:

- Pure expressions (`map`, `filter`, `sort` on a copy, `find`, `switch`) become functions.
- Component state (`useState`) becomes a class with one field per state variable. Each handler is a method whose `modifies this` and `ensures` give the whole new state.
- A callback prop the component calls (`onDateSelect`, `onPlay`, `onPause`, `onSeek`) is returned as a value.
- A `Date` is the triple its getters return: full year, month 0..11 and day of month. Dates are compared through a day number counted from 1 January of year 1 in the proleptic Gregorian calendar, which is what `getTime()` orders by. `new Date(y, m, d)` is `Calendar.MakeDate`. It first reads a year argument 0..99 as 1900..1999 (`Calendar.FullYear`, the MakeFullYear step of the ECMAScript `Date` constructor), then carries months and days outside their range into the neighbouring months and years, as ECMAScript's MakeDay does (`Calendar.MakeDay`).
- `Array.prototype.sort` is a stable insertion sort. ECMAScript 2019 and later require `sort` to be stable. A comparator result of NaN counts as 0, as the comparison step of `Array.prototype.sort` in ECMA-262 prescribes.

## Model

| member | source | states |
|---|---|---|
| Calendar.DaysInMonth | components/eden/EdenCalendar.tsx:44 | a month has 28 to 31 days (the Gregorian leap-year rule is pinned down by `Calendar.FebruaryGrids`) |
| Calendar.Weekday | components/eden/EdenCalendar.tsx:43 | `getDay()` is between 0 (Sunday) and 6 |
| Calendar.MakeDate | components/eden/EdenCalendar.tsx:57 | `new Date(y, m, d)` always yields a real calendar date (month 0..11, day within the month) |
| Calendar.MakeDateDayNumber | components/eden/EdenCalendar.tsx:57 | `new Date(y, m, d)` denotes the day `d - 1` days after the first of month `m` of `FullYear(y)` (1900 + y for y in 0..99, y otherwise), whatever the range of `m` and `d` |
| Calendar.MakeDateValid | components/eden/EdenCalendar.tsx:68 | with an in-range month and day, `new Date(y, m, d)` reads back that date in year `FullYear(y)`: the same date unless y is 0..99 |
| Calendar.MakeDateNormalizes | components/eden/EdenCalendar.tsx:57 | a month index outside 0..11 is carried into the year `FullYear(y)` |
| Calendar.LastDayOfMonth | components/eden/EdenCalendar.tsx:44 | day 0 of month `m + 1` is the last day of month `m` of `FullYear(y)`, so `getDate()` of it is that month's length |
| Calendar.TwoDigitYearArguments | components/eden/EdenCalendar.tsx:44 | `new Date(99, 12, 1)` is 1 January 2000, `new Date(0, 2, 0)` is 28 February 1900 although year 0 is a leap year, and `new Date(100, -1, 1)` is 1 December 99 |
| Calendar.NeighbourMonths | components/eden/EdenCalendar.tsx:49 | the previous and next months are month ∓ 1 carried into the year by floor division |
| Calendar.DayNumberOrder | app/mockups/EventsScreen.tsx:104 | for real dates, comparing `getTime()` is comparing (year, month, day) lexicographically; equal times mean equal dates |
| Calendar.GenerateDays | components/eden/EdenCalendar.tsx:39-87 | the three push loops build exactly the grid `MonthGrid` (leading cells, month cells, trailing cells), whose dates are computed by `new Date` and so lie in `FullYear` of the stored year |
| Calendar.GridParameters | components/eden/EdenCalendar.tsx:43-49 | `firstDayOfMonth` is the weekday of the 1st; `daysInMonth` and `daysInPrevMonth` are the Gregorian lengths of the month and of the month before, all in year `FullYear(year)` |
| Calendar.GridLength | components/eden/EdenCalendar.tsx:73-84 | the grid has weekday(1st) + days + trailing cells, counted in year `FullYear(year)`; its length is a multiple of 7 between 28 and 42 |
| Calendar.GridCurrentMonthFlags | components/eden/EdenCalendar.tsx:62-70 | a cell is flagged `isCurrentMonth` exactly when it lies in the block after the leading cells |
| Calendar.CurrentDaysNumbered | components/eden/EdenCalendar.tsx:62-70 | the month's own cells are numbered 1..daysInMonth in order; each stores the year as given and holds the date of that day in year `FullYear(year)` |
| Calendar.GridCurrentMonthDays | components/eden/EdenCalendar.tsx:62-70 | in the grid, that block is exactly the month's cells 1..daysInMonth |
| Calendar.GridCountsMonthDays | components/eden/EdenCalendar.tsx:44 | the number of in-month cells equals the month's length |
| Calendar.GridLeading | components/eden/EdenCalendar.tsx:49-59 | there are weekday(1st) leading cells; their days are consecutive and end at the last day of the previous month; each stores `month - 1` with the unchanged year, while its date is the real day of the month before month `m` of `FullYear(year)` |
| Calendar.GridTrailing | components/eden/EdenCalendar.tsx:73-84 | the trailing cells are numbered 1..k with k < 7, and k = 0 exactly when the other cells already fill whole weeks; each stores `month + 1` with the unchanged year, while its date is the real day of the month after month `m` of `FullYear(year)` |
| Calendar.FebruaryGrids | components/eden/EdenCalendar.tsx:43-44 | February has 29 days in 2024 and 28 in 2023; the 1st falls on a Thursday and a Wednesday respectively, giving 2 and 4 trailing cells |
| Calendar.IsSameDayIsEquality | components/eden/EdenCalendar.tsx:108-112 | `isSameDay` is equality of the dates, so it is reflexive and symmetric |
| Calendar.EventsForDateExact | components/eden/EdenCalendar.tsx:99-105 | `getEventsForDate` keeps exactly the events on that day, every copy of each, as a subsequence in input order |
| Calendar.HasEventsIffSomeEvent | components/eden/EdenCalendar.tsx:90-96 | `hasEvents(d)` holds iff `getEventsForDate(d)` is non-empty |
| Calendar.NavigationWraps | components/eden/EdenCalendar.tsx:121-128 | navigation lands on the 1st of the month before or after month `m` of `FullYear(year)`; December goes to January of the next year, and January back to December of the previous year |
| Calendar.NavigationRoundTrip | components/eden/EdenCalendar.tsx:121-128 | next then previous, or previous then next, returns to the same first of month, provided neither the month shown nor the one in between lies in a year 0..99 |
| Calendar.NavigationCenturyJump | components/eden/EdenCalendar.tsx:121-128 | from January of year 100, previous shows December 99, and next from there shows January 2000, not January 100 |
| Calendar.KeepingYearRoundTrip | components/eden/EdenCalendar.tsx:121-128 | navigation that keeps the year (`setMonth(getMonth() ± 1, 1)` on a copy) lands on the neighbouring month of every year, and next and previous undo each other everywhere |
| Calendar.CalendarState.constructor | components/eden/EdenCalendar.tsx:27-28 | the selected date is the initial date, and the month shown is the 1st of its month in year `FullYear(year)` |
| Calendar.CalendarState.GoToPreviousMonth | components/eden/EdenCalendar.tsx:121-123 | the month shown becomes `new Date(year, month - 1, 1)`, which `NavigationWraps` identifies; the selection is kept |
| Calendar.CalendarState.GoToNextMonth | components/eden/EdenCalendar.tsx:126-128 | the month shown becomes `new Date(year, month + 1, 1)`, which `NavigationWraps` identifies; the selection is kept |
| Calendar.CalendarState.SelectDate | components/eden/EdenCalendar.tsx:131-136 | the date is selected and passed to `onDateSelect` iff that callback is given |
| EventsScreen.ToCalendarEvent | app/mockups/EventsScreen.tsx:96-101 | id, date and title are copied; the type is `important` iff the status is `registered`, and `normal` otherwise |
| EventsScreen.CalendarEvents | app/mockups/EventsScreen.tsx:96-101 | `calendarEvents` has the length of `events`, position by position the same ids, dates and titles, and the type rule |
| EventsScreen.ListEvents | app/mockups/EventsScreen.tsx:104 | `listEvents` is a permutation of `events` |
| EventsScreen.NotLaterTotalPreorder | app/mockups/EventsScreen.tsx:104 | the comparator `a.getTime() - b.getTime()` is a total preorder |
| EventsScreen.ListEventsSorted | app/mockups/EventsScreen.tsx:104 | `listEvents` is a permutation of `events` in non-decreasing time order, and events with the same time keep their order in `events` |
| EventsScreen.ListEventsChronological | app/mockups/EventsScreen.tsx:104 | that order is (year, month, day) order |
| EventsScreen.SelectedDateEventsExact | app/mockups/EventsScreen.tsx:107-111 | `selectedDateEvents` keeps exactly the events on the selected day, every copy of each, in input order |
| EventsScreen.SelectedDateScenario | app/mockups/EventsScreen.tsx:107-111 | with two events on 12 May 2024 and one on 13 May, selecting 12 May returns the first two |
| EventsScreen.ToggleInvolution | app/mockups/EventsScreen.tsx:122-124 | toggling changes the view mode, and toggling twice restores it |
| EventsScreen.EventsScreenState.constructor | app/mockups/EventsScreen.tsx:30-31 | the screen starts in calendar view on the given day |
| EventsScreen.EventsScreenState.ToggleViewMode | app/mockups/EventsScreen.tsx:122-124 | calendar and list alternate; the selected date is kept |
| EventsScreen.EventsScreenState.HandleDateSelect | app/mockups/EventsScreen.tsx:113-115 | the date is selected and the view mode is kept |
| TasksScreen.FilteredTasksIsFilter | app/mockups/TasksScreen.tsx:146-172 | the three guarded filter stages are one filter by the conjunction of their predicates |
| TasksScreen.FilteredTasksExact | app/mockups/TasksScreen.tsx:146-172 | the result is a subsequence of `tasks` in original order; it holds exactly the tasks, every copy of each, that are on the tab, match a non-empty query case-insensitively in title, description or category and, when a category is selected, have exactly that category |
| TasksScreen.TabsExact | app/mockups/TasksScreen.tsx:150-154 | `assigned` keeps exactly the tasks assigned to user `1` and drops tasks without an assignee; `created` keeps those created by user `1`; `all` keeps everything |
| TasksScreen.EmptyQueryNoSearch | app/mockups/TasksScreen.tsx:157-169 | an empty query applies no search; an empty or absent category applies no category filter |
| TasksScreen.FilteredTasksIdempotent | app/mockups/TasksScreen.tsx:146-172 | filtering the result again with the same tab, query and category returns it unchanged |
| TasksScreen.FindCategory | app/mockups/TasksScreen.tsx:185 | `find` yields nothing iff no category has that name, and otherwise the first category with it |
| TasksScreen.CategoryColor | app/mockups/TasksScreen.tsx:183-187 | `#CCCCCC` when the name is absent or empty, or matches no category; otherwise the colour of the first category with that name |
| TasksScreen.TaskCategoryKnownColor | app/mockups/TasksScreen.tsx:47-53 | in the screen's categories, `Jeunesse` is `#6A0572` |
| TasksScreen.TaskCategoryUnknownColor | app/mockups/TasksScreen.tsx:47-53 | an unknown or absent category gets `#CCCCCC` |
| TasksScreen.TablesInjective | app/mockups/TasksScreen.tsx:189-239 | `getPriorityIcon` and `getStatusLabel` give distinct priorities distinct icons and distinct statuses distinct labels |
| SupportScreen.FilteredFaqsIsFilter | app/mockups/SupportScreen.tsx:181-199 | the two guarded stages are one filter by the conjunction of their predicates |
| SupportScreen.FilteredFaqsExact | app/mockups/SupportScreen.tsx:181-199 | the result is an order-preserving subsequence holding a FAQ, with all its copies, iff (no category, or exactly that category) and (empty query, or the lowercased question or answer contains the lowercased query) |
| SupportScreen.DateKeyReorders | app/mockups/SupportScreen.tsx:208 | splitting `dd/mm/yyyy` on `/`, reversing and joining with `-` gives `yyyy-mm-dd` |
| SupportScreen.ParseIsoDate | app/mockups/SupportScreen.tsx:208 | a key that parses yields a real date with a four-digit year |
| SupportScreen.ParseFormatIso | app/mockups/SupportScreen.tsx:208 | parsing the `yyyy-mm-dd` form of a date gives the date back |
| SupportScreen.UnixEpoch | app/mockups/SupportScreen.tsx:208 | 1 January 1970, time 0 of `getTime()`, is day 719162 of the calendar |
| SupportScreen.TimeValueOrder | app/mockups/SupportScreen.tsx:208-209 | ordering by `getTime()` is ordering by (year, month, day), and equal times mean equal dates |
| SupportScreen.TicketTimeOfDmy | app/mockups/SupportScreen.tsx:208 | the time of a ticket dated `dd/mm/yyyy` is the time of that day |
| SupportScreen.GetFilteredTickets | app/mockups/SupportScreen.tsx:201-211 | the sorted tickets are a permutation of the tickets |
| SupportScreen.TicketOrderTotal | app/mockups/SupportScreen.tsx:202-210 | when every date parses, the comparator is a total preorder |
| SupportScreen.FilteredTicketsOrder | app/mockups/SupportScreen.tsx:201-210 | when every date parses: a permutation, every open ticket precedes every non-open one, within each group dates do not increase (newest first), and tickets the comparator ties keep their input order |
| SupportScreen.ToggleSelection | app/mockups/SupportScreen.tsx:216-218 | pressing `x` selects `x` iff it was not selected, and otherwise clears the selection |
| SupportScreen.ToggleSelectionTwice | app/mockups/SupportScreen.tsx:223 | from no selection, or with that item selected, pressing the same item twice restores the selection |
| SupportScreen.FindSupportCategory | app/mockups/SupportScreen.tsx:214 | `find` by id yields nothing iff no category has that id, and otherwise a category with it |
| SupportScreen.CanSubmitIffFilled | app/mockups/SupportScreen.tsx:231 | a ticket can be sent iff subject and message are not all whitespace and a category is chosen |
| SupportScreen.SupportState.constructor | app/mockups/SupportScreen.tsx:46-53 | empty query, no category, no expanded FAQ, no open form, empty fields |
| SupportScreen.SupportState.HandleCategoryPress | app/mockups/SupportScreen.tsx:213-220 | a known id toggles the selection of its title; an unknown id changes nothing; nothing else changes |
| SupportScreen.SupportState.HandleFaqPress | app/mockups/SupportScreen.tsx:222-224 | pressing the expanded FAQ collapses it, pressing another expands it; nothing else changes |
| SupportScreen.SupportState.HandleCreateTicket | app/mockups/SupportScreen.tsx:230-241 | with a blank subject or message or no category nothing changes; otherwise the form closes and the three fields are reset to empty |
| MediaLibrary.FilteredMediaExact | app/mockups/MediaLibraryScreen.tsx:100-107 | an item is kept, with all its copies, iff (filter `all` or same type) and (empty query, or title or speaker contains it case-insensitively); order is kept; `all` with no query keeps everything |
| MediaLibrary.NoSpeakerMatchesByTitle | app/mockups/MediaLibraryScreen.tsx:103-104 | an item without a speaker matches a non-empty query only through its title |
| MediaLibrary.PresentCategories | app/mockups/MediaLibraryScreen.tsx:110 | holds exactly the non-empty categories of the items |
| MediaLibrary.Categories | app/mockups/MediaLibraryScreen.tsx:110 | `categories` holds each non-empty category exactly once, in order of first occurrence |
| MediaLibrary.MediaLibraryState.constructor | app/mockups/MediaLibraryScreen.tsx:27-31 | filter `all`, empty query, nothing selected, not playing, progress 0 |
| MediaLibrary.MediaLibraryState.HandleMediaPress | app/mockups/MediaLibraryScreen.tsx:112-116 | selects the media, starts playing and resets progress to 0 |
| MediaLibrary.MediaLibraryState.HandleClosePlayer | app/mockups/MediaLibraryScreen.tsx:118-121 | clears the selection and stops playback; progress is kept |
| MediaLibrary.MediaLibraryState.HandlePlayPause | app/mockups/MediaLibraryScreen.tsx:123-125 | negates `isPlaying` and changes nothing else |
| MediaLibrary.MediaLibraryState.SetPlaying | app/mockups/MediaLibraryScreen.tsx:285-286 | the player's `onPlay`/`onPause` set `isPlaying` and change nothing else |
| MediaLibrary.MediaLibraryState.HandleSeek | app/mockups/MediaLibraryScreen.tsx:127-129 | sets the progress to the position and changes nothing else |
| NotificationCenter.FilteredNotificationsExact | app/mockups/NotificationCenterScreen.tsx:79-81 | with `all` the list is unchanged; otherwise it is the order-preserving subsequence of that type, with every copy of each notification of that type |
| NotificationCenter.UnreadCountIsCardinality | app/mockups/NotificationCenterScreen.tsx:83 | `unreadCount` is the number of positions whose notification is unread |
| NotificationCenter.ToggleRead | app/mockups/NotificationCenterScreen.tsx:85-89 | same length and order; `read` flips exactly on the notifications with that id; every other field is kept |
| NotificationCenter.ToggleReadTwice | app/mockups/NotificationCenterScreen.tsx:85-89 | marking the same id twice restores the list |
| NotificationCenter.MarkAllRead | app/mockups/NotificationCenterScreen.tsx:91-93 | same length and order; every notification read, every other field kept |
| NotificationCenter.MarkAllReadProperties | app/mockups/NotificationCenterScreen.tsx:91-93 | afterwards nothing is unread, and marking all again changes nothing |
| NotificationCenter.NotificationCenterState.constructor | app/mockups/NotificationCenterScreen.tsx:25-26 | the initial list with filter `all` |
| NotificationCenter.NotificationCenterState.SetActiveFilter | app/mockups/NotificationCenterScreen.tsx:105 | sets the type filter; the list is kept |
| NotificationCenter.NotificationCenterState.HandleMarkAsRead | app/mockups/NotificationCenterScreen.tsx:85-89 | the list becomes `ToggleRead` of the old list |
| NotificationCenter.NotificationCenterState.HandleMarkAllAsRead | app/mockups/NotificationCenterScreen.tsx:91-93 | the list becomes `MarkAllRead` of the old list, so the unread count is 0 |
| NotificationCenter.NotificationCenterState.HandleDeleteAll | app/mockups/NotificationCenterScreen.tsx:95-97 | the list is empty, so the filtered view is empty and the unread count is 0 |
| PresenceScreen.FindMonth | app/mockups/PresenceScreen.tsx:198 | `find` yields nothing iff no month has that name, and otherwise a month with it |
| PresenceScreen.FindMonthFirst | app/mockups/PresenceScreen.tsx:198 | what `find` yields is the first month with that name |
| PresenceScreen.DisplayedData | app/mockups/PresenceScreen.tsx:197-199 | with no (or an empty) selected month, the first month, which is nothing for an empty timeline; otherwise a month of that name, or nothing iff no month has it |
| PresenceScreen.DisplayedIsFirstHighlighted | app/mockups/PresenceScreen.tsx:228 | the displayed month is the first month the selector highlights, and nothing is displayed iff none is highlighted |
| PresenceScreen.PressedMonthIsDisplayed | app/mockups/PresenceScreen.tsx:233 | with non-empty, distinct month names, pressing a month displays that month |
| PresenceScreen.TotalEventsCountsAll | app/mockups/PresenceScreen.tsx:201 | `totalEvents` is the number of events of all months together |
| PresenceScreen.StatusCountCountsAll | app/mockups/PresenceScreen.tsx:202-213 | each status count is the number of events of all months that have exactly that status |
| PresenceScreen.StatusesPartitionMonth | app/mockups/PresenceScreen.tsx:17 | within a month, the four status counts add up to the month's event count |
| PresenceScreen.StatusesPartition | app/mockups/PresenceScreen.tsx:201-213 | over the timeline, present + late + absent + unknown = total |
| PresenceScreen.AttendanceWithinTotal | app/mockups/PresenceScreen.tsx:201-213 | present + late + absent = total − unknown ≤ total |
| PresenceScreen.OverallRate | app/mockups/PresenceScreen.tsx:215 | the rate's numerator (present + late) is at most its denominator (all events), and the two differ by the absent and unknown events |
| ProfileScreen.ToggleSetting | app/mockups/ProfileScreen.tsx:78-84 | same length and order; `enabled` flips exactly on the settings with that id; every other field is kept |
| ProfileScreen.ToggleSettingTwice | app/mockups/ProfileScreen.tsx:78-84 | toggling the same id twice restores the list |
| ProfileScreen.ToggleUnknownSetting | app/mockups/ProfileScreen.tsx:79-83 | an id that no setting has leaves the list unchanged |
| ProfileScreen.ToggleSettingsCommute | app/mockups/ProfileScreen.tsx:78-84 | toggles of two ids commute |
| ProfileScreen.InitialSettingsDistinct | app/mockups/ProfileScreen.tsx:25-56 | the initial settings have pairwise distinct ids |
| ProfileScreen.ProfileState.constructor | app/mockups/ProfileScreen.tsx:23-56 | light mode, language `FR`, the initial settings |
| ProfileScreen.ProfileState.CurrentSelectorLanguage | app/mockups/ProfileScreen.tsx:230 | the selector is shown `fr` or `en`, whose upper case is the stored language |
| ProfileScreen.ProfileState.HandleThemeToggle | app/mockups/ProfileScreen.tsx:70-72 | negates `isDarkMode` and changes nothing else |
| ProfileScreen.ProfileState.HandleLanguageChange | app/mockups/ProfileScreen.tsx:74-76 | `fr` is stored as `FR` and `en` as `EN`; the selector is then shown back the code it passed |
| ProfileScreen.ProfileState.HandleNotificationToggle | app/mockups/ProfileScreen.tsx:78-84 | the settings become `ToggleSetting` of the old settings; nothing else changes |
| MediaPlayer.MediaPlayerState.constructor | components/eden/EdenMediaPlayer.tsx:40-41 | not seeking, and the seek position starts at the progress |
| MediaPlayer.MediaPlayerState.UpdateProps | components/eden/EdenMediaPlayer.tsx:40-41 | a re-render with new props keeps the component state, since `useState` reads its initial value only once |
| MediaPlayer.MediaPlayerState.DisplayedPosition | components/eden/EdenMediaPlayer.tsx:178 | the bar and the handle show the seek position while seeking and the progress otherwise |
| MediaPlayer.MediaPlayerState.HandlePlayPause | components/eden/EdenMediaPlayer.tsx:45-51 | exactly one callback: `onPause` iff playing, `onPlay` iff not |
| MediaPlayer.MediaPlayerState.HandleSeekStart | components/eden/EdenMediaPlayer.tsx:53-56 | seeking starts at the current progress, so the display does not jump |
| MediaPlayer.MediaPlayerState.HandleSeekMove | components/eden/EdenMediaPlayer.tsx:58-60 | only the seek position changes; while seeking the display follows it |
| MediaPlayer.MediaPlayerState.HandleSeekEnd | components/eden/EdenMediaPlayer.tsx:62-65 | seeking ends and `onSeek` receives the last seek position |
| MediaPlayer.MediaPlayerState.TapHandle | components/eden/EdenMediaPlayer.tsx:191-192 | pressing and releasing the handle (no move handler is attached) asks for a seek to the current progress |
| Seqs.Filter | app/mockups/TasksScreen.tsx:151 | `filter` returns at most as many elements as its input, each of them passing the predicate |
| Seqs.FilterMembers | app/mockups/TasksScreen.tsx:151 | an element is in the filtered list iff it is in the list and passes |
| Seqs.FilterMultiplicity | app/mockups/TasksScreen.tsx:151 | `filter` keeps every copy of an element that passes and no copy of one that fails |
| Seqs.FilterIsSubsequence | app/mockups/TasksScreen.tsx:151 | `filter` keeps the input order |
| Seqs.FilterFilter | app/mockups/TasksScreen.tsx:150-169 | filtering by `p` then by `q` is filtering by `p && q` |
| Seqs.FilterKeepsAll | app/mockups/TasksScreen.tsx:151 | `filter` returns the whole list iff every element passes |
| Seqs.FilterIdempotent | app/mockups/TasksScreen.tsx:151 | filtering a filtered list again by the same predicate changes nothing |
| Seqs.SortBy | app/mockups/EventsScreen.tsx:104 | `sort` returns a permutation of its input (order and stability are `Seqs.SortBySorted` and `Seqs.SortByStable`) |
| Seqs.SortBySorted | app/mockups/EventsScreen.tsx:104 | when the comparator is a total preorder on the input, `sort` returns a list sorted by it |
| Seqs.SortByStable | app/mockups/EventsScreen.tsx:104 | `sort` is stable: with a total-preorder comparator, the elements it ties with any given element come out in their input order |
| Seqs.Distinct | app/mockups/MediaLibraryScreen.tsx:110 | `Array.from(new Set(xs))` holds the elements of `xs`, each once, in order of first occurrence |
| Text.TrimEmptyIffBlank | app/mockups/SupportScreen.tsx:231 | `!s.trim()` holds iff `s` is all whitespace |
| Text.JoinSplit | app/mockups/SupportScreen.tsx:208 | joining the pieces of `split(sep)` with `sep` gives the string back |
| Text.SplitJoin | app/mockups/SupportScreen.tsx:208 | splitting a join of separator-free pieces gives the pieces back |
| Text.LowerUpper | app/mockups/ProfileScreen.tsx:75 | lowercasing the upper case of a string without capitals gives it back |

## Findings

| source | as written | input that shows it | evidently intended | confidence | as-written member | corrected member |
|---|---|---|---|---|---|---|
| components/eden/EdenCalendar.tsx:121-128 | `goToPreviousMonth`/`goToNextMonth` rebuild the month with `new Date(getFullYear(), getMonth() ± 1, 1)`, and the constructor reads a year argument 0..99 as 1900..1999 | from 1 January 100, previous gives 1 December 99; next then gives 1 January 2000 | previous and next move one month and undo each other in every year | not executed; reachable only by paging back to year 99 | Calendar.NavigationCenturyJump | Calendar.KeepingYearRoundTrip |

The calendar state (`Calendar.CalendarState`) keeps the behaviour as written; `Calendar.PreviousMonthKeepingYear` and `Calendar.NextMonthKeepingYear` are the corrected navigation.

## Left out

- All rendering: JSX, `StyleSheet` objects, theme and colour tables, and the colour switches `getPriorityColor`/`getStatusColor` (app/mockups/TasksScreen.tsx:202-226). They are presentation only.
- Navigation (`useNavigation`, `router`), `console.log` in `handleEventPress`, and `handleTicketPress`/`handleTaskPress`, which only record an id. They are framework calls or logging.
- The mock data arrays of the screens, except the settings (ProfileScreen), the task categories (TasksScreen) and the support categories (SupportScreen), which the modelled handlers read. The lemmas hold for any list.
- `new Date()`, the wall clock. The initial selected date of EventsScreen is a parameter of its constructor. `isToday` (components/eden/EdenCalendar.tsx:115-118) is not modelled, because it only reads the clock and highlights a cell.
- Time of day: a `Date` is modelled as a calendar day. Every `Date` the core compares is built from a day, and the calendar only reads its day fields.
- `formatDate`/`toLocaleDateString`, which need locale data.
- `Math.random` waveform heights in the media player, which are decoration.
- Floating-point: the percentages of the presence screen (`* 100`, `Math.round`) and each month's precomputed `presenceRate`. `PresenceScreen.OverallRate` keeps the integer numerator and denominator; a zero denominator (NaN in the source) is not singled out. The player and library positions are `real`, not IEEE doubles.
- Unicode case folding: `toLowerCase`/`toUpperCase` map ASCII letters only. Accented capitals such as `É` are left as they are, whereas JavaScript lowers them.
- `new Date(string)` on a key that is not `yyyy-mm-dd` with a valid day, or that has a year outside 0..9999. These give NaN or engine-specific results. `SupportScreen.ParseIsoDate` returns nothing for them, and the ticket comparator then yields NaN, which counts as 0. A comparator like that is not consistent, so the order ECMAScript gives is implementation-defined. The model picks one such order, that of insertion sort.
- MakeDate: does not model TimeClip. A `Date` more than 100,000,000 days away from 1 January 1970 is an Invalid Date in ECMAScript, whose getters return NaN, so `generateDays` would return an empty grid. The model has no Invalid Date: every year is a real year, which the app's years are.
- SupportScreen.FilteredTicketsOrder: the order lemma requires every ticket date to parse, for the reason above; the permutation holds unconditionally (`SupportScreen.GetFilteredTickets`).
- SupportScreen.FindSupportCategory: states only that the category found has the id, not that it is the first such; the screen's category ids are distinct.
- PresenceScreen.FindMonth: its own contract states a match; that it is the first match is `PresenceScreen.FindMonthFirst`.
- DonationsScreen, LoginScreen, CommunityScreen, GroupsScreen, DashboardScreen and the small presentational components. They are not part of this model: they hold static data, timers, no-op handlers or UI toggles.
- The search text inputs (`setSearchQuery` from a `TextInput`) and the tab switches. They only store a value; the filters take the value as a parameter.
