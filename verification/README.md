# Vextro's calendar and locks, verified

A Dafny model of three parts of the Vextro system, with proofs over every
input, every interleaving and every reachable state:

- **The calendar of the C library** (`libc/calendar.c`). `CivilDays` writes the
  two table-free conversions between day numbers and proleptic Gregorian dates
  with C's truncating division and wrapping unsigned arithmetic, and proves them
  equal to counting whole years and months by hand (`Gregorian`) for every
  integer. `CalendarTime` builds `gmtime_r` and `timegm` on them, as methods that
  overwrite a `Tm`. `Strftime` is the bounded-buffer formatter, proved against an
  unbounded expansion, and `StrftimeLaws` holds what the expansions promise each
  other. `CInt` and `Decimal` are the C integers and decimal text underneath.
- **The ring of the thread test** (`apps/threadtest.c`) over the *actual* mutex
  and condition variables of `libc/pthread.c`: `Ring` executes one atomic
  instruction at a time, down to the futex word, the wrapping 32-bit sequence
  number and the waiter count; `RingData` says what crosses the ring, `RingRuns`
  what holds of whole runs.
- **The counters and the barrier** (`apps/threadtest.c`, `apps/mutextest.c`):
  `Workers` runs any number of threads through the three-state futex mutex,
  `Handshake` adds the parent/child flag of the mutex test, and `Barrier` runs
  any number of threads through any number of rounds of the generation barrier.
  `Sums` holds the sums over threads they share.

The sizes (`RING`, `MESSAGES`, `WORKERS`, `PER_WORKER`, `ROUNDS`, the poll limit)
are parameters. A run is a sequence of labels, each naming the thread that takes
its next instruction or the park that times out; theorems about runs quantify
over all of them. The kernel's futex is one atomic compare-and-park, because
interrupts are masked around both halves (`src/desktop.h:2203-2219`); a wake
releases one thread of the channel or all of them (`src/sched/scheduler.c:1004-1014`);
a park also ends by itself (`FUTEX_PARK_MS`).

Where the documentation and the code differ, the model follows the code:
`timegm`'s promise that its result is a normalised struct holds exactly while the
year fits the 32-bit `tm_year` (`TimegmUndoesGmtime`, `YearFitsRange`), and the
"exactly 26 bytes including the newline" of `asctime_r` holds of the length
always but of the newline only for years -999 to 9999 (`AsctimeColumns`).
`%F`, `%D` and `%C%y` differ from the spelled-out `%Y-%m-%d`, `%m/%d/%y` and `%Y`
for some negative years, because `snprintf` counts the sign into the width and
`put_num` does not (`FullDate`, `AmericanDate` and `CenturyAndYear` say which).
`tm_year + 1900`, `tm_mon + 1` and `tm_yday + 1` wrap like two's complement where
C leaves the overflow undefined.

Check everything with `dafny verify dfyconfig.toml`.

## Model

| member | source | states |
|---|---|---|
| `Gregorian.DateByYearsCorrect` | libc/calendar.c:10-14 | subtracting whole years and then whole months really yields the valid date with the given day number, from any starting year and for any remainder, negative too |
| `CivilDays.SplitDateExact` | libc/calendar.c:47-54 | era is a floor quotient, the wrapping month shift gives the March-based month, no other unsigned operation of `days_from_civil` wraps |
| `CivilDays.DaysFromCivilIsDayNumber` | libc/calendar.c:47-54 | for every year the fast forward conversion equals the count by whole years and months |
| `CivilDays.SplitDaysExact` | libc/calendar.c:56-67 | for every integer day: era is a floor quotient, year of era in 0..399, day of year in 0..365 with 365 only before a leap day, month in 0..11, no unsigned underflow |
| `CivilDays.CivilFromDaysCorrect` | libc/calendar.c:56-67 | for every integer day the result is a valid date and the one with that day number |
| `CivilDays.DaysRoundTrip` | libc/calendar.c:47-67 | days to date to days is the identity on all integers |
| `CivilDays.DateRoundTrip` | libc/calendar.c:47-67 | date to days to date is the identity on all valid dates |
| `CivilDays.FastIsNaive` | libc/calendar.c:10-23 | the loop-free conversion returns what the naive loops return, for every day number |
| `CivilDays.CivilFromDaysSuccessor` | libc/calendar.c:56-67 | the date of day z+1 is the calendar successor of the date of day z |
| `CivilDays.CivilFromDaysOrders` | libc/calendar.c:56-67 | day-number order is (year, month, day) order, on both sides of the epoch |
| `CalendarTime.Tm.Gmtime` | libc/calendar.c:71-107 | the struct is overwritten with the fields `Broken(t)`, whose meaning is `BrokenFields` |
| `CalendarTime.BrokenFields` | libc/calendar.c:71-107 | every stored field in terms of floor division and the civil date, for every 64-bit time, before 1970 too; the weekday is (days + 4) mod 7, yday the days of the preceding months plus mday - 1 |
| `CalendarTime.GmtimeNoOverflow` | libc/calendar.c:74-101 | no 64-bit intermediate overflows for any time_t |
| `CalendarTime.WeekdayCycle` | libc/calendar.c:98-100 | weekdays advance by one a day and repeat every 400 years |
| `CalendarTime.YdayRange` | libc/calendar.c:101-101 | yday is below the length of the year, so 365 only in leap years |
| `CalendarTime.Tm.Timegm` | libc/calendar.c:130-153 | returns the fold of the old fields and leaves the struct as `gmtime_r` of the result |
| `CalendarTime.FoldedSecondsExact` | libc/calendar.c:133-148 | for arbitrary 32-bit fields the result is the exact sum, months carried into years by floor division |
| `CalendarTime.TimegmNoOverflow` | libc/calendar.c:133-148 | no 64-bit intermediate overflows for any 32-bit fields |
| `CalendarTime.TimegmUndoesGmtime` | libc/calendar.c:130-153 | timegm of gmtime_r's output is the instant again if and only if its year minus 1900 fits tm_year |
| `CalendarTime.YearFitsRange` | libc/calendar.c:96-96 | those instants are exactly -67768040609740800 to 67768036191676799 |
| `CalendarTime.CanonicalIsFixedPoint` | libc/calendar.c:122-153 | timegm leaves a struct unchanged if and only if every field is in range and agrees with the others |
| `CalendarTime.TimegmNormalises` | libc/calendar.c:122-153 | a second timegm returns the same count if and only if the normalised year fits, and the struct is then canonical |
| `CalendarTime.DayZeroIsLastOfPrevious` | libc/calendar.c:123-126 | day 0 of a month is the last day of the previous one, across years and for any month value |
| `CalendarTime.TwelveMonthsAreAYear` | libc/calendar.c:136-140 | adding 12 to tm_mon is adding 1 to tm_year |
| `CalendarTime.CarriesCancel` | libc/calendar.c:142-148 | moving whole carries between seconds, minutes, hours and days changes nothing, whatever the signs |
| `CalendarTime.PosixFormulaHolds` | libc/calendar.c:71-107 | from 1970 on the fields satisfy the closed form of POSIX.1-2017 section 4.16 with value t |
| `Strftime.Put` | libc/calendar.c:182-188 | succeeds exactly when the text fits with room for a terminator, appends exactly it, touches nothing else |
| `Strftime.DigitsBackwards` | libc/calendar.c:195-197 | the digit loop writes the digits of the number in reverse, never more than 20 |
| `Strftime.PutNum` | libc/calendar.c:190-206 | as Put, for sign, padding and digits; the local 32-character buffer is never overrun |
| `Strftime.PutConversion` | libc/calendar.c:222-318 | one conversion letter appends exactly its expansion or reports failure; `%s` normalises a copy; what each expansion says is pinned letter by letter by the `StrftimeLaws` rows below |
| `Strftime.PutPiece` | libc/calendar.c:212-321 | one turn of the loop consumes one piece of the format and appends its text, never past the terminator; the pieces' meaning is `TrailingPercent`, `UnknownIsVerbatim` and `ModifiersAreIgnored` |
| `Strftime.Strftime` | libc/calendar.c:208-325 | all or nothing: if the full expansion has length L < max, returns L with exactly that text and a terminator, else 0; terminates, never reads past the format's NUL, never writes at or beyond max |
| `StrftimeLaws.ModifiersAreIgnored` | libc/calendar.c:219-220 | %E and %O before a letter change nothing |
| `StrftimeLaws.TrailingPercent` | libc/calendar.c:212-308 | text without a '%' expands to itself; a '%' at the very end, alone or after E or O and after any text, is emitted once; "%%" is one '%' |
| `StrftimeLaws.UnknownIsVerbatim` | libc/calendar.c:310-317 | every letter the formatter does not know is copied with its '%', undisturbed by what follows; only one E or O is skipped, so "%EE" is "%E" |
| `StrftimeLaws.FixedTexts` | libc/calendar.c:246-300 | the texts of %n, %t, %Z, %z and %% for every struct |
| `StrftimeLaws.CenturyAndYear` | libc/calendar.c:233-253 | %C%y is %Y if and only if the year is non-negative or a whole century |
| `StrftimeLaws.FullDate` | libc/calendar.c:266-272 | for canonical structs %F is %Y-%m-%d, nothing truncated, if and only if the year is not in -999..-1 |
| `StrftimeLaws.FullTime` | libc/calendar.c:273-285 | %T is %H:%M:%S and %R is %H:%M for canonical structs |
| `StrftimeLaws.AmericanDate` | libc/calendar.c:259-265 | for canonical structs %D is %m/%d/%y if and only if the year of the century is not in -9..-1 |
| `StrftimeLaws.DateAndTime` | libc/calendar.c:286-293 | for canonical structs %c is "%a %b %e %H:%M:%S " followed by a text that denotes the year, and from year 1000 on it is "%a %b %e %H:%M:%S %Y" |
| `StrftimeLaws.CompositesFitTheirBuffers` | libc/calendar.c:259-293 | for every struct, however far out of range, %D, %F, %R and %T are their fields joined and cut to 15, 23, 7 and 11 characters, and %c has at most 39 |
| `StrftimeLaws.DayFields` | libc/calendar.c:234-251 | for canonical structs the texts of %d, %e, %m, %j, %w and %u read back as mday, mday behind a blank, mon + 1, yday + 1, wday and wday with 7 on Sunday, in exactly 2, 2, 2, 3, 1 and 1 characters |
| `StrftimeLaws.TimeFields` | libc/calendar.c:236-248 | for canonical structs the texts of %H, %M and %S read back as the fields in exactly two characters |
| `StrftimeLaws.YearFields` | libc/calendar.c:233-253 | for every struct the texts of %Y, %C and %y read back as the year and its truncated quotient and remainder by 100, sign included |
| `StrftimeLaws.NumbersReadBack` | libc/calendar.c:190-206 | every zero-padded number reads back as the field it stands for, negative or out of range too |
| `StrftimeLaws.TwelveHourClock` | libc/calendar.c:237-247 | for canonical structs the text of %I is two characters reading back as the hour of the dial in 1..12, %p is AM before noon and PM after, and together they determine the hour |
| `StrftimeLaws.NamesAgree` | libc/calendar.c:163-177 | short names are the first three letters of the long ones; %u and %w agree modulo 7 |
| `StrftimeLaws.NamesByValue` | libc/calendar.c:163-177 | %A and %B by name for every struct: the seven days from Sunday, the twelve months from January, and Sunday or January for an index out of range |
| `StrftimeLaws.SecondsReadBack` | libc/calendar.c:294-298 | the text of %s denotes the instant if and only if its year fits tm_year |
| `StrftimeLaws.StampsSortAsInstants` | libc/calendar.c:208-253 | for years 0 to 9999 the texts of "%Y-%m-%d %H:%M:%S" sort exactly as the instants and determine them (RFC 3339 section 5.1) |
| `StrftimeLaws.AsctimeR` | libc/calendar.c:334-342 | the buffer receives the line cut to 25 characters, then the terminator, and nothing past byte 26; what the line holds is `AsctimeHolds`, `AsctimeNames` and `EpochLine` |
| `StrftimeLaws.AsctimeColumns` | libc/calendar.c:327-342 | for canonical structs always exactly 25 characters, the last a newline if and only if the year is in -999..9999 |
| `StrftimeLaws.AsctimeHolds` | libc/calendar.c:327-342 | for canonical structs with years -999..9999: weekday name in columns 0-2, month name in 4-6, the day as %e in 8-9, the time as "%H:%M:%S" in 11-18, a blank-padded text denoting the year in 20-23, blanks between, newline last |
| `StrftimeLaws.AsctimeNames` | libc/calendar.c:334-342 | for every struct the line begins with the weekday and the month name |
| `StrftimeLaws.EpochLine` | libc/calendar.c:71-342 | the line of instant 0 is "Thu Jan  1 00:00:00 1970" and a newline |
| `Workers.StepExclusion` | libc/pthread.c:454-466 | every instruction of every thread keeps mutual exclusion: the word is 0 exactly when nobody is inside, and never two are |
| `Workers.StepNoLostWakeup` | libc/include/vxmutex.h:79-113 | while anybody sleeps on the lock, the word is 2 or somebody awake is bound to exchange or to wake, even when a wake is spent on a thread whose park has just timed out |
| `Workers.StepInv` | apps/threadtest.c:90-99 | every step and every timeout keeps exclusion, no lost wakeup, the exact locked counter and the bound on the unlocked one (how often each store happens is `RoundsAreStores`) |
| `Workers.RoundsAreStores` | apps/threadtest.c:90-99 | in every run a worker's completed rounds are exactly the stores it made into the unlocked counter, and its credited increments exactly those it made under the lock: neither is skipped, contended or not |
| `Workers.ReturnedWorkersDidEveryRound` | apps/threadtest.c:90-99 | a worker that has returned made each of its two increments exactly `rounds` times |
| `Workers.LockedCounterAlwaysExact` | apps/threadtest.c:81-99 | in every reachable state the locked counter equals the increments completed, though load and store are separate steps |
| `Workers.LockedCounterExactAtJoin` | apps/threadtest.c:233-249 | when all workers have returned the locked counter is workers times rounds and the unlocked one at most that |
| `Workers.NoDeadlock` | libc/pthread.c:433-467 | unless all are done some thread can step without waiting for a timeout |
| `Workers.RunsAreBounded` | libc/pthread.c:433-467 | every run executes at most a fixed number of instructions plus three per timed-out park |
| `Workers.CanFinish` | apps/threadtest.c:225-250 | from every reachable state some run without a timeout completes |
| `Workers.EveryMaximalRunFinishes` | apps/threadtest.c:225-250 | a run in which no thread can step has all workers done and the counter exact |
| `Workers.UnlockedCounterCanFallShort` | apps/threadtest.c:84-88 | for any two or more workers and any rounds, some complete run leaves the unlocked counter strictly short |
| `Workers.UnlockedCounterExactIffUndisturbed` | apps/threadtest.c:84-99 | for every complete run the unlocked counter is workers times rounds if and only if no store fell between another worker's load and store |
| `Workers.UncontendedNeverWakes` | libc/pthread.c:423-527 | in every run in which nobody had to queue, the word is never 2 and no wake is issued |
| `Handshake.CounterExactOnceChildSeen` | apps/mutextest.c:125-162 | in every run, once the parent has finished and child_done is set the 32-bit counter is twice the rounds, and the verdict of lost updates is unreachable; which verdict is reached is the three rows below |
| `Handshake.NeverFinishedIffNotPublished` | apps/mutextest.c:145-156 | in every run the parent reports that the child never finished if and only if the child had not published before the check, and it then polled to its limit |
| `Handshake.JudgedMeansHeld` | apps/mutextest.c:158-162 | in every run a parent that judged reports that mutual exclusion held |
| `Handshake.SomeRunHolds` | apps/mutextest.c:125-162 | for every number of rounds and every poll limit some run reaches that report |
| `Barrier.SeesRelease` | libc/pthread.c:799-824 | a waiter finds the 32-bit generation changed exactly when its own generation was released, wrap-around included |
| `Barrier.StepInv` | libc/pthread.c:809-824 | every step and timeout keeps the arrival count, the generations and the no-lost-wakeup condition |
| `Barrier.NobodyLeavesEarly` | apps/threadtest.c:196-205 | in every run, through any number of rounds, a thread past round r implies every thread arrived in round r and a `before` count of at least (r+1) times the workers |
| `Barrier.EverybodySawEverybody` | apps/threadtest.c:303-308 | with one round, when all have returned barrier_after is the number of workers |
| `Barrier.AfterCountsFullSightings` | apps/threadtest.c:196-205 | in every run, through any number of rounds, barrier_after plus the records still pending is the number of reads that found exactly the worker count, never more than the workers |
| `Barrier.NoDeadlock` | libc/pthread.c:809-824 | unless all are done some thread can step without waiting for a timeout |
| `Barrier.RunsAreBounded` | libc/pthread.c:809-824 | every run executes at most a fixed number of instructions plus three per timed-out park |
| `Barrier.CanFinish` | apps/threadtest.c:303-306 | from every reachable state some run without a timeout completes |
| `Barrier.EveryMaximalRunFinishes` | apps/threadtest.c:303-306 | a run in which no thread can step has all workers done |
| `Ring.StepLockOk` | libc/pthread.c:433-527 | every instruction of either thread keeps mutual exclusion and announces every sleeper on the lock |
| `Ring.StepWaitMine` | libc/pthread.c:577-609 | a waiting side's own steps keep: the room it has is the signals since its snapshot of seq plus the one on its way, and it sleeps only on an unchanged seq |
| `Ring.StepWaitTheirs` | libc/pthread.c:619-642 | the partner's steps keep the same; a signal is never missed between unlock and park, and the wrapping sequence number never hides one |
| `RingData.StepInv` | apps/threadtest.c:141-168 | every step and timeout keeps lock, waits, counts, indices, slot contents and the values taken |
| `RingRuns.RingAlwaysConsistent` | apps/threadtest.c:131-168 | in every reachable state: count = produced - consumed within 0..capacity, tail and head are those counts modulo the capacity, the values added are exactly 1..k in order |
| `RingRuns.EveryMessageCrossesOnce` | apps/threadtest.c:270-281 | when both are joined the values consumed are 1..N in order, the sum is N(N+1)/2, the ring is empty |
| `RingRuns.SleepersHaveReason` | apps/threadtest.c:141-168 | whenever the lock is free, a sleeping producer faces a full ring and a sleeping consumer an empty one |
| `RingRuns.UncontendedNeverWakes` | libc/pthread.c:423-527 | in every run in which neither side had to queue for the lock, its word is never 2 and no unlock issues a wake |
| `RingRuns.SignalWakesOnlyWaiters` | libc/pthread.c:619-642 | in every reachable state a signal goes on to a wake if and only if the other side is counted as waiting |
| `RingRuns.NoDeadlock` | apps/threadtest.c:141-168 | unless both are done one side can step without waiting for a timeout |
| `RingRuns.RunsAreBounded` | apps/threadtest.c:141-168 | every run executes at most the measure of its start plus three instructions per timed-out park |
| `RingRuns.CanFinish` | apps/threadtest.c:270-281 | from every reachable state some run without a timeout completes, so the statements about joined threads are about runs that exist |
| `RingRuns.RunsFromStartAreBounded` | apps/threadtest.c:270-281 | from the start: at most 540 per message, 540 more, and three per timeout |
| `RingRuns.EveryMaximalRunFinishes` | apps/threadtest.c:270-281 | a run in which neither side can step has both done and every message delivered in order |

## Left out

- NULL arguments and errno, `tzset`, `localtime`, `ctime`, the shared static buffers and `difftime` of libc/calendar.c: they would only add easy members.
- `snprintf` inside `strftime` and `asctime_r` is its meaning (padded decimals, cut to the buffer), not a model of libc/stdio.c.
- The threads' shared globals are fields of a state value that the step functions replace, not heap locations: aliasing is not captured, and memory is sequentially consistent, so acquire and release orders are not told apart.
- `counter++`'s load and store are separate steps; `ring_count++`, `ring_count--` and `consumed_sum += v` are one step each, which mutual exclusion justifies.
- `counter`, `counter_racy`, `consumed_sum`, `barrier_before` and `barrier_after` do not wrap in the model; mutextest's 32-bit counter, the sequence and generation words and the barrier count do.
- The page of a futex word is never evicted while a thread sleeps on it; the missed wake that src/desktop.h:2133-2143 describes is covered only by the timeout steps.
- Cancellation and deadlines in `pthread_cond_wait`, recursive and error-checking mutexes, read-write locks, once, keys, semaphores and thread creation of libc/pthread.c.
- The uncontended and held-lock checks, `put_uint`, `say` and the elevation test of apps/mutextest.c.
- Thread-local storage, mmap, floating point, sorting and sleeping in apps/threadtest.c.
- The rest of the system: kernel, file systems, network, graphics and the ported libraries.
