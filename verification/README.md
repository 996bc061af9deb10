# SoraSense verification

A Dafny model of the parts of SoraSense whose correctness spans several functions or a whole run, with
proofs of what those parts promise. `dafny verify dfyconfig.toml` checks everything.

**Measurement delivery and alerting.** The device keeps one pending measurement, retries it with bounded
jittered backoff and schedules everything on a wrapping 32-bit millisecond counter (`WrappingClock`,
`RetryController`, `AppController`, `ClockService`). `DeviceRuns` proves what the log of queued and sent
measurements looks like in every run, `DeviceOutcomes` what each pass does in terms of its inputs. The
server accepts a measurement idempotently in a transaction that locks the device row and, for strictly newer
measurements, runs a two-metric hysteresis automaton (`MeasurementService`, `AlertService`).
`ConcurrentAcceptance` splits the transaction into lock, read, write and commit steps and proves every
interleaving equivalent to serial execution in lock order. `Delivery` joins the device loop, a lossy network
and those interleaved transactions. `MeasurementGaps` covers the reporting view over gaps, `DeviceConfig`
the checks on device id and server URL.

**Evidence pipeline.** `PeriodResolver` turns calendar expressions into half-open periods, `PeriodFates`
tells for each what becomes of it and what it holds, `PeriodRanges` for whole questions, `GregorianCalendar`
that the calendar is the usual one, `QueryService` aggregates measurements over them in Tokyo buckets,
`ReadOnlyTools` records bounded tool calls, `Validation` accepts an answer only if its numbers, units and
dates come from that record, `ValidationSoundness`, `UnitChecking`, `Labels` and `AlertValues` prove what an
accepted answer is worth, `AnswerMeaning` what its parts mean, `AcceptedAnswers` when it is accepted, word
by word, `RaisingChecks` shows candidates that are neither accepted nor refused, `Fallback` and
`FallbackPrinter` print an answer that this check always accepts, `FallbackMeaning` says with which numbers,
and `AgentService` ties them together for one question. `AgentRecords` holds the shared data types, `Common`
and `Decimals` names and rounding that several parts use.

**In-process stores.** `LoginRateLimit` and `LoginRuns` model the sliding-window login limiter,
`SessionStore` the sessions with their one-time form tokens.

Code that changes fields in place is a class or a method with loops, proved against a function of the old
state; the results about whole runs are lemmas about those functions. A run is a sequence of states linked
by steps; ghost histories (true time, logs of failures, uses of tokens) carry what the program itself
forgets. Times are integers (milliseconds on the device, microseconds elsewhere), decimals are reals with
explicit rounding, and 32-bit arithmetic is reduced modulo 2^32 wherever the firmware's is.

Where the code does less than one might expect, the model keeps the code and a lemma says exactly when the
expectation holds:

- The alert automaton judges the value that was sent, not the NUMERIC(5,2) value that is stored, so a breach
  can be invisible in the stored rows, and with thresholds of more decimals a stored row can look like a
  breach that never was (`StoredRowsCanHideABreach`, `StoredRowsCanInventABreach`,
  `StoredValueMisjudgesExactly`).
- A hysteresis below 0.005 passes the settings and rounds to zero in its column, where a CHECK demands more:
  every measurement that would open an alert is then refused, on every retry; that happens exactly when the
  thresholds leave a receivable value beyond them (`RefusalExactly`).
- The check of an answer can end in an exception that it does not turn into its own: on a calculated result of
  10^26 or more, on a superscript digit in a path, on a signalling NaN, on an absurd exponent. The run then
  fails as if the backend were unavailable, and nothing is printed from its records (`ValidateAndBuildDisplay`,
  `Judge`, `HugeResultFailsTheRun`).
- The limit on failed logins holds in every run if and only if a lock lasts at least a window; the settings
  admit shorter locks (`ShortLockBreaksBound`, `BoundHoldsExactlyWithLongLock`).
- A clock left unsynchronised for 2^32 ms is trusted again (`UnsynchronizedClockRevives`,
  `ValidityIsWrongExactly`).
- Shifting by months can invert the order of two moments of the same month (`ShiftCanInvertOrder`,
  `ShiftKeepsOrderExactly`), and last year can never resolve on its own (`LongExpressionsNeverResolve`).
- `resolve` turns a ValueError into "no period" but lets an OverflowError escape: for the first and the last day
  of the calendar, and for expressions that reach back too far (`ResolveRaisesExactly`, `EndsOfTheCalendarRaise`,
  `ManyPastHoursRaise`).
- A number followed by the Celsius sign is not checked against the temperature values, because the sign is
  decomposed before units are compared (`UnitIsCheckedExactly`), and a whole number that touches a Latin letter,
  as in 28C, is not checked at all (`GluedNumbersAreUnchecked`).
- Thresholds, trigger values and hysteresis of alerts never get their metric's label or unit, because the check
  knows metrics by lower-case names and the alert table writes them in upper case (`AlertValuesHaveNoUnit`,
  `MetricIsTakenExactly`); so a threshold of 28 does not back the number in 28度, and a temperature threshold may
  be subtracted from a humidity threshold (`UnitsNeverComeFromAlerts`, `AlertValuesCountAsOneUnit`).

## Model

| member | source | states |
|---|---|---|
| WrappingClock.DeadlineIsExact | firmware/src/retry_controller.cpp:11-13 | the signed test on the wrapped counter agrees with true time within 2^31 ms on either side |
| WrappingClock.DeadlineIsNeverEarly | firmware/src/app_controller.cpp:16-18 | a deadline at most 2^31 ms ahead is never reported before its true time, however rarely it is polled |
| WrappingClock.ElapsedIsExact | firmware/src/clock_service.cpp:64-71 | the unsigned age equals the true age if and only if that fits in 32 bits |
| WrappingClock.AgeTestIsExact | firmware/src/sensor_freshness.cpp:5-15 | an age limit on the counter agrees with true time exactly when an exceeded true age does not come back under the limit modulo 2^32 |
| Retrying.IntervalIsBounded | firmware/src/retry_controller.cpp:75-93 | for every reachable retry no 32-bit step wraps: the wait is the exact doubling plus at most a fifth, within five minutes, lengthened only by the server's own wait of at most a day |
| Retrying.RetryDeadlineIsExact | firmware/src/retry_controller.cpp:33-35 | after a retry is scheduled the controller is not due before the wait has truly passed and is due at any poll in the 24 days after |
| Retrying.JitterIsExact | firmware/src/retry_controller.cpp:80-87 | the jitter is the random word modulo a fifth of the wait and one |
| Retrying.BackoffTable | firmware/src/retry_controller.cpp:75-79 | the six waits without jitter, from 5 to 160 seconds |
| Retrying.RemainderIsModulo | firmware/src/retry_controller.cpp:75-93 | the remainder that the jitter is computed with is the modulo of the 32-bit operands |
| Retrying.RetryController.Replace | firmware/src/retry_controller.cpp:23-27 | the new measurement takes the slot with a fresh retry count and is due at once |
| Retrying.RetryController.IsDue | firmware/src/retry_controller.cpp:33-35 | true exactly when a measurement is pending and its deadline is reached |
| Retrying.RetryController.ApplyResult | firmware/src/retry_controller.cpp:49-95 | ignores a result for another message, drops the slot on success, refusal, authentication failure or the seventh failure, and otherwise schedules the next attempt |
| Application.AppController.CatchUp | firmware/src/app_controller.cpp:157-159 | the catch-up loop ends, on the first interval end after now, having added exactly the missed intervals |
| Application.AppController.UpdateMeasurement | firmware/src/app_controller.cpp:153-211 | measures only when scheduled, queues only a valid reading with valid time while transmission is not stopped |
| Application.AppController.SendPending | firmware/src/app_controller.cpp:213-241 | sends exactly the pending measurement, only when due, connected, with valid time and not stopped, and applies the result at the time it arrives |
| Application.AppController.UpdateDisplay | firmware/src/app_controller.cpp:270-284 | leaves the initial state once sensor, network and clock are all ready, and changes nothing else |
| Application.AppController.Update | firmware/src/app_controller.cpp:61-74 | one pass of the loop is measurement, then sending, then display, on the same instant |
| Application.UpdateKeepsValid | firmware/src/app_controller.cpp:61-74 | every pass keeps a pending measurement behind the pending and waiting states and the retry count within its limit |
| DeviceRuns.AttemptsAreBoundedAndSpaced | firmware/src/app_controller.cpp:213-268 | in every run each message id is sent at most seven times, always with the payload it was queued with, again only after no response, 429 or a server error, the k-th retry no sooner than 5000 * 2^(k-1) ms, nor than the wait of a 429, after the result before it |
| DeviceRuns.AuthenticationFailureIsFinal | firmware/src/app_controller.cpp:213-268 | in every run a pending or waiting state has a measurement behind it, and after one 401 or 403 nothing is queued or sent again |
| DeviceRuns.StateNamesLastEvent | firmware/src/app_controller.cpp:243-268 | in every run the state names the last thing that happened: PendingSend follows the queueing of the pending measurement, RetryWait its transient failure, and TRANSMISSION_STOPPED holds exactly when the last event is a 401 or 403 |
| DeviceRuns.ScheduleNeverDrifts | firmware/src/app_controller.cpp:153-159 | in every run the next measurement stands a whole number of minutes after the start, however irregular the passes |
| DeviceRuns.PassMeetsSchedule | firmware/src/app_controller.cpp:153-159 | in every run that comes round at least once every 2^31 ms a pass measures exactly when the true schedule is reached, and the next measurement always stands in (now, now + 60000] |
| DeviceRuns.RunsContinue | firmware/src/app_controller.cpp:61-74 | every run can be extended by any pass: the loop never reaches a state it cannot handle |
| DeviceRuns.ExtendIsUpdate | firmware/src/app_controller.cpp:61-74 | one step of a run is one call of update, in state and in events |
| DeviceOutcomes.PassInPlainTerms | firmware/src/app_controller.cpp:153-268 | in every run, without the program's own names: a pass queues exactly when its minute has come and sensor and clock are good, and then that pass's reading; it sends exactly when connected with valid time and a measurement is new or due; the status decides what becomes of it and when the next attempt is due |
| DeviceOutcomes.TransientFailuresAreRetried | firmware/src/send_result.cpp:10-24 | in every run an attempt without response, with 429 or with 500 to 599 leaves the same measurement pending in RetryWait unless it was the seventh |
| DeviceTime.EmittedTimeNeverGoesBack | firmware/src/clock_service.cpp:73-92 | whatever NTP answers, the UTC seconds handed out in a run never decrease |
| DeviceTime.ClockIsExact | firmware/src/clock_service.cpp:64-92 | within 2^32 ms of the last synchronisation validity ends exactly after 24 hours, resynchronisation starts exactly after 6, and the time read is the synchronised time plus the true elapsed seconds |
| DeviceTime.ClockGoesByLastAnswer | firmware/src/clock_service.cpp:37-58 | in every run the clock is synchronised exactly when an answer of 2021 or later came, and goes by the last such answer and its time |
| DeviceTime.ValidityIsWrongExactly | firmware/src/clock_service.cpp:69-71 | at any moment of a run validity differs from the true 24 hours exactly when the true age is at least 2^32 ms and its remainder is within 24 hours |
| DeviceTime.UnsynchronizedClockRevives | firmware/src/clock_service.cpp:69-92 | a run of two steps: a clock synchronised once and read 2^32 ms later hands out the time of its synchronisation, 49.7 days slow |
| DeviceTime.ClockService.UtcNow | firmware/src/clock_service.cpp:73-92 | no time unless valid; otherwise never less than what was emitted before |
| DeviceTime.ClockService.Update | firmware/src/clock_service.cpp:37-58 | an implausible answer is dropped, a plausible one synchronises, silence ends the request after 30 seconds |
| DeviceTime.OfferedReadingsAreFresh | firmware/src/sensor_freshness.cpp:17-58 | in every run polled within 2^32 ms less 5 s a reading is offered exactly while its true age is at most five seconds |
| DeviceTime.SensorFreshnessTracker.InvalidateIfExpired | firmware/src/sensor_freshness.cpp:37-43 | retires the sensor exactly when it is ready and its reading is too old |
| DeviceSettings.ParseNumber | firmware/src/device_config.cpp:21-40 | accepts exactly a non-empty run of digits denoting at most the maximum and stops behind it, without wrapping or reading past the terminator |
| DeviceSettings.PrivateExactly | firmware/src/device_config.cpp:42-46 | the octet test is membership in the three address blocks of RFC 1918, section 3 |
| DeviceSettings.IsValidLocalHttpUrl | firmware/src/device_config.cpp:48-75 | refuses a null pointer, and of texts accepts exactly the scheme, four octets, a numeral equal to 8000 and trailing slashes, with a private address |
| DeviceSettings.ReadOctets | firmware/src/device_config.cpp:54-65 | the octet loop fails only if no URL of the language is in the buffer, and otherwise has read the octets that every such URL starts with |
| DeviceSettings.RestDecides | firmware/src/device_config.cpp:67-74 | after the octets, port, slashes and private address decide membership |
| DeviceSettings.IsValidDeviceId | firmware/src/device_config.cpp:77-94 | accepts exactly the regular language of the backend's device table |
| DeviceSettings.DeviceIdShape | app/models/device.py:10 | that language is: at most 64 lower-case letters, digits and hyphens, with no hyphen at either end |
| Alerting.AlertService.FindOpenRow | app/services/alert_service.py:54-54 | finds the open row of a metric, if there is one |
| Alerting.AlertService.EvaluateOne | app/services/alert_service.py:43-80 | continues, resolves or opens an alert of one metric |
| Alerting.AlertService.EvaluateBoth | app/services/alert_service.py:24-41 | evaluates temperature, then humidity, of one measurement |
| Alerting.ReplayKeepsTimelines | app/services/alert_service.py:54-80 | after any sequence of evaluations each metric's alerts are ordered without overlap, at most the last is open, RESOLVED goes with a resolution time, and neighbours touch only when the direction flips |
| Alerting.AtMostOneOpen | app/models/alert.py:46-69 | at most one alert of a metric is open |
| Alerting.FlushOrderCannotViolateIndex | app/models/alert.py:46-69 | the partial unique index holds before, between and after the insert and the update, in either order |
| Alerting.OpenIffUnrecoveredBreach | app/services/alert_service.py:82-98 | an alert of a direction is open if and only if some value breached the threshold and every value since stayed short of recovery |
| Alerting.AlertsInPlainTerms | app/services/alert_service.py:82-98 | the same by the temperatures, the humidities and the numbers of the settings alone, for the table's open rows |
| Alerting.OpenRowsInPlainTerms | app/services/alert_service.py:54-80 | every open row holds, in column precision, the threshold that its earliest unrecovered breach crossed, the value that crossed it and the hysteresis, its time as start and the latest evaluation as last detection |
| Alerting.ReplayExplained | app/services/alert_service.py:54-80 | the open row is the one that its earliest unrecovered breach wrote, its three values in column precision, with the last detection at the latest evaluation |
| Alerting.InsertsHoldExactly | app/models/alert.py:45-45 | the CHECK on the hysteresis column holds after an evaluation exactly when no alert is opened whose hysteresis rounds to zero |
| Acceptance.MeasurementService.Accept | app/services/measurement_service.py:56-107 | for an unknown device, a known message, a new message, a row that the table refuses, and each way the connection may fail before or after the lookup: the reply, and the exact database after it; after CREATED one row is added, with the id and time of the request and each of its values rounded to its own column |
| Acceptance.AcceptAllMeaning | app/services/measurement_service.py:56-93 | after any sequence of accepts the rows are the requests taken, the last evaluated time is the latest stored one, and the alerts are a fold over the strict running maxima alone |
| Acceptance.RowsKeepRequests | app/services/measurement_service.py:70-79 | after any sequence of accepts each row has the id, the time and the rounded temperature and humidity of the request it was taken from |
| Acceptance.FirstArrivalsAreTaken | app/services/measurement_service.py:65-79 | unless a hysteresis rounds to zero, the requests taken are exactly the first arrivals of each message id |
| Acceptance.RefusalExactly | app/services/measurement_service.py:94-102 | a measurement that passes the request schema can be refused by the alert table, on every retry, exactly when for some metric the hysteresis is below 0.005 and the thresholds leave a receivable value beyond them |
| Acceptance.MaximaAreStrictlyLater | app/services/measurement_service.py:80-91 | the running maxima are strictly increasing in time, so the automaton never sees time stand still |
| Acceptance.RunningMaximaExactly | app/services/measurement_service.py:80-83 | a request is a running maximum exactly when it was measured later than every one taken before |
| Acceptance.OpenAfterAcceptances | app/services/alert_service.py:43-98 | after any sequence of accepts an alert is open if and only if some running maximum breached and every one since has not recovered |
| Acceptance.AlertsAfterAcceptances | app/services/alert_service.py:43-98 | after any sequence of accepts, by values and thresholds alone: a LOW alert of the temperature is open exactly when some running maximum was below the lower threshold and none since reached it plus the hysteresis; HIGH alerts and humidity likewise |
| Acceptance.TimelinesAfterAcceptances | app/services/measurement_service.py:80-92 | after any sequence of accepts each metric's alerts form one timeline |
| Acceptance.AcceptIsIdempotent | app/services/measurement_service.py:65-69 | accepting a request twice leaves the same database as accepting it once, and its message is then known unless the table refused it |
| Acceptance.LateArrivalsNeverMatter | app/services/measurement_service.py:80-83 | leaving a late measurement out changes no alert and no evaluated time, whatever is accepted afterwards |
| Acceptance.StoredRowsCanHideABreach | app/services/measurement_service.py:70-90 | 9.996 degrees opens an alert against a threshold of 10 and is stored as 10.00 |
| Acceptance.StoredRowsCanInventABreach | app/services/measurement_service.py:70-90 | against a threshold of 10.004 the value 10.0045 is normal while its stored value 10.00 would breach |
| Acceptance.StoredJudgementExactly | app/services/measurement_service.py:70-90 | for all thresholds, how the stored value would be judged, as two midpoints between hundredths of the sent value |
| Acceptance.StoredValueMisjudgesExactly | app/services/measurement_service.py:70-90 | for all thresholds, judging the stored value differs exactly for the sent values between a threshold and the midpoint next to it: the intervals of hidden and of invented breaches |
| Acceptance.TwoDecimalThresholdsOnlyHide | app/services/measurement_service.py:70-90 | with thresholds of two decimals breaches are only hidden, exactly when the sent value breaches and rounds onto the threshold |
| Acceptance.StoredRecoveryMisjudgesExactly | app/services/alert_service.py:82-87 | whether the stored value would keep an alert open differs from the sent value exactly between the level of recovery and the midpoint next to it |
| Acceptance.StoredRowsCanLookRecovered | app/services/alert_service.py:82-87 | 10.496 keeps an alert open that recovers at 10.5 and is stored as 10.50, which would not |
| ConcurrentAcceptance.EveryInterleavingIsSerial | app/services/measurement_service.py:59-102 | every interleaving of transactions leaves each device as running the effective calls one at a time in lock order, with the results they would have had |
| ConcurrentAcceptance.SerialIsSequence | app/services/measurement_service.py:59-102 | that serial result is a sequence of accepts, so everything proved of sequences holds of concurrent histories |
| ConcurrentAcceptance.DuplicateKeyBranchIsUnreachable | app/services/measurement_service.py:94-102 | while every writer takes the row lock the unique constraint never fires |
| ConcurrentAcceptance.CreatedRepliesCountRows | app/services/measurement_service.py:92-93 | the rows added equal the CREATED replies plus the commits whose reply was lost |
| Delivery.DeliveryIsExactlyOnce | app/services/measurement_service.py:59-102 | in every run of the device over interleaved server transactions with loss, delay and failure the server holds one row per message id, the row of a queued message has the id, time and rounded temperature and humidity that the device created, and every measurement dropped as accepted has such a row |
| Delivery.AcknowledgedAfterCommit | firmware/src/send_result.cpp:5-26 | at the moment the device drops a measurement as accepted its row is already committed, by a transaction that had finished |
| Delivery.RepliesAreUnderstood | app/api/measurement_router.py:136-161 | the device takes the endpoint's answers for what they are: a call that returned is accepted, one that did not is retried |
| Delivery.DeviceSideIsARun | firmware/src/app_controller.cpp:61-74 | the device side of every such run is a run of the device loop |
| Delivery.ServerSideIsARun | app/services/measurement_service.py:59-102 | the server side of every such run is a run of interleaved transactions |
| Delivery.EndToEnd | app/services/measurement_service.py:59-102 | in every such run each message is sent at most seven times, spaced and with one payload, and the server's data is that of accepting the effective calls one after the other in lock order |
| MeasurementGaps.EstimateIsSuperadditive | alembic/versions/20260818_0005_reporting_create_reporting_views.py:66-71 | splitting an interval never raises the estimate of missing measurements |
| MeasurementGaps.LateMeasurementNeverAddsMissing | alembic/versions/20260818_0005_reporting_create_reporting_views.py:52-74 | storing any measurement within the stored range never raises the device's total estimate |
| MeasurementGaps.LateMeasurementsNeverAddMissing | alembic/versions/20260818_0005_reporting_create_reporting_views.py:52-74 | nor does storing any number of them, in any order |
| MeasurementGaps.LaterMeasurementAddsItsGap | alembic/versions/20260818_0005_reporting_create_reporting_views.py:52-74 | a measurement after the range raises the total by exactly its own gap's estimate |
| MeasurementGaps.NoGapsExactly | alembic/versions/20260818_0005_reporting_create_reporting_views.py:72-73 | the view is empty if and only if no two neighbours are more than 90 seconds apart |
| MeasurementGaps.GapsInPlainTerms | alembic/versions/20260818_0005_reporting_create_reporting_views.py:62-73 | one row for each pair of neighbours more than 90 seconds apart, with the distance to the nearest second and one missing measurement for each whole minute but the last, at least one |
| MeasurementGaps.InsertedIsPermutation | alembic/versions/20260818_0005_reporting_create_reporting_views.py:55-57 | placing a measurement in time order loses and invents nothing |
| MeasurementGaps.InsertedAllIsPermutation | alembic/versions/20260818_0005_reporting_create_reporting_views.py:55-57 | nor does placing several |
| Querying.BucketContains | app/repositories/query_repository.py:64-80 | an instant lies in the half-open bucket of its own index and in no other |
| Querying.SeriesPartitionsRows | app/repositories/query_repository.py:50-97 | the series' buckets are disjoint and increasing, and every row of the period lies in one of them |
| Querying.SeriesCombinesToStatistics | app/repositories/query_repository.py:26-97 | the buckets combine to the statistics of the whole period in count, sum, minimum and maximum |
| Querying.EstimateCountsTouchedBuckets | app/services/query_service.py:219-228 | the estimate is exactly the number of buckets that the half-open period touches |
| Querying.PointsWithinEstimate | app/services/query_service.py:78-81 | whatever is stored, a period yields at most as many points as estimated |
| Querying.GetMeasurementSeries | app/services/query_service.py:68-103 | refuses exactly the bad periods and those over 500 buckets, and otherwise returns one point for each bucket, at most 500; each point is a whole hour or day of Tokyo time with the statistics of exactly the rows of the period in it, and every row lies in one |
| Querying.PointsReport | app/repositories/query_repository.py:50-97 | each point reports its temperatures as temperatures and its humidities as humidities: how many, the least, the greatest, and the sum over the number rounded to two decimals |
| Querying.StatisticsReport | app/services/query_service.py:48-66 | so do the statistics of a period, of exactly the rows of the half-open period |
| Querying.ComparisonReports | app/services/query_service.py:105-133 | so do both sides of a comparison, and each difference is how far the two displayed averages of its own metric are apart |
| Querying.PeriodIsAcceptedExactly | app/services/query_service.py:161-175 | a period is accepted exactly when both ends have a time zone and lie more than nothing and at most 90 days apart |
| Querying.AggregateExtremes | app/repositories/query_repository.py:31-48 | minimum and maximum are attained by rows and bound every row |
| Decimals.Numeric2IsNearest | app/services/query_service.py:206-210 | rounding gives whole hundredths at most half a hundredth away, further from zero when two are equally near, and nothing else does |
| Decimals.HundredthsAreWhole | app/services/query_service.py:206-210 | the values that rounding leaves as they are are exactly the whole hundredths |
| Querying.DisplayedAverageIsWithinRange | app/services/query_service.py:196-211 | the rounded average still lies between the displayed minimum and maximum |
| Querying.DisplayedDifferenceIsExact | app/services/query_service.py:212-217 | the compared difference is exactly the difference of the two displayed averages |
| Querying.ComparisonIsExact | app/services/query_service.py:105-133 | a comparison is available if and only if both periods hold a measurement, and then each difference is exactly that of the two displayed averages |
| PeriodResolving.ReturnedPeriodsAreAccepted | app/agent/period_resolver.py:52-93 | whatever is returned has the expected number of periods, each non-empty and at most 90 days, and the query service accepts each |
| PeriodResolving.MonthPeriodIsTheMonth | app/agent/period_resolver.py:149-157 | an explicit month holds exactly the instants dated in that month |
| PeriodResolving.LastMonthIsTheMonthBefore | app/agent/period_resolver.py:112-116 | last month holds exactly the instants dated one month before the current one |
| PeriodResolving.DayPeriodIsTheDay | app/agent/period_resolver.py:140-147 | an explicit day holds exactly the instants with that date |
| PeriodResolving.WeeksStartOnMonday | app/agent/period_resolver.py:103-111 | last week is seven days from a Monday, last weekend its Saturday and Sunday, and now lies in the week after |
| PeriodResolving.ShiftIsEarlier | app/agent/period_resolver.py:177-184 | a negative shift always gives an earlier moment |
| PeriodResolving.ShiftDistance | app/agent/period_resolver.py:177-184 | going back moves between 28 and 31 days a month, at most three more where the day is cut, at the same time of day |
| PeriodResolving.YearsAreTwelveMonths | app/agent/period_resolver.py:187-192 | shifting by years is shifting by twelve months each, errors included |
| PeriodResolving.ShiftsAddExactly | app/agent/period_resolver.py:177-184 | two shifts make one if and only if the month passed through did not cut the day below what the last month allows |
| PeriodResolving.ShiftsAddUpToDay28 | app/agent/period_resolver.py:177-184 | on days up to 28 shifts always add |
| PeriodResolving.ShiftCanInvertOrder | app/agent/period_resolver.py:177-184 | 30 March 23:00 and 31 March 01:00 change order when shifted back by a month |
| PeriodResolving.ShiftKeepsOrderExactly | app/agent/period_resolver.py:177-184 | order is kept if and only if the two are not cut to one day with the earlier day at the later time |
| PeriodResolving.LongExpressionsNeverResolve | app/agent/period_resolver.py:117-137 | last year, any past years and four or more past months never resolve on their own |
| PeriodResolving.TwoMonthsAlwaysResolve | app/agent/period_resolver.py:133-138 | one or two past months always resolve from year 2 on |
| PeriodFates.TokenFate | app/agent/period_resolver.py:95-170 | a table for every expression at every moment: exactly when reading it overflows, when it is refused, when its period begins before the first UTC moment and when it is longer than 90 days |
| PeriodFates.ResolveRaisesExactly | app/agent/period_resolver.py:52-93 | for every question and expected count an OverflowError escapes exactly when some expression overflows and those before it are read, or all are read and the period checked against the limit begins too early for UTC |
| PeriodFates.EndsOfTheCalendarRaise | app/agent/period_resolver.py:140-147 | 0001-01-01 and 9999-12-31 escape as an overflow whenever they are asked for |
| PeriodFates.ManyPastHoursRaise | app/agent/period_resolver.py:123-138 | a hundred million past hours and three thousand million past years escape as an overflow, two thousand million past years do not |
| PeriodFates.SingleExpression | app/agent/period_resolver.py:52-93 | whether a question with one expression resolves, is refused or raises, for every expression, as an if-and-only-if |
| PeriodFates.NinetyDaysDecide | app/agent/period_resolver.py:86-93 | past months resolve exactly while they go back at most 90 days, this year exactly until 90 days after its first midnight |
| PeriodFates.PeriodsHoldWhatTheySay | app/agent/period_resolver.py:95-170 | the period of every expression holds exactly the instants that the expression names, told by date: this day, the day before, this or last week, weekend, month or year, so many hours back |
| PeriodFates.AdjacentPeriodsTile | app/agent/period_resolver.py:97-121 | the day before, yesterday and today, last and this week, last and this month, last and this year tile the past: each instant before now, back to the start of the earlier one, lies in exactly one of them |
| PeriodRanges.ResolvedPeriodsSayWhatIsAsked | app/agent/period_resolver.py:71-84 | whatever a question resolves to holds exactly what its expressions cover: the one, each of two that are compared in question order, or all from the start of the first to the end of the second of a range |
| PeriodRanges.DateRangeHoldsItsDays | app/agent/period_resolver.py:73-81 | a range between two dates holds exactly the moments dated neither before the first nor after the second |
| PeriodRanges.DateRangeResolvesExactly | app/agent/period_resolver.py:73-93 | such a range resolves exactly when the first date is not after the second, they span at most 90 days and neither end falls off the calendar |
| PeriodRanges.ComparisonResolvesExactly | app/agent/period_resolver.py:82-93 | two compared expressions resolve exactly when each would on its own |
| GregorianCalendar.DayNumberIsGregorian | app/agent/period_resolver.py:177-192 | the sums of month lengths agree with the closed form of the Gregorian calendar, leap years included |
| GregorianCalendar.AMonday | app/agent/period_resolver.py:103-111 | weeks start where a known Monday lies |
| AnswerValidation.ValidateAndBuildDisplay | app/agent/validation.py:63-126 | returns exactly for acceptable candidates, and then shows the answer, the period and one canonical line for each item of evidence; ends in an exception that is not its own exactly when all before passes and it reaches digits that are no number, a signalling NaN, a value too large to be rounded or an exponent out of range |
| AcceptedAnswers.AcceptedExactly | app/agent/validation.py:63-126 | a candidate is accepted exactly when each item of evidence, each calculation and each word of its text passes, a cited record has its status and a cited record its period: a number stands in the evidence or is a result, with a recognised unit one of that unit; a date renders, in UTC or Tokyo time, a timestamp of the evidence or an end of the period |
| AnswerValidation.CheckItem | app/agent/validation.py:79-103 | one item passes exactly when its call, path, value, label, unit and timestamp agree with the history, and raises another exception exactly on unreadable digits or a signalling NaN |
| AnswerValidation.PathEscapesExactly | app/agent/validation.py:139-152 | resolving a path raises ValueError exactly when some prefix leads to a list and is followed by digits that are no number |
| AnswerValidation.CheckEvidence | app/agent/validation.py:79-104 | the evidence loop passes exactly when every item does, and collects their values by unit, instants, sources and lines |
| AnswerValidation.ValidateCalculation | app/agent/validation.py:210-245 | a calculation passes exactly when it reads two values of one unit, states its operation's formula and agrees with it to two decimals; it raises another exception exactly on unreadable digits, or when the formula or the result has more than 28 digits after rounding; an accepted result agrees with the distance of the two values or with the percentage that leads from the first to the second |
| AnswerValidation.ReproducibleInPlainTerms | app/agent/validation.py:210-245 | a calculation is accepted exactly when its result rounds like a non-negative d with first + d = second or second + d = first, or like a p with first + first * p / 100 = second |
| AnswerValidation.QuantizableExactly | app/agent/validation.py:243-244 | a value can be rounded to two decimals exactly when it lies more than half a hundredth within 10^26 on either side of zero |
| AnswerValidation.ValidatePeriod | app/agent/validation.py:248-281 | a period passes exactly when it is absent or is the period of one relevant call |
| AnswerValidation.MaskVerifiedDatetimes | app/agent/validation.py:313-326 | fails exactly on a date that renders no allowed instant, and otherwise leaves the numbers that the scanner still sees |
| AnswerValidation.ValidateAnswerNumbers | app/agent/validation.py:295-310 | passes exactly when every number left is among the values allowed for its recognised unit, or among all values when it has none; raises exactly on an exponent out of range before any number that is not allowed |
| AnswerSoundness.NumbersAreGrounded | app/agent/validation.py:63-126 | every number found in an accepted answer is a value at a displayable path of a recorded result, or equals, rounded to two decimals, an allowed formula on two recorded values of one unit; a number with a recognised unit is of that unit |
| AnswerSoundness.DatesAreGrounded | app/agent/validation.py:313-326 | every date in an accepted answer renders an instant that a tool returned or an end of a period that a tool was asked for |
| AnswerSoundness.AnswersAreGrounded | app/agent/validation.py:63-126 | every number and every date or time in the text of an accepted answer is grounded in the history |
| AnswerSoundness.ShownEvidenceIsRecorded | app/agent/validation.py:79-104 | the evidence shown is one line for each item, whose label, unit and value are those of a recorded path |
| AnswerMeaning.FetchIsByNumber | app/agent/validation.py:129-136 | in a history numbered from one a call number names the call of that number and nothing else |
| AnswerMeaning.MeaningInPlainTerms | app/agent/validation.py:155-191 | apart from alert values a path has a label and a unit exactly by the last two components: which metric, which statistic, degrees, per cent or items |
| AnswerMeaning.MentionsIsReachable | app/agent/validation.py:87-91 | a result mentions a timestamp exactly when some path leads to it |
| AnswerMeaning.ResultMentionsItsMoments | app/schemas/query.py:48-123 | the moments that a tool's result mentions are those at which its measurement was made and received, of its period and buckets, and of each alert the start, the last detection and the resolution |
| AnswerMeaning.RenderingIsByTheCalendar | app/agent/validation.py:329-380 | a date or time text renders an instant exactly when it says the date and the hour, minute and second of the calendar there |
| AnswerMeaning.IsoTextIsItsSecond | app/agent/validation.py:329-340 | an ISO text renders exactly the instants of its second in its own zone |
| AnswerMeaning.RecordedPeriodIsTheQuestions | app/agent/validation.py:268-281 | the period that a record vouches for is the resolved period of its call, or the first or second of a comparison |
| AnswerMeaning.LatestPeriodIsItsMoment | app/agent/validation.py:265-267 | a latest measurement vouches for its own moment only |
| AnswerMeaning.PeriodIsOfACitedCall | app/agent/validation.py:105-112 | the period of an accepted answer belongs to a call that its evidence cites, if it has any |
| Labels.LabelsAreUnambiguous | app/agent/validation.py:37-48 | of all canonical texts and aliases one text only is admitted for two labels, the plain measurement count, and that for the counts of the two metrics |
| AlertValues.MetricIsTakenExactly | app/agent/validation.py:181-191 | a threshold, trigger or hysteresis value takes a metric's label and unit exactly when the metric is written as one of the two lower-case names, and otherwise has neither |
| AlertValues.AlertValuesHaveNoUnit | app/agent/validation.py:158-191 | in every record that a tool leaves, at every path, an alert's value has no metric and no unit: the alert table writes its metrics in upper case |
| AlertValues.AlertValueIsCitable | app/agent/validation.py:181-191 | each of the three values of each recorded alert can be read, without metric and unit |
| AlertValues.AlertWordsAreRead | app/schemas/query.py:102-114 | the direction and the status read from a recorded alert are those of its row |
| AlertValues.UnitsNeverComeFromAlerts | app/agent/validation.py:295-310 | an accepted number with a recognised unit is a value of that unit at a path that is no alert value, a difference of two such, or, as a percentage, a change between two recorded values |
| AlertValues.AlertValuesCountAsOneUnit | app/agent/validation.py:210-245 | two alert values, even of different metrics, count as values of one unit: a calculation on them passes exactly when its arithmetic is right |
| AnswerSoundness.HalfEvenIsNear | app/agent/validation.py:243-244 | rounding to two decimals gives a nearest hundredth, the even one of two equally near |
| UnitChecking.UnitIsCheckedExactly | app/agent/validation.py:295-310 | over the records that the tools leave, the unit that a reader sees is checked for a suffix if and only if the suffix is not the Celsius sign |
| UnitChecking.GluedNumbersAreUnchecked | app/agent/validation.py:21-24 | a whole number that touches a Latin letter can be put anywhere into an answer, with any value, and the check decides as before |
| RaisingChecks.HugeResultRaises | app/agent/validation.py:243-244 | a calculation that reads recorded values and states 10^30 as its result ends the check in another exception |
| RaisingChecks.SuperscriptRaises | app/agent/validation.py:144-147 | so does evidence whose path ends in a superscript digit behind a list |
| RaisingChecks.SignallingNaNRaises | app/agent/validation.py:195-200 | so does evidence that states a signalling NaN for a recorded number |
| RaisingChecks.HugeExponentRaises | app/agent/validation.py:300-302 | so does an answer with an exponent that no decimal has |
| RaisingChecks.HugeResultFailsTheRun | app/agent/service.py:174-181 | a run that is answered with that huge result fails with AI_UNAVAILABLE, although a record was there to print from |
| AnswerSoundness.EqualQuantaAreNear | app/agent/validation.py:243-244 | results that agree after rounding to two decimals differ by at most 0.01 |
| VerifiedFallback.SamplingIsEven | app/agent/fallback.py:196-205 | more than twelve points are sampled at exactly twelve strictly increasing indices from the first to the last, whose gaps take at most two consecutive values |
| VerifiedFallback.NearestIsUnique | app/agent/fallback.py:202-205 | no quotient by eleven is a tie, so rounding gives the one nearest integer |
| VerifiedFallback.AnswerIsAcceptable | app/agent/fallback.py:17-50 | for every question and every complete record of any tool, whatever prints the requested values of the record passes the check |
| VerifiedFallback.PrintedIsAcceptable | app/agent/validation.py:63-126 | any text and evidence that print true items of one record, with its status and period, pass the check |
| VerifiedFallback.ItemsAreTrue | app/agent/fallback.py:53-173 | the paths, values, labels and units that the printer uses are those that the check reads from the record |
| FallbackMeaning.ItemsSayWhatIsAsked | app/agent/fallback.py:53-205 | the numbers for a question, by its words and the fields of the result: the metric or both in turn, and the highest, lowest, count or average |
| FallbackMeaning.AnswersSayWhatIsAsked | app/agent/fallback.py:17-50 | the numbers in the text of every printed answer are those, in that order |
| VerifiedFallback.SeriesPointsAreFilled | app/services/query_service.py:82-93 | every point of the service's series has a minimum, a maximum and an average of both metrics and starts on a whole second, as the printer needs |
| VerifiedFallback.AggregatesAreFilled | app/services/query_service.py:177-211 | statistics over at least one row have a minimum, a maximum and an average |
| FallbackPrinting.LatestCandidate | app/agent/fallback.py:53-76 | prints the latest value of each metric asked for, with the measurement time as period |
| FallbackPrinting.StatisticsCandidate | app/agent/fallback.py:79-97 | prints the requested statistic of each metric asked for, with the record's period |
| FallbackPrinting.SeriesCandidate | app/agent/fallback.py:100-132 | prints the sampled averages of each metric asked for, each with its local bucket time |
| FallbackPrinting.ComparisonCandidate | app/agent/fallback.py:135-161 | prints both averages and their difference for each metric asked for |
| FallbackPrinting.AlertCandidate | app/agent/fallback.py:164-173 | prints the total number of alerts |
| FallbackPrinting.BuildVerifiedFallback | app/agent/fallback.py:17-50 | for every question and every history the tools can leave it returns, refusing only an empty one; it shows what the question asks for, or the fixed sentence when there is no data |
| AgentTools.ReadOnlyTools.constructor | app/agent/tools.py:34-54 | starts with an empty history |
| AgentTools.ReadOnlyTools.Call | app/agent/tools.py:175-240 | a call is recorded exactly when it returns, with the result it returns and the forced periods; disallowed calls and calls beyond the limit leave no record; the history stays numbered from one; it fails exactly without a second resolved period, when not allowed, at the limit, or on an unexpected error, and a rejected or unavailable query has its own result |
| AgentTools.ArgumentsAreForced | app/agent/tools.py:226-240 | the arguments of a record are exactly the resolved periods, whatever the model supplied |
| AgentRuns.RunWithOneRetry | app/agent/service.py:183-201 | the backend runs at most twice, the second time exactly after a connection error or a 408, 429 or 5xx that left the history empty |
| AgentRuns.Judge | app/agent/service.py:98-181 | an answered run shows the checked candidate or the printed first record; it fails with AI_UNAVAILABLE exactly when the check raises another exception than its own, and with AI_RESPONSE_INVALID exactly when the check refuses and no tool was called; time, turn and tool limits give LIMIT_EXCEEDED and other endings AI_UNAVAILABLE |
| AgentRuns.Finish | app/agent/service.py:98-181 | the request gets exactly one terminal state that satisfies the table's constraint; it fails if and only if the backend does, the check raises another exception than its own, or it refuses and no tool was called, each with its own error code; what is shown is grounded in the run's records |
| AgentRuns.SoundIsGrounded | app/agent/service.py:98-160 | every number and date of a shown display, checked or printed, is grounded in the run's history |
| AgentRuns.Run | app/agent/service.py:61-181 | either nothing is recorded and the backend is not asked, or one request is started and finished once, with at most two backend runs and at most five records; a question of a bad length is rejected, and one without tool or period is answered locally |
| AgentRuns.RecordsAreOfTheQuestion | app/agent/service.py:75-96 | for every backend each record is of the routed tool and of exactly the resolved periods, which are non-empty and at most 90 days, one for each expression and starting and ending where the resolver says |
| AgentRuns.AIRequestRepository.Start | app/repositories/ai_request_repository.py:14-26 | adds one running row |
| AgentRuns.AIRequestRepository.Succeed | app/repositories/ai_request_repository.py:28-49 | ends a running row with its answer, keeping the table's constraint |
| AgentRuns.AIRequestRepository.Fail | app/repositories/ai_request_repository.py:51-71 | ends a running row with an error code and no answer, keeping the table's constraint |
| LoginLimiting.LoginRateLimiter.RetryAfter | app/security/login_rate_limit.py:48-57 | None exactly when neither key is locked, otherwise the whole seconds of the longer remaining lock, at least one |
| LoginLimiting.LoginRateLimiter.PurgeStates | app/security/login_rate_limit.py:102-111 | trims every state and removes exactly those with no failure and no lock left |
| LoginLimiting.PurgeKeepsExactly | app/security/login_rate_limit.py:102-111 | a purge keeps exactly the keys with a failure inside the window or a lock that still runs |
| LoginLimiting.RecordedInPlainTerms | app/security/login_rate_limit.py:59-72 | for the address and the user name alike, the failures left in the window and this one are remembered; from the limit on the lock lasts the lock time from now, below it a lock that still runs is kept |
| LoginLimiting.LoginRateLimiter.EnforceCapacity | app/security/login_rate_limit.py:113-119 | keeps at most the capacity and drops only states updated no later than every one kept |
| LoginLimiting.LoginRateLimiter.RecordFailure | app/security/login_rate_limit.py:59-72 | purges, records the failure for both keys, locks at the limit and evicts |
| LoginLimiting.LoginRateLimiter.Clear | app/security/login_rate_limit.py:74-79 | forgets both keys and nothing else |
| LoginRuns.DequeIsWindowOfLog | app/security/login_rate_limit.py:98-111 | in every run each key's deque is exactly the sorted in-window suffix of its failure log as of its last trim |
| LoginRuns.FailuresAreBounded | app/security/login_rate_limit.py:59-72 | with a lock at least as long as the window, no key ever gets more than the limit of recorded failures within a window, between clears and evictions |
| LoginRuns.ShortLockBreaksBound | app/security/login_rate_limit.py:59-72 | with a shorter lock, for every address and user name, a run of that caller exceeds that limit |
| LoginRuns.BoundHoldsExactlyWithLongLock | app/web/router.py:204-219 | the limit holds in every run of admitted login forms if and only if the lock lasts at least a window |
| SessionStore.SessionManager.Create | app/security/session.py:62-77 | a new session replaces the old one and starts with no tokens |
| SessionStore.SessionManager.Get | app/security/session.py:79-98 | returns the session exactly while both lifetimes hold, removes an expired one, touches no other |
| SessionStore.SessionManager.Revoke | app/security/session.py:100-106 | removes the session and says whether it existed |
| SessionStore.EndedSessionsStayEnded | app/security/session.py:79-106 | in every run a session that was revoked, found expired or replaced is never returned again unless its id is created again |
| SessionStore.ReturnedSessionsAreAlive | app/security/session.py:62-98 | a session that a run returns was created less than the absolute lifetime ago, last touched less than the idle lifetime ago, and not ended since |
| SessionStore.LiveSessionsAreReturned | app/security/session.py:62-98 | conversely a session that was created, not ended since and within both lifetimes is returned |
| SessionStore.SessionManager.IssueFormToken | app/security/session.py:116-126 | drops expired tokens, adds the new one last and evicts the oldest beyond five |
| SessionStore.SessionManager.ConsumeFormToken | app/security/session.py:128-140 | succeeds exactly for a remembered unexpired token and then forgets it; raises TypeError exactly for text beyond ASCII while an unexpired token is remembered; expired tokens are gone in each case |
| SessionStore.TokensAreOneTime | app/security/session.py:128-140 | in every run each token is consumed at most once, only by its own session and within 30 minutes of its issue |
| SessionStore.StoresStayBoundedAndOrdered | app/security/session.py:116-126 | in every run a store holds at most five tokens, its own, unused, in issue order |
| SessionStore.NewestFiveAreAccepted | app/security/session.py:116-140 | a token among its session's five newest, unused and unexpired, is accepted |

## Left out

- HTTP parsing, headers, cookies, templates, logging and health checks: only the status codes and the call order that the protocols rely on are kept.
- Wi-Fi, NTP, I2C, display and sensor drivers: their answers are inputs of a pass; the texts on the display and the counter of invalid readings are not modelled.
- Hashing, token and message id generation: identifiers are fresh and keyed digests injective.
- SQLAlchemy and PostgreSQL internals: a row lock, a unique constraint and atomic commit are taken as given, and a SELECT means its rows; alert rows are those of one device.
- Changing thresholds across restarts and the history of time zones: settings are fixed and Tokyo is nine hours ahead.
- Floating point in the point estimate and the sampling: exact quotients are used.
- Regular expressions and Unicode normalisation: questions, source paths and answers are sequences of tokens, and a string of digits in a path is its number or unreadable.
- AnswerValidation.MaskVerifiedDatetimes: masks whole date tokens only; the original replaces substrings, so a shorter verified text inside a longer one is not modelled.
- AnswerValidation.CheckItem: looks for a timestamp among the timestamps of the result; the original searches the result's text, and values that are objects or lists are never equal to a proposed text.
- AnswerValidation.ValidateCalculation: quotients are exact reals; their rounding to 28 digits is not modelled, and infinities and quiet NaNs, which equal no recorded value, are ordinary texts.
- FallbackPrinting.BuildVerifiedFallback: the wording between the numbers and the limit of 8000 characters on an answer are not modelled.
- AgentRuns.Run: cancellation from outside, failing writes of the request record, token usage and a backend that raises the validator's own exception are not modelled; a backend is any sequence of tool calls with any ending.
- PeriodResolving.ReturnedPeriodsAreAccepted: the scanning of the question into period tokens and a clock without a time zone are not modelled.
- LoginLimiting.LoginRateLimiter.EnforceCapacity: among states updated at the same time the one evicted is arbitrary.
- SessionStore.SessionManager.ConsumeFormToken: the constant time of the comparison and the mutual exclusion by the lock are taken as given.
- The other fields of the device configuration: checked for presence only.
- The query service's latest value and alert history: single lookups whose results appear as the data that the tools record.
- Fields of tool results that no answer can cite (row ids, device id, time zone, granularity, truncation): not in the dumped results.
- Acceptance.RefusalExactly: a threshold or hysteresis of 1000 and more, which only a measurable range beyond the default admits, overflows its column and is not modelled.
- The question classifier: only the tool that it routes to is an input.
