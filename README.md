# Student fee engine — a verified model

This project models the fee-obligation engine of a campus-management application. The engine lives in three Spring services:

- **StudentFeeService** generates a student's fees from the fee types. It runs when a (semester, academic year) period is requested and when a student registers. It also promotes PENDING semester fees to OVERDUE after date cutoffs, and updates fee statuses.
- **FeeAlertService** lets staff send an alert about a fee. There is at most one alert per (student, fee, sender), and an alert marks a PENDING fee as `alerted`.
- **PaymentService** records a payment, sets the fee to PAID, removes the alerts of the paying student about that fee and issues a receipt number `RCPT-` followed by eight upper-case hex digits.

The model also covers the two loops the screens run over a selection of fees: sending alerts and paying.

## Layout

- `wrappers.dfy`: `Option` and `Result`.
- `text.dfy`: strings as `seq<char>`. It holds `String.contains`, decimal rendering with its inverse, splitting at a separator, and ASCII `toUpperCase`. Its `ToLower` is only the inverse that pins down the receipt number; the services never lower-case.
- `calendar.dfy`: proleptic Gregorian dates in place of `LocalDate`. It holds `isAfter`, `plusDays`, and a day ordinal that serves as an independent reference for "n days later".
- `entities.dfy`: the records `FeeType`, `StudentFee`, `Payment` and `FeeAlert`, with their enumerations.
  - Users are ids.
  - A fee is identified by its position in the fee store, because fees are never deleted.
  - A nullable column is an `Option`, so a null argument matches a null field, as in Spring Data derived queries.
- `repositories.dfy`: the repository finders as filters over the stored sequences. The fee finders return fee positions in increasing order.
- `fee_store.dfy`: the class `Store`, which holds the read-only fee types and the fees, payments and alerts. The services update these in place. Its invariant `Valid` says that:
  - fee keys are unique;
  - every SEMESTER fee carries a semester label;
  - alert ids and (student, fee, sender) triples are distinct;
  - payments refer to stored fees;
  - receipt numbers are distinct.
- `student_fee_service.dfy`, `fee_alert_service.dfy`, `payment_service.dfy`: the service operations.
  - State changes are methods on the store. Each is proved against a specification function of the old state.
  - The pure parts are functions: the date-to-label functions, the frequency switch, the due dates and the receipt number.
- `student_fee_properties.dfy`: lemmas about those specification functions. They cover exact generation, no duplicates, idempotence, monotone statuses and the cutoff quirk.
- `batches.dfy`: the alert-sending loop of the overdue-fees screen and the paying loop of the payment screen.

The clock (`LocalDate.now()`, `LocalDateTime.now()`) and `UUID.randomUUID()` are parameters. One `today` stands for every clock read within one service call.

## Behaviour kept as the code writes it

- The OVERDUE cutoffs are 1 February and 1 August of the **current** calendar year. So every PENDING "First" semester fee swept between 2 February and 31 December becomes OVERDUE (`StudentFeeService.ReconcileFee`, `StudentFeeService.PastCutoff`). That includes a fee created in August..December by the same call (`StudentFeeProperties.FirstSemesterFeeIsOverdueAtOnce`).
- `getCurrentAcademicYear` writes both years in full ("2024-2025"). A YEARLY fee is therefore never due for a short label such as "2024-25" (`StudentFeeProperties.YearlyFeeNeverDueForShortLabel`).
- On a period request, a ONE_TIME fee keeps the requested academic year. At registration it gets neither a semester nor a year.
- `processPayment` does not check the fee's status, so a PAID fee can be paid again.
- The receipt suffix is the upper-cased first group of the UUID, so only 32 bits of the UUID reach the receipt. Two UUIDs give the same receipt exactly when their first groups agree.

## Model

| member | source | states |
|---|---|---|
| StudentFeeService.CurrentSemester | src/main/java/com/smartcampusmng/campusmanager/service/StudentFeeService.java:216-223 | the label is one of the two semester labels; it contains "First" exactly in August..December and "Second" exactly in January..July; it lies in its own creation window except in June and July |
| StudentFeeService.FirstLabelWords | src/main/java/com/smartcampusmng/campusmanager/service/StudentFeeService.java:219 | the first-semester label contains "First" and not "Second" |
| StudentFeeService.SecondLabelWords | src/main/java/com/smartcampusmng/campusmanager/service/StudentFeeService.java:221 | the second-semester label contains "Second" and not "First" |
| StudentFeeService.AcademicYearStart | src/main/java/com/smartcampusmng/campusmanager/service/StudentFeeService.java:155-163 | the start year is the one whose 1 August is the latest 1 August not after today |
| StudentFeeService.CurrentAcademicYear | src/main/java/com/smartcampusmng/campusmanager/service/StudentFeeService.java:155-163 | from August on the label is "Y-(Y+1)" for the current year Y, before August "(Y-1)-Y", both years written in full |
| StudentFeeProperties.AcademicYearLabelNamesItsYears | src/main/java/com/smartcampusmng/campusmanager/service/StudentFeeService.java:155-163 | reading the academic-year label back gives exactly (start, start + 1) |
| Text.NatToStringRoundTrip | src/main/java/com/smartcampusmng/campusmanager/service/StudentFeeService.java:159-161 | the decimal text of a year reads back to that year, so the label's year text is exact |
| StudentFeeProperties.YearlyFeeNeverDueForShortLabel | src/main/java/com/smartcampusmng/campusmanager/service/StudentFeeService.java:74-80 | for four-digit years, a YEARLY fee is never planned for a seven-character label such as "2024-25" |
| StudentFeeService.PlanFor | src/main/java/com/smartcampusmng/campusmanager/service/StudentFeeService.java:55-93 | on a period request: a SEMESTER fee is due exactly in its label's window; a YEARLY fee exactly when the requested year equals the current academic-year label; a ONE_TIME fee exactly when the student has no fee of that type; MONTHLY always; SEMESTER and MONTHLY keep the requested semester, YEARLY and ONE_TIME get none; every planned fee keeps the requested year; at registration the plan is the registration period |
| StudentFeeService.RegistrationPeriod | src/main/java/com/smartcampusmng/campusmanager/service/StudentFeeService.java:187-207 | at registration ONE_TIME gets no semester and no year, YEARLY gets the current academic-year label only, SEMESTER and MONTHLY get exactly the current semester label and academic-year label |
| StudentFeeService.DueDate | src/main/java/com/smartcampusmng/campusmanager/service/StudentFeeService.java:130-148 | SEMESTER: 1 October of the current year for a "First" label, 1 March otherwise; YEARLY: 1 July; ONE_TIME: 30 days on; MONTHLY: 15 days on (both checked against the day ordinal) |
| Calendar.PlusDaysAdvances | src/main/java/com/smartcampusmng/campusmanager/service/StudentFeeService.java:142-147 | plusDays(n) moves the day ordinal forward by exactly n |
| StudentFeeService.NewStudentFee | src/main/java/com/smartcampusmng/campusmanager/service/StudentFeeService.java:122-150 | the record createStudentFee builds: the requested key and fee type, the type's amount, PENDING, not alerted, and the due date by frequency |
| StudentFeeService.CreateStudentFee | src/main/java/com/smartcampusmng/campusmanager/service/StudentFeeService.java:121-153 | appends exactly the new fee (type amount, PENDING, not alerted, due date by frequency) under a free key; nothing else changes and the store invariant holds |
| StudentFeeService.StepKeepsFeeConstraints | src/main/java/com/smartcampusmng/campusmanager/service/StudentFeeService.java:95-98 | one loop turn adds at most one fresh fee of that type, only under an absent key, so keys stay unique |
| StudentFeeService.Generate | src/main/java/com/smartcampusmng/campusmanager/service/StudentFeeService.java:49-99 | the loop only appends, at most one new fee per turn of the loop, each PENDING with its type's amount and a due date, and it keeps keys unique and SEMESTER fees labelled |
| StudentFeeService.GenerateOneMore | src/main/java/com/smartcampusmng/campusmanager/service/StudentFeeService.java:54-98 | one more fee type in the loop is one more turn |
| StudentFeeService.GenerateForFeeType | src/main/java/com/smartcampusmng/campusmanager/service/StudentFeeService.java:55-98 | one loop turn: the frequency switch, the exact-key existence check and the insert |
| StudentFeeService.GenerateFees | src/main/java/com/smartcampusmng/campusmanager/service/StudentFeeService.java:49-99 | the fee store after the loop over all fee types is the specified generation; payments and alerts are untouched |
| StudentFeeService.PastCutoff | src/main/java/com/smartcampusmng/campusmanager/service/StudentFeeService.java:106-115 | only a SEMESTER fee with a due date can be past its cutoff; a fee with the first-semester label is past it exactly after 1 February of the current year, one with the second-semester label exactly after 1 August |
| StudentFeeService.ReconcileFee | src/main/java/com/smartcampusmng/campusmanager/service/StudentFeeService.java:105-118 | a fee changes exactly when it is this student's PENDING fee past its cutoff, and then it becomes OVERDUE with nothing else changed |
| StudentFeeService.Reconcile | src/main/java/com/smartcampusmng/campusmanager/service/StudentFeeService.java:101-118 | the sweep applies the one-fee rule to every fee in place, keeping the number of fees and every fee's key and type, so keys stay unique |
| StudentFeeService.MarkOverdueFees | src/main/java/com/smartcampusmng/campusmanager/service/StudentFeeService.java:101-118 | the in-place sweep leaves exactly the specified reconciliation |
| StudentFeeService.EnsureStudentFeesExist | src/main/java/com/smartcampusmng/campusmanager/service/StudentFeeService.java:44-119 | generation for the requested period, then the sweep; payments and alerts are untouched |
| StudentFeeService.CreateInitialFeesForStudent | src/main/java/com/smartcampusmng/campusmanager/service/StudentFeeService.java:175-214 | the registration-time generation, with no sweep |
| StudentFeeService.GetFeesForStudentAndSemester | src/main/java/com/smartcampusmng/campusmanager/service/StudentFeeService.java:34-42 | ensures the period's fees, then returns exactly the student's fees of that period |
| StudentFeeService.UpdateFeeStatus | src/main/java/com/smartcampusmng/campusmanager/service/StudentFeeService.java:165-169 | sets the status unconditionally and returns the saved fee; no other field and no other fee changes |
| StudentFeeProperties.PrefixCovered | src/main/java/com/smartcampusmng/campusmanager/service/StudentFeeService.java:95-98 | a store that only grew still holds every key it held |
| StudentFeeProperties.SettledStaysSettled | src/main/java/com/smartcampusmng/campusmanager/service/StudentFeeService.java:95-98 | a fee type whose planned key is present stays settled while keys are only added |
| StudentFeeProperties.StepSettles | src/main/java/com/smartcampusmng/campusmanager/service/StudentFeeService.java:95-98 | after its loop turn, a fee type's planned key is present |
| StudentFeeProperties.GeneratedOrOld | src/main/java/com/smartcampusmng/campusmanager/service/StudentFeeService.java:121-153 | every fee after generation was there before or is a fresh fee of a listed type |
| StudentFeeProperties.GenerateSettlesAll | src/main/java/com/smartcampusmng/campusmanager/service/StudentFeeService.java:54-98 | after the loop every fee type's planned key is present |
| StudentFeeProperties.GenerateIdleWhenSettled | src/main/java/com/smartcampusmng/campusmanager/service/StudentFeeService.java:95-98 | when every planned key is already present, generation adds nothing |
| StudentFeeProperties.StepKeepsOtherKeys | src/main/java/com/smartcampusmng/campusmanager/service/StudentFeeService.java:95-98 | a loop turn for one fee type adds no key of another type |
| StudentFeeProperties.StepCreatesDueKey | src/main/java/com/smartcampusmng/campusmanager/service/StudentFeeService.java:55-98 | a fee type's turn creates an absent key exactly when the frequency switch plans that period |
| StudentFeeProperties.GenerateCreatesExactlyTheDueFees | src/main/java/com/smartcampusmng/campusmanager/service/StudentFeeService.java:55-98 | with distinct fee-type ids, an absent key exists after generation if and only if the switch plans that period for that type |
| StudentFeeProperties.AppendFreshTypeKeepsTypesDistinct | src/main/java/com/smartcampusmng/campusmanager/service/StudentFeeService.java:95-98 | appending one fee whose type is not among the types already appended keeps the appended fees one per fee type |
| StudentFeeProperties.GenerateLastTurn | src/main/java/com/smartcampusmng/campusmanager/service/StudentFeeService.java:54-98 | the last turn of the loop appends at most one fee, of the last fee type, after fees of the earlier fee types |
| StudentFeeProperties.GenerateAddsAtMostOnePerType | src/main/java/com/smartcampusmng/campusmanager/service/StudentFeeService.java:54-98 | with distinct fee-type ids, no two fees the loop appends share a fee type |
| StudentFeeProperties.RegistrationGivesEveryFeeTypeItsFee | src/main/java/com/smartcampusmng/campusmanager/service/StudentFeeService.java:182-213 | registration keeps keys unique and leaves a fee of every fee type under its registration period |
| StudentFeeProperties.ReconcileCoversKeys | src/main/java/com/smartcampusmng/campusmanager/service/StudentFeeService.java:101-118 | the sweep removes no key |
| StudentFeeProperties.ReconcileIdempotent | src/main/java/com/smartcampusmng/campusmanager/service/StudentFeeService.java:101-118 | a second sweep on the same day changes nothing |
| StudentFeeProperties.EnsureOnlyAddsAndPromotes | src/main/java/com/smartcampusmng/campusmanager/service/StudentFeeService.java:44-119 | ensureStudentFeesExist adds at most as many fees as there are fee types, for this student, of listed types and never PAID, and with distinct fee-type ids no two of them share a type; an existing fee keeps its key, and its status either stays or goes from PENDING to OVERDUE |
| StudentFeeProperties.EnsureAddsAtMostOnePerType | src/main/java/com/smartcampusmng/campusmanager/service/StudentFeeService.java:44-119 | with distinct fee-type ids, no two fees ensureStudentFeesExist appends share a fee type; the sweep keeps every fee's type |
| StudentFeeProperties.EnsureIsIdempotent | src/main/java/com/smartcampusmng/campusmanager/service/StudentFeeService.java:44-119 | calling ensureStudentFeesExist twice with the same arguments on the same day leaves the fees as the first call did |
| StudentFeeProperties.FirstSemesterFeeIsOverdueAtOnce | src/main/java/com/smartcampusmng/campusmanager/service/StudentFeeService.java:109 | a "First" SEMESTER fee created in August..December comes out of the same call already OVERDUE |
| Repositories.FindFeesByStudentAndStatus | src/main/java/com/smartcampusmng/campusmanager/service/StudentFeeService.java:29-32 | exactly the fees of that student with that status (PENDING for the pending-fee finder) |
| Repositories.FindFeesByStudentAndPeriod | src/main/java/com/smartcampusmng/campusmanager/repository/StudentFeeRepository.java:14 | exactly the fees of that student with that semester and year, nulls matching nulls |
| Repositories.FindFeesByStatus | src/main/java/com/smartcampusmng/campusmanager/service/StudentFeeService.java:225-227 | exactly the fees with that status |
| Repositories.FindFeesByPeriodAndStatus | src/main/java/com/smartcampusmng/campusmanager/service/StudentFeeService.java:229-232 | exactly the fees of that semester, year and status |
| Repositories.FeeIdsWhere | src/main/java/com/smartcampusmng/campusmanager/repository/StudentFeeRepository.java:13-20 | the ids of exactly the accepted fees, in storage order |
| Repositories.FindAlertsByStudentAndFee | src/main/java/com/smartcampusmng/campusmanager/service/FeeAlertService.java:48-50 | exactly the alerts for that student and fee, from any sender |
| Repositories.FindAlertsBySentBy | src/main/java/com/smartcampusmng/campusmanager/service/FeeAlertService.java:57-59 | exactly the alerts from that sender |
| Repositories.FindAlertsByStudent | src/main/java/com/smartcampusmng/campusmanager/service/FeeAlertService.java:61-63 | exactly the alerts for that student |
| Repositories.DeleteAlertById | src/main/java/com/smartcampusmng/campusmanager/service/FeeAlertService.java:65-68 | the alert with that id is gone, every other alert stays |
| Repositories.FindPaymentsByStudent | src/main/java/com/smartcampusmng/campusmanager/service/PaymentService.java:58-60 | exactly that student's payments |
| Repositories.FindPaymentsByStudentAndPeriod | src/main/java/com/smartcampusmng/campusmanager/service/PaymentService.java:62-66 | exactly that student's payments whose fee has that semester and academic year |
| Repositories.FindPaymentsByPeriod | src/main/java/com/smartcampusmng/campusmanager/service/PaymentService.java:68-71 | exactly the payments whose fee has that semester and academic year |
| FeeStore.AppendFeeKeepsKeysUnique | src/main/java/com/smartcampusmng/campusmanager/service/StudentFeeService.java:209-212 | inserting only under an absent key keeps the fee keys unique |
| FeeStore.ReplaceFeeKeepsConstraints | src/main/java/com/smartcampusmng/campusmanager/service/StudentFeeService.java:165-169 | saving a fee with its key and type unchanged keeps the fee constraints |
| FeeAlertService.MarkAlerted | src/main/java/com/smartcampusmng/campusmanager/service/FeeAlertService.java:32-36 | the fee is alerted afterwards exactly when it was already alerted or is PENDING; no other field changes |
| FeeAlertService.AppendKeepsTriplesDistinct | src/main/java/com/smartcampusmng/campusmanager/service/FeeAlertService.java:27-45 | saving only for a triple that is not yet taken keeps at most one alert per (student, fee, sender) |
| FeeAlertService.AppendAlertKeepsWellFormed | src/main/java/com/smartcampusmng/campusmanager/service/FeeAlertService.java:38-45 | the new alert under the next id keeps alert ids and triples distinct |
| FeeAlertService.CreateAlert | src/main/java/com/smartcampusmng/campusmanager/service/FeeAlertService.java:25-46 | fails with "Alert already sent to this student for this fee" exactly when that triple has an alert, and then nothing changes; otherwise it appends exactly one alert carrying the arguments and the next id, and only the fee's alerted flag changes |
| FeeAlertService.DeleteAlert | src/main/java/com/smartcampusmng/campusmanager/service/FeeAlertService.java:65-68 | the alert store becomes the delete-by-id of the old one; fees and payments are untouched |
| FeeAlertService.DeleteStoredAlert | src/main/java/com/smartcampusmng/campusmanager/service/FeeAlertService.java:65-68 | with unique ids, deleting a stored alert removes that alert alone and keeps the others in order |
| FeeAlertService.HasAlertForFee | src/main/java/com/smartcampusmng/campusmanager/service/FeeAlertService.java:52-55 | true exactly when getAlertsForStudentAndFee, keyed on the fee's own student, holds an alert from that sender |
| PaymentService.ReceiptNumber | src/main/java/com/smartcampusmng/campusmanager/service/PaymentService.java:73-75 | 13 characters, "RCPT-" and eight upper-case hex digits that lower-case back to the UUID's first group |
| Text.UpperThenLower | src/main/java/com/smartcampusmng/campusmanager/service/PaymentService.java:73-75 | lower-casing undoes upper-casing on text without capitals |
| PaymentService.ReceiptsCollideExactlyOnFirstGroup | src/main/java/com/smartcampusmng/campusmanager/service/PaymentService.java:73-75 | two UUIDs give the same receipt exactly when their first eight characters agree |
| PaymentService.AlertsAfterPayment | src/main/java/com/smartcampusmng/campusmanager/service/PaymentService.java:49-53 | the alerts left are exactly the old ones not for (student, fee), from any sender |
| PaymentService.WithoutIds | src/main/java/com/smartcampusmng/campusmanager/service/PaymentService.java:49-53 | the alerts kept are exactly those whose id is not deleted |
| PaymentService.DeleteOneMoreId | src/main/java/com/smartcampusmng/campusmanager/service/PaymentService.java:49-53 | deleting one more alert after some are gone is deleting all of those ids at once |
| PaymentService.DeleteAlertsForFee | src/main/java/com/smartcampusmng/campusmanager/service/PaymentService.java:49-53 | the loop of single deletes leaves exactly the alerts that remain after payment; fees and payments are untouched |
| PaymentService.ProcessPayment | src/main/java/com/smartcampusmng/campusmanager/service/PaymentService.java:31-56 | fails exactly when the receipt is already used, and then nothing changes; otherwise it returns a payment with the fee's current amount, the given student, fee, method, reference and recorder, the receipt and the remark; appends exactly that payment; sets the fee to PAID whatever its status was; removes exactly the alerts for (student, fee) |
| ScreenBatches.SendOne | src/main/java/com/smartcampusmng/campusmanager/views/OverdueFeesView.java:322-331 | one turn of the alert loop: createAlert for the student of the next selected fee, keeping the loop's progress |
| ScreenBatches.SendAlerts | src/main/java/com/smartcampusmng/campusmanager/views/OverdueFeesView.java:321-334 | one outcome per selected fee and the loop goes on after a refusal; the k-th outcome is the duplicate-alert refusal exactly when that triple already had an alert at its turn, otherwise the alert with the next id, that fee's student, the sender, the message and the time; the alert store grows by exactly the alerts sent, in order; afterwards every selected fee has an alert from the sender; a fee changes only from not alerted to alerted, only if PENDING and selected; payments are untouched |
| ScreenBatches.PayOne | src/main/java/com/smartcampusmng/campusmanager/views/MakePaymentView.java:236-242 | one turn of the paying loop: processPayment for the next selected fee; a failure leaves the store as it was |
| ScreenBatches.PaySelectedFees | src/main/java/com/smartcampusmng/campusmanager/views/MakePaymentView.java:235-243 | pays in order and stops at the first failure, whose receipt number was already in use; earlier payments are kept; the k-th payment is for the k-th selected fee, by the user, with that fee's amount, the k-th receipt number and the remark; exactly the paid fees become PAID, every other fee stays; exactly the alerts for (user, paid fee) are gone; no error exactly when every fee was paid |

## Left out

- The Vaadin screens (layout, grids, navigation, session attributes) are left out. Only their two batch loops are modelled.
- The `double` summation of selected amounts in the payment screen is floating-point UI arithmetic. Amounts here are integers that the services only copy.
- UserService and the login and registration flow depend on a password encoder and on the user repository. Registration is represented by `CreateInitialFeesForStudent`, which registration calls for students.
- FeeTypeService passes `findAll` / `findById` straight to the repository. The fee types are the store's read-only sequence.
- JPA internals are left out: generated fee, payment and user ids (fees are positions, users are numbers), and the `createdAt` / `updatedAt` timestamps.
- Concurrency and transaction isolation are left out, including the race between the existence check and the insert. Each service call is one atomic step.
- The randomness of `UUID.randomUUID()` and the clock are left out. They are parameters, and one `today` serves all clock reads within a call. Each of the two screen batches (`ScreenBatches.SendAlerts`, `ScreenBatches.PaySelectedFees`) takes a single `now` for the whole batch, so all its alerts or payments share one timestamp, where every `createAlert` and `processPayment` call in the screen loops reads the clock itself.
- `toUpperCase` covers ASCII only. A UUID's text is ASCII. The source calls only `toUpperCase`; the model's `ToLower` exists only as the inverse used to pin `ReceiptNumber`.
- Dates are proleptic Gregorian with any integer year. The range limits of `LocalDate` are not modelled.
- A null semester or academic-year argument to ensureStudentFeesExist is not modelled (every caller checks for null first). The model takes plain strings.
- StudentFeeService.CreateStudentFee: the NullPointerException for a SEMESTER fee without a semester is not modelled. The store invariant keeps every SEMESTER fee labelled, and this method requires a label for a SEMESTER fee.
- PaymentService.ProcessPayment: the code finds the receipt collision only when it saves, after changing the fee and the alerts. The transaction then rolls back. The model checks first and changes nothing, which has the same net effect. The exception text is a stand-in.
- FeeAlertService.DeleteAlert: it deletes by primary key, as JPA `delete(entity)` does. Stale detached entities are not modelled.
- The screens iterate over the grid's selection, a set whose order Java does not fix. The batch methods take the selection as a sequence in the order it is iterated.
