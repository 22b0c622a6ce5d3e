/** StudentFeeService: generating a student's fees from the fee types (on a period request
    and at registration), the OVERDUE sweep, and status updates. The clock is the `today`
    parameter, read once per call. */
module StudentFeeService {

  import opened Wrappers
  import opened Text
  import opened Calendar
  import opened Entities
  import opened Repositories
  import opened FeeStore

  const FirstSemesterLabel := "First Semester (Aug-Dec)"
  const SecondSemesterLabel := "Second Semester (Jan-May)"

  /** The "First" label contains "First" and not "Second". */
  lemma FirstLabelWords()
    ensures Contains(FirstSemesterLabel, "First") && !Contains(FirstSemesterLabel, "Second")
  {
    assert OccursAt(FirstSemesterLabel, "First", 0);
    NotContainsWithoutChar(FirstSemesterLabel, "Second", 'o');
  }

  /** The "Second" label contains "Second" and not "First". */
  lemma SecondLabelWords()
    ensures Contains(SecondSemesterLabel, "Second") && !Contains(SecondSemesterLabel, "First")
  {
    assert OccursAt(SecondSemesterLabel, "Second", 0);
    NotContainsWithoutChar(SecondSemesterLabel, "First", 'F');
  }

  /** getCurrentSemester: the "First" label from August to December, the "Second" label otherwise. */
  function CurrentSemester(today: Date): (name: string)
    ensures name == FirstSemesterLabel || name == SecondSemesterLabel
    ensures Contains(name, "First") <==> 8 <= today.month <= 12
    ensures Contains(name, "Second") <==> today.month < 8
    ensures InSemesterWindow(name, today) <==> today.month != 6 && today.month != 7
  {
    FirstLabelWords();
    SecondLabelWords();
    if 8 <= today.month <= 12 then FirstSemesterLabel else SecondSemesterLabel
  }

  /** The calendar year in which the current academic year began: the one whose 1 August
      is the latest 1 August not after today. */
  function AcademicYearStart(today: Date): (start: int)
    ensures !IsAfter(FirstOfMonth(start, 8), today)
    ensures IsAfter(FirstOfMonth(start + 1, 8), today)
  {
    if today.month >= 8 then today.year else today.year - 1
  }

  /** getCurrentAcademicYear: "<start>-<start + 1>", both years written in full. */
  function CurrentAcademicYear(today: Date): (name: string)
    ensures today.month >= 8 ==> name == IntToString(today.year) + "-" + IntToString(today.year + 1)
    ensures today.month < 8 ==> name == IntToString(today.year - 1) + "-" + IntToString(today.year)
  {
    IntToString(AcademicYearStart(today)) + "-" + IntToString(AcademicYearStart(today) + 1)
  }

  /** Reads back a "<digits>-<digits>" academic-year label (independent reference). */
  function ParseAcademicYear(name: string): Option<(nat, nat)>
  {
    match SplitAtFirst(name, '-')
    case None => None
    case Some((first, second)) =>
      if |first| > 0 && |second| > 0 && AllDigits(first) && AllDigits(second)
      then Some((DigitsValue(first), DigitsValue(second)))
      else None
  }

  /** The creation window of a SEMESTER fee: a "First" label in August..December,
      or a "Second" label in January..May. */
  predicate InSemesterWindow(semester: string, today: Date)
  {
    (Contains(semester, "First") && 8 <= today.month <= 12)
      || (Contains(semester, "Second") && 1 <= today.month <= 5)
  }

  /** Why fees are being generated: a request for a (semester, academicYear) period
      (ensureStudentFeesExist) or a student's registration (createInitialFeesForStudent). */
  datatype Occasion = PeriodRequest(semester: string, academicYear: string) | Registration

  /** The period createInitialFeesForStudent gives a fee of this frequency. */
  function RegistrationPeriod(frequency: Frequency, today: Date): (p: Period)
    ensures p.semester.None? <==> frequency == Yearly || frequency == OneTime
    ensures p.academicYear.None? <==> frequency == OneTime
    ensures p.semester.Some? ==> p.semester.value == CurrentSemester(today)
    ensures p.semester.Some? ==> (Contains(p.semester.value, "First") <==> 8 <= today.month <= 12)
    ensures p.academicYear.Some? ==> p.academicYear.value == CurrentAcademicYear(today)
  {
    match frequency
    case Semester => Period(Some(CurrentSemester(today)), Some(CurrentAcademicYear(today)))
    case Yearly => Period(None, Some(CurrentAcademicYear(today)))
    case OneTime => Period(None, None)
    case Monthly => Period(Some(CurrentSemester(today)), Some(CurrentAcademicYear(today)))
  }

  /** The switch on frequency: whether a fee of type `ft` is due on this occasion, and for
      which period. A SEMESTER fee is always planned with a semester label. */
  function PlanFor(ft: FeeType, student: UserId, occasion: Occasion, fees: seq<StudentFee>, today: Date): (plan: Option<Period>)
    ensures plan.Some? && ft.frequency == Semester ==> plan.value.semester.Some?
    ensures occasion.PeriodRequest? && plan.Some? ==> plan.value.academicYear == Some(occasion.academicYear)
    ensures occasion.PeriodRequest? && plan.Some? ==>
      (plan.value.semester == Some(occasion.semester) <==> ft.frequency == Semester || ft.frequency == Monthly)
    ensures occasion.PeriodRequest? && plan.Some? ==>
      (plan.value.semester.None? <==> ft.frequency == Yearly || ft.frequency == OneTime)
    ensures occasion.PeriodRequest? && ft.frequency == Semester ==>
      (plan.Some? <==> InSemesterWindow(occasion.semester, today))
    ensures occasion.PeriodRequest? && ft.frequency == Yearly ==>
      (plan.Some? <==> occasion.academicYear == CurrentAcademicYear(today))
    ensures occasion.PeriodRequest? && ft.frequency == OneTime ==>
      (plan.Some? <==> !ExistsFeeByStudentAndFeeType(fees, student, ft.id))
    ensures occasion.PeriodRequest? && ft.frequency == Monthly ==> plan.Some?
    ensures occasion.Registration? ==> plan == Some(RegistrationPeriod(ft.frequency, today))
  {
    match occasion
    case Registration => Some(RegistrationPeriod(ft.frequency, today))
    case PeriodRequest(semester, academicYear) =>
      match ft.frequency
      case Semester =>
        if InSemesterWindow(semester, today) then Some(Period(Some(semester), Some(academicYear))) else None
      case Yearly =>
        if academicYear == CurrentAcademicYear(today) then Some(Period(None, Some(academicYear))) else None
      case OneTime =>
        if !ExistsFeeByStudentAndFeeType(fees, student, ft.id) then Some(Period(None, Some(academicYear))) else None
      case Monthly =>
        Some(Period(Some(semester), Some(academicYear)))
  }

  /** The due date createStudentFee sets: 1 October or 1 March of the current year for a
      SEMESTER fee ("First" label or not), 1 July for YEARLY, 30 days on for ONE_TIME and
      15 days on for MONTHLY. */
  function DueDate(frequency: Frequency, semester: Option<string>, today: Date): (due: Date)
    requires frequency == Semester ==> semester.Some?
    ensures frequency == Semester ==>
      && due.year == today.year && due.day == 1
      && (due.month == 10 <==> Contains(semester.value, "First"))
      && (due.month == 3 <==> !Contains(semester.value, "First"))
    ensures frequency == Yearly ==> due == FirstOfMonth(today.year, 7)
    ensures frequency == OneTime ==> DayNumber(due) == DayNumber(today) + 30 && IsAfter(due, today)
    ensures frequency == Monthly ==> DayNumber(due) == DayNumber(today) + 15 && IsAfter(due, today)
  {
    match frequency
    case Semester =>
      if Contains(semester.value, "First") then FirstOfMonth(today.year, 10) else FirstOfMonth(today.year, 3)
    case Yearly => FirstOfMonth(today.year, 7)
    case OneTime => PlusDaysAdvances(today, 30); PlusDays(today, 30)
    case Monthly => PlusDaysAdvances(today, 15); PlusDays(today, 15)
  }

  /** The record createStudentFee saves: the fee type's amount as a snapshot, PENDING, not alerted. */
  function NewStudentFee(student: UserId, ft: FeeType, period: Period, today: Date): (f: StudentFee)
    requires ft.frequency == Semester ==> period.semester.Some?
    ensures KeyOf(f) == FeeKey(student, ft.id, period) && f.feeType == ft
    ensures f.status == Pending && !f.alerted && f.amount == ft.amount
    ensures f.dueDate == Some(DueDate(ft.frequency, period.semester, today))
  {
    StudentFee(student, ft, period, ft.amount, Some(DueDate(ft.frequency, period.semester, today)), Pending, false)
  }

  /** One turn of the generation loop: insert the planned fee unless its key already exists. */
  function GenerateStep(fees: seq<StudentFee>, ft: FeeType, student: UserId, occasion: Occasion, today: Date): seq<StudentFee>
  {
    match PlanFor(ft, student, occasion, fees, today)
    case None => fees
    case Some(p) =>
      if ExistsFeeByKey(fees, FeeKey(student, ft.id, p)) then fees
      else fees + [NewStudentFee(student, ft, p, today)]
  }

  /** A fee freshly made by the generator for this student: PENDING, not alerted, with its
      type's amount, a due date, and a type taken from `types`. */
  predicate IsGeneratedFee(f: StudentFee, student: UserId, types: seq<FeeType>)
  {
    && f.student == student && f.feeType in types
    && f.status == Pending && !f.alerted && f.amount == f.feeType.amount && f.dueDate.Some?
  }

  /** The generation loop over `types` in order. It only appends, at most one fee per turn,
      each of them freshly generated, and it keeps the store's fee constraints (that no two
      appended fees share a type is GenerateAddsAtMostOnePerType). */
  function Generate(fees: seq<StudentFee>, types: seq<FeeType>, student: UserId, occasion: Occasion, today: Date): (r: seq<StudentFee>)
    ensures fees <= r && |r| <= |fees| + |types|
    ensures forall k :: |fees| <= k < |r| ==> IsGeneratedFee(r[k], student, types)
    ensures UniqueFeeKeys(fees) ==> UniqueFeeKeys(r)
    ensures SemesterFeesLabelled(fees) ==> SemesterFeesLabelled(r)
    decreases |types|
  {
    if |types| == 0 then fees
    else
      var front := Generate(fees, types[..|types| - 1], student, occasion, today);
      StepKeepsFeeConstraints(front, types[|types| - 1], student, occasion, today);
      assert forall t :: t in types[..|types| - 1] ==> t in types;
      GenerateStep(front, types[|types| - 1], student, occasion, today)
  }

  /** One loop turn appends at most one freshly generated fee of type `ft`, and only under a
      key not yet present, so it keeps the store's fee constraints. */
  lemma StepKeepsFeeConstraints(fees: seq<StudentFee>, ft: FeeType, student: UserId, occasion: Occasion, today: Date)
    ensures var r := GenerateStep(fees, ft, student, occasion, today);
      && fees <= r && |r| <= |fees| + 1
      && (forall k :: |fees| <= k < |r| ==> IsGeneratedFee(r[k], student, [ft]))
      && (UniqueFeeKeys(fees) ==> UniqueFeeKeys(r))
      && (SemesterFeesLabelled(fees) ==> SemesterFeesLabelled(r))
  {
    match PlanFor(ft, student, occasion, fees, today)
    case None =>
    case Some(p) =>
      if !ExistsFeeByKey(fees, FeeKey(student, ft.id, p)) {
        var nf := NewStudentFee(student, ft, p, today);
        if UniqueFeeKeys(fees) {
          AppendFeeKeepsKeysUnique(fees, nf);
        }
        if SemesterFeesLabelled(fees) {
          AppendFeeKeepsLabels(fees, nf);
        }
      }
  }

  /** Generating over one more fee type is one more loop turn. */
  lemma GenerateOneMore(fees: seq<StudentFee>, types: seq<FeeType>, i: nat, student: UserId, occasion: Occasion, today: Date)
    requires i < |types|
    ensures Generate(fees, types[..i + 1], student, occasion, today)
      == GenerateStep(Generate(fees, types[..i], student, occasion, today), types[i], student, occasion, today)
  {
    assert types[..i + 1][..i] == types[..i];
  }

  /** The OVERDUE cutoff as written: a "First" fee after 1 February of the CURRENT year,
      a "Second" fee after 1 August of the current year; only SEMESTER fees with a due date. */
  function PastCutoff(f: StudentFee, today: Date): (past: bool)
    requires f.feeType.frequency == Semester ==> f.period.semester.Some?
    ensures past ==> f.feeType.frequency == Semester && f.dueDate.Some?
    ensures f.feeType.frequency == Semester && f.dueDate.Some? && f.period.semester == Some(FirstSemesterLabel) ==>
      (past <==> IsAfter(today, FirstOfMonth(today.year, 2)))
    ensures f.feeType.frequency == Semester && f.dueDate.Some? && f.period.semester == Some(SecondSemesterLabel) ==>
      (past <==> IsAfter(today, FirstOfMonth(today.year, 8)))
  {
    FirstLabelWords();
    SecondLabelWords();
    && f.feeType.frequency == Semester
    && f.dueDate.Some?
    && ((Contains(f.period.semester.value, "First") && IsAfter(today, FirstOfMonth(today.year, 2)))
        || (Contains(f.period.semester.value, "Second") && IsAfter(today, FirstOfMonth(today.year, 8))))
  }

  /** One fee after the sweep. Only a PENDING SEMESTER fee of this student with a due date can
      change, only to OVERDUE, and nothing but its status changes. */
  function ReconcileFee(f: StudentFee, student: UserId, today: Date): (r: StudentFee)
    requires f.feeType.frequency == Semester ==> f.period.semester.Some?
    ensures r == f || (f.status == Pending && r == f.(status := Overdue))
    ensures r != f <==> f.student == student && f.status == Pending && PastCutoff(f, today)
    ensures r != f ==> f.student == student && f.feeType.frequency == Semester && f.dueDate.Some?
  {
    if f.student == student && f.status == Pending && PastCutoff(f, today) then f.(status := Overdue) else f
  }

  /** The sweep over all fees; it keeps every fee's key and the store's fee constraints. */
  function Reconcile(fees: seq<StudentFee>, student: UserId, today: Date): (r: seq<StudentFee>)
    requires SemesterFeesLabelled(fees)
    ensures |r| == |fees|
    ensures forall i :: 0 <= i < |fees| ==> r[i] == ReconcileFee(fees[i], student, today)
    ensures forall i :: 0 <= i < |fees| ==> KeyOf(r[i]) == KeyOf(fees[i]) && r[i].feeType == fees[i].feeType
    ensures UniqueFeeKeys(fees) ==> UniqueFeeKeys(r)
    ensures SemesterFeesLabelled(r)
  {
    var r := seq(|fees|, i requires 0 <= i < |fees| => assert fees[i] in fees; ReconcileFee(fees[i], student, today));
    assert forall f :: f in r ==> exists i :: 0 <= i < |fees| && f == r[i];
    r
  }

  /** What ensureStudentFeesExist leaves in the fee store. */
  function EnsureResult(fees: seq<StudentFee>, types: seq<FeeType>, student: UserId, semester: string, academicYear: string, today: Date): seq<StudentFee>
    requires SemesterFeesLabelled(fees)
  {
    Reconcile(Generate(fees, types, student, PeriodRequest(semester, academicYear), today), student, today)
  }

  /** createStudentFee: saves the new fee. The callers have just checked that its key is free. */
  method CreateStudentFee(store: Store, student: UserId, ft: FeeType, period: Period, today: Date)
    requires store.Valid()
    requires ft.frequency == Semester ==> period.semester.Some?
    requires !ExistsFeeByKey(store.fees, FeeKey(student, ft.id, period))
    modifies store
    ensures store.Valid()
    ensures store.fees == old(store.fees) + [NewStudentFee(student, ft, period, today)]
    ensures store.payments == old(store.payments) && store.alerts == old(store.alerts)
    ensures store.nextAlertId == old(store.nextAlertId)
  {
    var fee := NewStudentFee(student, ft, period, today);
    AppendFeeKeepsKeysUnique(store.fees, fee);
    AppendFeeKeepsLabels(store.fees, fee);
    store.fees := store.fees + [fee];
  }

  /** One turn of the loop: the switch on the fee type's frequency, then the existence check
      on the exact key and the insert. */
  method GenerateForFeeType(store: Store, ft: FeeType, student: UserId, occasion: Occasion, today: Date)
    requires store.Valid()
    modifies store
    ensures store.Valid()
    ensures store.fees == GenerateStep(old(store.fees), ft, student, occasion, today)
    ensures store.payments == old(store.payments) && store.alerts == old(store.alerts)
    ensures store.nextAlertId == old(store.nextAlertId)
  {
    var plan := PlanFor(ft, student, occasion, store.fees, today);
    if plan.Some? && !ExistsFeeByKey(store.fees, FeeKey(student, ft.id, plan.value)) {
      CreateStudentFee(store, student, ft, plan.value, today);
    }
  }

  /** The loop over all fee types shared by ensureStudentFeesExist and createInitialFeesForStudent. */
  method GenerateFees(store: Store, student: UserId, occasion: Occasion, today: Date)
    requires store.Valid()
    modifies store
    ensures store.Valid()
    ensures store.fees == Generate(old(store.fees), store.feeTypes, student, occasion, today)
    ensures store.payments == old(store.payments) && store.alerts == old(store.alerts)
    ensures store.nextAlertId == old(store.nextAlertId)
  {
    var i := 0;
    while i < |store.feeTypes|
      invariant 0 <= i <= |store.feeTypes|
      invariant store.Valid()
      invariant store.fees == Generate(old(store.fees), store.feeTypes[..i], student, occasion, today)
      invariant store.payments == old(store.payments) && store.alerts == old(store.alerts)
      invariant store.nextAlertId == old(store.nextAlertId)
    {
      GenerateOneMore(old(store.fees), store.feeTypes, i, student, occasion, today);
      GenerateForFeeType(store, store.feeTypes[i], student, occasion, today);
      i := i + 1;
    }
    assert store.feeTypes[..i] == store.feeTypes;
  }

  /** The sweep of ensureStudentFeesExist: each of the student's PENDING fees
      (findByStudentAndStatus) that is past its cutoff is set to OVERDUE and saved. */
  method MarkOverdueFees(store: Store, student: UserId, today: Date)
    requires store.Valid()
    modifies store
    ensures store.Valid()
    ensures store.fees == Reconcile(old(store.fees), student, today)
    ensures store.payments == old(store.payments) && store.alerts == old(store.alerts)
    ensures store.nextAlertId == old(store.nextAlertId)
  {
    ghost var before := store.fees;
    var j := 0;
    while j < |store.fees|
      invariant 0 <= j <= |store.fees| == |before|
      invariant forall k :: 0 <= k < j ==> store.fees[k] == ReconcileFee(before[k], student, today)
      invariant forall k :: j <= k < |before| ==> store.fees[k] == before[k]
      invariant store.payments == old(store.payments) && store.alerts == old(store.alerts)
      invariant store.nextAlertId == old(store.nextAlertId)
    {
      var fee := store.fees[j];
      assert fee in before;
      if fee.student == student && fee.status == Pending && fee.feeType.frequency == Semester {
        if fee.dueDate.Some? {
          if Contains(fee.period.semester.value, "First") && IsAfter(today, FirstOfMonth(today.year, 2)) {
            store.fees := store.fees[j := fee.(status := Overdue)];
          } else if Contains(fee.period.semester.value, "Second") && IsAfter(today, FirstOfMonth(today.year, 8)) {
            store.fees := store.fees[j := fee.(status := Overdue)];
          }
        }
      }
      j := j + 1;
    }
    assert store.fees == Reconcile(before, student, today);
  }

  /** ensureStudentFeesExist: generate the fees due for the period, then run the OVERDUE sweep
      over the student's PENDING fees, new ones included. */
  method EnsureStudentFeesExist(store: Store, student: UserId, semester: string, academicYear: string, today: Date)
    requires store.Valid()
    modifies store
    ensures store.Valid()
    ensures store.fees == EnsureResult(old(store.fees), store.feeTypes, student, semester, academicYear, today)
    ensures store.payments == old(store.payments) && store.alerts == old(store.alerts)
    ensures store.nextAlertId == old(store.nextAlertId)
  {
    GenerateFees(store, student, PeriodRequest(semester, academicYear), today);
    MarkOverdueFees(store, student, today);
  }

  /** createInitialFeesForStudent: at registration, every fee type gets a fee for the current
      period (unless that key already exists); no sweep. */
  method CreateInitialFeesForStudent(store: Store, student: UserId, today: Date)
    requires store.Valid()
    modifies store
    ensures store.Valid()
    ensures store.fees == Generate(old(store.fees), store.feeTypes, student, Registration, today)
    ensures store.payments == old(store.payments) && store.alerts == old(store.alerts)
    ensures store.nextAlertId == old(store.nextAlertId)
  {
    GenerateFees(store, student, Registration, today);
  }

  /** getFeesForStudentAndSemester: ensure the period's fees, then list the student's fees for it. */
  method GetFeesForStudentAndSemester(store: Store, student: UserId, semester: string, academicYear: string, today: Date)
    returns (ids: seq<FeeId>)
    requires store.Valid()
    modifies store
    ensures store.Valid()
    ensures store.fees == EnsureResult(old(store.fees), store.feeTypes, student, semester, academicYear, today)
    ensures store.payments == old(store.payments) && store.alerts == old(store.alerts)
    ensures ids == FindFeesByStudentAndPeriod(store.fees, student, Period(Some(semester), Some(academicYear)))
  {
    EnsureStudentFeesExist(store, student, semester, academicYear, today);
    ids := FindFeesByStudentAndPeriod(store.fees, student, Period(Some(semester), Some(academicYear)));
  }

  /** updateFeeStatus: sets the status unconditionally; no other field and no other fee changes. */
  method UpdateFeeStatus(store: Store, feeId: FeeId, status: PaymentStatus) returns (saved: StudentFee)
    requires store.Valid() && feeId < |store.fees|
    modifies store
    ensures store.Valid()
    ensures store.fees == old(store.fees)[feeId := old(store.fees[feeId]).(status := status)]
    ensures saved == store.fees[feeId]
    ensures store.payments == old(store.payments) && store.alerts == old(store.alerts)
    ensures store.nextAlertId == old(store.nextAlertId)
  {
    saved := store.fees[feeId].(status := status);
    ReplaceFeeKeepsConstraints(store.fees, feeId, saved);
    store.fees := store.fees[feeId := saved];
  }
}
