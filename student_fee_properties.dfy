/** What ensureStudentFeesExist and createInitialFeesForStudent guarantee: no duplicate keys,
    a fee for exactly the due fee types, idempotence, the one-way OVERDUE sweep, and the
    as-written date quirks. */
module StudentFeeProperties {

  import opened Wrappers
  import opened Text
  import opened Calendar
  import opened Entities
  import opened Repositories
  import opened FeeStore
  import opened StudentFeeService

  // ---- academic-year labels ----

  /** The academic-year label names the year the academic year began and the next one. */
  lemma AcademicYearLabelNamesItsYears(today: Date)
    requires today.year >= 1
    ensures ParseAcademicYear(CurrentAcademicYear(today))
      == Some((AcademicYearStart(today) as nat, (AcademicYearStart(today) + 1) as nat))
  {
    var start := AcademicYearStart(today);
    var a, b := NatToString(start), NatToString(start + 1);
    assert CurrentAcademicYear(today) == a + ['-'] + b;
    assert '-' !in a by {
      assert forall i :: 0 <= i < |a| ==> IsDigit(a[i]);
    }
    SplitAtFirstJoin(a, b, '-');
    NatToStringRoundTrip(start);
    NatToStringRoundTrip(start + 1);
  }

  /** A seven-character label such as "2024-25" never equals the current academic year
      (nine characters in years 1001..9998), so a YEARLY fee is never due for it. */
  lemma YearlyFeeNeverDueForShortLabel(ft: FeeType, student: UserId, fees: seq<StudentFee>, semester: string, academicYear: string, today: Date)
    requires ft.frequency == Yearly && |academicYear| == 7 && 1001 <= today.year <= 9998
    ensures PlanFor(ft, student, PeriodRequest(semester, academicYear), fees, today) == None
  {
    FourDigitYear(AcademicYearStart(today));
    FourDigitYear(AcademicYearStart(today) + 1);
  }

  // ---- generation ----

  /** Fee type `t` needs nothing more on this occasion: it is not due, or its key exists. */
  predicate Settled(fees: seq<StudentFee>, t: FeeType, student: UserId, occasion: Occasion, today: Date)
  {
    match PlanFor(t, student, occasion, fees, today)
    case None => true
    case Some(p) => ExistsFeeByKey(fees, FeeKey(student, t.id, p))
  }

  /** Every key present in `a` is present in `b`. */
  predicate KeysCovered(a: seq<StudentFee>, b: seq<StudentFee>)
  {
    forall f :: f in a ==> ExistsFeeByKey(b, KeyOf(f))
  }

  /** Fee types with distinct primary keys. */
  predicate DistinctTypeIds(types: seq<FeeType>)
  {
    forall i, j :: 0 <= i < j < |types| ==> types[i].id != types[j].id
  }

  lemma PrefixCovered(a: seq<StudentFee>, b: seq<StudentFee>)
    requires a <= b
    ensures KeysCovered(a, b)
  {
    forall f | f in a
      ensures ExistsFeeByKey(b, KeyOf(f))
    {
      var i :| 0 <= i < |a| && a[i] == f;
      assert b[i] == f;
    }
  }

  /** A settled fee type stays settled when keys are only added. */
  lemma SettledStaysSettled(a: seq<StudentFee>, b: seq<StudentFee>, t: FeeType, student: UserId, occasion: Occasion, today: Date)
    requires Settled(a, t, student, occasion, today) && KeysCovered(a, b)
    ensures Settled(b, t, student, occasion, today)
  {
    if occasion.PeriodRequest? && t.frequency == OneTime {
      assert ExistsFeeByStudentAndFeeType(a, student, t.id);
      var f :| f in a && f.student == student && f.feeType.id == t.id;
      var g :| g in b && KeyOf(g) == KeyOf(f);
      assert ExistsFeeByStudentAndFeeType(b, student, t.id);
    } else {
      match PlanFor(t, student, occasion, a, today)
      case None =>
      case Some(p) =>
        var f :| f in a && KeyOf(f) == FeeKey(student, t.id, p);
        assert ExistsFeeByKey(b, KeyOf(f));
    }
  }

  /** After its loop turn a fee type is settled. */
  lemma StepSettles(fees: seq<StudentFee>, t: FeeType, student: UserId, occasion: Occasion, today: Date)
    ensures Settled(GenerateStep(fees, t, student, occasion, today), t, student, occasion, today)
  {
    var r := GenerateStep(fees, t, student, occasion, today);
    match PlanFor(t, student, occasion, fees, today)
    case None =>
    case Some(p) =>
      if !ExistsFeeByKey(fees, FeeKey(student, t.id, p)) {
        var nf := NewStudentFee(student, t, p, today);
        assert r == fees + [nf];
        assert nf in r;
        if occasion.PeriodRequest? && t.frequency == OneTime {
          assert ExistsFeeByStudentAndFeeType(r, student, t.id);
        } else {
          assert ExistsFeeByKey(r, KeyOf(nf));
        }
      }
  }

  /** Every fee in the generator's output was already there or is freshly generated. */
  lemma GeneratedOrOld(fees: seq<StudentFee>, types: seq<FeeType>, student: UserId, occasion: Occasion, today: Date, f: StudentFee)
    requires f in Generate(fees, types, student, occasion, today)
    ensures f in fees || IsGeneratedFee(f, student, types)
  {
    var g := Generate(fees, types, student, occasion, today);
    var k :| 0 <= k < |g| && g[k] == f;
    if k < |fees| {
      assert fees[k] == f;
    }
  }

  /** After the loop every fee type is settled. */
  lemma {:induction false} GenerateSettlesAll(fees: seq<StudentFee>, types: seq<FeeType>, student: UserId, occasion: Occasion, today: Date)
    ensures forall t :: t in types ==> Settled(Generate(fees, types, student, occasion, today), t, student, occasion, today)
    decreases |types|
  {
    if |types| > 0 {
      var front, last := types[..|types| - 1], types[|types| - 1];
      assert types == front + [last];
      GenerateSettlesAll(fees, front, student, occasion, today);
      var g := Generate(fees, front, student, occasion, today);
      var r := GenerateStep(g, last, student, occasion, today);
      assert r == Generate(fees, types, student, occasion, today);
      StepSettles(g, last, student, occasion, today);
      assert g <= r;
      PrefixCovered(g, r);
      forall t | t in types
        ensures Settled(r, t, student, occasion, today)
      {
        if t != last {
          assert t in front;
          SettledStaysSettled(g, r, t, student, occasion, today);
        }
      }
    }
  }

  /** When every fee type is already settled the loop inserts nothing. */
  lemma {:induction false} GenerateIdleWhenSettled(fees: seq<StudentFee>, types: seq<FeeType>, student: UserId, occasion: Occasion, today: Date)
    requires forall t :: t in types ==> Settled(fees, t, student, occasion, today)
    ensures Generate(fees, types, student, occasion, today) == fees
    decreases |types|
  {
    if |types| > 0 {
      var front := types[..|types| - 1];
      assert forall t :: t in front ==> t in types;
      GenerateIdleWhenSettled(fees, front, student, occasion, today);
      assert types[|types| - 1] in types;
    }
  }

  /** A loop turn for another fee type leaves the existence of a key unchanged. */
  lemma StepKeepsOtherKeys(g: seq<StudentFee>, last: FeeType, student: UserId, occasion: Occasion, today: Date, key: FeeKey)
    requires key.feeTypeId != last.id
    ensures ExistsFeeByKey(GenerateStep(g, last, student, occasion, today), key) == ExistsFeeByKey(g, key)
  {
    match PlanFor(last, student, occasion, g, today)
    case None =>
    case Some(q) =>
      if !ExistsFeeByKey(g, FeeKey(student, last.id, q)) {
        var nf := NewStudentFee(student, last, q, today);
        assert GenerateStep(g, last, student, occasion, today) == g + [nf];
        assert forall f :: f in g + [nf] <==> f in g || f == nf;
      }
  }

  /** The loop turn for `t` itself, when no earlier fee type shares its id: it creates the key
      exactly when the switch plans that period against the fees as they were before the loop. */
  lemma StepCreatesDueKey(fees: seq<StudentFee>, front: seq<FeeType>, t: FeeType, student: UserId, occasion: Occasion, today: Date, p: Period)
    requires forall u :: u in front ==> u.id != t.id
    requires !ExistsFeeByKey(fees, FeeKey(student, t.id, p))
    ensures ExistsFeeByKey(GenerateStep(Generate(fees, front, student, occasion, today), t, student, occasion, today), FeeKey(student, t.id, p))
      <==> PlanFor(t, student, occasion, fees, today) == Some(p)
  {
    var g := Generate(fees, front, student, occasion, today);
    var r := GenerateStep(g, t, student, occasion, today);
    var key := FeeKey(student, t.id, p);
    forall f | f in g && f.feeType.id == t.id
      ensures f in fees
    {
      GeneratedOrOld(fees, front, student, occasion, today, f);
    }
    assert fees <= g;
    assert ExistsFeeByStudentAndFeeType(g, student, t.id) == ExistsFeeByStudentAndFeeType(fees, student, t.id);
    assert PlanFor(t, student, occasion, g, today) == PlanFor(t, student, occasion, fees, today);
    assert !ExistsFeeByKey(g, key);
    match PlanFor(t, student, occasion, g, today)
    case None =>
    case Some(q) =>
      if !ExistsFeeByKey(g, FeeKey(student, t.id, q)) {
        var nf := NewStudentFee(student, t, q, today);
        assert r == g + [nf];
        assert forall f :: f in r <==> f in g || f == nf;
        if q == p {
          assert nf in r && KeyOf(nf) == key;
        }
      }
  }

  /** With distinct fee-type ids and a key absent beforehand, the loop creates a fee for
      (student, t, p) exactly when `t` is due for period `p` according to the switch on
      its frequency, evaluated against the fees as they were before the call. */
  lemma {:induction false} GenerateCreatesExactlyTheDueFees(fees: seq<StudentFee>, types: seq<FeeType>, student: UserId, occasion: Occasion, today: Date, t: FeeType, p: Period)
    requires DistinctTypeIds(types) && t in types
    requires !ExistsFeeByKey(fees, FeeKey(student, t.id, p))
    ensures ExistsFeeByKey(Generate(fees, types, student, occasion, today), FeeKey(student, t.id, p))
      <==> PlanFor(t, student, occasion, fees, today) == Some(p)
    decreases |types|
  {
    var n := |types|;
    var front, last := types[..n - 1], types[n - 1];
    assert types == front + [last];
    var g := Generate(fees, front, student, occasion, today);
    assert GenerateStep(g, last, student, occasion, today) == Generate(fees, types, student, occasion, today);
    if t == last {
      forall u | u in front
        ensures u.id != t.id
      {
        var i :| 0 <= i < n - 1 && front[i] == u;
      }
      StepCreatesDueKey(fees, front, t, student, occasion, today, p);
    } else {
      assert t in front;
      var i :| 0 <= i < n - 1 && front[i] == t;
      assert t.id != last.id;
      assert DistinctTypeIds(front);
      GenerateCreatesExactlyTheDueFees(fees, front, student, occasion, today, t, p);
      StepKeepsOtherKeys(g, last, student, occasion, today, FeeKey(student, t.id, p));
    }
  }

  /** The fees appended after position `n` have pairwise distinct fee-type ids, that is, at
      most one of them per fee type. */
  predicate AtMostOnePerTypeAfter(n: nat, r: seq<StudentFee>)
  {
    forall j, k :: n <= j < k < |r| ==> r[j].feeType.id != r[k].feeType.id
  }

  /** Appending one fee whose type id is new among the appended fees keeps the appended
      fees' type ids pairwise distinct. */
  lemma AppendFreshTypeKeepsTypesDistinct(n: nat, g: seq<StudentFee>, r: seq<StudentFee>, front: seq<FeeType>, last: FeeType)
    requires n <= |g| && g <= r && |r| <= |g| + 1
    requires forall k :: n <= k < |g| ==> g[k].feeType in front
    requires |g| < |r| ==> r[|g|].feeType == last
    requires forall u :: u in front ==> u.id != last.id
    requires AtMostOnePerTypeAfter(n, g)
    ensures AtMostOnePerTypeAfter(n, r)
  {
    forall j, k | n <= j < k < |r|
      ensures r[j].feeType.id != r[k].feeType.id
    {
      assert r[j] == g[j];
      if k < |g| {
        assert r[k] == g[k];
      }
    }
  }

  /** The last turn of the loop appends at most one fee, of the last fee type, after fees
      whose types come from the earlier fee types. */
  lemma GenerateLastTurn(fees: seq<StudentFee>, types: seq<FeeType>, student: UserId, occasion: Occasion, today: Date)
    requires |types| > 0
    ensures var g := Generate(fees, types[..|types| - 1], student, occasion, today);
      var r := Generate(fees, types, student, occasion, today);
      && |fees| <= |g| && g <= r && |r| <= |g| + 1
      && (forall k :: |fees| <= k < |g| ==> g[k].feeType in types[..|types| - 1])
      && (|g| < |r| ==> r[|g|].feeType == types[|types| - 1])
  {
    var front, last := types[..|types| - 1], types[|types| - 1];
    var g := Generate(fees, front, student, occasion, today);
    StepKeepsFeeConstraints(g, last, student, occasion, today);
    assert forall k :: |fees| <= k < |g| ==> IsGeneratedFee(g[k], student, front);
  }

  /** With distinct fee-type ids the loop adds at most one fee per fee type: no two new fees
      share a fee-type id. */
  lemma {:induction false} GenerateAddsAtMostOnePerType(fees: seq<StudentFee>, types: seq<FeeType>, student: UserId, occasion: Occasion, today: Date)
    requires DistinctTypeIds(types)
    ensures AtMostOnePerTypeAfter(|fees|, Generate(fees, types, student, occasion, today))
    decreases |types|
  {
    if |types| > 0 {
      var n := |types|;
      var front, last := types[..n - 1], types[n - 1];
      assert DistinctTypeIds(front);
      GenerateAddsAtMostOnePerType(fees, front, student, occasion, today);
      GenerateLastTurn(fees, types, student, occasion, today);
      forall u | u in front
        ensures u.id != last.id
      {
        var i :| 0 <= i < n - 1 && front[i] == u;
      }
      AppendFreshTypeKeepsTypesDistinct(|fees|, Generate(fees, front, student, occasion, today),
        Generate(fees, types, student, occasion, today), front, last);
    }
  }

  /** At registration every fee type ends up with its fee for the current period, and no key
      is duplicated. */
  lemma RegistrationGivesEveryFeeTypeItsFee(fees: seq<StudentFee>, types: seq<FeeType>, student: UserId, today: Date)
    requires UniqueFeeKeys(fees)
    ensures UniqueFeeKeys(Generate(fees, types, student, Registration, today))
    ensures forall t :: t in types ==>
      ExistsFeeByKey(Generate(fees, types, student, Registration, today), FeeKey(student, t.id, RegistrationPeriod(t.frequency, today)))
  {
    GenerateSettlesAll(fees, types, student, Registration, today);
  }

  // ---- the OVERDUE sweep ----

  lemma ReconcileCoversKeys(fees: seq<StudentFee>, student: UserId, today: Date)
    requires SemesterFeesLabelled(fees)
    ensures KeysCovered(fees, Reconcile(fees, student, today))
  {
    var r := Reconcile(fees, student, today);
    forall f | f in fees
      ensures ExistsFeeByKey(r, KeyOf(f))
    {
      var i :| 0 <= i < |fees| && fees[i] == f;
      assert r[i] in r;
    }
  }

  /** A second sweep on the same day changes nothing. */
  lemma ReconcileIdempotent(fees: seq<StudentFee>, student: UserId, today: Date)
    requires SemesterFeesLabelled(fees)
    ensures Reconcile(Reconcile(fees, student, today), student, today) == Reconcile(fees, student, today)
  {
    var r := Reconcile(fees, student, today);
    var rr := Reconcile(r, student, today);
    forall i | 0 <= i < |fees|
      ensures rr[i] == r[i]
    {
      assert fees[i] in fees;
    }
  }

  /** ensureStudentFeesExist keeps every existing fee, changing at most the status of this
      student's PENDING fees, to OVERDUE; PAID and OVERDUE fees and other students' fees are
      untouched. What it adds are freshly generated fees for this student (possibly already
      swept to OVERDUE). */
  lemma EnsureOnlyAddsAndPromotes(fees: seq<StudentFee>, types: seq<FeeType>, student: UserId, semester: string, academicYear: string, today: Date)
    requires SemesterFeesLabelled(fees)
    ensures var r := EnsureResult(fees, types, student, semester, academicYear, today);
      && |fees| <= |r| <= |fees| + |types|
      && (forall i :: 0 <= i < |fees| ==>
            r[i] == fees[i] || (fees[i].student == student && fees[i].status == Pending && r[i] == fees[i].(status := Overdue)))
      && (forall k :: |fees| <= k < |r| ==> r[k].student == student && r[k].feeType in types && r[k].status != Paid)
      && (DistinctTypeIds(types) ==> AtMostOnePerTypeAfter(|fees|, r))
  {
    var g := Generate(fees, types, student, PeriodRequest(semester, academicYear), today);
    var r := Reconcile(g, student, today);
    forall i | 0 <= i < |fees|
      ensures r[i] == fees[i] || (fees[i].student == student && fees[i].status == Pending && r[i] == fees[i].(status := Overdue))
    {
      assert g[i] == fees[i];
      assert g[i] in g;
    }
    forall k | |fees| <= k < |r|
      ensures r[k].student == student && r[k].feeType in types && r[k].status != Paid
    {
      assert IsGeneratedFee(g[k], student, types);
      assert g[k] in g;
    }
    if DistinctTypeIds(types) {
      EnsureAddsAtMostOnePerType(fees, types, student, semester, academicYear, today);
    }
  }

  /** The sweep keeps every fee's type, so ensure also adds at most one fee per fee type. */
  lemma EnsureAddsAtMostOnePerType(fees: seq<StudentFee>, types: seq<FeeType>, student: UserId, semester: string, academicYear: string, today: Date)
    requires SemesterFeesLabelled(fees) && DistinctTypeIds(types)
    ensures AtMostOnePerTypeAfter(|fees|, EnsureResult(fees, types, student, semester, academicYear, today))
  {
    var g := Generate(fees, types, student, PeriodRequest(semester, academicYear), today);
    GenerateAddsAtMostOnePerType(fees, types, student, PeriodRequest(semester, academicYear), today);
    var r := Reconcile(g, student, today);
    assert r == EnsureResult(fees, types, student, semester, academicYear, today);
    forall j, k | |fees| <= j < k < |r|
      ensures r[j].feeType.id != r[k].feeType.id
    {
      assert r[j].feeType == g[j].feeType && r[k].feeType == g[k].feeType;
      assert g[j].feeType.id != g[k].feeType.id;
    }
  }

  /** Calling ensureStudentFeesExist twice with the same arguments on the same day leaves the
      fees as the first call left them. */
  lemma EnsureIsIdempotent(fees: seq<StudentFee>, types: seq<FeeType>, student: UserId, semester: string, academicYear: string, today: Date)
    requires SemesterFeesLabelled(fees)
    ensures var once := EnsureResult(fees, types, student, semester, academicYear, today);
      EnsureResult(once, types, student, semester, academicYear, today) == once
  {
    var occasion := PeriodRequest(semester, academicYear);
    var g := Generate(fees, types, student, occasion, today);
    var z := Reconcile(g, student, today);
    GenerateSettlesAll(fees, types, student, occasion, today);
    ReconcileCoversKeys(g, student, today);
    forall t | t in types
      ensures Settled(z, t, student, occasion, today)
    {
      SettledStaysSettled(g, z, t, student, occasion, today);
    }
    GenerateIdleWhenSettled(z, types, student, occasion, today);
    ReconcileIdempotent(g, student, today);
  }

  /** As written, the "First" cutoff is 1 February of the current year: a "First" SEMESTER fee
      created between August and December is already OVERDUE when the same call returns,
      although its due date (1 October) may still lie ahead. */
  lemma FirstSemesterFeeIsOverdueAtOnce(fees: seq<StudentFee>, types: seq<FeeType>, student: UserId, semester: string, academicYear: string, today: Date, t: FeeType)
    requires SemesterFeesLabelled(fees) && DistinctTypeIds(types)
    requires t in types && t.frequency == Semester
    requires Contains(semester, "First") && 8 <= today.month <= 12
    requires !ExistsFeeByKey(fees, FeeKey(student, t.id, Period(Some(semester), Some(academicYear))))
    ensures exists f :: (f in EnsureResult(fees, types, student, semester, academicYear, today)
      && KeyOf(f) == FeeKey(student, t.id, Period(Some(semester), Some(academicYear)))
      && f.status == Overdue)
  {
    var occasion := PeriodRequest(semester, academicYear);
    var p := Period(Some(semester), Some(academicYear));
    var key := FeeKey(student, t.id, p);
    assert PlanFor(t, student, occasion, fees, today) == Some(p);
    GenerateCreatesExactlyTheDueFees(fees, types, student, occasion, today, t, p);
    var g := Generate(fees, types, student, occasion, today);
    var f :| f in g && KeyOf(f) == key;
    GeneratedOrOld(fees, types, student, occasion, today, f);
    assert IsGeneratedFee(f, student, types);
    assert f.feeType == t by {
      var i :| 0 <= i < |types| && types[i] == f.feeType;
      var j :| 0 <= j < |types| && types[j] == t;
      assert i == j;
    }
    var k :| 0 <= k < |g| && g[k] == f;
    var r := Reconcile(g, student, today);
    assert r[k] == f.(status := Overdue);
    assert r[k] in r;
  }
}
