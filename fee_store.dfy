/** The shared storage the three services work on: the fee types (read-only), the student
    fees, the payments and the alerts, with the uniqueness and reference constraints the
    services maintain. */
module FeeStore {

  import opened Entities
  import opened Repositories

  /** At most one fee per (student, fee type, semester, academic year). */
  predicate UniqueFeeKeys(fees: seq<StudentFee>)
  {
    forall i, j :: 0 <= i < j < |fees| ==> KeyOf(fees[i]) != KeyOf(fees[j])
  }

  /** Every fee of a SEMESTER fee type carries a semester label (reconciliation reads it). */
  predicate SemesterFeesLabelled(fees: seq<StudentFee>)
  {
    forall f :: f in fees && f.feeType.frequency == Semester ==> f.period.semester.Some?
  }

  /** Appending a fee under a key not yet present keeps the keys unique. */
  lemma AppendFeeKeepsKeysUnique(fees: seq<StudentFee>, fee: StudentFee)
    requires UniqueFeeKeys(fees) && !ExistsFeeByKey(fees, KeyOf(fee))
    ensures UniqueFeeKeys(fees + [fee])
  {
    forall i | 0 <= i < |fees|
      ensures KeyOf(fees[i]) != KeyOf(fee)
    {
      assert fees[i] in fees;
    }
  }

  /** Appending a labelled fee keeps every SEMESTER fee labelled. */
  lemma AppendFeeKeepsLabels(fees: seq<StudentFee>, fee: StudentFee)
    requires SemesterFeesLabelled(fees)
    requires fee.feeType.frequency == Semester ==> fee.period.semester.Some?
    ensures SemesterFeesLabelled(fees + [fee])
  {
    assert forall f :: f in fees + [fee] ==> f in fees || f == fee;
  }

  /** Replacing a fee by one with the same key and fee type keeps both fee constraints. */
  lemma ReplaceFeeKeepsConstraints(fees: seq<StudentFee>, i: nat, fee: StudentFee)
    requires i < |fees| && KeyOf(fee) == KeyOf(fees[i]) && fee.feeType == fees[i].feeType
    ensures UniqueFeeKeys(fees) ==> UniqueFeeKeys(fees[i := fee])
    ensures SemesterFeesLabelled(fees) ==> SemesterFeesLabelled(fees[i := fee])
  {
    assert forall k :: 0 <= k < |fees| ==> KeyOf(fees[i := fee][k]) == KeyOf(fees[k]);
    assert forall f :: f in fees[i := fee] ==> f in fees || f == fee;
    assert fees[i] in fees;
  }

  function AlertId(a: FeeAlert): nat { a.id }

  /** The tuple an alert is deduplicated on: (student, fee, sender). */
  function AlertTriple(a: FeeAlert): (UserId, FeeId, UserId) { (a.student, a.fee, a.sentBy) }

  function ReceiptOf(p: Payment): string { p.receiptNumber }

  predicate AlertsWellFormed(alerts: seq<FeeAlert>, feeCount: nat, nextAlertId: nat)
  {
    && (forall a :: a in alerts ==> a.fee < feeCount && a.id < nextAlertId)
    && DistinctBy(alerts, AlertId)
    && DistinctBy(alerts, AlertTriple)
  }

  class Store {
    const feeTypes: seq<FeeType>
    var fees: seq<StudentFee>
    var payments: seq<Payment>
    var alerts: seq<FeeAlert>
    /** The next generated alert primary key. */
    var nextAlertId: nat

    ghost predicate Valid()
      reads this
    {
      && UniqueFeeKeys(fees)
      && SemesterFeesLabelled(fees)
      && AlertsWellFormed(alerts, |fees|, nextAlertId)
      && PaymentsReferToFees(payments, fees)
      && DistinctBy(payments, ReceiptOf)
    }

    /** An empty store over the given fee types. */
    constructor (feeTypes: seq<FeeType>)
      ensures Valid()
      ensures this.feeTypes == feeTypes && fees == [] && payments == [] && alerts == []
    {
      this.feeTypes := feeTypes;
      fees, payments, alerts := [], [], [];
      nextAlertId := 0;
    }
  }
}
