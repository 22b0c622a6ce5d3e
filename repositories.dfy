/** The derived queries of StudentFeeRepository, FeeAlertRepository and PaymentRepository
    as filters over the stored sequences. Option equality gives the derived-query rule that a
    null argument matches a null column. */
module Repositories {

  import opened Entities

  /** The elements of `s` that `keep` accepts. */
  function Filter<T(!new)>(s: seq<T>, keep: T -> bool): (r: seq<T>)
    ensures forall x :: x in r <==> x in s && keep(x)
    ensures |r| <= |s|
    decreases |s|
  {
    if |s| == 0 then []
    else
      var front := Filter(s[..|s| - 1], keep);
      if keep(s[|s| - 1]) then front + [s[|s| - 1]] else front
  }

  /** No two elements of `s` share a key (a unique column). */
  predicate DistinctBy<T, K(==)>(s: seq<T>, key: T -> K)
  {
    forall i, j :: 0 <= i < j < |s| ==> key(s[i]) != key(s[j])
  }

  /** Filtering keeps a unique column unique. */
  lemma {:induction false} FilterDistinctBy<T(!new), K>(s: seq<T>, keep: T -> bool, key: T -> K)
    requires DistinctBy(s, key)
    ensures DistinctBy(Filter(s, keep), key)
    decreases |s|
  {
    if |s| > 0 {
      var front := s[..|s| - 1];
      assert DistinctBy(front, key);
      FilterDistinctBy(front, keep, key);
      var r := Filter(s, keep);
      if keep(s[|s| - 1]) {
        var f := Filter(front, keep);
        forall i | 0 <= i < |f|
          ensures key(f[i]) != key(s[|s| - 1])
        {
          assert f[i] in front;
          var k :| 0 <= k < |front| && front[k] == f[i];
        }
      }
    }
  }

  /** A condition that holds on every element keeps them all. */
  lemma {:induction false} FilterKeepsAll<T(!new)>(s: seq<T>, keep: T -> bool)
    requires forall x :: x in s ==> keep(x)
    ensures Filter(s, keep) == s
    decreases |s|
  {
    if |s| > 0 {
      assert forall x :: x in s[..|s| - 1] ==> x in s;
      FilterKeepsAll(s[..|s| - 1], keep);
      assert s[|s| - 1] in s;
    }
  }

  /** A condition that fails on the last element alone drops just that element. */
  lemma FilterDropsLast<T(!new)>(s: seq<T>, keep: T -> bool)
    requires |s| > 0 && !keep(s[|s| - 1])
    requires forall k :: 0 <= k < |s| - 1 ==> keep(s[k])
    ensures Filter(s, keep) == s[..|s| - 1]
  {
    var front := s[..|s| - 1];
    forall x | x in front
      ensures keep(x)
    {
      var k :| 0 <= k < |front| && front[k] == x;
    }
    FilterKeepsAll(front, keep);
  }

  /** A condition that fails on exactly one element drops that element alone, keeping the
      others in order. */
  lemma {:induction false} FilterDropsOne<T(!new)>(s: seq<T>, keep: T -> bool, i: nat)
    requires i < |s| && !keep(s[i])
    requires forall k :: 0 <= k < |s| && k != i ==> keep(s[k])
    ensures Filter(s, keep) == s[..i] + s[i + 1..]
    decreases |s|
  {
    if i == |s| - 1 {
      FilterDropsLast(s, keep);
      assert s[i + 1..] == [];
    } else {
      FilterDropsOne(s[..|s| - 1], keep, i);
      FilterUnfold(s, keep);
      SplitAroundBeforeLast(s, i);
    }
  }

  /** Filtering looks at the last element and filters the ones before it. */
  lemma FilterUnfold<T(!new)>(s: seq<T>, keep: T -> bool)
    requires |s| > 0
    ensures Filter(s, keep) == Filter(s[..|s| - 1], keep) + (if keep(s[|s| - 1]) then [s[|s| - 1]] else [])
  {
  }

  /** Cutting out an element before the last one commutes with setting the last one aside. */
  lemma SplitAroundBeforeLast<T>(s: seq<T>, i: nat)
    requires i < |s| - 1
    ensures s[..i] + s[i + 1..] == s[..|s| - 1][..i] + s[..|s| - 1][i + 1..] + [s[|s| - 1]]
  {
    assert s[..i] == s[..|s| - 1][..i];
    assert s[i + 1..] == s[..|s| - 1][i + 1..] + [s[|s| - 1]];
  }

  /** The ids (positions) of the fees that `keep` accepts, in increasing order. */
  function FeeIdsWhere(fees: seq<StudentFee>, keep: StudentFee -> bool): (r: seq<FeeId>)
    ensures forall id: FeeId :: id in r <==> id < |fees| && keep(fees[id])
    ensures forall i :: 0 <= i < |r| ==> r[i] < |fees|
    ensures forall i, j :: 0 <= i < j < |r| ==> r[i] < r[j]
    decreases |fees|
  {
    if |fees| == 0 then []
    else
      var front := FeeIdsWhere(fees[..|fees| - 1], keep);
      if keep(fees[|fees| - 1]) then front + [|fees| - 1] else front
  }

  // ---- StudentFeeRepository ----

  function FindFeesByStudentAndStatus(fees: seq<StudentFee>, student: UserId, status: PaymentStatus): (r: seq<FeeId>)
    ensures forall id: FeeId :: id in r <==> id < |fees| && fees[id].student == student && fees[id].status == status
  {
    FeeIdsWhere(fees, (f: StudentFee) => f.student == student && f.status == status)
  }

  function FindFeesByStudentAndPeriod(fees: seq<StudentFee>, student: UserId, period: Period): (r: seq<FeeId>)
    ensures forall id: FeeId :: id in r <==> id < |fees| && fees[id].student == student && fees[id].period == period
  {
    FeeIdsWhere(fees, (f: StudentFee) => f.student == student && f.period == period)
  }

  function FindFeesByStatus(fees: seq<StudentFee>, status: PaymentStatus): (r: seq<FeeId>)
    ensures forall id: FeeId :: id in r <==> id < |fees| && fees[id].status == status
  {
    FeeIdsWhere(fees, (f: StudentFee) => f.status == status)
  }

  function FindFeesByPeriodAndStatus(fees: seq<StudentFee>, period: Period, status: PaymentStatus): (r: seq<FeeId>)
    ensures forall id: FeeId :: id in r <==> id < |fees| && fees[id].period == period && fees[id].status == status
  {
    FeeIdsWhere(fees, (f: StudentFee) => f.period == period && f.status == status)
  }

  /** existsByStudentAndFeeType: the student has a fee of this type, for any period. */
  predicate ExistsFeeByStudentAndFeeType(fees: seq<StudentFee>, student: UserId, feeTypeId: nat)
  {
    exists f :: f in fees && f.student == student && f.feeType.id == feeTypeId
  }

  /** existsByStudentAndFeeTypeAndSemesterAndAcademicYear. */
  predicate ExistsFeeByKey(fees: seq<StudentFee>, key: FeeKey)
  {
    exists f :: f in fees && KeyOf(f) == key
  }

  // ---- FeeAlertRepository ----

  function FindAlertsByStudentAndFee(alerts: seq<FeeAlert>, student: UserId, fee: FeeId): (r: seq<FeeAlert>)
    ensures forall a :: a in r <==> a in alerts && a.student == student && a.fee == fee
  {
    Filter(alerts, (a: FeeAlert) => a.student == student && a.fee == fee)
  }

  /** existsByStudentAndStudentFeeAndSentBy. */
  predicate ExistsAlert(alerts: seq<FeeAlert>, student: UserId, fee: FeeId, sentBy: UserId)
  {
    exists a :: a in alerts && a.student == student && a.fee == fee && a.sentBy == sentBy
  }

  function FindAlertsBySentBy(alerts: seq<FeeAlert>, sentBy: UserId): (r: seq<FeeAlert>)
    ensures forall a :: a in r <==> a in alerts && a.sentBy == sentBy
  {
    Filter(alerts, (a: FeeAlert) => a.sentBy == sentBy)
  }

  function FindAlertsByStudent(alerts: seq<FeeAlert>, student: UserId): (r: seq<FeeAlert>)
    ensures forall a :: a in r <==> a in alerts && a.student == student
  {
    Filter(alerts, (a: FeeAlert) => a.student == student)
  }

  /** The condition delete(alert) keeps the other alerts by. */
  function OtherId(id: nat): FeeAlert -> bool
  {
    (a: FeeAlert) => a.id != id
  }

  /** delete(alert): the alert with that primary key is gone, every other alert stays. */
  function DeleteAlertById(alerts: seq<FeeAlert>, id: nat): (r: seq<FeeAlert>)
    ensures forall a :: a in r <==> a in alerts && a.id != id
  {
    Filter(alerts, OtherId(id))
  }

  // ---- PaymentRepository ----

  function FindPaymentsByStudent(payments: seq<Payment>, student: UserId): (r: seq<Payment>)
    ensures forall p :: p in r <==> p in payments && p.student == student
  {
    Filter(payments, (p: Payment) => p.student == student)
  }

  /** Every payment refers to a stored fee. */
  predicate PaymentsReferToFees(payments: seq<Payment>, fees: seq<StudentFee>)
  {
    forall p :: p in payments ==> p.fee < |fees|
  }

  /** findByStudentAndStudentFee_SemesterAndStudentFee_AcademicYear: joins each payment to its fee. */
  function FindPaymentsByStudentAndPeriod(payments: seq<Payment>, fees: seq<StudentFee>, student: UserId, period: Period): (r: seq<Payment>)
    requires PaymentsReferToFees(payments, fees)
    ensures forall p :: p in r <==> p in payments && p.student == student && fees[p.fee].period == period
  {
    Filter(payments, (p: Payment) => p.student == student && p.fee < |fees| && fees[p.fee].period == period)
  }

  /** findByStudentFee_SemesterAndStudentFee_AcademicYear. */
  function FindPaymentsByPeriod(payments: seq<Payment>, fees: seq<StudentFee>, period: Period): (r: seq<Payment>)
    requires PaymentsReferToFees(payments, fees)
    ensures forall p :: p in r <==> p in payments && fees[p.fee].period == period
  {
    Filter(payments, (p: Payment) => p.fee < |fees| && fees[p.fee].period == period)
  }
}
