/** PaymentService: recording a payment for a fee (amount snapshot, fee set to PAID, the fee's
    alerts removed, the payment saved under a fresh receipt number). The UUID and the clock
    are parameters. */
module PaymentService {

  import opened Wrappers
  import opened Text
  import opened Calendar
  import opened Entities
  import opened Repositories
  import opened FeeStore
  import StudentFeeService
  import FeeAlertService

  predicate IsLowerHexDigit(c: char) { '0' <= c <= '9' || 'a' <= c <= 'f' }

  predicate IsUpperHexDigit(c: char) { '0' <= c <= '9' || 'A' <= c <= 'F' }

  /** The text of UUID.toString(): five groups of 8, 4, 4, 4 and 12 lower-case hex digits
      separated by dashes. */
  predicate IsUuidText(u: string)
  {
    && |u| == 36
    && forall i :: 0 <= i < 36 ==>
         if i == 8 || i == 13 || i == 18 || i == 23 then u[i] == '-' else IsLowerHexDigit(u[i])
  }

  const ReceiptPrefix := "RCPT-"

  /** generateReceiptNumber: "RCPT-" and the UUID's first eight characters upper-cased. The
      result has thirteen characters, its suffix is upper-case hex, and lower-casing the
      suffix gives back the UUID's first group. */
  function ReceiptNumber(uuid: string): (r: string)
    requires IsUuidText(uuid)
    ensures |r| == 13 && r[..5] == ReceiptPrefix
    ensures forall i :: 5 <= i < 13 ==> IsUpperHexDigit(r[i])
    ensures ToLower(r[5..]) == uuid[..8]
  {
    var suffix := ToUpper(uuid[..8]);
    UpperThenLower(uuid[..8]);
    assert (ReceiptPrefix + suffix)[5..] == suffix;
    ReceiptPrefix + suffix
  }

  /** Two UUIDs give the same receipt number exactly when their first groups agree: only
      32 bits of the UUID survive in the receipt. */
  lemma ReceiptsCollideExactlyOnFirstGroup(u: string, v: string)
    requires IsUuidText(u) && IsUuidText(v)
    ensures ReceiptNumber(u) == ReceiptNumber(v) <==> u[..8] == v[..8]
  {
    if ReceiptNumber(u) == ReceiptNumber(v) {
      assert ToLower(ReceiptNumber(u)[5..]) == ToLower(ReceiptNumber(v)[5..]);
    }
  }

  /** The receipt_number column is unique: a receipt already stored is taken. */
  predicate ReceiptInUse(payments: seq<Payment>, receipt: string)
  {
    exists p :: p in payments && p.receiptNumber == receipt
  }

  /** The ids of the given alerts. */
  function IdsOf(alerts: seq<FeeAlert>): set<nat>
  {
    set a | a in alerts :: a.id
  }

  lemma IdsOfSnoc(alerts: seq<FeeAlert>, a: FeeAlert)
    ensures IdsOf(alerts + [a]) == IdsOf(alerts) + {a.id}
  {
    assert forall b :: b in alerts + [a] <==> b in alerts || b == a;
  }

  /** The alerts left after deleting every alert whose id is in `ids`. */
  function WithoutIds(alerts: seq<FeeAlert>, ids: set<nat>): (r: seq<FeeAlert>)
    ensures forall a :: a in r <==> a in alerts && a.id !in ids
  {
    Filter(alerts, (a: FeeAlert) => a.id !in ids)
  }

  /** Deleting no id keeps every alert. */
  lemma {:induction false} WithoutNoIds(alerts: seq<FeeAlert>)
    ensures WithoutIds(alerts, {}) == alerts
    decreases |alerts|
  {
    if |alerts| > 0 {
      WithoutNoIds(alerts[..|alerts| - 1]);
      assert alerts[..|alerts| - 1] + [alerts[|alerts| - 1]] == alerts;
    }
  }

  /** Deleting one more id from what is left is deleting the larger set of ids at once. */
  lemma {:induction false} DeleteOneMoreId(alerts: seq<FeeAlert>, ids: set<nat>, id: nat)
    ensures DeleteAlertById(WithoutIds(alerts, ids), id) == WithoutIds(alerts, ids + {id})
    decreases |alerts|
  {
    if |alerts| > 0 {
      var front, last := alerts[..|alerts| - 1], alerts[|alerts| - 1];
      DeleteOneMoreId(front, ids, id);
      var w := WithoutIds(front, ids);
      if last.id !in ids {
        assert WithoutIds(alerts, ids) == w + [last];
        assert (w + [last])[..|w|] == w;
      }
    }
  }

  /** The alerts processPayment leaves: those of getAlertsForStudentAndFee deleted one by one. */
  function AlertsAfterPayment(alerts: seq<FeeAlert>, student: UserId, fee: FeeId): (r: seq<FeeAlert>)
    requires DistinctBy(alerts, AlertId)
    ensures forall a :: a in r <==> a in alerts && !(a.student == student && a.fee == fee)
    ensures |r| <= |alerts|
  {
    var matching := FindAlertsByStudentAndFee(alerts, student, fee);
    forall a | a in alerts && a.id in IdsOf(matching)
      ensures a.student == student && a.fee == fee
    {
      var b :| b in matching && b.id == a.id;
      var i :| 0 <= i < |alerts| && alerts[i] == a;
      var j :| 0 <= j < |alerts| && alerts[j] == b;
      assert i == j;
    }
    WithoutIds(alerts, IdsOf(matching))
  }

  /** The cleanup loop of processPayment: every alert getAlertsForStudentAndFee returns is
      deleted through deleteAlert, one at a time. */
  method DeleteAlertsForFee(store: Store, student: UserId, feeId: FeeId)
    requires store.Valid()
    modifies store
    ensures store.Valid()
    ensures store.alerts == AlertsAfterPayment(old(store.alerts), student, feeId)
    ensures store.fees == old(store.fees) && store.payments == old(store.payments)
    ensures store.nextAlertId == old(store.nextAlertId)
  {
    var existing := FindAlertsByStudentAndFee(store.alerts, student, feeId);
    ghost var before := store.alerts;
    WithoutNoIds(before);
    assert IdsOf(existing[..0]) == {};
    var i := 0;
    while i < |existing|
      invariant 0 <= i <= |existing|
      invariant store.Valid()
      invariant store.alerts == WithoutIds(before, IdsOf(existing[..i]))
      invariant store.fees == old(store.fees) && store.payments == old(store.payments)
      invariant store.nextAlertId == old(store.nextAlertId)
    {
      FeeAlertService.DeleteAlert(store, existing[i]);
      DeleteOneMoreId(before, IdsOf(existing[..i]), existing[i].id);
      assert existing[..i + 1] == existing[..i] + [existing[i]];
      IdsOfSnoc(existing[..i], existing[i]);
      i := i + 1;
    }
    assert existing[..i] == existing;
    assert store.alerts == WithoutIds(before, IdsOf(existing));
  }

  /** processPayment: records a payment of the fee's current amount and sets the fee to PAID
      whatever its status was (so a PAID fee can be paid again), deletes every alert for
      (student, fee) from any sender, and saves the payment. A receipt number already in use
      violates the unique column: the transaction rolls back and nothing changes. */
  method ProcessPayment(store: Store, feeId: FeeId, student: UserId, recordedBy: UserId,
                        paymentMethod: PaymentMethod, transactionRef: string, uuid: string, now: DateTime)
    returns (result: Result<Payment>)
    requires store.Valid() && feeId < |store.fees| && IsUuidText(uuid)
    modifies store
    ensures store.Valid()
    ensures result.Failure? <==> ReceiptInUse(old(store.payments), ReceiptNumber(uuid))
    ensures result.Failure? ==>
      && store.fees == old(store.fees) && store.payments == old(store.payments)
      && store.alerts == old(store.alerts)
    ensures result.Success? ==>
      && result.value.student == student && result.value.fee == feeId
      && result.value.paymentDate == now && result.value.amount == old(store.fees[feeId].amount)
      && result.value.paymentMethod == paymentMethod && result.value.transactionReference == transactionRef
      && result.value.receiptNumber == ReceiptNumber(uuid) && result.value.recordedBy == recordedBy
      && result.value.remarks == "Payment processed for " + old(store.fees[feeId].feeType.name)
    ensures result.Success? ==>
      && store.payments == old(store.payments) + [result.value]
      && store.fees == old(store.fees)[feeId := old(store.fees[feeId]).(status := Paid)]
      && store.alerts == AlertsAfterPayment(old(store.alerts), student, feeId)
    ensures store.nextAlertId == old(store.nextAlertId)
  {
    var fee := store.fees[feeId];
    var receipt := ReceiptNumber(uuid);
    if ReceiptInUse(store.payments, receipt) {
      return Failure("duplicate receipt number " + receipt);
    }
    var payment := Payment(student, feeId, now, fee.amount, paymentMethod, transactionRef, receipt, recordedBy,
                           "Payment processed for " + fee.feeType.name);

    var _ := StudentFeeService.UpdateFeeStatus(store, feeId, Paid);

    DeleteAlertsForFee(store, student, feeId);

    store.payments := store.payments + [payment];
    forall j | 0 <= j < |old(store.payments)|
      ensures ReceiptOf(store.payments[j]) != ReceiptOf(payment)
    {
      assert old(store.payments)[j] in old(store.payments);
    }
    result := Success(payment);
  }
}
