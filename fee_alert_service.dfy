/** FeeAlertService: staff alerts about a student's fee, at most one per (student, fee, sender),
    and the fee's `alerted` flag. The clock is the `now` parameter. */
module FeeAlertService {

  import opened Wrappers
  import opened Calendar
  import opened Entities
  import opened Repositories
  import opened FeeStore

  const AlertAlreadySent := "Alert already sent to this student for this fee"

  /** The fee as createAlert leaves it: a PENDING fee becomes alerted; any other fee, and every
      field but `alerted`, is left as it was. */
  function MarkAlerted(f: StudentFee): (r: StudentFee)
    ensures r.alerted <==> f.alerted || f.status == Pending
    ensures r.(alerted := f.alerted) == f
  {
    if f.status == Pending then f.(alerted := true) else f
  }

  /** An alert whose (student, fee, sender) is not yet taken keeps the triples distinct. */
  lemma AppendKeepsTriplesDistinct(alerts: seq<FeeAlert>, a: FeeAlert)
    requires DistinctBy(alerts, AlertTriple)
    requires !ExistsAlert(alerts, a.student, a.fee, a.sentBy)
    ensures DistinctBy(alerts + [a], AlertTriple)
  {
    forall i | 0 <= i < |alerts|
      ensures AlertTriple(alerts[i]) != AlertTriple(a)
    {
      assert alerts[i] in alerts;
    }
  }

  /** A new alert under the next id, for a stored fee and an untaken triple, keeps the alerts
      well formed once the id counter moves on. */
  lemma AppendAlertKeepsWellFormed(alerts: seq<FeeAlert>, feeCount: nat, nextAlertId: nat, a: FeeAlert)
    requires AlertsWellFormed(alerts, feeCount, nextAlertId)
    requires a.id == nextAlertId && a.fee < feeCount
    requires !ExistsAlert(alerts, a.student, a.fee, a.sentBy)
    ensures AlertsWellFormed(alerts + [a], feeCount, nextAlertId + 1)
  {
    AppendKeepsTriplesDistinct(alerts, a);
    forall i | 0 <= i < |alerts|
      ensures AlertId(alerts[i]) != AlertId(a)
    {
      assert alerts[i] in alerts;
    }
    assert forall b :: b in alerts + [a] ==> b in alerts || b == a;
  }

  /** createAlert: refuses a second alert for the same (student, fee, sender); otherwise marks a
      PENDING fee as alerted and saves a new alert under the next generated id. */
  method CreateAlert(store: Store, student: UserId, feeId: FeeId, sentBy: UserId, message: string, now: DateTime)
    returns (result: Result<FeeAlert>)
    requires store.Valid() && feeId < |store.fees|
    modifies store
    ensures store.Valid()
    ensures result.Failure? <==> ExistsAlert(old(store.alerts), student, feeId, sentBy)
    ensures result.Failure? ==>
      && result.error == AlertAlreadySent
      && store.fees == old(store.fees) && store.alerts == old(store.alerts)
      && store.nextAlertId == old(store.nextAlertId)
    ensures result.Success? ==>
      && result.value == FeeAlert(old(store.nextAlertId), student, feeId, sentBy, now, message)
      && store.alerts == old(store.alerts) + [result.value]
      && store.nextAlertId == old(store.nextAlertId) + 1
      && store.fees == old(store.fees)[feeId := MarkAlerted(old(store.fees[feeId]))]
    ensures store.payments == old(store.payments)
  {
    if ExistsAlert(store.alerts, student, feeId, sentBy) {
      return Failure(AlertAlreadySent);
    }
    var fee := store.fees[feeId];
    if fee.status == Pending {
      ReplaceFeeKeepsConstraints(store.fees, feeId, fee.(alerted := true));
      store.fees := store.fees[feeId := fee.(alerted := true)];
    }
    var alert := FeeAlert(store.nextAlertId, student, feeId, sentBy, now, message);
    AppendAlertKeepsWellFormed(store.alerts, |store.fees|, store.nextAlertId, alert);
    store.alerts := store.alerts + [alert];
    store.nextAlertId := store.nextAlertId + 1;
    result := Success(alert);
  }

  /** deleteAlert: removes the alert with that primary key (nothing if it is already gone). */
  method DeleteAlert(store: Store, alert: FeeAlert)
    requires store.Valid()
    modifies store
    ensures store.Valid()
    ensures store.alerts == DeleteAlertById(old(store.alerts), alert.id)
    ensures store.fees == old(store.fees) && store.payments == old(store.payments)
    ensures store.nextAlertId == old(store.nextAlertId)
  {
    FilterDistinctBy(store.alerts, OtherId(alert.id), AlertId);
    FilterDistinctBy(store.alerts, OtherId(alert.id), AlertTriple);
    store.alerts := DeleteAlertById(store.alerts, alert.id);
  }

  /** With the store's unique alert ids, deleteAlert on a stored alert removes that alert
      alone and keeps the others in order. */
  lemma DeleteStoredAlert(alerts: seq<FeeAlert>, i: nat)
    requires i < |alerts| && DistinctBy(alerts, AlertId)
    ensures DeleteAlertById(alerts, alerts[i].id) == alerts[..i] + alerts[i + 1..]
  {
    forall k | 0 <= k < |alerts| && k != i
      ensures OtherId(alerts[i].id)(alerts[k])
    {
      if k < i {
        assert AlertId(alerts[k]) != AlertId(alerts[i]);
      } else {
        assert AlertId(alerts[i]) != AlertId(alerts[k]);
      }
    }
    FilterDropsOne(alerts, OtherId(alerts[i].id), i);
  }

  /** hasAlertForFee: keyed on the fee's own student; it agrees with getAlertsForStudentAndFee
      narrowed to the sender. */
  function HasAlertForFee(fees: seq<StudentFee>, alerts: seq<FeeAlert>, feeId: FeeId, sentBy: UserId): (b: bool)
    requires feeId < |fees|
    ensures b <==> exists a :: a in FindAlertsByStudentAndFee(alerts, fees[feeId].student, feeId) && a.sentBy == sentBy
  {
    ExistsAlert(alerts, fees[feeId].student, feeId, sentBy)
  }
}
