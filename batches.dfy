/** The two loops the screens run over a selection of fees: sending alerts, where a refused
    alert is reported and the loop goes on, and paying, where the first failure ends the loop
    and the payments already made stay recorded (each payment is its own transaction). */
module ScreenBatches {

  import opened Wrappers
  import opened Calendar
  import opened Entities
  import opened Repositories
  import opened FeeStore
  import FeeAlertService
  import PaymentService

  /** The alerts the successful outcomes carry, in order. */
  function Sent(outcomes: seq<Result<FeeAlert>>): (r: seq<FeeAlert>)
    ensures |r| <= |outcomes|
    ensures forall a :: a in r <==> Success(a) in outcomes
    decreases |outcomes|
  {
    if |outcomes| == 0 then []
    else
      var front := Sent(outcomes[..|outcomes| - 1]);
      assert forall o :: o in outcomes <==> o in outcomes[..|outcomes| - 1] || o == outcomes[|outcomes| - 1];
      match outcomes[|outcomes| - 1]
      case Success(a) => front + [a]
      case Failure(_) => front
  }

  /** One more outcome adds its alert, if any, at the end. */
  lemma SentSnoc(outcomes: seq<Result<FeeAlert>>, o: Result<FeeAlert>)
    ensures Sent(outcomes + [o]) == Sent(outcomes) + (if o.Success? then [o.value] else [])
  {
    assert (outcomes + [o])[..|outcomes|] == outcomes;
  }

  /** Some alert in `alerts` is about fee `feeId`. */
  predicate AlertSentFor(alerts: seq<FeeAlert>, feeId: FeeId)
  {
    exists a :: a in alerts && a.fee == feeId
  }

  /** createAlert's effect on the values of the store, as its contract states it. */
  ghost predicate AlertEffect(fees: seq<StudentFee>, alerts: seq<FeeAlert>, next: nat, feeId: FeeId,
                              sentBy: UserId, message: string, now: DateTime,
                              outcome: Result<FeeAlert>, fees': seq<StudentFee>, alerts': seq<FeeAlert>, next': nat)
    requires feeId < |fees|
  {
    var student := fees[feeId].student;
    && (outcome.Failure? <==> ExistsAlert(alerts, student, feeId, sentBy))
    && (outcome.Failure? ==>
          outcome.error == FeeAlertService.AlertAlreadySent && fees' == fees && alerts' == alerts && next' == next)
    && (outcome.Success? ==>
          && outcome.value == FeeAlert(next, student, feeId, sentBy, now, message)
          && alerts' == alerts + [outcome.value] && next' == next + 1
          && fees' == fees[feeId := FeeAlertService.MarkAlerted(fees[feeId])])
  }

  /** The alert and id ledger after `|outcomes|` turns: the alerts sent are appended in order. */
  ghost predicate SendLedger(fees0: seq<StudentFee>, alerts0: seq<FeeAlert>, next0: nat, selected: seq<FeeId>,
                             outcomes: seq<Result<FeeAlert>>, fees: seq<StudentFee>, alerts: seq<FeeAlert>, next: nat)
  {
    && |outcomes| <= |selected| && |fees| == |fees0|
    && alerts == alerts0 + Sent(outcomes)
    && next == next0 + |Sent(outcomes)|
  }

  /** Each outcome so far is a refusal exactly when its triple was taken at its turn. */
  ghost predicate SendRefusals(fees0: seq<StudentFee>, alerts0: seq<FeeAlert>, selected: seq<FeeId>,
                               sentBy: UserId, outcomes: seq<Result<FeeAlert>>)
    requires forall k :: 0 <= k < |selected| ==> selected[k] < |fees0|
    requires |outcomes| <= |selected|
  {
    forall k :: 0 <= k < |outcomes| ==>
      (outcomes[k].Failure? <==>
        ExistsAlert(alerts0 + Sent(outcomes[..k]), fees0[selected[k]].student, selected[k], sentBy))
  }

  /** Each refusal so far is the duplicate-alert one. */
  ghost predicate SendErrors(outcomes: seq<Result<FeeAlert>>)
  {
    forall k :: 0 <= k < |outcomes| && outcomes[k].Failure? ==>
      outcomes[k].error == FeeAlertService.AlertAlreadySent
  }

  /** Each alert sent so far carries the next id at its turn and the arguments. */
  ghost predicate SendValues(fees0: seq<StudentFee>, next0: nat, selected: seq<FeeId>,
                             sentBy: UserId, message: string, now: DateTime, outcomes: seq<Result<FeeAlert>>)
    requires forall k :: 0 <= k < |selected| ==> selected[k] < |fees0|
    requires |outcomes| <= |selected|
  {
    forall k :: 0 <= k < |outcomes| && outcomes[k].Success? ==>
      outcomes[k].value == FeeAlert(next0 + |Sent(outcomes[..k])|, fees0[selected[k]].student, selected[k], sentBy, now, message)
  }

  /** Every fee handled so far has an alert from the sender, and every alert sent is about a
      selected fee. */
  ghost predicate SendCoverage(fees0: seq<StudentFee>, selected: seq<FeeId>, sentBy: UserId,
                               outcomes: seq<Result<FeeAlert>>, alerts: seq<FeeAlert>)
    requires forall k :: 0 <= k < |selected| ==> selected[k] < |fees0|
    requires |outcomes| <= |selected|
  {
    && (forall k :: 0 <= k < |outcomes| ==> ExistsAlert(alerts, fees0[selected[k]].student, selected[k], sentBy))
    && (forall a :: a in Sent(outcomes) ==> a.fee in selected)
  }

  /** A fee has changed only by createAlert's flag, and only if an alert about it was sent. */
  ghost predicate SendFees(fees0: seq<StudentFee>, outcomes: seq<Result<FeeAlert>>, fees: seq<StudentFee>)
    requires |fees| == |fees0|
  {
    forall j :: 0 <= j < |fees| ==>
      fees[j] == if AlertSentFor(Sent(outcomes), j) then FeeAlertService.MarkAlerted(fees0[j]) else fees0[j]
  }

  /** What the alert loop has done after `|outcomes|` turns, starting from `fees0`, `alerts0`
      and the id counter `next0`: the state is (fees, alerts, next). */
  ghost predicate SendProgress(fees0: seq<StudentFee>, alerts0: seq<FeeAlert>, next0: nat, selected: seq<FeeId>,
                               sentBy: UserId, message: string, now: DateTime,
                               outcomes: seq<Result<FeeAlert>>, fees: seq<StudentFee>, alerts: seq<FeeAlert>, next: nat)
    requires forall k :: 0 <= k < |selected| ==> selected[k] < |fees0|
  {
    && SendLedger(fees0, alerts0, next0, selected, outcomes, fees, alerts, next)
    && SendRefusals(fees0, alerts0, selected, sentBy, outcomes)
    && SendErrors(outcomes)
    && SendValues(fees0, next0, selected, sentBy, message, now, outcomes)
    && SendCoverage(fees0, selected, sentBy, outcomes, alerts)
    && SendFees(fees0, outcomes, fees)
  }

  /** A turn appends its outcome; earlier prefixes of the outcomes stay as they were. */
  lemma OutcomesSnoc(outcomes: seq<Result<FeeAlert>>, outcome: Result<FeeAlert>)
    ensures (outcomes + [outcome])[..|outcomes|] == outcomes
    ensures forall k :: 0 <= k < |outcomes| ==> (outcomes + [outcome])[..k] == outcomes[..k]
  {
    forall k | 0 <= k < |outcomes|
      ensures (outcomes + [outcome])[..k] == outcomes[..k]
    {
    }
  }

  lemma SendStepLedger(fees0: seq<StudentFee>, alerts0: seq<FeeAlert>, next0: nat, selected: seq<FeeId>,
                       sentBy: UserId, message: string, now: DateTime,
                       outcomes: seq<Result<FeeAlert>>, fees: seq<StudentFee>, alerts: seq<FeeAlert>, next: nat,
                       outcome: Result<FeeAlert>, fees': seq<StudentFee>, alerts': seq<FeeAlert>, next': nat)
    requires SendLedger(fees0, alerts0, next0, selected, outcomes, fees, alerts, next)
    requires |outcomes| < |selected| && selected[|outcomes|] < |fees|
    requires AlertEffect(fees, alerts, next, selected[|outcomes|], sentBy, message, now, outcome, fees', alerts', next')
    ensures SendLedger(fees0, alerts0, next0, selected, outcomes + [outcome], fees', alerts', next')
  {
    SentSnoc(outcomes, outcome);
  }

  lemma SendStepRefusals(fees0: seq<StudentFee>, alerts0: seq<FeeAlert>, selected: seq<FeeId>, sentBy: UserId,
                         outcomes: seq<Result<FeeAlert>>, alerts: seq<FeeAlert>, student: UserId, outcome: Result<FeeAlert>)
    requires forall k :: 0 <= k < |selected| ==> selected[k] < |fees0|
    requires |outcomes| < |selected|
    requires alerts == alerts0 + Sent(outcomes)
    requires SendRefusals(fees0, alerts0, selected, sentBy, outcomes)
    requires student == fees0[selected[|outcomes|]].student
    requires outcome.Failure? <==> ExistsAlert(alerts, student, selected[|outcomes|], sentBy)
    ensures SendRefusals(fees0, alerts0, selected, sentBy, outcomes + [outcome])
  {
    var outs := outcomes + [outcome];
    OutcomesSnoc(outcomes, outcome);
    forall k | 0 <= k < |outs|
      ensures outs[k].Failure? <==>
        ExistsAlert(alerts0 + Sent(outs[..k]), fees0[selected[k]].student, selected[k], sentBy)
    {
      if k < |outcomes| {
        assert outs[k] == outcomes[k] && outs[..k] == outcomes[..k];
      }
    }
  }

  lemma SendStepErrors(outcomes: seq<Result<FeeAlert>>, outcome: Result<FeeAlert>)
    requires SendErrors(outcomes)
    requires outcome.Failure? ==> outcome.error == FeeAlertService.AlertAlreadySent
    ensures SendErrors(outcomes + [outcome])
  {
    var outs := outcomes + [outcome];
    forall k | 0 <= k < |outs| && outs[k].Failure?
      ensures outs[k].error == FeeAlertService.AlertAlreadySent
    {
      if k < |outcomes| {
        assert outs[k] == outcomes[k];
      }
    }
  }

  lemma SendStepValues(fees0: seq<StudentFee>, next0: nat, selected: seq<FeeId>,
                       sentBy: UserId, message: string, now: DateTime,
                       outcomes: seq<Result<FeeAlert>>, next: nat, student: UserId, outcome: Result<FeeAlert>)
    requires forall k :: 0 <= k < |selected| ==> selected[k] < |fees0|
    requires |outcomes| < |selected|
    requires next == next0 + |Sent(outcomes)|
    requires SendValues(fees0, next0, selected, sentBy, message, now, outcomes)
    requires student == fees0[selected[|outcomes|]].student
    requires outcome.Success? ==> outcome.value == FeeAlert(next, student, selected[|outcomes|], sentBy, now, message)
    ensures SendValues(fees0, next0, selected, sentBy, message, now, outcomes + [outcome])
  {
    var outs := outcomes + [outcome];
    OutcomesSnoc(outcomes, outcome);
    forall k | 0 <= k < |outs| && outs[k].Success?
      ensures outs[k].value == FeeAlert(next0 + |Sent(outs[..k])|, fees0[selected[k]].student, selected[k], sentBy, now, message)
    {
      if k < |outcomes| {
        assert outs[k] == outcomes[k] && outs[..k] == outcomes[..k];
      }
    }
  }

  /** An alert present stays present when alerts are appended. */
  lemma ExistsAlertGrows(alerts: seq<FeeAlert>, extra: seq<FeeAlert>, student: UserId, fee: FeeId, sentBy: UserId)
    requires ExistsAlert(alerts, student, fee, sentBy)
    ensures ExistsAlert(alerts + extra, student, fee, sentBy)
  {
    var a :| a in alerts && a.student == student && a.fee == fee && a.sentBy == sentBy;
    assert a in alerts + extra;
  }

  lemma SendStepCoverage(fees0: seq<StudentFee>, selected: seq<FeeId>, sentBy: UserId, message: string, now: DateTime,
                         outcomes: seq<Result<FeeAlert>>, fees: seq<StudentFee>, alerts: seq<FeeAlert>, next: nat,
                         outcome: Result<FeeAlert>, fees': seq<StudentFee>, alerts': seq<FeeAlert>, next': nat)
    requires forall k :: 0 <= k < |selected| ==> selected[k] < |fees0|
    requires |outcomes| < |selected| && |fees| == |fees0|
    requires SendCoverage(fees0, selected, sentBy, outcomes, alerts)
    requires fees[selected[|outcomes|]].student == fees0[selected[|outcomes|]].student
    requires AlertEffect(fees, alerts, next, selected[|outcomes|], sentBy, message, now, outcome, fees', alerts', next')
    ensures SendCoverage(fees0, selected, sentBy, outcomes + [outcome], alerts')
  {
    var i := |outcomes|;
    SentSnoc(outcomes, outcome);
    var extra := if outcome.Success? then [outcome.value] else [];
    assert alerts' == alerts + extra;
    forall k | 0 <= k < i
      ensures ExistsAlert(alerts', fees0[selected[k]].student, selected[k], sentBy)
    {
      ExistsAlertGrows(alerts, extra, fees0[selected[k]].student, selected[k], sentBy);
    }
    if outcome.Success? {
      assert outcome.value in alerts';
    }
  }

  lemma SendStepFees(fees0: seq<StudentFee>, outcomes: seq<Result<FeeAlert>>, fees: seq<StudentFee>, feeId: FeeId,
                     outcome: Result<FeeAlert>, fees': seq<StudentFee>)
    requires |fees| == |fees0| && feeId < |fees|
    requires SendFees(fees0, outcomes, fees)
    requires outcome.Failure? ==> fees' == fees
    requires outcome.Success? ==> outcome.value.fee == feeId && fees' == fees[feeId := FeeAlertService.MarkAlerted(fees[feeId])]
    ensures |fees'| == |fees0| && SendFees(fees0, outcomes + [outcome], fees')
  {
    SentSnoc(outcomes, outcome);
    if outcome.Success? {
      var outs := outcomes + [outcome];
      forall j | 0 <= j < |fees'|
        ensures AlertSentFor(Sent(outs), j) <==> AlertSentFor(Sent(outcomes), j) || j == feeId
      {
        assert outcome.value in Sent(outs);
      }
    }
  }

  /** One turn of the alert loop, as createAlert's contract describes it, keeps the progress. */
  lemma SendStep(fees0: seq<StudentFee>, alerts0: seq<FeeAlert>, next0: nat, selected: seq<FeeId>,
                 sentBy: UserId, message: string, now: DateTime,
                 outcomes: seq<Result<FeeAlert>>, fees: seq<StudentFee>, alerts: seq<FeeAlert>, next: nat,
                 outcome: Result<FeeAlert>, fees': seq<StudentFee>, alerts': seq<FeeAlert>, next': nat)
    requires forall k :: 0 <= k < |selected| ==> selected[k] < |fees0|
    requires SendProgress(fees0, alerts0, next0, selected, sentBy, message, now, outcomes, fees, alerts, next)
    requires |outcomes| < |selected|
    requires AlertEffect(fees, alerts, next, selected[|outcomes|], sentBy, message, now, outcome, fees', alerts', next')
    ensures SendProgress(fees0, alerts0, next0, selected, sentBy, message, now, outcomes + [outcome], fees', alerts', next')
  {
    SendStepLedger(fees0, alerts0, next0, selected, sentBy, message, now, outcomes, fees, alerts, next, outcome, fees', alerts', next');
    var student := fees[selected[|outcomes|]].student;
    assert student == fees0[selected[|outcomes|]].student;
    SendStepRefusals(fees0, alerts0, selected, sentBy, outcomes, alerts, student, outcome);
    SendStepErrors(outcomes, outcome);
    SendStepValues(fees0, next0, selected, sentBy, message, now, outcomes, next, student, outcome);
    SendStepCoverage(fees0, selected, sentBy, message, now, outcomes, fees, alerts, next, outcome, fees', alerts', next');
    SendStepFees(fees0, outcomes, fees, selected[|outcomes|], outcome, fees');
  }

  /** After the loop a fee differs from its old value only by the alerted flag, set on a
      PENDING selected fee that was not alerted. */
  lemma SendChangesOnlyFlags(fees0: seq<StudentFee>, alerts0: seq<FeeAlert>, next0: nat, selected: seq<FeeId>,
                             sentBy: UserId, message: string, now: DateTime,
                             outcomes: seq<Result<FeeAlert>>, fees: seq<StudentFee>, alerts: seq<FeeAlert>, next: nat)
    requires forall k :: 0 <= k < |selected| ==> selected[k] < |fees0|
    requires SendProgress(fees0, alerts0, next0, selected, sentBy, message, now, outcomes, fees, alerts, next)
    ensures forall j :: 0 <= j < |fees| && fees[j] != fees0[j] ==>
      && j in selected && fees0[j].status == Pending && !fees0[j].alerted
      && fees[j] == fees0[j].(alerted := true)
  {
    forall j | 0 <= j < |fees| && fees[j] != fees0[j]
      ensures j in selected
    {
      var a :| a in Sent(outcomes) && a.fee == j;
    }
  }

  /** The alert loop before its first turn. */
  lemma SendStart(fees0: seq<StudentFee>, alerts0: seq<FeeAlert>, next0: nat, selected: seq<FeeId>,
                  sentBy: UserId, message: string, now: DateTime)
    requires forall k :: 0 <= k < |selected| ==> selected[k] < |fees0|
    ensures SendProgress(fees0, alerts0, next0, selected, sentBy, message, now, [], fees0, alerts0, next0)
  {
    assert alerts0 + [] == alerts0;
  }

  /** One turn of the alert loop: createAlert for the student of the next selected fee. */
  method SendOne(store: Store, selected: seq<FeeId>, sentBy: UserId, message: string, now: DateTime,
                 ghost fees0: seq<StudentFee>, ghost alerts0: seq<FeeAlert>, ghost next0: nat,
                 outcomes: seq<Result<FeeAlert>>)
    returns (outcome: Result<FeeAlert>)
    requires store.Valid()
    requires forall k :: 0 <= k < |selected| ==> selected[k] < |fees0|
    requires |outcomes| < |selected|
    requires SendProgress(fees0, alerts0, next0, selected, sentBy, message, now,
                          outcomes, store.fees, store.alerts, store.nextAlertId)
    modifies store
    ensures store.Valid() && store.payments == old(store.payments)
    ensures SendProgress(fees0, alerts0, next0, selected, sentBy, message, now,
                         outcomes + [outcome], store.fees, store.alerts, store.nextAlertId)
  {
    ghost var fees, alerts, next := store.fees, store.alerts, store.nextAlertId;
    var feeId := selected[|outcomes|];
    outcome := FeeAlertService.CreateAlert(store, store.fees[feeId].student, feeId, sentBy, message, now);
    assert AlertEffect(fees, alerts, next, feeId, sentBy, message, now, outcome, store.fees, store.alerts, store.nextAlertId);
    SendStep(fees0, alerts0, next0, selected, sentBy, message, now, outcomes, fees, alerts, next,
             outcome, store.fees, store.alerts, store.nextAlertId);
  }

  /** What the finished alert loop guarantees, read off its progress. */
  lemma SendDone(fees0: seq<StudentFee>, alerts0: seq<FeeAlert>, next0: nat, selected: seq<FeeId>,
                 sentBy: UserId, message: string, now: DateTime,
                 outcomes: seq<Result<FeeAlert>>, fees: seq<StudentFee>, alerts: seq<FeeAlert>, next: nat)
    requires forall k :: 0 <= k < |selected| ==> selected[k] < |fees0|
    requires SendProgress(fees0, alerts0, next0, selected, sentBy, message, now, outcomes, fees, alerts, next)
    requires |outcomes| == |selected|
    ensures |fees| == |fees0|
    ensures alerts == alerts0 + Sent(outcomes) && next == next0 + |Sent(outcomes)|
    ensures forall k :: 0 <= k < |selected| ==>
      (outcomes[k].Failure? <==>
        ExistsAlert(alerts0 + Sent(outcomes[..k]), fees0[selected[k]].student, selected[k], sentBy))
    ensures forall k :: 0 <= k < |selected| && outcomes[k].Failure? ==>
      outcomes[k].error == FeeAlertService.AlertAlreadySent
    ensures forall k :: 0 <= k < |selected| && outcomes[k].Success? ==>
      outcomes[k].value == FeeAlert(next0 + |Sent(outcomes[..k])|, fees0[selected[k]].student, selected[k], sentBy, now, message)
    ensures forall k :: 0 <= k < |selected| ==> ExistsAlert(alerts, fees0[selected[k]].student, selected[k], sentBy)
    ensures forall j :: 0 <= j < |fees| ==>
      fees[j] == if AlertSentFor(Sent(outcomes), j) then FeeAlertService.MarkAlerted(fees0[j]) else fees0[j]
    ensures forall j :: 0 <= j < |fees| && fees[j] != fees0[j] ==>
      && j in selected && fees0[j].status == Pending && !fees0[j].alerted
      && fees[j] == fees0[j].(alerted := true)
  {
    SendChangesOnlyFlags(fees0, alerts0, next0, selected, sentBy, message, now, outcomes, fees, alerts, next);
  }

  /** Send the same alert to the student of every selected fee, in order. A refused alert is
      reported and the loop goes on. The alert store grows by exactly the alerts sent; the
      k-th outcome is a refusal exactly when that triple already had an alert at its turn,
      and otherwise the alert carries the next id and the arguments. A fee changes only by
      createAlert's flag, and only if an alert about it was sent. */
  method SendAlerts(store: Store, selected: seq<FeeId>, sentBy: UserId, message: string, now: DateTime)
    returns (outcomes: seq<Result<FeeAlert>>)
    requires store.Valid()
    requires forall k :: 0 <= k < |selected| ==> selected[k] < |store.fees|
    modifies store
    ensures store.Valid()
    ensures |outcomes| == |selected| && |store.fees| == |old(store.fees)|
    ensures store.alerts == old(store.alerts) + Sent(outcomes)
    ensures store.nextAlertId == old(store.nextAlertId) + |Sent(outcomes)|
    ensures forall k :: 0 <= k < |selected| ==>
      (outcomes[k].Failure? <==>
        ExistsAlert(old(store.alerts) + Sent(outcomes[..k]), old(store.fees)[selected[k]].student, selected[k], sentBy))
    ensures forall k :: 0 <= k < |selected| && outcomes[k].Failure? ==>
      outcomes[k].error == FeeAlertService.AlertAlreadySent
    ensures forall k :: 0 <= k < |selected| && outcomes[k].Success? ==>
      outcomes[k].value == FeeAlert(old(store.nextAlertId) + |Sent(outcomes[..k])|,
                                    old(store.fees)[selected[k]].student, selected[k], sentBy, now, message)
    ensures forall k :: 0 <= k < |selected| ==>
      ExistsAlert(store.alerts, old(store.fees)[selected[k]].student, selected[k], sentBy)
    ensures forall j :: 0 <= j < |store.fees| ==>
      store.fees[j] == if AlertSentFor(Sent(outcomes), j) then FeeAlertService.MarkAlerted(old(store.fees)[j]) else old(store.fees)[j]
    ensures forall j :: 0 <= j < |store.fees| && store.fees[j] != old(store.fees)[j] ==>
      && j in selected && old(store.fees)[j].status == Pending && !old(store.fees)[j].alerted
      && store.fees[j] == old(store.fees)[j].(alerted := true)
    ensures store.payments == old(store.payments)
  {
    ghost var fees0, alerts0, next0 := store.fees, store.alerts, store.nextAlertId;
    SendStart(fees0, alerts0, next0, selected, sentBy, message, now);
    outcomes := [];
    while |outcomes| < |selected|
      invariant |outcomes| <= |selected|
      invariant store.Valid() && store.payments == old(store.payments)
      invariant SendProgress(fees0, alerts0, next0, selected, sentBy, message, now,
                             outcomes, store.fees, store.alerts, store.nextAlertId)
      decreases |selected| - |outcomes|
    {
      var outcome := SendOne(store, selected, sentBy, message, now, fees0, alerts0, next0, outcomes);
      outcomes := outcomes + [outcome];
    }
    SendDone(fees0, alerts0, next0, selected, sentBy, message, now,
             outcomes, store.fees, store.alerts, store.nextAlertId);
  }

  /** processPayment's effect on the values of the store, as its contract states it. */
  ghost predicate PaymentEffect(fees: seq<StudentFee>, alerts: seq<FeeAlert>, payments: seq<Payment>, feeId: FeeId,
                                user: UserId, paymentMethod: PaymentMethod, transactionRef: string, uuid: string,
                                now: DateTime, outcome: Result<Payment>,
                                fees': seq<StudentFee>, alerts': seq<FeeAlert>, payments': seq<Payment>)
    requires feeId < |fees| && PaymentService.IsUuidText(uuid)
  {
    && (outcome.Failure? <==> PaymentService.ReceiptInUse(payments, PaymentService.ReceiptNumber(uuid)))
    && (outcome.Failure? ==> fees' == fees && alerts' == alerts && payments' == payments)
    && (outcome.Success? ==>
          && outcome.value == Payment(user, feeId, now, fees[feeId].amount, paymentMethod, transactionRef,
                                      PaymentService.ReceiptNumber(uuid), user,
                                      "Payment processed for " + fees[feeId].feeType.name)
          && payments' == payments + [outcome.value]
          && fees' == fees[feeId := fees[feeId].(status := Paid)]
          && (forall a :: a in alerts' <==> a in alerts && !(a.student == user && a.fee == feeId)))
  }

  /** The payments made so far: the k-th is for the k-th selected fee, as `user`, with that
      fee's amount and the k-th receipt number. */
  ghost predicate PayRecords(fees0: seq<StudentFee>, selected: seq<FeeId>, user: UserId, paymentMethod: PaymentMethod,
                             transactionRef: string, uuids: seq<string>, now: DateTime, paid: seq<Payment>)
    requires |uuids| == |selected|
    requires forall k :: 0 <= k < |selected| ==> selected[k] < |fees0| && PaymentService.IsUuidText(uuids[k])
    requires |paid| <= |selected|
  {
    forall k :: 0 <= k < |paid| ==>
      paid[k] == Payment(user, selected[k], now, fees0[selected[k]].amount, paymentMethod, transactionRef,
                         PaymentService.ReceiptNumber(uuids[k]), user,
                         "Payment processed for " + fees0[selected[k]].feeType.name)
  }

  /** The paid fees are PAID, every other field and fee as before. */
  ghost predicate PayFees(fees0: seq<StudentFee>, paidFees: seq<FeeId>, fees: seq<StudentFee>)
    requires |fees| == |fees0|
  {
    forall j :: 0 <= j < |fees| ==>
      fees[j] == if j in paidFees then fees0[j].(status := Paid) else fees0[j]
  }

  /** The alerts for (user, paid fee) are gone, every other alert stays. */
  ghost predicate PayAlerts(alerts0: seq<FeeAlert>, user: UserId, paidFees: seq<FeeId>, alerts: seq<FeeAlert>)
  {
    forall a :: a in alerts <==> a in alerts0 && !(a.student == user && a.fee in paidFees)
  }

  /** What the paying loop has done after `|paid|` payments. */
  ghost predicate PayProgress(fees0: seq<StudentFee>, alerts0: seq<FeeAlert>, payments0: seq<Payment>,
                              selected: seq<FeeId>, user: UserId, paymentMethod: PaymentMethod,
                              transactionRef: string, uuids: seq<string>, now: DateTime,
                              paid: seq<Payment>, fees: seq<StudentFee>, alerts: seq<FeeAlert>, payments: seq<Payment>)
    requires |uuids| == |selected|
    requires forall k :: 0 <= k < |selected| ==> selected[k] < |fees0| && PaymentService.IsUuidText(uuids[k])
  {
    && |paid| <= |selected| && |fees| == |fees0|
    && payments == payments0 + paid
    && PayRecords(fees0, selected, user, paymentMethod, transactionRef, uuids, now, paid)
    && PayFees(fees0, selected[..|paid|], fees)
    && PayAlerts(alerts0, user, selected[..|paid|], alerts)
  }

  /** A successful payment of the next selected fee keeps the progress. */
  lemma PayStep(fees0: seq<StudentFee>, alerts0: seq<FeeAlert>, payments0: seq<Payment>,
                selected: seq<FeeId>, user: UserId, paymentMethod: PaymentMethod,
                transactionRef: string, uuids: seq<string>, now: DateTime,
                paid: seq<Payment>, fees: seq<StudentFee>, alerts: seq<FeeAlert>, payments: seq<Payment>,
                p: Payment, fees': seq<StudentFee>, alerts': seq<FeeAlert>, payments': seq<Payment>)
    requires |uuids| == |selected|
    requires forall k :: 0 <= k < |selected| ==> selected[k] < |fees0| && PaymentService.IsUuidText(uuids[k])
    requires PayProgress(fees0, alerts0, payments0, selected, user, paymentMethod, transactionRef, uuids, now,
                         paid, fees, alerts, payments)
    requires |paid| < |selected|
    requires PaymentEffect(fees, alerts, payments, selected[|paid|], user, paymentMethod, transactionRef,
                           uuids[|paid|], now, Success(p), fees', alerts', payments')
    ensures PayProgress(fees0, alerts0, payments0, selected, user, paymentMethod, transactionRef, uuids, now,
                        paid + [p], fees', alerts', payments')
  {
    var i := |paid|;
    var feeId := selected[i];
    assert selected[..i + 1] == selected[..i] + [feeId];
    assert fees[feeId].amount == fees0[feeId].amount && fees[feeId].feeType == fees0[feeId].feeType;
    assert forall k :: 0 <= k < i ==> (paid + [p])[k] == paid[k];
  }

  /** One turn of the paying loop: processPayment for the next selected fee. */
  method PayOne(store: Store, selected: seq<FeeId>, user: UserId, paymentMethod: PaymentMethod,
                transactionRef: string, uuids: seq<string>, now: DateTime,
                ghost fees0: seq<StudentFee>, ghost alerts0: seq<FeeAlert>, ghost payments0: seq<Payment>,
                paid: seq<Payment>)
    returns (outcome: Result<Payment>)
    requires store.Valid()
    requires |uuids| == |selected|
    requires forall k :: 0 <= k < |selected| ==> selected[k] < |fees0| && PaymentService.IsUuidText(uuids[k])
    requires |paid| < |selected|
    requires PayProgress(fees0, alerts0, payments0, selected, user, paymentMethod, transactionRef, uuids, now,
                         paid, store.fees, store.alerts, store.payments)
    modifies store
    ensures store.Valid() && store.nextAlertId == old(store.nextAlertId)
    ensures outcome.Success? ==>
      PayProgress(fees0, alerts0, payments0, selected, user, paymentMethod, transactionRef, uuids, now,
                  paid + [outcome.value], store.fees, store.alerts, store.payments)
    ensures outcome.Failure? ==>
      && PayProgress(fees0, alerts0, payments0, selected, user, paymentMethod, transactionRef, uuids, now,
                     paid, store.fees, store.alerts, store.payments)
      && PaymentService.ReceiptInUse(payments0 + paid, PaymentService.ReceiptNumber(uuids[|paid|]))
  {
    ghost var fees, alerts, payments := store.fees, store.alerts, store.payments;
    var i := |paid|;
    outcome := PaymentService.ProcessPayment(store, selected[i], user, user, paymentMethod, transactionRef, uuids[i], now);
    assert PaymentEffect(fees, alerts, payments, selected[i], user, paymentMethod, transactionRef, uuids[i], now,
                         outcome, store.fees, store.alerts, store.payments);
    if outcome.Success? {
      PayStep(fees0, alerts0, payments0, selected, user, paymentMethod, transactionRef, uuids, now,
              paid, fees, alerts, payments, outcome.value, store.fees, store.alerts, store.payments);
    }
  }

  /** What the finished paying loop guarantees, read off its progress. */
  lemma PayDone(fees0: seq<StudentFee>, alerts0: seq<FeeAlert>, payments0: seq<Payment>,
                selected: seq<FeeId>, user: UserId, paymentMethod: PaymentMethod,
                transactionRef: string, uuids: seq<string>, now: DateTime,
                paid: seq<Payment>, fees: seq<StudentFee>, alerts: seq<FeeAlert>, payments: seq<Payment>)
    requires |uuids| == |selected|
    requires forall k :: 0 <= k < |selected| ==> selected[k] < |fees0| && PaymentService.IsUuidText(uuids[k])
    requires PayProgress(fees0, alerts0, payments0, selected, user, paymentMethod, transactionRef, uuids, now,
                         paid, fees, alerts, payments)
    ensures payments == payments0 + paid
    ensures |paid| <= |selected| && |fees| == |fees0|
    ensures forall k :: 0 <= k < |paid| ==>
      && paid[k].fee == selected[k] && paid[k].student == user && paid[k].recordedBy == user
      && paid[k].amount == fees0[selected[k]].amount
      && paid[k].receiptNumber == PaymentService.ReceiptNumber(uuids[k])
      && paid[k].paymentMethod == paymentMethod && paid[k].transactionReference == transactionRef
      && paid[k].paymentDate == now
      && paid[k].remarks == "Payment processed for " + fees0[selected[k]].feeType.name
      && fees[selected[k]].status == Paid
    ensures forall j :: 0 <= j < |fees| ==>
      fees[j] == if j in selected[..|paid|] then fees0[j].(status := Paid) else fees0[j]
    ensures forall a :: a in alerts <==> a in alerts0 && !(a.student == user && a.fee in selected[..|paid|])
  {
    forall k | 0 <= k < |paid|
      ensures fees[selected[k]].status == Paid
    {
      assert selected[k] in selected[..|paid|];
    }
  }

  /** Pay the selected fees in order, as `user` for themselves. Stops at the first failure;
      the payments made before it are kept. The k-th payment is for the k-th selected fee,
      with that fee's amount and the k-th receipt number; the paid fees become PAID, the
      alerts for (user, paid fee) are gone, and nothing else changes. */
  method PaySelectedFees(store: Store, selected: seq<FeeId>, user: UserId, paymentMethod: PaymentMethod,
                         transactionRef: string, uuids: seq<string>, now: DateTime)
    returns (paid: seq<Payment>, error: Option<string>)
    requires store.Valid()
    requires |uuids| == |selected|
    requires forall k :: 0 <= k < |selected| ==> selected[k] < |store.fees| && PaymentService.IsUuidText(uuids[k])
    modifies store
    ensures store.Valid()
    ensures store.payments == old(store.payments) + paid
    ensures |paid| <= |selected| && |store.fees| == |old(store.fees)|
    ensures error.None? <==> |paid| == |selected|
    ensures error.Some? ==> PaymentService.ReceiptInUse(old(store.payments) + paid, PaymentService.ReceiptNumber(uuids[|paid|]))
    ensures forall k :: 0 <= k < |paid| ==>
      && paid[k].fee == selected[k] && paid[k].student == user && paid[k].recordedBy == user
      && paid[k].amount == old(store.fees)[selected[k]].amount
      && paid[k].receiptNumber == PaymentService.ReceiptNumber(uuids[k])
      && paid[k].paymentMethod == paymentMethod && paid[k].transactionReference == transactionRef
      && paid[k].paymentDate == now
      && paid[k].remarks == "Payment processed for " + old(store.fees)[selected[k]].feeType.name
      && store.fees[selected[k]].status == Paid
    ensures forall j :: 0 <= j < |store.fees| ==>
      store.fees[j] == if j in selected[..|paid|] then old(store.fees)[j].(status := Paid) else old(store.fees)[j]
    ensures forall a :: a in store.alerts <==>
      a in old(store.alerts) && !(a.student == user && a.fee in selected[..|paid|])
    ensures store.nextAlertId == old(store.nextAlertId)
  {
    ghost var fees0, alerts0, payments0 := store.fees, store.alerts, store.payments;
    assert selected[..0] == [] && payments0 + [] == payments0;
    paid, error := [], None;
    while |paid| < |selected| && error.None?
      invariant |paid| <= |selected|
      invariant store.Valid() && store.nextAlertId == old(store.nextAlertId)
      invariant PayProgress(fees0, alerts0, payments0, selected, user, paymentMethod, transactionRef, uuids, now,
                            paid, store.fees, store.alerts, store.payments)
      invariant error.Some? ==>
        && |paid| < |selected|
        && PaymentService.ReceiptInUse(payments0 + paid, PaymentService.ReceiptNumber(uuids[|paid|]))
      decreases |selected| - |paid|, if error.None? then 1 else 0
    {
      var outcome := PayOne(store, selected, user, paymentMethod, transactionRef, uuids, now,
                            fees0, alerts0, payments0, paid);
      match outcome
      case Success(p) =>
        paid := paid + [p];
      case Failure(e) =>
        error := Some(e);
    }
    PayDone(fees0, alerts0, payments0, selected, user, paymentMethod, transactionRef, uuids, now,
            paid, store.fees, store.alerts, store.payments);
  }
}
