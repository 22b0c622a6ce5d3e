/** The four persisted records (FeeType, StudentFee, Payment, FeeAlert) as values.
    Users are referenced by id; a StudentFee is referenced by its position in the fee store. */
module Entities {

  import opened Wrappers
  import opened Calendar

  /** Primary key of a User (students and staff alike). */
  type UserId = nat

  /** A StudentFee's identity: its position in the store, where fees are never deleted. */
  type FeeId = nat

  /** A monetary amount. The services only copy amounts, never compute with them. */
  type Amount = int

  datatype Frequency = OneTime | Semester | Yearly | Monthly

  /** A fee template; the store's list of them is read-only. */
  datatype FeeType = FeeType(id: nat, name: string, description: Option<string>, amount: Amount, frequency: Frequency)

  datatype PaymentStatus = Pending | Paid | Overdue

  /** The (semester, academicYear) pair a fee is raised for; either label may be null. */
  datatype Period = Period(semester: Option<string>, academicYear: Option<string>)

  /** One student's fee for one fee type in one period. `alerted` is a primitive boolean (false by default). */
  datatype StudentFee = StudentFee(
    student: UserId,
    feeType: FeeType,
    period: Period,
    amount: Amount,
    dueDate: Option<Date>,
    status: PaymentStatus,
    alerted: bool)

  datatype PaymentMethod = Cash | CreditCard | DebitCard | BankTransfer | OnlinePayment

  datatype Payment = Payment(
    student: UserId,
    fee: FeeId,
    paymentDate: DateTime,
    amount: Amount,
    paymentMethod: PaymentMethod,
    transactionReference: string,
    receiptNumber: string,
    recordedBy: UserId,
    remarks: string)

  /** An alert; `id` is the generated primary key by which it is deleted. */
  datatype FeeAlert = FeeAlert(id: nat, student: UserId, fee: FeeId, sentBy: UserId, alertDate: DateTime, message: string)

  /** The tuple the fee generator never duplicates: (student, fee type, semester, academic year). */
  datatype FeeKey = FeeKey(student: UserId, feeTypeId: nat, period: Period)

  function KeyOf(f: StudentFee): FeeKey
  {
    FeeKey(f.student, f.feeType.id, f.period)
  }
}
