/**
  * The records of internal/model/entity.go and the binding rules on the two
  * request bodies. Money is in cents; request amounts are whole units, as the
  * service reads them.
  */
module Model {
  import opened Wrappers
  import opened Errorx
  import opened Money
  import opened Calendar

  datatype User = User(userId: int, name: string, phone: string)

  datatype UserFacilityLimit = UserFacilityLimit(facilityLimitId: int, userId: int, limitAmount: Cents)

  datatype Tenor = Tenor(tenorId: int, tenorValue: int)

  datatype UserFacility = UserFacility(
    userFacilityId: int,
    userId: int,
    facilityLimitId: int,
    amount: Cents,
    tenor: int,
    startDate: Date,
    monthlyInstallment: Cents,
    totalMargin: Cents,
    totalPayment: Cents)

  datatype UserFacilityDetail = UserFacilityDetail(userFacilityId: int, dueDate: Date, installmentAmount: Cents)

  datatype CalculateInstallmentsRequest = CalculateInstallmentsRequest(amount: int)

  datatype InstallmentSimulation = InstallmentSimulation(
    tenor: int,
    monthlyInstallment: Cents,
    totalMargin: Cents,
    totalPayment: Cents)

  datatype SubmitFinancingRequest = SubmitFinancingRequest(
    userId: int,
    facilityLimitId: int,
    amount: int,
    tenor: int,
    startDate: string)

  datatype ScheduleDetail = ScheduleDetail(dueDate: Date, installmentAmount: Cents)

  datatype SubmitFinancingResponse = SubmitFinancingResponse(
    userFacilityId: int,
    userId: int,
    facilityLimitId: int,
    amount: Cents,
    tenor: int,
    startDate: Date,
    monthlyInstallment: Cents,
    totalMargin: Cents,
    totalPayment: Cents,
    schedule: seq<ScheduleDetail>)

  datatype UserLimit = UserLimit(userId: int, name: string, phone: string, limitId: int, limitAmount: Cents)

  datatype ListTenor = ListTenor(tenorValue: int)

  /** The `time.Parse("2006-01-02", ·)` the service and the validator use; it yields real calendar dates. */
  type DateParser = string -> Result<Date, Error>

  /** The `notpast` rule: the date is not before today, so it is today or later. */
  predicate NotPast(date: Date, today: Date): (b: bool)
    ensures b <==> date == today || Before(today, date)
  {
    !Before(date, today)
  }

  /** `binding:"required,gt=0"` on the amount of a simulation request: `gt=0` subsumes `required`. */
  predicate BindsCalculate(req: CalculateInstallmentsRequest): (b: bool)
    ensures b <==> req.amount > 0
  {
    req.amount != 0 && req.amount > 0
  }

  /**
    * The binding tags of a submission: the ids and the tenor are non-zero, the
    * amount is positive, and the start date is present, parses and is not in
    * the past.
    */
  predicate BindsSubmit(req: SubmitFinancingRequest, parse: DateParser, today: Date): (b: bool)
    ensures b ==> req.amount > 0 && req.tenor != 0 && req.userId != 0 && req.facilityLimitId != 0
    ensures b ==>
      parse(req.startDate).Ok? && (parse(req.startDate).value == today || Before(today, parse(req.startDate).value))
  {
    && req.userId != 0
    && req.facilityLimitId != 0
    && req.amount != 0 && req.amount > 0
    && req.tenor != 0
    && req.startDate != ""
    && parse(req.startDate).Ok?
    && NotPast(parse(req.startDate).value, today)
  }
}
