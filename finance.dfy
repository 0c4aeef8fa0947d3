/**
  * The financing service of internal/services/finance.go: the installment
  * calculator, the three read services and the submission of a financing,
  * which checks the request outside a transaction and writes the facility,
  * its installment rows and the reduced limit inside one.
  */
module Finance {
  import opened Wrappers
  import opened Errorx
  import opened DbErr
  import opened Money
  import opened Calendar
  import opened Model
  import opened Postgres
  import Repository
  import MapErr

  // ---------------------------------------------------------------------
  // The calculator
  // ---------------------------------------------------------------------

  datatype Financials = Financials(monthly: Cents, totalMargin: Cents, totalPayment: Cents)

  /**
    * A flat 20% a year over `tenor` months: amount * 0.20 * tenor / 12 is
    * amount * tenor / 60.
    */
  const MarginDivisor := 60

  /**
    * `calculateFinancials`: the margin is the flat-rate margin rounded to the
    * cent, the payment is the amount plus that margin, and the monthly
    * installment is the payment over the tenor rounded to the cent, halves
    * away from zero in both roundings.
    */
  function CalculateFinancials(amount: Cents, tenor: int): (f: Financials)
    requires tenor != 0
    ensures f.totalPayment == amount + f.totalMargin
    ensures 2 * Abs(MarginDivisor * f.totalMargin - amount * tenor) <= MarginDivisor
    ensures 2 * Abs(tenor * f.monthly - f.totalPayment) <= Abs(tenor)
  {
    var margin := RoundHalfAway(amount * tenor, MarginDivisor);
    var payment := amount + margin;
    Financials(RoundHalfAway(payment, tenor), margin, payment)
  }

  /**
    * The three numbers are determined by what they mean: a margin and a
    * monthly installment within half a cent of the exact quotients, ties
    * resolved away from zero, and a payment of amount plus margin.
    */
  lemma CalculateFinancialsUnique(amount: Cents, tenor: int, f: Financials)
    requires tenor != 0
    requires f.totalPayment == amount + f.totalMargin
    requires 2 * Abs(MarginDivisor * f.totalMargin - amount * tenor) <= MarginDivisor
    requires 2 * Abs(MarginDivisor * f.totalMargin - amount * tenor) == MarginDivisor ==>
      Abs(f.totalMargin * MarginDivisor) > Abs(amount * tenor)
    requires 2 * Abs(tenor * f.monthly - f.totalPayment) <= Abs(tenor)
    requires 2 * Abs(tenor * f.monthly - f.totalPayment) == Abs(tenor) ==> Abs(f.monthly * tenor) > Abs(f.totalPayment)
    ensures f == CalculateFinancials(amount, tenor)
  {
    assert MarginDivisor * f.totalMargin == f.totalMargin * MarginDivisor;
    assert tenor * f.monthly == f.monthly * tenor;
    RoundHalfAwayUnique(amount * tenor, MarginDivisor, f.totalMargin);
    RoundHalfAwayUnique(f.totalPayment, tenor, f.monthly);
  }

  /** For a non-negative amount and a positive tenor nothing is negative and the payment covers the amount. */
  lemma {:induction false} FinancialsNonNegative(amount: Cents, tenor: int)
    requires amount >= 0 && tenor > 0
    ensures CalculateFinancials(amount, tenor).totalMargin >= 0
    ensures CalculateFinancials(amount, tenor).totalPayment >= amount
    ensures CalculateFinancials(amount, tenor).monthly >= 0
  {
    var f := CalculateFinancials(amount, tenor);
    MulNonNeg(amount, tenor);
    if f.monthly < 0 {
      MulNonNeg(tenor, -f.monthly - 1);
      assert false;
    }
  }

  /** 10,000,000 over 12 months: a margin of 2,000,000, a payment of 12,000,000 and 1,000,000 a month. */
  lemma TwelveMonthExample()
    ensures CalculateFinancials(CentsPerUnit * 10000000, 12)
         == Financials(CentsPerUnit * 1000000, CentsPerUnit * 2000000, CentsPerUnit * 12000000)
  {
    CalculateFinancialsUnique(CentsPerUnit * 10000000, 12,
      Financials(CentsPerUnit * 1000000, CentsPerUnit * 2000000, CentsPerUnit * 12000000));
  }

  /**
    * The installments need not add up to the payment within a cent: 1.00
    * over 9 months is a margin of 0.15, a payment of 1.15 and 0.13 a month,
    * and nine installments of 0.13 are 1.17.
    */
  lemma InstallmentsOvershootPayment()
    ensures CalculateFinancials(CentsPerUnit, 9) == Financials(13, 15, 115)
    ensures 9 * CalculateFinancials(CentsPerUnit, 9).monthly - CalculateFinancials(CentsPerUnit, 9).totalPayment == 2
  {
    CalculateFinancialsUnique(CentsPerUnit, 9, Financials(13, 15, 115));
  }

  // ---------------------------------------------------------------------
  // Read services
  // ---------------------------------------------------------------------

  function LimitEntry(u: User, l: UserFacilityLimit): UserLimit
  {
    UserLimit(u.userId, u.name, u.phone, l.facilityLimitId, l.limitAmount)
  }

  /** The listing of `users`: in order, an entry for each user whose limit lookup succeeds. */
  function JoinLimits(db: Database, users: seq<User>): seq<UserLimit>
    reads db
    decreases |users|
  {
    if users == [] then []
    else
      var u := users[|users| - 1];
      JoinLimits(db, users[..|users| - 1])
      + match Repository.LimitGet(db, u.userId)
        case Ok(l) => [LimitEntry(u, l)]
        case Err(_) => []
  }

  /** Every entry of the listing is a listed user joined with that user's limit. */
  lemma {:induction false} JoinLimitsSound(db: Database, users: seq<User>, x: UserLimit)
    requires x in JoinLimits(db, users)
    ensures exists u :: u in users && Repository.LimitGet(db, u.userId).Ok?
                        && x == LimitEntry(u, Repository.LimitGet(db, u.userId).value)
  {
    var u := users[|users| - 1];
    var init := users[..|users| - 1];
    if x in JoinLimits(db, init) {
      JoinLimitsSound(db, init, x);
      var v :| v in init && Repository.LimitGet(db, v.userId).Ok?
               && x == LimitEntry(v, Repository.LimitGet(db, v.userId).value);
      assert v in users;
    } else {
      assert u in users;
    }
  }

  /** When every lookup succeeds, the listing has one entry per user, in user order. */
  lemma {:induction false} JoinLimitsComplete(db: Database, users: seq<User>)
    requires forall u :: u in users ==> Repository.LimitGet(db, u.userId).Ok?
    ensures |JoinLimits(db, users)| == |users|
    ensures forall i :: 0 <= i < |users| ==>
      JoinLimits(db, users)[i] == LimitEntry(users[i], Repository.LimitGet(db, users[i].userId).value)
  {
    if users != [] {
      var init := users[..|users| - 1];
      assert forall u :: u in init ==> u in users;
      JoinLimitsComplete(db, init);
    }
  }

  /** A user whose lookup fails contributes nothing: the listing skips it. */
  lemma {:induction false} JoinLimitsSkips(db: Database, users: seq<User>, u: User)
    requires Repository.LimitGet(db, u.userId).Err?
    ensures JoinLimits(db, users + [u]) == JoinLimits(db, users)
  {
    assert (users + [u])[..|users|] == users;
  }

  /** The number of `users` whose limit lookup succeeds. */
  function Successes(db: Database, users: seq<User>): nat
    reads db
  {
    |set i | 0 <= i < |users| && Repository.LimitGet(db, users[i].userId).Ok?|
  }

  /** Counting the successes of a list grows by one for a last user whose lookup succeeds, by none otherwise. */
  lemma SuccessesSnoc(db: Database, users: seq<User>, u: User)
    ensures Successes(db, users + [u]) == Successes(db, users) + if Repository.LimitGet(db, u.userId).Ok? then 1 else 0
  {
    var all := users + [u];
    var a := set i | 0 <= i < |all| && Repository.LimitGet(db, all[i].userId).Ok?;
    var b := set i | 0 <= i < |users| && Repository.LimitGet(db, users[i].userId).Ok?;
    if Repository.LimitGet(db, u.userId).Ok? {
      assert a == b + {|users|};
    } else {
      assert a == b;
    }
  }

  /** Listing one more user appends its entry when its lookup succeeds. */
  lemma JoinLimitsSnoc(db: Database, users: seq<User>, u: User)
    ensures JoinLimits(db, users + [u])
         == JoinLimits(db, users)
            + if Repository.LimitGet(db, u.userId).Ok? then [LimitEntry(u, Repository.LimitGet(db, u.userId).value)] else []
  {
    assert (users + [u])[..|users|] == users;
  }

  /** The listing has exactly one entry per user whose lookup succeeds. */
  lemma {:induction false} JoinLimitsLength(db: Database, users: seq<User>)
    ensures |JoinLimits(db, users)| == Successes(db, users)
    decreases |users|
  {
    if users != [] {
      var init, u := users[..|users| - 1], users[|users| - 1];
      assert init + [u] == users;
      JoinLimitsLength(db, init);
      JoinLimitsSnoc(db, init, u);
      SuccessesSnoc(db, init, u);
    }
  }

  /**
    * A user whose lookup succeeds has its entry in the listing, placed after
    * the entries of the successful users before it: the listing is the
    * successful users, in user order, whatever the failures around them.
    */
  lemma {:induction false} JoinLimitsRank(db: Database, users: seq<User>, i: int)
    requires 0 <= i < |users| && Repository.LimitGet(db, users[i].userId).Ok?
    ensures Successes(db, users[..i]) < |JoinLimits(db, users)|
    ensures JoinLimits(db, users)[Successes(db, users[..i])]
         == LimitEntry(users[i], Repository.LimitGet(db, users[i].userId).value)
    decreases |users|
  {
    var init := users[..|users| - 1];
    JoinLimitsLength(db, init);
    if i == |users| - 1 {
      assert users[..i] == init;
    } else {
      assert init[..i] == users[..i];
      JoinLimitsRank(db, init, i);
    }
  }

  /**
    * `ListUserLimit`: a failing user list is returned as is; otherwise the
    * listing of all users, skipping those whose limit lookup fails.
    */
  method ListUserLimit(db: Database) returns (r: Result<seq<UserLimit>, Error>)
    ensures db.faults.userList.Some? ==> r == Err(Classify(db.faults.userList.value))
    ensures db.faults.userList.None? ==> r == Ok(JoinLimits(db, db.users))
  {
    var users := Repository.UserList(db);
    if users.Err? {
      return Err(users.error);
    }
    var response := [];
    var i := 0;
    while i < |users.value|
      invariant 0 <= i <= |users.value|
      invariant response == JoinLimits(db, users.value[..i])
    {
      var user := users.value[i];
      assert users.value[..i + 1][..i] == users.value[..i];
      var limit := Repository.LimitGet(db, user.userId);
      if limit.Ok? {
        response := response + [LimitEntry(user, limit.value)];
      }
      i := i + 1;
    }
    assert users.value[..i] == users.value;
    return Ok(response);
  }

  /** `TenorList`: the catalog's tenor values in catalog order, or the list error. */
  method TenorList(db: Database) returns (r: Result<seq<ListTenor>, Error>)
    ensures db.faults.tenorList.Some? ==> r == Err(Classify(db.faults.tenorList.value))
    ensures db.faults.tenorList.None? ==> r.Ok? && |r.value| == |db.tenors|
    ensures r.Ok? ==> forall i :: 0 <= i < |r.value| ==> r.value[i] == ListTenor(db.tenors[i].tenorValue)
  {
    var tenors := Repository.TenorList(db);
    if tenors.Err? {
      return Err(tenors.error);
    }
    var response := [];
    var i := 0;
    while i < |tenors.value|
      invariant 0 <= i <= |tenors.value|
      invariant |response| == i
      invariant forall k :: 0 <= k < i ==> response[k] == ListTenor(tenors.value[k].tenorValue)
    {
      response := response + [ListTenor(tenors.value[i].tenorValue)];
      i := i + 1;
    }
    return Ok(response);
  }

  /** The simulation row for one tenor. */
  function Simulate(amount: Cents, tenor: int): (s: InstallmentSimulation)
    requires tenor != 0
    ensures s.tenor == tenor
    ensures Financials(s.monthlyInstallment, s.totalMargin, s.totalPayment) == CalculateFinancials(amount, tenor)
  {
    var f := CalculateFinancials(amount, tenor);
    InstallmentSimulation(tenor, f.monthly, f.totalMargin, f.totalPayment)
  }

  /** For an amount that passes binding and a positive tenor, a simulation row is non-negative and its payment covers the amount. */
  lemma BoundSimulation(req: CalculateInstallmentsRequest, tenor: int)
    requires BindsCalculate(req) && tenor > 0
    ensures Simulate(CentsPerUnit * req.amount, tenor).monthlyInstallment >= 0
    ensures Simulate(CentsPerUnit * req.amount, tenor).totalMargin >= 0
    ensures Simulate(CentsPerUnit * req.amount, tenor).totalPayment >= CentsPerUnit * req.amount
  {
    FinancialsNonNegative(CentsPerUnit * req.amount, tenor);
  }

  /**
    * `Installment`: one simulation per catalog tenor, in catalog order, for an
    * amount in whole units, or the list error. A zero tenor in the catalog
    * would make the division panic, so the catalog must not hold one.
    */
  method Installment(db: Database, amount: int) returns (r: Result<seq<InstallmentSimulation>, Error>)
    requires db.faults.tenorList.None? ==> forall t :: t in db.tenors ==> t.tenorValue != 0
    ensures db.faults.tenorList.Some? ==> r == Err(Classify(db.faults.tenorList.value))
    ensures db.faults.tenorList.None? ==> r.Ok? && |r.value| == |db.tenors|
    ensures r.Ok? ==> forall i :: 0 <= i < |r.value| ==>
      r.value[i] == Simulate(CentsPerUnit * amount, db.tenors[i].tenorValue)
  {
    var tenors := Repository.TenorList(db);
    if tenors.Err? {
      return Err(tenors.error);
    }
    var response := [];
    var i := 0;
    while i < |tenors.value|
      invariant 0 <= i <= |tenors.value|
      invariant |response| == i
      invariant forall k :: 0 <= k < i ==> response[k] == Simulate(CentsPerUnit * amount, tenors.value[k].tenorValue)
    {
      assert tenors.value[i] in db.tenors;
      response := response + [Simulate(CentsPerUnit * amount, tenors.value[i].tenorValue)];
      i := i + 1;
    }
    return Ok(response);
  }

  // ---------------------------------------------------------------------
  // The repayment schedule
  // ---------------------------------------------------------------------

  function Max0(n: int): nat
  {
    if n > 0 then n else 0
  }

  /** The installment rows of a facility: one per month, due 1..tenor months after the start. */
  function Installments(facilityId: int, start: Date, monthly: Cents, tenor: int): seq<UserFacilityDetail>
    requires ValidDate(start)
  {
    seq(Max0(tenor), i requires 0 <= i => UserFacilityDetail(facilityId, AddMonths(start, i + 1), monthly))
  }

  /** The schedule of the response mirrors the installment rows. */
  function ScheduleOf(details: seq<UserFacilityDetail>): (s: seq<ScheduleDetail>)
    ensures |s| == |details|
    ensures forall i :: 0 <= i < |s| ==>
      s[i].dueDate == details[i].dueDate && s[i].installmentAmount == details[i].installmentAmount
  {
    seq(|details|, i requires 0 <= i < |details| => ScheduleDetail(details[i].dueDate, details[i].installmentAmount))
  }

  /** The `for i := 1; i <= tenor; i++` loop of `Submit` that builds the rows and the response schedule. */
  method BuildSchedule(facilityId: int, start: Date, monthly: Cents, tenor: int)
    returns (details: seq<UserFacilityDetail>, schedule: seq<ScheduleDetail>)
    requires ValidDate(start)
    ensures details == Installments(facilityId, start, monthly, tenor)
    ensures schedule == ScheduleOf(details)
  {
    details, schedule := [], [];
    var i := 1;
    while i <= tenor
      invariant 1 <= i <= Max0(tenor) + 1
      invariant |details| == |schedule| == i - 1
      invariant forall k :: 0 <= k < i - 1 ==> details[k] == UserFacilityDetail(facilityId, AddMonths(start, k + 1), monthly)
      invariant forall k :: 0 <= k < i - 1 ==>
        schedule[k] == ScheduleDetail(details[k].dueDate, details[k].installmentAmount)
    {
      var dueDate := AddMonths(start, i);
      var detail := UserFacilityDetail(facilityId, dueDate, monthly);
      details := details + [detail];
      schedule := schedule + [ScheduleDetail(dueDate, monthly)];
      i := i + 1;
    }
  }

  /** The rows are `tenor` in number (none for a non-positive tenor), all of one amount, with strictly increasing due dates. */
  lemma {:induction false} InstallmentsShape(facilityId: int, start: Date, monthly: Cents, tenor: int)
    requires ValidDate(start)
    ensures |Installments(facilityId, start, monthly, tenor)| == Max0(tenor)
    ensures forall d :: d in Installments(facilityId, start, monthly, tenor) ==>
      d.userFacilityId == facilityId && d.installmentAmount == monthly
    ensures forall i, j :: 0 <= i < j < Max0(tenor) ==>
      Before(Installments(facilityId, start, monthly, tenor)[i].dueDate, Installments(facilityId, start, monthly, tenor)[j].dueDate)
  {
    var s := Installments(facilityId, start, monthly, tenor);
    forall i, j | 0 <= i < j < Max0(tenor)
      ensures Before(s[i].dueDate, s[j].dueDate)
    {
      AddMonthsIncreasing(start, i + 1, j + 1);
    }
  }

  function Total(details: seq<UserFacilityDetail>): Cents
  {
    if details == [] then 0 else Total(details[..|details| - 1]) + details[|details| - 1].installmentAmount
  }

  /** Rows of one amount add up to their number times that amount. */
  lemma {:induction false} TotalOfEqual(rows: seq<UserFacilityDetail>, amount: Cents)
    requires forall d :: d in rows ==> d.installmentAmount == amount
    ensures Total(rows) == |rows| * amount
  {
    if rows != [] {
      var init := rows[..|rows| - 1];
      assert forall d :: d in init ==> d in rows;
      TotalOfEqual(init, amount);
      assert rows[|rows| - 1] in rows;
    }
  }

  /** The rows add up to tenor times the monthly installment. */
  lemma {:induction false} InstallmentsTotal(facilityId: int, start: Date, monthly: Cents, tenor: nat)
    requires ValidDate(start)
    ensures Total(Installments(facilityId, start, monthly, tenor)) == tenor * monthly
  {
    InstallmentsShape(facilityId, start, monthly, tenor);
    TotalOfEqual(Installments(facilityId, start, monthly, tenor), monthly);
  }

  // ---------------------------------------------------------------------
  // Submission
  // ---------------------------------------------------------------------

  const InvalidDateMessage := "invalid date format, use YYYY-MM-DD"
  const InsufficientLimitMessage := "limit balance is not enough"

  /** What the checks before the transaction establish. */
  datatype Plan = Plan(user: User, limit: UserFacilityLimit, tenor: Tenor, start: Date)

  /**
    * The steps of `Submit` before the transaction: parse the date, look up
    * the user, the user's limit (checked against the amount) and the tenor.
    * The first failure is the result.
    */
  function Precheck(db: Database, req: SubmitFinancingRequest, parse: DateParser): (r: Result<Plan, Error>)
    reads db
    ensures parse(req.startDate).Err? ==>
      r == Err(App(NewError(ErrTypeValidation, InvalidDateMessage, Some(parse(req.startDate).error))))
    ensures r.Ok? ==>
      && parse(req.startDate) == Ok(r.value.start)
      && r.value.user in db.users && r.value.user.userId == req.userId
      && r.value.limit in db.tables.limits && r.value.limit.userId == req.userId
      && CentsPerUnit * req.amount <= r.value.limit.limitAmount
      && r.value.tenor in db.tenors && r.value.tenor.tenorValue == req.tenor
    ensures parse(req.startDate).Ok? && Repository.UserGet(db, req.userId).Err? ==>
      r == Err(Repository.UserGet(db, req.userId).error)
    ensures parse(req.startDate).Ok? && Repository.UserGet(db, req.userId).Ok?
            && Repository.LimitGet(db, req.userId).Err? ==>
      r == Err(Repository.LimitGet(db, req.userId).error)
    ensures parse(req.startDate).Ok? && Repository.UserGet(db, req.userId).Ok?
            && Repository.LimitGet(db, req.userId).Ok?
            && CentsPerUnit * req.amount <= Repository.LimitGet(db, req.userId).value.limitAmount
            && Repository.TenorGet(db, req.tenor).Err? ==>
      r == Err(Repository.TenorGet(db, req.tenor).error)
  {
    match parse(req.startDate)
    case Err(e) => Err(App(NewError(ErrTypeValidation, InvalidDateMessage, Some(e))))
    case Ok(start) =>
      match Repository.UserGet(db, req.userId)
      case Err(e) => Err(e)
      case Ok(user) =>
        match Repository.LimitGet(db, user.userId)
        case Err(e) => Err(e)
        case Ok(limit) =>
          if CentsPerUnit * req.amount > limit.limitAmount then
            Err(App(NewError(ErrInsufficientLimit, InsufficientLimitMessage, None)))
          else
            match Repository.TenorGet(db, req.tenor)
            case Err(e) => Err(e)
            case Ok(tenor) => Ok(Plan(user, limit, tenor, start))
  }

  /** The checks pass exactly when every lookup succeeds and the amount is within the limit. */
  lemma PrecheckPasses(db: Database, req: SubmitFinancingRequest, parse: DateParser)
    ensures Precheck(db, req, parse).Ok? <==>
      && parse(req.startDate).Ok?
      && Repository.UserGet(db, req.userId).Ok?
      && Repository.LimitGet(db, req.userId).Ok?
      && CentsPerUnit * req.amount <= Repository.LimitGet(db, req.userId).value.limitAmount
      && Repository.TenorGet(db, req.tenor).Ok?
  {
  }

  /** An amount over the limit is refused as an insufficient limit, a 400 whose body names the cause, before the tenor lookup. */
  lemma {:induction false} OverLimitRefused(db: Database, req: SubmitFinancingRequest, parse: DateParser)
    requires parse(req.startDate).Ok? && Repository.UserGet(db, req.userId).Ok?
    requires Repository.LimitGet(db, req.userId).Ok?
    requires CentsPerUnit * req.amount > Repository.LimitGet(db, req.userId).value.limitAmount
    ensures Precheck(db, req, parse) == Err(App(NewError(ErrInsufficientLimit, InsufficientLimitMessage, None)))
    ensures MapErr.SendError(Precheck(db, req, parse).error)
         == MapErr.Reply(MapErr.StatusBadRequest, MapErr.ErrorResponse(InsufficientLimitMessage, None))
  {
    assert Repository.UserGet(db, req.userId).value.userId == req.userId;
  }

  /** A user missing from the table is reported as not found, a 404. */
  lemma {:induction false} UnknownUserNotFound(db: Database, req: SubmitFinancingRequest, parse: DateParser)
    requires db.faults.userGet.None? && forall u :: u in db.users ==> u.userId != req.userId
    requires parse(req.startDate).Ok?
    ensures Precheck(db, req, parse) == Err(Classify(NoRows))
    ensures MapErr.SendError(Precheck(db, req, parse).error).status == MapErr.StatusNotFound
  {
    NoRowsIsNotFound(NoRows);
  }

  /** A user without a limit row is reported as not found, a 404, before the amount is looked at. */
  lemma {:induction false} MissingLimitNotFound(db: Database, req: SubmitFinancingRequest, parse: DateParser)
    requires req.userId !in db.faults.limitGet && forall l :: l in db.tables.limits ==> l.userId != req.userId
    requires parse(req.startDate).Ok? && Repository.UserGet(db, req.userId).Ok?
    ensures Precheck(db, req, parse) == Err(Classify(NoRows))
    ensures MapErr.SendError(Precheck(db, req, parse).error).status == MapErr.StatusNotFound
  {
    assert Repository.UserGet(db, req.userId).value.userId == req.userId;
    NoRowsIsNotFound(NoRows);
  }

  /** A tenor missing from the catalog is reported as not found (a 404), not as an unavailable tenor. */
  lemma {:induction false} UnknownTenorNotFound(db: Database, req: SubmitFinancingRequest, parse: DateParser)
    requires db.faults.tenorGet.None? && forall t :: t in db.tenors ==> t.tenorValue != req.tenor
    requires parse(req.startDate).Ok? && Repository.UserGet(db, req.userId).Ok?
    requires Repository.LimitGet(db, req.userId).Ok?
    requires CentsPerUnit * req.amount <= Repository.LimitGet(db, req.userId).value.limitAmount
    ensures Precheck(db, req, parse) == Err(Classify(NoRows))
    ensures MapErr.SendError(Precheck(db, req, parse).error).status == MapErr.StatusNotFound
  {
    assert Repository.UserGet(db, req.userId).value.userId == req.userId;
    NoRowsIsNotFound(NoRows);
  }

  /**
    * A request that passed binding is never refused for its date: a failed
    * check is then a classified lookup failure or an insufficient limit.
    */
  lemma {:induction false} BoundRequestDateAccepted(db: Database, req: SubmitFinancingRequest, parse: DateParser, today: Date)
    requires BindsSubmit(req, parse, today)
    requires Precheck(db, req, parse).Err?
    ensures AsAppError(Precheck(db, req, parse).error).Some?
    ensures AsAppError(Precheck(db, req, parse).error).value.kind
         in {ErrTypeNotFound, ErrTypeConflict, ErrTypeInternal, ErrInsufficientLimit}
  {
    var user := Repository.UserGet(db, req.userId);
    if user.Ok? {
      var limit := Repository.LimitGet(db, user.value.userId);
      if limit.Ok? && CentsPerUnit * req.amount <= limit.value.limitAmount {
        ClassifiedKinds(Repository.TenorGet(db, req.tenor));
      } else {
        ClassifiedKinds(limit);
      }
    } else {
      ClassifiedKinds(user);
    }
  }

  /** A failed repository read carries a `DbError` kind. */
  lemma ClassifiedKinds<T>(r: Result<T, Error>)
    requires r.Err? ==> exists e :: r.error == Classify(e)
    ensures r.Err? ==> AsAppError(r.error).Some? && AsAppError(r.error).value.kind in {ErrTypeNotFound, ErrTypeConflict, ErrTypeInternal}
  {
  }

  /** The request's own facility limit id plays no part: the limit is the one found for the user. */
  lemma RequestLimitIdIgnored(db: Database, req: SubmitFinancingRequest, parse: DateParser, id: int)
    ensures Precheck(db, req.(facilityLimitId := id), parse) == Precheck(db, req, parse)
  {
  }

  /** `IntPart`: the whole units of an amount of cents, truncated toward zero. */
  function IntPart(c: Cents): (u: int)
    ensures Abs(c - CentsPerUnit * u) < CentsPerUnit
    ensures c >= 0 ==> 0 <= CentsPerUnit * u <= c
    ensures c <= 0 ==> c <= CentsPerUnit * u <= 0
  {
    if c >= 0 then c / CentsPerUnit else -((-c) / CentsPerUnit)
  }

  /** The limit written back: the remaining balance in whole units. */
  function Debited(limit: Cents, amount: int): Cents
  {
    CentsPerUnit * IntPart(limit - CentsPerUnit * amount)
  }

  /**
    * The remaining limit is never negative and never more than the exact
    * balance; it is the exact balance when the limit is a whole number of
    * units, and otherwise the cents of the limit are lost.
    */
  lemma {:induction false} DebitedBounds(limit: Cents, amount: int)
    requires CentsPerUnit * amount <= limit
    ensures 0 <= Debited(limit, amount) <= limit - CentsPerUnit * amount
    ensures limit - CentsPerUnit * amount - Debited(limit, amount) == limit % CentsPerUnit
  {
    var rest := limit - CentsPerUnit * amount;
    assert rest % CentsPerUnit == limit % CentsPerUnit;
    assert IntPart(rest) == rest / CentsPerUnit;
  }

  /** The facility row of a planned submission. */
  function FacilityRow(p: Plan, amount: int, id: int): UserFacility
    requires p.tenor.tenorValue != 0
  {
    var f := CalculateFinancials(CentsPerUnit * amount, p.tenor.tenorValue);
    UserFacility(id, p.user.userId, p.limit.facilityLimitId, CentsPerUnit * amount, p.tenor.tenorValue, p.start,
                 f.monthly, f.totalMargin, f.totalPayment)
  }

  /** The writes of a successful submission, in the order they are issued. */
  function SubmitWrites(p: Plan, amount: int, id: int): seq<Write>
    requires p.tenor.tenorValue != 0 && ValidDate(p.start)
  {
    var f := CalculateFinancials(CentsPerUnit * amount, p.tenor.tenorValue);
    [ InsertFacility(FacilityRow(p, amount, id)),
      InsertDetails(Installments(id, p.start, f.monthly, p.tenor.tenorValue)),
      SetLimit(p.limit.facilityLimitId, Debited(p.limit.limitAmount, amount)) ]
  }

  /** The response of a successful submission. */
  function SubmitResponse(p: Plan, amount: int, id: int): SubmitFinancingResponse
    requires p.tenor.tenorValue != 0 && ValidDate(p.start)
  {
    var f := CalculateFinancials(CentsPerUnit * amount, p.tenor.tenorValue);
    SubmitFinancingResponse(id, p.user.userId, p.limit.facilityLimitId, CentsPerUnit * amount, p.tenor.tenorValue,
                            p.start, f.monthly, f.totalMargin, f.totalPayment,
                            ScheduleOf(Installments(id, p.start, f.monthly, p.tenor.tenorValue)))
  }

  /**
    * The first failure among the writes inside the transaction, in the order
    * they are issued: facility insert, detail insert, limit update. The
    * inserts return the driver error as is; the update classifies it.
    */
  function StageFailure(faults: Faults): Option<Error>
  {
    if faults.facilityAdd.Some? then faults.facilityAdd
    else if faults.detailAdd.Some? then faults.detailAdd
    else if faults.limitUpdate.Some? then Some(Classify(faults.limitUpdate.value))
    else None
  }

  /** The first failure of the transaction: begin, then the writes, then commit. */
  function TxFailure(faults: Faults): Option<Error>
  {
    if faults.begin.Some? then Some(Classify(faults.begin.value))
    else if StageFailure(faults).Some? then StageFailure(faults)
    else if faults.commit.Some? then Some(Classify(faults.commit.value))
    else None
  }

  /** Whether the submission gets as far as the facility insert. */
  predicate InsertsFacility(db: Database, req: SubmitFinancingRequest, parse: DateParser)
    reads db
  {
    Precheck(db, req, parse).Ok? && db.faults.begin.None? && db.faults.facilityAdd.None?
  }

  /**
    * The writes of `Submit` inside a fresh transaction: the facility insert,
    * the installment rows built for the id it returns, and the limit update.
    * They are staged in the transaction, which stays open; nothing is
    * committed. The first failing write stops the sequence.
    */
  method StageWrites(db: Database, txCtx: Ctx, p: Plan, amount: int)
    returns (facilityId: int, schedule: seq<ScheduleDetail>, err: Option<Error>)
    requires db.IsOpen(txCtx) && db.txs[txCtx.id].pending == []
    requires p.tenor.tenorValue != 0 && ValidDate(p.start)
    requires p.limit in db.tables.limits
    modifies db
    ensures db.tables == old(db.tables)
    ensures |db.txs| == |old(db.txs)| && db.txs == old(db.txs)[txCtx.id := db.txs[txCtx.id]]
    ensures db.txs[txCtx.id].status == Active
    ensures db.nextFacilityId == old(db.nextFacilityId) + if db.faults.facilityAdd.None? then 1 else 0
    ensures err == StageFailure(db.faults)
    ensures err.None? ==>
      && facilityId == old(db.nextFacilityId)
      && db.txs[txCtx.id].pending == SubmitWrites(p, amount, facilityId)
      && schedule == SubmitResponse(p, amount, facilityId).schedule
  {
    ghost var k := txCtx.id;
    var facility := FacilityRow(p, amount, 0);
    var monthly := facility.monthlyInstallment;

    var added := Repository.AddFacility(db, txCtx, facility);
    if added.Err? {
      return 0, [], Some(added.error);
    }
    facilityId := added.value;

    var details;
    details, schedule := BuildSchedule(facilityId, p.start, monthly, p.tenor.tenorValue);
    err := Repository.AddDetails(db, txCtx, details);
    if err.Some? {
      return;
    }

    ghost var staged := [InsertFacility(facility.(userFacilityId := facilityId)), InsertDetails(details)];
    assert db.txs[k].pending == staged;
    InsertsKeepLimits(db.tables, staged);
    assert Repository.HasLimitRow(db.tables.limits, p.limit.facilityLimitId);
    err := Repository.UpdateLimit(db, txCtx, p.limit.facilityLimitId, IntPart(p.limit.limitAmount - CentsPerUnit * amount));
    if err.Some? {
      return;
    }
    assert db.txs[k].pending == SubmitWrites(p, amount, facilityId);
  }

  /**
    * `Submit`. A failed check is returned before anything is written. Past
    * the checks a transaction is begun and always ends closed; its first
    * failure is the result and leaves the committed rows as they were. On
    * success the facility, its rows and the reduced limit are committed
    * together and described by the response. The id of an inserted facility
    * is used up even when the transaction later fails.
    */
  method Submit(db: Database, req: SubmitFinancingRequest, parse: DateParser) returns (r: Result<SubmitFinancingResponse, Error>)
    requires req.tenor != 0
    requires parse(req.startDate).Ok? ==> ValidDate(parse(req.startDate).value)
    modifies db
    ensures old(Precheck(db, req, parse)).Err? ==> r == Err(old(Precheck(db, req, parse)).error) && unchanged(db)
    ensures old(Precheck(db, req, parse)).Ok? && TxFailure(db.faults).Some? ==>
      r == Err(TxFailure(db.faults).value)
    ensures old(Precheck(db, req, parse)).Ok? && TxFailure(db.faults).None? ==>
      r == Ok(SubmitResponse(old(Precheck(db, req, parse)).value, req.amount, old(db.nextFacilityId)))
    ensures r.Err? ==> db.tables == old(db.tables)
    ensures r.Ok? ==>
      db.tables == ApplyAll(old(db.tables), SubmitWrites(old(Precheck(db, req, parse)).value, req.amount, old(db.nextFacilityId)))
    ensures old(Precheck(db, req, parse)).Ok? && db.faults.begin.None? ==>
      && |db.txs| == |old(db.txs)| + 1
      && db.txs[..|old(db.txs)|] == old(db.txs)
      && db.txs[|old(db.txs)|] == Tx(Closed, [])
    ensures old(Precheck(db, req, parse)).Ok? && db.faults.begin.Some? ==> db.txs == old(db.txs)
    ensures db.nextFacilityId == old(db.nextFacilityId) + if old(InsertsFacility(db, req, parse)) then 1 else 0
  {
    var checked := Precheck(db, req, parse);
    if checked.Err? {
      return Err(checked.error);
    }
    var p := checked.value;

    var begun := db.Begin(Background);
    if begun.Err? {
      return Err(begun.error);
    }
    var txCtx := begun.value;
    ghost var k := txCtx.id;

    var facilityId, schedule, err := StageWrites(db, txCtx, p, req.amount);
    if err.Some? {
      var _ := db.Rollback(txCtx);
      return Err(err.value);
    }
    ghost var pending := db.txs[k].pending;
    err := db.Commit(txCtx);
    if err.Some? {
      var _ := db.Rollback(txCtx);
      return Err(err.value);
    }
    assert db.tables == ApplyAll(old(db.tables), pending);
    var _ := db.Rollback(txCtx);

    var f := CalculateFinancials(CentsPerUnit * req.amount, p.tenor.tenorValue);
    r := Ok(SubmitFinancingResponse(facilityId, p.user.userId, p.limit.facilityLimitId, CentsPerUnit * req.amount,
                                    p.tenor.tenorValue, p.start, f.monthly, f.totalMargin, f.totalPayment,
                                    schedule));
  }

  /**
    * The effect of a successful submission on the committed rows: one facility
    * row appended, `tenor` installment rows appended, and the limit row with
    * the plan's id set to the remaining balance; other limit rows keep theirs.
    */
  lemma {:induction false} SubmitWritesEffect(t: Tables, p: Plan, amount: int, id: int)
    requires p.tenor.tenorValue > 0 && ValidDate(p.start)
    ensures ApplyAll(t, SubmitWrites(p, amount, id)).facilities == t.facilities + [FacilityRow(p, amount, id)]
    ensures ApplyAll(t, SubmitWrites(p, amount, id)).details
         == t.details + Installments(id, p.start, CalculateFinancials(CentsPerUnit * amount, p.tenor.tenorValue).monthly,
                                     p.tenor.tenorValue)
    ensures |ApplyAll(t, SubmitWrites(p, amount, id)).limits| == |t.limits|
    ensures forall i :: 0 <= i < |t.limits| ==>
      ApplyAll(t, SubmitWrites(p, amount, id)).limits[i].limitAmount ==
        if t.limits[i].facilityLimitId == p.limit.facilityLimitId then Debited(p.limit.limitAmount, amount)
        else t.limits[i].limitAmount
  {
    var ws := SubmitWrites(p, amount, id);
    var f := CalculateFinancials(CentsPerUnit * amount, p.tenor.tenorValue);
    var rows := Installments(id, p.start, f.monthly, p.tenor.tenorValue);
    InstallmentsShape(id, p.start, f.monthly, p.tenor.tenorValue);
    var t1 := Apply(t, ws[0]);
    var t2 := Apply(t1, ws[1]);
    var t3 := Apply(t2, ws[2]);
    assert ApplyAll(t, ws) == ApplyAll(t1, ws[1..]);
    assert ApplyAll(t1, ws[1..]) == ApplyAll(t2, ws[2..]);
    assert ApplyAll(t2, ws[2..]) == t3;
    assert t3.details == t.details + rows;
  }
}
