/**
  * The repositories of internal/repository as abstract stores over a
  * `Postgres.Database`. Every read through the user, limit and tenor
  * repositories passes driver errors through `DbError`, so a missing row is
  * NotFound; the facility and detail inserts return the driver error as is.
  * The core issues all reads outside a transaction, so reads see the
  * committed rows.
  */
module Repository {
  import opened Wrappers
  import opened Errorx
  import opened DbErr
  import opened Money
  import opened Model
  import opened Postgres

  /** The first element satisfying `p`, as `pgx.CollectOneRow` takes the first row of a query. */
  function FirstWhere<T>(s: seq<T>, p: T -> bool): (r: Option<T>)
    ensures r.Some? ==> r.value in s && p(r.value)
    ensures r.None? <==> forall x :: x in s ==> !p(x)
  {
    if s == [] then None
    else if p(s[0]) then Some(s[0])
    else FirstWhere(s[1..], p)
  }

  /** `userRepository.Get`: the user with that id, or a classified error (NotFound when absent). */
  function UserGet(db: Database, id: int): (r: Result<User, Error>)
    ensures db.faults.userGet.Some? ==> r == Err(Classify(db.faults.userGet.value))
    ensures r.Ok? ==> r.value in db.users && r.value.userId == id
    ensures db.faults.userGet.None? && r.Err? ==>
      r.error == Classify(NoRows) && forall u :: u in db.users ==> u.userId != id
  {
    if db.faults.userGet.Some? then Err(Classify(db.faults.userGet.value))
    else
      match FirstWhere(db.users, (u: User) => u.userId == id)
      case Some(u) => Ok(u)
      case None => Err(Classify(NoRows))
  }

  /** `userRepository.List`: every user in table order; a failed query or scan is a classified error. */
  function UserList(db: Database): (r: Result<seq<User>, Error>)
    ensures r.Err? <==> db.faults.userList.Some?
    ensures r.Err? ==> r.error == Classify(db.faults.userList.value) && r.error.App?
    ensures r.Ok? ==> r.value == db.users
  {
    if db.faults.userList.Some? then Err(Classify(db.faults.userList.value)) else Ok(db.users)
  }

  /** `limitRepository.Get`: the committed limit row of the user, or a classified error. */
  function LimitGet(db: Database, userId: int): (r: Result<UserFacilityLimit, Error>)
    reads db
    ensures userId in db.faults.limitGet ==> r == Err(Classify(db.faults.limitGet[userId]))
    ensures r.Ok? ==> r.value in db.tables.limits && r.value.userId == userId
    ensures userId !in db.faults.limitGet && r.Err? ==>
      r.error == Classify(NoRows) && forall l :: l in db.tables.limits ==> l.userId != userId
  {
    if userId in db.faults.limitGet then Err(Classify(db.faults.limitGet[userId]))
    else
      match FirstWhere(db.tables.limits, (l: UserFacilityLimit) => l.userId == userId)
      case Some(l) => Ok(l)
      case None => Err(Classify(NoRows))
  }

  /** `tenorRepository.Get`: the catalog entry with that number of months, or a classified error. */
  function TenorGet(db: Database, tenorValue: int): (r: Result<Tenor, Error>)
    ensures db.faults.tenorGet.Some? ==> r == Err(Classify(db.faults.tenorGet.value))
    ensures r.Ok? ==> r.value in db.tenors && r.value.tenorValue == tenorValue
    ensures db.faults.tenorGet.None? && r.Err? ==>
      r.error == Classify(NoRows) && forall t :: t in db.tenors ==> t.tenorValue != tenorValue
  {
    if db.faults.tenorGet.Some? then Err(Classify(db.faults.tenorGet.value))
    else
      match FirstWhere(db.tenors, (t: Tenor) => t.tenorValue == tenorValue)
      case Some(t) => Ok(t)
      case None => Err(Classify(NoRows))
  }

  /** `tenorRepository.List`: the whole catalog in table order; a failed query or scan is a classified error. */
  function TenorList(db: Database): (r: Result<seq<Tenor>, Error>)
    ensures r.Err? <==> db.faults.tenorList.Some?
    ensures r.Err? ==> r.error == Classify(db.faults.tenorList.value) && r.error.App?
    ensures r.Ok? ==> r.value == db.tenors
  {
    if db.faults.tenorList.Some? then Err(Classify(db.faults.tenorList.value)) else Ok(db.tenors)
  }

  /** The rows `ctx` sees: the committed ones, plus the transaction's own writes. */
  function View(db: Database, ctx: Ctx): Tables
    requires db.Knows(ctx)
    reads db
  {
    match ctx
    case Background => db.tables
    case TxCtx(id) => ApplyAll(db.tables, db.txs[id].pending)
  }

  /** Whether `ctx` can run statements: no transaction, or an open one. */
  predicate Usable(db: Database, ctx: Ctx)
    requires db.Knows(ctx)
    reads db
  {
    ctx.Background? || db.txs[ctx.id].status == Active
  }

  /**
    * `facilityRepository.Add`: inserts the facility under the next id of
    * the sequence and returns that id; a driver error is returned unchanged.
    */
  method AddFacility(db: Database, ctx: Ctx, facility: UserFacility) returns (r: Result<int, Error>)
    requires db.Knows(ctx)
    modifies db
    ensures db.faults.facilityAdd.Some? ==> r == Err(db.faults.facilityAdd.value) && unchanged(db)
    ensures db.faults.facilityAdd.None? && !old(Usable(db, ctx)) ==> r == Err(TxClosed) && unchanged(db)
    ensures db.faults.facilityAdd.None? && old(Usable(db, ctx)) ==>
      && r == Ok(old(db.nextFacilityId))
      && db.nextFacilityId == old(db.nextFacilityId) + 1
      && (db.tables, db.txs) == Executed(old(db.tables), old(db.txs), ctx, InsertFacility(facility.(userFacilityId := r.value)))
  {
    if db.faults.facilityAdd.Some? {
      return Err(db.faults.facilityAdd.value);
    }
    if !Usable(db, ctx) {
      return Err(TxClosed);
    }
    var id := db.NextFacilityId();
    db.Execute(ctx, InsertFacility(facility.(userFacilityId := id)));
    r := Ok(id);
  }

  /**
    * `detailRepository.Add`: copies the rows in; a driver error, or a copy
    * count that differs from the number of rows, is returned unchanged.
    */
  method AddDetails(db: Database, ctx: Ctx, rows: seq<UserFacilityDetail>) returns (err: Option<Error>)
    requires db.Knows(ctx)
    modifies db
    ensures db.faults.detailAdd.Some? ==> err == db.faults.detailAdd && unchanged(db)
    ensures db.faults.detailAdd.None? && !old(Usable(db, ctx)) ==> err == Some(TxClosed) && unchanged(db)
    ensures db.faults.detailAdd.None? && old(Usable(db, ctx)) ==>
      && err.None?
      && (db.tables, db.txs) == Executed(old(db.tables), old(db.txs), ctx, InsertDetails(rows))
      && db.nextFacilityId == old(db.nextFacilityId)
  {
    if db.faults.detailAdd.Some? {
      return db.faults.detailAdd;
    }
    if !Usable(db, ctx) {
      return Some(TxClosed);
    }
    db.Execute(ctx, InsertDetails(rows));
    err := None;
  }

  /** Whether some row of `limits` has that id (the rows an update would affect). */
  predicate HasLimitRow(limits: seq<UserFacilityLimit>, id: int)
  {
    exists l :: l in limits && l.facilityLimitId == id
  }

  /**
    * `limitRepository.Update`: sets the limit, given in whole units, of the
    * row with that id. A driver error is classified; an update that affects
    * no row is an Internal error.
    */
  method UpdateLimit(db: Database, ctx: Ctx, id: int, amount: int) returns (err: Option<Error>)
    requires db.Knows(ctx)
    modifies db
    ensures db.faults.limitUpdate.Some? ==> err == Some(Classify(db.faults.limitUpdate.value)) && unchanged(db)
    ensures db.faults.limitUpdate.None? && !old(Usable(db, ctx)) ==> err == Some(Classify(TxClosed)) && unchanged(db)
    ensures db.faults.limitUpdate.None? && old(Usable(db, ctx)) && !old(HasLimitRow(View(db, ctx).limits, id)) ==>
      err == Some(Classify(Plain("no rows updated"))) && unchanged(db)
    ensures db.faults.limitUpdate.None? && old(Usable(db, ctx)) && old(HasLimitRow(View(db, ctx).limits, id)) ==>
      && err.None?
      && (db.tables, db.txs) == Executed(old(db.tables), old(db.txs), ctx, SetLimit(id, CentsPerUnit * amount))
      && db.nextFacilityId == old(db.nextFacilityId)
  {
    if db.faults.limitUpdate.Some? {
      return Some(Classify(db.faults.limitUpdate.value));
    }
    if !Usable(db, ctx) {
      return Some(Classify(TxClosed));
    }
    if !HasLimitRow(View(db, ctx).limits, id) {
      return Some(Classify(Plain("no rows updated")));
    }
    db.Execute(ctx, SetLimit(id, CentsPerUnit * amount));
    err := None;
  }
}
