/**
  * The database behind the repositories and the unit of work of
  * pkg/postgres/unit_of_work.go. A transaction stages its writes in a log
  * that `Commit` applies to the committed tables and `Rollback` discards.
  * A context either carries no transaction or names one by its index.
  */
module Postgres {
  import opened Wrappers
  import opened Errorx
  import opened DbErr
  import opened Money
  import opened Model

  datatype Ctx = Background | TxCtx(id: nat)

  /** A row-level write, as the repositories issue them. */
  datatype Write =
    | InsertFacility(facility: UserFacility)
    | InsertDetails(rows: seq<UserFacilityDetail>)
    | SetLimit(facilityLimitId: int, amount: Cents)

  /** The tables the core writes. */
  datatype Tables = Tables(
    facilities: seq<UserFacility>,
    details: seq<UserFacilityDetail>,
    limits: seq<UserFacilityLimit>)

  /** `UPDATE user_facility_limits SET limit_amount = amount WHERE id = id`. */
  function SetLimitAmount(limits: seq<UserFacilityLimit>, id: int, amount: Cents): (r: seq<UserFacilityLimit>)
    ensures |r| == |limits|
    ensures forall i :: 0 <= i < |r| ==>
      r[i].facilityLimitId == limits[i].facilityLimitId && r[i].userId == limits[i].userId
    ensures forall i :: 0 <= i < |r| ==>
      r[i].limitAmount == if limits[i].facilityLimitId == id then amount else limits[i].limitAmount
  {
    if limits == [] then []
    else
      [if limits[0].facilityLimitId == id then limits[0].(limitAmount := amount) else limits[0]]
      + SetLimitAmount(limits[1..], id, amount)
  }

  function Apply(t: Tables, w: Write): Tables
  {
    match w
    case InsertFacility(f) => t.(facilities := t.facilities + [f])
    case InsertDetails(rows) => t.(details := t.details + rows)
    case SetLimit(id, amount) => t.(limits := SetLimitAmount(t.limits, id, amount))
  }

  function ApplyAll(t: Tables, ws: seq<Write>): Tables
    decreases |ws|
  {
    if ws == [] then t else ApplyAll(Apply(t, ws[0]), ws[1..])
  }

  /** Writes other than limit updates leave the limits as they are. */
  lemma {:induction false} InsertsKeepLimits(t: Tables, ws: seq<Write>)
    decreases |ws|
    requires forall w :: w in ws ==> !w.SetLimit?
    ensures ApplyAll(t, ws).limits == t.limits
  {
    if ws != [] {
      assert forall w :: w in ws[1..] ==> w in ws;
      InsertsKeepLimits(Apply(t, ws[0]), ws[1..]);
    }
  }

  datatype TxStatus = Active | Closed

  datatype Tx = Tx(status: TxStatus, pending: seq<Write>)

  /**
    * The driver errors a scenario injects, one per operation, as the mocks
    * of the service test configure them; `limitGet` is keyed by user id.
    */
  datatype Faults = Faults(
    userList: Option<Error>,
    userGet: Option<Error>,
    limitGet: map<int, Error>,
    limitUpdate: Option<Error>,
    tenorList: Option<Error>,
    tenorGet: Option<Error>,
    facilityAdd: Option<Error>,
    detailAdd: Option<Error>,
    begin: Option<Error>,
    commit: Option<Error>,
    rollback: Option<Error>)

  /** The error `Commit` and `Rollback` return for a context without a transaction. */
  const NoTransaction: Error :=
    App(NewError(ErrTypeInternal, "failed to fetch data", Some(Plain("no transaction found in context"))))

  /** The outcome of a rollback whose driver call failed with `fault`: a closed transaction is not an error. */
  function RollbackError(fault: Option<Error>): Option<Error>
  {
    match fault
    case None => None
    case Some(f) => if Is(f, TxClosed) then None else Some(Classify(f))
  }

  /** The tables and transactions after `w` is executed through `ctx`. */
  function Executed(tables: Tables, txs: seq<Tx>, ctx: Ctx, w: Write): (Tables, seq<Tx>)
    requires ctx.TxCtx? ==> ctx.id < |txs| && txs[ctx.id].status == Active
  {
    match ctx
    case Background => (Apply(tables, w), txs)
    case TxCtx(id) => (tables, txs[id := Tx(Active, txs[id].pending + [w])])
  }

  class Database {
    const users: seq<User>
    const tenors: seq<Tenor>
    const faults: Faults
    /** The committed rows. */
    var tables: Tables
    /** Every transaction begun so far; `TxCtx(i)` refers to `txs[i]`. */
    var txs: seq<Tx>
    /** The id sequence of user_facilities; it is not rolled back. */
    var nextFacilityId: int

    constructor (users: seq<User>, tenors: seq<Tenor>, tables: Tables, nextFacilityId: int, faults: Faults)
      ensures this.users == users && this.tenors == tenors && this.faults == faults
      ensures this.tables == tables && this.nextFacilityId == nextFacilityId && txs == []
    {
      this.users, this.tenors, this.faults := users, tenors, faults;
      this.tables, this.nextFacilityId, this.txs := tables, nextFacilityId, [];
    }

    /** The context was made by this database (or carries no transaction). */
    predicate Knows(ctx: Ctx)
      reads this
    {
      ctx.TxCtx? ==> ctx.id < |txs|
    }

    predicate IsOpen(ctx: Ctx)
      reads this
    {
      ctx.TxCtx? && ctx.id < |txs| && txs[ctx.id].status == Active
    }

    /** `Begin`: a new transaction and a context carrying it, or the classified driver error and no context. */
    method Begin(ctx: Ctx) returns (r: Result<Ctx, Error>)
      modifies this
      ensures faults.begin.Some? ==> r == Err(Classify(faults.begin.value)) && unchanged(this)
      ensures faults.begin.None? ==>
        && r == Ok(TxCtx(|old(txs)|))
        && txs == old(txs) + [Tx(Active, [])]
        && tables == old(tables) && nextFacilityId == old(nextFacilityId)
    {
      if faults.begin.Some? {
        return Err(Classify(faults.begin.value));
      }
      r := Ok(TxCtx(|txs|));
      txs := txs + [Tx(Active, [])];
    }

    /**
      * `Commit`: publishes the transaction's writes, in order, unless the
      * driver fails; the transaction is closed either way. Without a
      * transaction it is an internal error; on a closed one the driver's
      * `ErrTxClosed` is classified.
      */
    method Commit(ctx: Ctx) returns (err: Option<Error>)
      requires Knows(ctx)
      modifies this
      ensures ctx.Background? ==> err == Some(NoTransaction) && unchanged(this)
      ensures ctx.TxCtx? && old(txs[ctx.id].status) == Closed ==> err == Some(Classify(TxClosed)) && unchanged(this)
      ensures ctx.TxCtx? && old(txs[ctx.id].status) == Active ==>
        && txs == old(txs)[ctx.id := Tx(Closed, [])]
        && nextFacilityId == old(nextFacilityId)
        && (faults.commit.None? ==> err.None? && tables == ApplyAll(old(tables), old(txs[ctx.id].pending)))
        && (faults.commit.Some? ==> err == Some(Classify(faults.commit.value)) && tables == old(tables))
    {
      match ctx
      case Background =>
        return Some(NoTransaction);
      case TxCtx(id) =>
        if txs[id].status == Closed {
          return Some(Classify(TxClosed));
        }
        if faults.commit.None? {
          tables := ApplyAll(tables, txs[id].pending);
          err := None;
        } else {
          err := Some(Classify(faults.commit.value));
        }
        txs := txs[id := Tx(Closed, [])];
    }

    /**
      * `Rollback`: discards the transaction's writes and closes it. Rolling
      * back a closed transaction (after `Commit`, say) is a no-op without
      * error; without a transaction it is an internal error.
      */
    method Rollback(ctx: Ctx) returns (err: Option<Error>)
      requires Knows(ctx)
      modifies this
      ensures ctx.Background? ==> err == Some(NoTransaction) && unchanged(this)
      ensures ctx.TxCtx? && old(txs[ctx.id].status) == Closed ==> err.None? && unchanged(this)
      ensures ctx.TxCtx? && old(txs[ctx.id].status) == Active ==>
        && txs == old(txs)[ctx.id := Tx(Closed, [])]
        && tables == old(tables) && nextFacilityId == old(nextFacilityId)
        && err == RollbackError(faults.rollback)
    {
      match ctx
      case Background =>
        return Some(NoTransaction);
      case TxCtx(id) =>
        if txs[id].status == Closed {
          // the driver answers ErrTxClosed, which is not reported
          return None;
        }
        txs := txs[id := Tx(Closed, [])];
        err := RollbackError(faults.rollback);
    }

    /**
      * Runs a write on the executor `ctx` selects: the pool (committed at
      * once) or the context's open transaction (staged).
      */
    method Execute(ctx: Ctx, w: Write)
      requires ctx.TxCtx? ==> IsOpen(ctx)
      modifies this
      ensures (tables, txs) == Executed(old(tables), old(txs), ctx, w)
      ensures nextFacilityId == old(nextFacilityId)
    {
      match ctx
      case Background =>
        tables := Apply(tables, w);
      case TxCtx(id) =>
        txs := txs[id := Tx(Active, txs[id].pending + [w])];
    }

    /** Draws the next value of the user_facilities id sequence. */
    method NextFacilityId() returns (id: int)
      modifies this
      ensures id == old(nextFacilityId) && nextFacilityId == id + 1
      ensures tables == old(tables) && txs == old(txs)
    {
      id := nextFacilityId;
      nextFacilityId := nextFacilityId + 1;
    }
  }

  /** After a commit, the deferred rollback of the same context returns nil and changes nothing. */
  method CommitThenRollback(db: Database, ctx: Ctx) returns (commitErr: Option<Error>, rollbackErr: Option<Error>)
    requires db.IsOpen(ctx)
    modifies db
    ensures rollbackErr.None?
    ensures commitErr == (if db.faults.commit.None? then None else Some(Classify(db.faults.commit.value)))
    ensures db.txs == old(db.txs)[ctx.id := Tx(Closed, [])]
    ensures db.faults.commit.None? ==> db.tables == ApplyAll(old(db.tables), old(db.txs[ctx.id].pending))
    ensures db.faults.commit.Some? ==> db.tables == old(db.tables)
  {
    commitErr := db.Commit(ctx);
    rollbackErr := db.Rollback(ctx);
  }
}
