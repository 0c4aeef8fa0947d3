/** `DbError` of pkg/errorx/db_err.go: translation of driver errors into `AppError`s. */
module DbErr {
  import opened Wrappers
  import opened Errorx

  const UniqueViolation := "23505"
  const ForeignKeyViolation := "23503"

  /** The SQLSTATE code of the first `*PgError` on the wrap chain, if any. */
  function PgCode(e: Error): Option<string>
  {
    match AsPgError(e)
    case Some(p) => Some(p.code)
    case None => None
  }

  /**
    * Classifies a driver error. A nil error stays nil; every non-nil error
    * becomes an `AppError` of one of three types, without field map, keeping
    * the driver error as its cause. No-rows wins over the SQLSTATE check.
    */
  function DbError(err: Option<Error>): (r: Option<AppError>)
    ensures r.None? <==> err.None?
    ensures r.Some? ==> r.value.kind in {ErrTypeNotFound, ErrTypeConflict, ErrTypeInternal}
    ensures r.Some? ==> r.value.fields.None? && r.value.err.Some?
    ensures r.Some? ==>
      (r.value.kind == ErrTypeNotFound <==> Is(err.value, NoRows) || PgCode(err.value) == Some(ForeignKeyViolation))
    ensures r.Some? ==>
      (r.value.kind == ErrTypeConflict <==> !Is(err.value, NoRows) && PgCode(err.value) == Some(UniqueViolation))
  {
    match err
    case None => None
    case Some(e) =>
      if Is(e, NoRows) then
        Some(NewError(ErrTypeNotFound, "resource not found in database", err))
      else
        match AsPgError(e)
        case Some(pg) =>
          if pg.code == UniqueViolation then
            Some(NewError(ErrTypeConflict, "duplicate data: " + pg.detail, Some(pg)))
          else if pg.code == ForeignKeyViolation then
            Some(NewError(ErrTypeNotFound, "referenced resource not found (foreign key constraint)", Some(pg)))
          else
            Some(NewError(ErrTypeInternal, "internal database error", err))
        case None => Some(NewError(ErrTypeInternal, "internal database error", err))
  }

  /** `DbError` of a non-nil error, as the `error` value the repositories return. */
  function Classify(e: Error): (r: Error)
    ensures r.App? && r.app.kind in {ErrTypeNotFound, ErrTypeConflict, ErrTypeInternal}
  {
    App(DbError(Some(e)).value)
  }

  /** A missing row, bare or wrapped, is NotFound and keeps the original error. */
  lemma {:induction false} NoRowsIsNotFound(e: Error)
    requires Is(e, NoRows)
    ensures DbError(Some(e)) == Some(AppError(ErrTypeNotFound, "resource not found in database", None, Some(e)))
  {
  }

  /**
    * A unique violation, however deeply wrapped, is a Conflict whose message
    * carries the server's detail and whose cause is the `*PgError` itself.
    */
  lemma DuplicateIsConflict(e: Error, detail: string)
    requires !Is(e, NoRows) && AsPgError(e) == Some(PgError(UniqueViolation, detail))
    ensures DbError(Some(e))
         == Some(AppError(ErrTypeConflict, "duplicate data: " + detail, None, Some(PgError(UniqueViolation, detail))))
  {
  }

  /**
    * A foreign-key violation, however deeply wrapped, is NotFound with a fixed
    * message, and its cause is the `*PgError` itself, not the error as wrapped.
    */
  lemma ForeignKeyIsNotFound(e: Error, detail: string)
    requires !Is(e, NoRows) && AsPgError(e) == Some(PgError(ForeignKeyViolation, detail))
    ensures DbError(Some(e))
         == Some(AppError(ErrTypeNotFound, "referenced resource not found (foreign key constraint)", None,
                          Some(PgError(ForeignKeyViolation, detail))))
  {
  }

  /** Every error that is neither a missing row nor one of the two known SQLSTATEs is Internal. */
  lemma OtherIsInternal(e: Error)
    requires !Is(e, NoRows)
    requires PgCode(e) != Some(UniqueViolation) && PgCode(e) != Some(ForeignKeyViolation)
    ensures DbError(Some(e)) == Some(AppError(ErrTypeInternal, "internal database error", None, Some(e)))
  {
    match AsPgError(e)
    case Some(pg) =>
      assert PgCode(e) == Some(pg.code);
    case None =>
  }

  /** Wrapping with `%w` changes neither the type nor the message of the classification. */
  lemma {:induction false} WrappingPreservesClass(text: string, e: Error)
    ensures DbError(Some(Wrapped(text, e))).value.kind == DbError(Some(e)).value.kind
    ensures DbError(Some(Wrapped(text, e))).value.message == DbError(Some(e)).value.message
  {
  }
}
