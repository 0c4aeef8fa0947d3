/**
  * The application error type of pkg/errorx/error.go, together with the Go
  * `error` values the core produces and inspects.
  */
module Errorx {
  import opened Wrappers

  /** An `ErrorType` is a string; these are the six the package declares. */
  type ErrorType = string

  const ErrTypeNotFound: ErrorType := "resource not found"
  const ErrTypeConflict: ErrorType := "resource already exists"
  const ErrTypeInternal: ErrorType := "internal server error"
  const ErrTypeValidation: ErrorType := "invalid validation"
  const ErrInsufficientLimit: ErrorType := "insufficient limit amount"
  const ErrTenorNotAvail: ErrorType := "tenor option not available"

  const DeclaredTypes: set<ErrorType> :=
    {ErrTypeNotFound, ErrTypeConflict, ErrTypeInternal, ErrTypeValidation, ErrInsufficientLimit, ErrTenorNotAvail}

  /**
    * A non-nil Go `error`. `NoRows` and `TxClosed` are pgx's sentinels,
    * `PgError` a server error with its SQLSTATE code, `Plain` an error made by
    * `errors.New` or by `fmt.Errorf` without `%w`, `Wrapped` one made by
    * `fmt.Errorf` with `%w`, and `App` an `*AppError`.
    */
  datatype Error =
    | NoRows
    | TxClosed
    | PgError(code: string, detail: string)
    | Plain(text: string)
    | Wrapped(text: string, inner: Error)
    | App(app: AppError)

  /** `AppError`; a nil `Fields` map is `None`, a nil `Err` is `None`. */
  datatype AppError = AppError(kind: ErrorType, message: string, fields: Option<map<string, string>>, err: Option<Error>)

  /**
    * The chain `errors.Unwrap` walks: the error itself, then whatever it
    * wraps with `%w`. `AppError` has no `Unwrap` method, so the chain stops there.
    */
  function Chain(e: Error): (c: seq<Error>)
    ensures |c| >= 1 && c[0] == e
  {
    match e
    case Wrapped(_, inner) => [e] + Chain(inner)
    case _ => [e]
  }

  /** `errors.Is(e, target)` for a sentinel target: whether the target is on the chain. */
  predicate Is(e: Error, target: Error)
  {
    e == target || (e.Wrapped? && Is(e.inner, target))
  }

  /** `errors.Is` agrees with a search of the whole chain. */
  lemma {:induction false} IsOnChain(e: Error, target: Error)
    ensures Is(e, target) <==> target in Chain(e)
  {
    match e
    case Wrapped(_, inner) =>
      IsOnChain(inner, target);
      assert Chain(e) == [e] + Chain(inner);
    case _ =>
  }

  /**
    * `errors.As(e, &pgErr)`: the first `*PgError` on the wrap chain, found
    * exactly when the chain holds one.
    */
  function AsPgError(e: Error): (r: Option<Error>)
    ensures r.None? <==> forall i :: 0 <= i < |Chain(e)| ==> !Chain(e)[i].PgError?
    ensures r.Some? ==> exists i :: 0 <= i < |Chain(e)| && Chain(e)[i] == r.value && r.value.PgError?
                                    && forall j :: 0 <= j < i ==> !Chain(e)[j].PgError?
  {
    match e
    case PgError(_, _) =>
      assert Chain(e)[0].PgError?;
      Some(e)
    case Wrapped(_, inner) =>
      var r := AsPgError(inner);
      assert Chain(e) == [e] + Chain(inner);
      assert forall i :: 1 <= i < |Chain(e)| ==> Chain(e)[i] == Chain(inner)[i - 1];
      if r.Some? then
        var k :| 0 <= k < |Chain(inner)| && Chain(inner)[k] == r.value && r.value.PgError?
                 && forall j :: 0 <= j < k ==> !Chain(inner)[j].PgError?;
        assert Chain(e)[k + 1] == r.value;
        r
      else
        r
    case _ => None
  }

  /**
    * `errors.As(e, &appErr)`: the first `*AppError` on the wrap chain, found
    * exactly when the chain holds one.
    */
  function AsAppError(e: Error): (r: Option<AppError>)
    ensures r.None? <==> forall i :: 0 <= i < |Chain(e)| ==> !Chain(e)[i].App?
    ensures r.Some? ==> exists i :: 0 <= i < |Chain(e)| && Chain(e)[i] == App(r.value)
                                    && forall j :: 0 <= j < i ==> !Chain(e)[j].App?
  {
    match e
    case App(a) =>
      assert Chain(e)[0].App?;
      Some(a)
    case Wrapped(_, inner) =>
      var r := AsAppError(inner);
      assert Chain(e) == [e] + Chain(inner);
      assert forall i :: 1 <= i < |Chain(e)| ==> Chain(e)[i] == Chain(inner)[i - 1];
      if r.Some? then
        var k :| 0 <= k < |Chain(inner)| && Chain(inner)[k] == App(r.value)
                 && forall j :: 0 <= j < k ==> !Chain(inner)[j].App?;
        assert Chain(e)[k + 1] == App(r.value);
        r
      else
        r
    case _ => None
  }

  /** `(*AppError).Error()`: the type, a colon and a space, then the message. */
  function ErrorText(e: AppError): (s: string)
    ensures |s| == |e.kind| + 2 + |e.message|
    ensures s[..|e.kind|] == e.kind && s[|e.kind|..|e.kind| + 2] == ": " && s[|e.kind| + 2..] == e.message
  {
    e.kind + ": " + e.message
  }

  /** A validation error: type Validation, the fixed message, the field map, and no wrapped error. */
  function NewValidationError(fields: map<string, string>): (a: AppError)
    ensures a.kind == ErrTypeValidation && a.message == "invalid input parameters"
    ensures a.fields == Some(fields) && a.err.None?
  {
    AppError(ErrTypeValidation, "invalid input parameters", Some(fields), None)
  }

  /** An application error keeping the type, the message and the wrapped error it is given, without field map. */
  function NewError(kind: ErrorType, msg: string, err: Option<Error>): (a: AppError)
    ensures a.kind == kind && a.message == msg && a.err == err && a.fields.None?
  {
    AppError(kind, msg, None, err)
  }

  /** The six declared error types are pairwise distinct. */
  lemma DeclaredTypesDistinct()
    ensures |DeclaredTypes| == 6
  {
    assert ErrTypeNotFound[0..2] != ErrTypeConflict[0..2] || ErrTypeNotFound[9] != ErrTypeConflict[9];
    assert ErrTypeInternal[2] != ErrTypeValidation[2];
  }

  /** The message the repository test expects for a missing row. */
  lemma NotFoundText()
    ensures ErrorText(NewError(ErrTypeNotFound, "resource not found in database", Some(NoRows)))
         == "resource not found: resource not found in database"
  {
    var t := ErrorText(NewError(ErrTypeNotFound, "resource not found in database", Some(NoRows)));
    assert |t| == 50;
    forall i | 0 <= i < 50
      ensures t[i] == "resource not found: resource not found in database"[i]
    {
    }
  }

  /** Two declared types that agree at indices 0, 2 and 9 are the same type. */
  lemma DeclaredTypesDifferEarly(x: ErrorType, y: ErrorType)
    requires x in DeclaredTypes && y in DeclaredTypes
    requires x[0] == y[0] && x[2] == y[2] && x[9] == y[9]
    ensures x == y
  {
  }

  /**
    * For the declared types, the text of an `AppError` determines its type and
    * its message: no declared type followed by ": " is a prefix of another.
    */
  lemma {:induction false} ErrorTextUnambiguous(a: AppError, b: AppError)
    requires a.kind in DeclaredTypes && b.kind in DeclaredTypes
    requires ErrorText(a) == ErrorText(b)
    ensures a.kind == b.kind && a.message == b.message
  {
    var s := ErrorText(a);
    var x, y := s[..|a.kind|], s[..|b.kind|];
    assert x == a.kind && y == b.kind;
    assert x[0] == s[0] == y[0] && x[2] == s[2] == y[2] && x[9] == s[9] == y[9];
    DeclaredTypesDifferEarly(a.kind, b.kind);
  }
}
