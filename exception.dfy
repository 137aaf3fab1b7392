/** The connector's exception classes as one tagged kind with an explicit
    parent table. Catching a class catches every kind whose chain of parents
    reaches it (IsA). An exception value carries the message every class
    has, the query an sql_error was given, and the error position a
    syntax_error has. */
module PgException {
  import Wrappers

  type Option<T> = Wrappers.Option<T>

  datatype Kind =
    | Failure
    | BrokenConnection
    | SqlError
    | InDoubtError
    | FeatureNotSupported
    | DataException
    | IntegrityConstraintViolation
    | RestrictViolation
    | NotNullViolation
    | ForeignKeyViolation
    | UniqueViolation
    | CheckViolation
    | InvalidCursorState
    | InvalidSqlStatementName
    | InvalidCursorName
    | SyntaxError
    | UndefinedColumn
    | UndefinedFunction
    | UndefinedTable
    | InsufficientPrivilege
    | InsufficientResources
    | DiskFull
    | OutOfMemory
    | TooManyConnections
    | PlpgsqlError
    | PlpgsqlRaise
    | PlpgsqlNoDataFound
    | PlpgsqlTooManyRows

  /** How many derivation steps separate a class from failure. */
  function Depth(k: Kind): (d: nat)
    ensures d <= 3
  {
    match k
    case Failure => 0
    case BrokenConnection | SqlError | InDoubtError => 1
    case FeatureNotSupported | DataException | IntegrityConstraintViolation
      | InvalidCursorState | InvalidSqlStatementName | InvalidCursorName
      | SyntaxError | InsufficientPrivilege | InsufficientResources
      | TooManyConnections | PlpgsqlError => 2
    case RestrictViolation | NotNullViolation | ForeignKeyViolation
      | UniqueViolation | CheckViolation
      | UndefinedColumn | UndefinedFunction | UndefinedTable
      | DiskFull | OutOfMemory
      | PlpgsqlRaise | PlpgsqlNoDataFound | PlpgsqlTooManyRows => 3
  }

  /** The base class each class derives from; failure is the only one with
      none. */
  function Parent(k: Kind): (p: Option<Kind>)
    ensures p.None? <==> k == Failure
  {
    match k
    case Failure => Wrappers.None
    case BrokenConnection | SqlError | InDoubtError => Wrappers.Some(Failure)
    case FeatureNotSupported | DataException | IntegrityConstraintViolation
      | InvalidCursorState | InvalidSqlStatementName | InvalidCursorName
      | SyntaxError | InsufficientPrivilege | InsufficientResources
      | PlpgsqlError => Wrappers.Some(SqlError)
    case TooManyConnections => Wrappers.Some(BrokenConnection)
    case RestrictViolation | NotNullViolation | ForeignKeyViolation
      | UniqueViolation | CheckViolation => Wrappers.Some(IntegrityConstraintViolation)
    case UndefinedColumn | UndefinedFunction | UndefinedTable => Wrappers.Some(SyntaxError)
    case DiskFull | OutOfMemory => Wrappers.Some(InsufficientResources)
    case PlpgsqlRaise | PlpgsqlNoDataFound | PlpgsqlTooManyRows => Wrappers.Some(PlpgsqlError)
  }

  /** Every base class is one derivation step nearer to failure, so
      following Parent always ends at failure. */
  lemma ParentIsNearerTheRoot(k: Kind)
    ensures Parent(k).Some? ==> Depth(Parent(k).value) + 1 == Depth(k)
  {
  }

  /** k is a, or derives from a through its chain of parents. Every class
      is itself, and every class is a failure. */
  predicate IsA(k: Kind, a: Kind)
    ensures k == a ==> IsA(k, a)
    ensures a == Failure ==> IsA(k, a)
    decreases Depth(k)
  {
    k == a || (!k.Failure? && (ParentIsNearerTheRoot(k); IsA(Parent(k).value, a)))
  }

  /** The classes that derive directly from a: the parent table read the
      other way round. */
  predicate IsChild(c: Kind, a: Kind) {
    match a
    case Failure => c.BrokenConnection? || c.SqlError? || c.InDoubtError?
    case BrokenConnection => c.TooManyConnections?
    case SqlError =>
      || c.FeatureNotSupported? || c.DataException? || c.IntegrityConstraintViolation?
      || c.InvalidCursorState? || c.InvalidSqlStatementName? || c.InvalidCursorName?
      || c.SyntaxError? || c.InsufficientPrivilege? || c.InsufficientResources?
      || c.PlpgsqlError?
    case IntegrityConstraintViolation =>
      || c.RestrictViolation? || c.NotNullViolation? || c.ForeignKeyViolation?
      || c.UniqueViolation? || c.CheckViolation?
    case SyntaxError => c.UndefinedColumn? || c.UndefinedFunction? || c.UndefinedTable?
    case InsufficientResources => c.DiskFull? || c.OutOfMemory?
    case PlpgsqlError => c.PlpgsqlRaise? || c.PlpgsqlNoDataFound? || c.PlpgsqlTooManyRows?
    case _ => false
  }

  /** Every class is listed among the children of its base class. */
  lemma ParentListsChild(c: Kind, a: Kind)
    requires Parent(c) == Wrappers.Some(a)
    ensures IsChild(c, a)
  {
  }

  /** Every listed child names that class as its base class. */
  lemma ChildNamesParent(c: Kind, a: Kind)
    requires IsChild(c, a)
    ensures Parent(c) == Wrappers.Some(a)
  {
    match a
    case Failure =>
    case BrokenConnection =>
    case SqlError =>
    case IntegrityConstraintViolation =>
    case SyntaxError =>
    case InsufficientResources =>
    case PlpgsqlError =>
    case _ =>
  }

  /** An exception object: its dynamic class, its message, the query of an
      sql_error built with one, and the error position of a syntax_error. */
  datatype Exception = Exception(kind: Kind, message: string, query: Option<string>, errorPosition: Option<int>)

  /** What each class carries: only sql_error and its descendants hold a
      query, and exactly syntax_error and its descendants hold a position. */
  predicate Carries(e: Exception) {
    && (e.query.Some? ==> IsA(e.kind, SqlError))
    && (e.errorPosition.Some? <==> IsA(e.kind, SyntaxError))
  }

  /** A handler for class `handler` catches e. */
  predicate Catches(handler: Kind, e: Exception)
    ensures handler == e.kind ==> Catches(handler, e)
    ensures handler == Failure ==> Catches(handler, e)
  {
    IsA(e.kind, handler)
  }

  /** The one-argument constructor `k(err)` that every class has: it forwards
      err to its base class's constructor; syntax_error adds the position -1. */
  function Make(k: Kind, err: string): (e: Exception)
    ensures e.kind == k && e.message == err && e.query == Wrappers.None
    ensures e.errorPosition == if IsA(k, SyntaxError) then Wrappers.Some(-1) else Wrappers.None
    ensures Carries(e)
    decreases Depth(k)
  {
    match Parent(k)
    case None => Exception(Failure, err, Wrappers.None, Wrappers.None)
    case Some(p) =>
      var base := Make(p, err);
      if k.SyntaxError? then base.(kind := k, errorPosition := Wrappers.Some(-1))
      else base.(kind := k)
  }

  /** The two-argument constructor `k(err, Q)` of sql_error and its
      descendants: each forwards both arguments to its base class's, and
      sql_error keeps Q. */
  function MakeWithQuery(k: Kind, err: string, q: string): (e: Exception)
    requires IsA(k, SqlError)
    ensures e.kind == k && e.message == err && e.query == Wrappers.Some(q)
    ensures e.errorPosition == if IsA(k, SyntaxError) then Wrappers.Some(-1) else Wrappers.None
    ensures Carries(e)
    decreases Depth(k)
  {
    if k.SqlError? then Make(SqlError, err).(query := Wrappers.Some(q))
    else
      var base := MakeWithQuery(Parent(k).value, err, q);
      if k.SyntaxError? then base.(kind := k, errorPosition := Wrappers.Some(-1))
      else base.(kind := k)
  }

  /** syntax_error(err, pos) and syntax_error(err, Q, pos) with an explicit
      position. */
  function MakeSyntaxError(err: string, q: Option<string>, pos: int): (e: Exception)
    ensures e.kind == SyntaxError && e.message == err && e.query == q
    ensures e.errorPosition == Wrappers.Some(pos)
    ensures Carries(e)
  {
    var base := match q
      case None => Make(SqlError, err)
      case Some(Q) => MakeWithQuery(SqlError, err, Q);
    base.(kind := SyntaxError, errorPosition := Wrappers.Some(pos))
  }

  /** failure derives from nothing: it is the unique root. */
  lemma FailureIsTheRoot(a: Kind)
    ensures IsA(Failure, a) <==> a == Failure
    ensures Parent(a).None? <==> a == Failure
  {
  }

  /** Deriving is transitive. */
  lemma {:induction false} IsATransitive(a: Kind, b: Kind, c: Kind)
    requires IsA(a, b) && IsA(b, c)
    ensures IsA(a, c)
    decreases Depth(a)
  {
    if a != b {
      ParentIsNearerTheRoot(a);
      IsATransitive(Parent(a).value, b, c);
    }
  }

  /** An ancestor is never deeper than its descendant, and is as deep only
      when it is the same class. */
  lemma {:induction false} IsADepth(k: Kind, a: Kind)
    requires IsA(k, a)
    ensures Depth(a) <= Depth(k)
    ensures Depth(a) == Depth(k) ==> a == k
    decreases Depth(k)
  {
    if k != a {
      ParentIsNearerTheRoot(k);
      IsADepth(Parent(k).value, a);
    }
  }

  /** Two distinct classes never derive from each other. */
  lemma IsAAntisymmetric(a: Kind, b: Kind)
    requires IsA(a, b) && IsA(b, a)
    ensures a == b
  {
    IsADepth(a, b);
    IsADepth(b, a);
  }

  /** Single inheritance: any two ancestors of a class lie on one chain, so
      of two handlers that both catch an exception one is more general. */
  lemma {:induction false} AncestorsAreChained(k: Kind, a: Kind, b: Kind)
    requires IsA(k, a) && IsA(k, b)
    ensures IsA(a, b) || IsA(b, a)
    decreases Depth(k)
  {
    if k != a && k != b {
      ParentIsNearerTheRoot(k);
      AncestorsAreChained(Parent(k).value, a, b);
    }
  }

  /** The classes a handler for sql_error does not catch: exactly failure,
      broken_connection, too_many_connections and in_doubt_error. These are
      also the classes whose constructors take a message only. */
  lemma {:induction false} SqlErrorFamily(k: Kind)
    ensures !IsA(k, SqlError) <==> (k.Failure? || k.BrokenConnection? || k.TooManyConnections? || k.InDoubtError?)
    decreases Depth(k)
  {
    if !(k.Failure? || k.BrokenConnection? || k.TooManyConnections? || k.InDoubtError? || k.SqlError?) {
      ParentIsNearerTheRoot(k);
      SqlErrorFamily(Parent(k).value);
    }
  }

  /** too_many_connections is a broken_connection, and neither an sql_error
      nor an insufficient_resources. */
  lemma TooManyConnectionsIsABrokenConnection()
    ensures Parent(TooManyConnections) == Wrappers.Some(BrokenConnection)
    ensures IsA(TooManyConnections, BrokenConnection)
    ensures !IsA(TooManyConnections, SqlError)
    ensures !IsA(TooManyConnections, InsufficientResources)
  {
  }

  /** A class that derives from a, and is not a, derives from one of a's
      direct subclasses. */
  lemma {:induction false} ThroughChild(k: Kind, a: Kind) returns (c: Kind)
    requires IsA(k, a) && k != a
    ensures Parent(c) == Wrappers.Some(a) && IsA(k, c)
    decreases Depth(k)
  {
    ParentIsNearerTheRoot(k);
    var p := Parent(k).value;
    if p == a {
      c := k;
    } else {
      c := ThroughChild(p, a);
      IsATransitive(k, p, c);
    }
  }

  /** Below a class two steps from failure there are only its direct
      subclasses, since no class is more than three steps from failure. */
  lemma BelowDepthTwoIsChild(k: Kind, a: Kind)
    requires IsA(k, a) && k != a && Depth(a) == 2
    ensures Parent(k) == Wrappers.Some(a)
  {
    IsADepth(k, a);
    ParentIsNearerTheRoot(k);
    IsADepth(Parent(k).value, a);
  }

  /** A broken_connection handler catches exactly broken_connection and
      too_many_connections. */
  lemma BrokenConnectionFamily(k: Kind)
    ensures IsA(k, BrokenConnection) <==> (k.BrokenConnection? || k.TooManyConnections?)
  {
    if IsA(k, BrokenConnection) && k != BrokenConnection {
      var c := ThroughChild(k, BrokenConnection);
      ParentListsChild(c, BrokenConnection);
      if k != c {
        var d := ThroughChild(k, c);
        ParentListsChild(d, c);
      }
    }
    if IsChild(k, BrokenConnection) {
      ChildNamesParent(k, BrokenConnection);
    }
  }

  /** in_doubt_error derives from failure directly, is not an sql_error, and
      nothing derives from it. */
  lemma InDoubtErrorFamily(k: Kind)
    ensures Parent(InDoubtError) == Wrappers.Some(Failure)
    ensures !IsA(InDoubtError, SqlError)
    ensures IsA(k, InDoubtError) <==> k == InDoubtError
  {
    if IsA(k, InDoubtError) && k != InDoubtError {
      var c := ThroughChild(k, InDoubtError);
      ParentListsChild(c, InDoubtError);
    }
  }

  /** An integrity_constraint_violation handler catches exactly the class
      itself and the five constraint violations, and the class is an
      sql_error. */
  lemma IntegrityConstraintFamily(k: Kind)
    ensures IsA(IntegrityConstraintViolation, SqlError)
    ensures IsA(k, IntegrityConstraintViolation) <==>
      (|| k.IntegrityConstraintViolation? || k.RestrictViolation? || k.NotNullViolation?
       || k.ForeignKeyViolation? || k.UniqueViolation? || k.CheckViolation?)
  {
    if IsA(k, IntegrityConstraintViolation) && k != IntegrityConstraintViolation {
      BelowDepthTwoIsChild(k, IntegrityConstraintViolation);
      ParentListsChild(k, IntegrityConstraintViolation);
    }
    if IsChild(k, IntegrityConstraintViolation) {
      ChildNamesParent(k, IntegrityConstraintViolation);
    }
  }

  /** A syntax_error handler catches exactly syntax_error and the three
      undefined-object classes, and syntax_error is an sql_error. */
  lemma SyntaxErrorFamily(k: Kind)
    ensures IsA(SyntaxError, SqlError)
    ensures IsA(k, SyntaxError) <==> (k.SyntaxError? || k.UndefinedColumn? || k.UndefinedFunction? || k.UndefinedTable?)
  {
    if IsA(k, SyntaxError) && k != SyntaxError {
      BelowDepthTwoIsChild(k, SyntaxError);
      ParentListsChild(k, SyntaxError);
    }
    if IsChild(k, SyntaxError) {
      ChildNamesParent(k, SyntaxError);
    }
  }

  /** An insufficient_resources handler catches exactly insufficient_resources,
      disk_full and out_of_memory, and the class is an sql_error. */
  lemma InsufficientResourcesFamily(k: Kind)
    ensures IsA(InsufficientResources, SqlError)
    ensures IsA(k, InsufficientResources) <==> (k.InsufficientResources? || k.DiskFull? || k.OutOfMemory?)
  {
    if IsA(k, InsufficientResources) && k != InsufficientResources {
      BelowDepthTwoIsChild(k, InsufficientResources);
      ParentListsChild(k, InsufficientResources);
    }
    if IsChild(k, InsufficientResources) {
      ChildNamesParent(k, InsufficientResources);
    }
  }

  /** A plpgsql_error handler catches exactly plpgsql_error and its three
      subclasses, and plpgsql_error is an sql_error. */
  lemma PlpgsqlErrorFamily(k: Kind)
    ensures IsA(PlpgsqlError, SqlError)
    ensures IsA(k, PlpgsqlError) <==> (k.PlpgsqlError? || k.PlpgsqlRaise? || k.PlpgsqlNoDataFound? || k.PlpgsqlTooManyRows?)
  {
    if IsA(k, PlpgsqlError) && k != PlpgsqlError {
      BelowDepthTwoIsChild(k, PlpgsqlError);
      ParentListsChild(k, PlpgsqlError);
    }
    if IsChild(k, PlpgsqlError) {
      ChildNamesParent(k, PlpgsqlError);
    }
  }

  /** The two constructors of an sql_error class build the same object except
      that `k(err, Q)` also records Q, which query() then returns unchanged. */
  lemma {:induction false} WithQueryOnlyAddsQuery(k: Kind, err: string, q: string)
    requires IsA(k, SqlError)
    ensures MakeWithQuery(k, err, q) == Make(k, err).(query := Wrappers.Some(q))
    decreases Depth(k)
  {
    if k != SqlError {
      ParentIsNearerTheRoot(k);
      WithQueryOnlyAddsQuery(Parent(k).value, err, q);
    }
  }

  /** syntax_error's position defaults to -1 when none is passed. */
  lemma SyntaxErrorPositionDefault(err: string, q: string)
    ensures Make(SyntaxError, err) == MakeSyntaxError(err, Wrappers.None, -1)
    ensures MakeWithQuery(SyntaxError, err, q) == MakeSyntaxError(err, Wrappers.Some(q), -1)
  {
  }

  /** The direct subclasses of syntax_error (undefined_column,
      undefined_function and undefined_table, by SyntaxErrorFamily) have no
      constructor taking a position: theirs is always -1. */
  lemma UndefinedObjectPositionUnknown(k: Kind, err: string, q: string)
    requires Parent(k) == Wrappers.Some(SyntaxError)
    ensures Make(k, err).errorPosition == Wrappers.Some(-1)
    ensures MakeWithQuery(k, err, q).errorPosition == Wrappers.Some(-1)
  {
  }

  /** The exception test's first insert stores a value out of smallint's
      range; a data_exception handler catches the exception the server's
      answer raises, whatever its message and query. */
  lemma TestValueOutOfRangeCaught(e: Exception)
    requires e.kind == DataException
    ensures Catches(DataException, e)
    ensures Catches(SqlError, e)
  {
  }

  /** The second insert breaks the CHECK constraint; a check_violation
      handler catches the exception, and so would one for
      integrity_constraint_violation. */
  lemma TestCheckViolationCaught(e: Exception)
    requires e.kind == CheckViolation
    ensures Catches(CheckViolation, e)
    ensures Catches(IntegrityConstraintViolation, e)
  {
  }

  /** The fourth insert repeats a UNIQUE value: the handler for
      integrity_constraint_violation catches the unique_violation, one for
      check_violation would not. */
  lemma TestUniqueViolationCaught(e: Exception)
    requires e.kind == UniqueViolation
    ensures Catches(IntegrityConstraintViolation, e)
    ensures !Catches(CheckViolation, e)
  {
  }

  /** The test's outer handler for failure catches any exception at all, and
      its handler for broken_connection catches a failed connection attempt,
      including one refused for too many connections. */
  lemma TestOuterHandlersCatch(e: Exception)
    ensures Catches(Failure, e)
    ensures e.kind == BrokenConnection || e.kind == TooManyConnections ==> Catches(BrokenConnection, e)
  {
    BrokenConnectionFamily(e.kind);
  }
}
