# sqlpp11 PostgreSQL connector: result cursor and exception classes

This project models two parts of the sqlpp11 PostgreSQL connector in Dafny:

- **The result cursor** (`bind_result_t`, src/bind_result.cpp). It is a
  forward-only iterator over a completed query result. Its state is three
  counters kept in the prepared-statement handle it borrows:
  - `totalCount`: the row count, fetched from the result while it is 0.
  - `count`: the current row; it only moves forward.
  - `fields`: the field count, fetched while it is 0.

  `next_impl` advances the cursor. Four binds read one cell of the current
  row into out-parameters: boolean, floating point, integral and text.
- **The exception classes** (include/sqlpp11/postgresql/exception.h). They
  form a single-rooted hierarchy under `failure`. It roughly follows the
  class/condition grouping of the PostgreSQL error codes (Appendix A of the
  PostgreSQL documentation, the SQLSTATE codes of ISO/IEC 9075).

Files:

- `wrappers.dfy`: `Option` and `Result`.
- `pg_result.dfy`: the query result as an immutable value (rows of cells,
  each with its text, length and null flag). A cell's text is its raw
  bytes, one `char` below 256 per byte, so lengths count bytes as libpq's
  do. Three accessors stand in for
  libpq's `PQgetvalue`, `PQgetisnull` and `PQgetlength`, and `NTuples` stands
  in for `PQntuples`. For a (row, column) pair outside the result they answer
  as libpq does: no text (a null pointer), "null", and length 0.
- `stream_extract.dfy`: what `operator>>` on an `std::istringstream` yields.
  For a `signed char` it skips blanks and takes one character. For an
  `int64_t` the model covers only texts that hold a decimal literal. It also
  proves that the text the server sends for a bigint reads back as the same
  number.
- `bind_result.dfy` (module `ResultCursor`): two layers.
  - The counters as a value `Cursor`, with `Next` as the specification of
    one `next_impl` call and lemmas about runs of calls.
  - The classes `Handle`, whose fields are the three counters, and
    `BindResult`, whose `NextImpl` updates the handle in place. Each of its
    binds reads the handle and changes nothing.
- `exception.dfy` (module `PgException`): the classes as a `Kind`
  datatype. `Parent` is the base-class table and `IsA` its
  reflexive-transitive closure, which is what catching by base class means.
  An `Exception` value carries a message, an optional query and an optional
  error position. `Make`, `MakeWithQuery` and `MakeSyntaxError` model the
  constructors. Each one forwards to its base class's constructor, as the C++
  initialiser lists do.

Boundary quirks reproduced as written:

- Every bind rejects a column index only when `index > fields`, so
  `index == fields` is accepted although no such column exists.
  `ResultCursor.PhantomColumn` shows what libpq answers for that column: no
  text (a null pointer), null, length 0. A stricter check would use `>=`;
  the model keeps the source's check.
- Before the first `next_impl`, `fields` is 0, so index 0 passes the check.
- On a result with zero rows `totalCount` stays 0. `next_impl` then
  re-fetches it on every call and returns true every time. It never reports
  the end (`ResultCursor.ZeroRowsNeverExhausts`).
- Both the index quirk and the zero-row quirk let a bind reach a cell that
  does not exist. The text bind then hands out a null pointer and length 0.
  The boolean, floating-point and integral binds build a string stream from
  that null pointer, which C++ leaves undefined (see "Left out").

Facts about the code worth stating plainly:

- `fields` is fetched in `next_impl` (src/bind_result.cpp:40-42); the binds
  only compare against it.
- The row count is cached, and exhaustion is absorbing, only for results
  with at least one row (see the zero-row quirk above).

## Model

| member | source | states |
|---|---|---|
| `PgResult.GetValue` | src/bind_result.cpp:56 | the cell text exists exactly for a (row, column) inside the result; a null cell's text is empty; the text is bytes (each below 256) |
| `PgResult.NTuples` | src/bind_result.cpp:28 | in a well-formed result with at least one field, the rows below the row count are exactly those whose cells exist |
| `PgResult.GetIsNull` | src/bind_result.cpp:58 | outside the result the null flag reads "null" |
| `PgResult.GetLength` | src/bind_result.cpp:96 | the reported length is the length of the text handed out, and 0 when there is no text |
| `StreamExtract.SkipSpace` | src/bind_result.cpp:57 | extraction starts at the first non-blank character: all before it are blanks |
| `StreamExtract.ExtractChar` | src/bind_result.cpp:56-57 | the first non-blank character (byte) of the text is extracted, and nothing exactly when the text is all blanks |
| `StreamExtract.ExtractInt64` | src/bind_result.cpp:82-83 | a decimal literal read into an int64_t lies in the 64-bit range, and writing the value back as the server does gives the same text exactly when the text is in the server's form (no `+`, no leading zero, no `-0`) |
| `StreamExtract.Digits` | src/bind_result.cpp:82-83 | the decimal digits of n read back as n, and they are the shortest: a leading zero only for n == 0 |
| `StreamExtract.DigitsOfValue` | src/bind_result.cpp:82-83 | digits without a leading zero are exactly the shortest digits of the value they read as |
| `StreamExtract.ReadBackCanonical` | src/bind_result.cpp:82-83 | a literal in the server's form is written back unchanged from the value the integral bind reads |
| `StreamExtract.Int64TextIsCanonical` | src/bind_result.cpp:82-83 | the text the server writes for any integer is in the server's form |
| `StreamExtract.Int64TextRoundTrip` | src/bind_result.cpp:82-83 | every int64 value the server writes as text is read back by the integral bind as the same value |
| `ResultCursor.Next` | src/bind_result.cpp:21-45 | one next_impl call keeps the handle invariant; a false return changes nothing; the first call only fetches totalCount and returns true; count stays or grows by one; fields once non-zero never changes, and is fetched on a true return while 0 |
| `ResultCursor.AfterKeepsInv` | src/bind_result.cpp:32-33 | while totalCount > 0, count <= totalCount - 1 holds after any number of calls |
| `ResultCursor.AfterStarted` | src/bind_result.cpp:31-36 | once totalCount is fetched, each call moves count one row forward until the last row and then stays |
| `ResultCursor.FreshRun` | src/bind_result.cpp:27-44 | from a fresh handle over N >= 1 rows, call i+1 returns true exactly when i < N, and after i >= 1 calls count is min(i-1, N-1) |
| `ResultCursor.FreshTrueCount` | src/bind_result.cpp:27-44 | from a fresh handle over N >= 1 rows, n calls return true exactly min(n, N) times |
| `ResultCursor.ExhaustionIsAbsorbing` | src/bind_result.cpp:32-36 | after a false return every further call returns false and leaves count and totalCount unchanged |
| `ResultCursor.ExhaustedOnLastRow` | src/bind_result.cpp:32-36 | under the invariant, next_impl returns false exactly when totalCount > 0 and count == totalCount - 1 |
| `ResultCursor.ZeroRowsNeverExhausts` | src/bind_result.cpp:27-44 | over a zero-row result every call returns true and totalCount and count stay 0 |
| `ResultCursor.PhantomColumn` | src/bind_result.cpp:51-53 | index == fields passes the binds' bound check `IndexAccepted`, yet names no cell: no text, null, length 0 |
| `ResultCursor.Handle.constructor` | src/bind_result.cpp:27-40 | a handle over a well-formed result starts with totalCount, count and fields all 0, the value next_impl reads as "not fetched yet" (lines 27 and 40), and satisfies the handle invariant; the zero start itself is assumed (see "Left out") |
| `ResultCursor.BindResult.constructor` | src/bind_result.cpp:13-19 | the cursor borrows the given handle |
| `ResultCursor.BindResult.NextImpl` | src/bind_result.cpp:21-45 | the return value and the new counters are exactly those of Next on the old counters, and the handle invariant is kept |
| `ResultCursor.BindResult.BindBoolean` | src/bind_result.cpp:47-59 | fails, with the message "PostgreSQL error: index out of range", exactly when the bound check `IndexAccepted` (index > fields is rejected) fails; otherwise the null flag is that of cell (count, index) and the value is the single character extracted from its text, not a parsed boolean, and is a byte; nothing changes |
| `ResultCursor.BindResult.BindFloatingPoint` | src/bind_result.cpp:61-72 | fails, with the message "PostgreSQL error: index out of range", exactly when the bound check `IndexAccepted` (index > fields is rejected) fails; otherwise the null flag is that of cell (count, index); nothing changes |
| `ResultCursor.BindResult.BindIntegral` | src/bind_result.cpp:74-85 | fails, with the message "PostgreSQL error: index out of range", exactly when the bound check `IndexAccepted` (index > fields is rejected) fails; otherwise the null flag is that of cell (count, index), and a cell holding a decimal int64 literal yields that integer; nothing changes |
| `ResultCursor.BindResult.BindText` | src/bind_result.cpp:87-97 | fails, with the message "PostgreSQL error: index out of range", exactly when the bound check `IndexAccepted` (index > fields is rejected) fails; otherwise hands out the text of cell (count, index) and its length, which equals the text's length; no null flag; nothing changes |
| `PgException.Depth` | include/sqlpp11/postgresql/exception.h:31-320 | no class is more than three derivation steps from failure |
| `PgException.Parent` | include/sqlpp11/postgresql/exception.h:31-320 | failure is the only class without a base class |
| `PgException.ParentIsNearerTheRoot` | include/sqlpp11/postgresql/exception.h:31-320 | each base class is one derivation step nearer to failure, so following base classes always ends at failure |
| `PgException.ParentListsChild` | include/sqlpp11/postgresql/exception.h:31-320 | every class appears among the direct subclasses of its base class |
| `PgException.ChildNamesParent` | include/sqlpp11/postgresql/exception.h:31-320 | every listed direct subclass of a class names that class as its base class |
| `PgException.IsA` | include/sqlpp11/postgresql/exception.h:31-320 | derivation is reflexive, and every class derives from failure |
| `PgException.Catches` | include/sqlpp11/postgresql/exception.h:31-320 | a handler for the exception's own class catches it, and a handler for failure catches every exception |
| `PgException.Make` | include/sqlpp11/postgresql/exception.h:35-320 | the one-argument constructor of every class keeps the message, records no query, and gives a position of -1 exactly to syntax_error and its subclasses |
| `PgException.MakeWithQuery` | include/sqlpp11/postgresql/exception.h:75-320 | the (err, Q) constructor exists only for sql_error and its subclasses and passes Q up unchanged, so query() is exactly Q |
| `PgException.MakeSyntaxError` | include/sqlpp11/postgresql/exception.h:209-216 | syntax_error built with an explicit position keeps that position, the message and the query |
| `PgException.FailureIsTheRoot` | include/sqlpp11/postgresql/exception.h:31-36 | failure derives from no other class: it is the unique root |
| `PgException.IsATransitive` | include/sqlpp11/postgresql/exception.h:116-179 | deriving is transitive (a check_violation caught as integrity_constraint_violation is also caught as sql_error) |
| `PgException.IsADepth` | include/sqlpp11/postgresql/exception.h:31-320 | an ancestor is never deeper than its descendant, and equally deep only when it is the same class |
| `PgException.IsAAntisymmetric` | include/sqlpp11/postgresql/exception.h:31-320 | two distinct classes never derive from each other |
| `PgException.AncestorsAreChained` | include/sqlpp11/postgresql/exception.h:31-320 | single inheritance: any two ancestors of a class are themselves related |
| `PgException.ThroughChild` | include/sqlpp11/postgresql/exception.h:31-320 | a class that derives from a, and is not a, derives from one of a's direct subclasses |
| `PgException.BelowDepthTwoIsChild` | include/sqlpp11/postgresql/exception.h:31-320 | below a class two steps from failure there are only its direct subclasses |
| `PgException.SqlErrorFamily` | include/sqlpp11/postgresql/exception.h:58-95 | exactly failure, broken_connection, too_many_connections and in_doubt_error are not sql_errors |
| `PgException.TooManyConnectionsIsABrokenConnection` | include/sqlpp11/postgresql/exception.h:276-281 | too_many_connections is a broken_connection, and neither an sql_error nor an insufficient_resources |
| `PgException.BrokenConnectionFamily` | include/sqlpp11/postgresql/exception.h:58-63 | a broken_connection handler catches exactly broken_connection and too_many_connections |
| `PgException.InDoubtErrorFamily` | include/sqlpp11/postgresql/exception.h:91-95 | in_doubt_error derives directly from failure, is not an sql_error, and has no subclasses |
| `PgException.IntegrityConstraintFamily` | include/sqlpp11/postgresql/exception.h:116-179 | integrity_constraint_violation is an sql_error, and it catches exactly itself and the five constraint violations |
| `PgException.SyntaxErrorFamily` | include/sqlpp11/postgresql/exception.h:206-240 | syntax_error is an sql_error, and it catches exactly itself and the three undefined-object classes |
| `PgException.InsufficientResourcesFamily` | include/sqlpp11/postgresql/exception.h:251-274 | insufficient_resources is an sql_error, and it catches exactly itself, disk_full and out_of_memory |
| `PgException.PlpgsqlErrorFamily` | include/sqlpp11/postgresql/exception.h:285-320 | plpgsql_error is an sql_error, and it catches exactly itself and its three subclasses |
| `PgException.WithQueryOnlyAddsQuery` | include/sqlpp11/postgresql/exception.h:121-134 | the (err, Q) and (err) constructors of an sql_error class build the same object except for the recorded query Q |
| `PgException.SyntaxErrorPositionDefault` | include/sqlpp11/postgresql/exception.h:212-215 | a syntax_error built without a position has position -1 |
| `PgException.UndefinedObjectPositionUnknown` | include/sqlpp11/postgresql/exception.h:218-240 | the direct subclasses of syntax_error (undefined_column, undefined_function, undefined_table) always have position -1, whichever constructor built them |
| `PgException.TestValueOutOfRangeCaught` | tests/Exceptions.cpp:48 | the exception raised for a value out of smallint's range, a data_exception, is caught by data_exception and by sql_error |
| `PgException.TestCheckViolationCaught` | tests/Exceptions.cpp:49 | a check_violation is caught by check_violation and by integrity_constraint_violation |
| `PgException.TestUniqueViolationCaught` | tests/Exceptions.cpp:50-51 | a unique_violation is caught by integrity_constraint_violation and not by check_violation |
| `PgException.TestOuterHandlersCatch` | tests/Exceptions.cpp:30-56 | the outer failure handler catches every exception; the broken_connection handler catches broken_connection and too_many_connections |

## Left out

- Debug tracing to standard error in the cursor's constructor, `next_impl` and every bind, and the handle's `debug` flag: output only, with no effect on results.
- `ResultCursor.BindResult.BindFloatingPoint`: does not produce the parsed double. Floating-point text parsing is not modelled; only the bound check and the null flag are. On a missing cell (index == fields, or any cell of a zero-row result) the source builds a string stream from a null pointer, which is undefined behaviour and happens before the null flag is written; the model's Success with null flag "null" there is a modelling choice.
- `ResultCursor.BindResult.BindIntegral`: the value is stated only for a cell whose text is a decimal literal within the int64 range. For other texts, the stream's conventions are not modelled: leading blanks, trailing characters, overflow, the empty text of a null cell, and the null pointer for a missing cell. On a missing cell the source builds a string stream from a null pointer, which is undefined behaviour and happens before the null flag is written; the model's Success with value 0 and null flag "null" there is a modelling choice.
- `ResultCursor.BindResult.BindBoolean`: on a missing cell libpq hands out no text, and the source builds a string stream from that null pointer, which is undefined behaviour and happens before the null flag is written; the model's Success with no value and null flag "null" there is a modelling choice. The extracted byte is given as a `char` from 0 to 255, not as the `signed char` value the C++ stores.
- `ResultCursor.BindResult.BindText`: returns the cell's characters rather than a pointer. The pointer's lifetime (valid until the next row) is not modelled.
- libpq itself (`PQntuples`, `PQnfields`, `PQgetvalue`, `PQgetisnull`, `PQgetlength`) is not part of this model. It is replaced by the immutable `ResultSet` value and its accessors. For a (row, column) outside the result they give libpq's answers: no text, null, length 0.
- `prepared_statement_handle_t` is not part of this model beyond its three counters and its result. The counters are unbounded naturals; the unsigned widths of the C++ fields never wrap on the paths modelled. The model assumes a new handle's three counters start at 0; the code that sets them is not part of this model, and `ResultCursor.FreshRun`, `ResultCursor.FreshTrueCount` and `ResultCursor.ZeroRowsNeverExhausts` rest on that start.
- The single-writer rule for the handle: the model is sequential.
- The mapping from SQLSTATE codes to exception classes is not part of this model: the code that does it is in a file not modelled. Only the hierarchy and its constructors are modelled.
- The default constructors `broken_connection()` and `sql_error()`, the bodies of `failure(const std::string &)`, `broken_connection(const std::string &)`, `sql_error(const std::string &)`, `sql_error(const std::string &, const std::string &)`, `in_doubt_error(const std::string &)` and `sql_error::query()`, and `~sql_error` are defined in a file that is not part of this model. The model assumes the constructors keep the message they are given and that `sql_error(err, Q)` records Q, that `query()` returns the recorded Q unchanged, and that `in_doubt_error` forwards its message to `failure`. For the one-argument `sql_error` constructor it records no query.
- The `sqlpp::exception` base class, `base()`, `what()` and the `DLL_PUBLIC` export annotations: plumbing with no bearing on the hierarchy.
- The advice on SIGPIPE in the `broken_connection` documentation: operating-system signal handling.
- tests/Exceptions.cpp needs a live server. It is used only as evidence for which handler catches which class (the `PgException.Test…` lemmas). Each of them takes the exception the server's answer raises as a parameter of the expected class, since only its class decides which handler catches it.
