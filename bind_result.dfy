/** The result cursor: a forward-only row iterator over a completed query
    result, and the four binds that read one cell of the current row. The
    counters live in the prepared-statement handle the cursor borrows. */
module ResultCursor {
  import opened Wrappers
  import opened PgResult
  import opened StreamExtract

  /** The handle's three counters: totalCount (0 until the row count has been
      fetched), count (the current row) and fields (0 until the field count
      has been fetched). */
  datatype Cursor = Cursor(totalCount: nat, count: nat, fields: nat)

  /** The counters of a freshly prepared handle. */
  const Fresh := Cursor(0, 0, 0)

  /** What the counters satisfy at all times: each cached count is either
      unset or the result's own, and count never passes the last row. */
  predicate Inv(c: Cursor, r: ResultSet) {
    && (c.totalCount == 0 || c.totalCount == NTuples(r))
    && (c.fields == 0 || c.fields == r.nfields)
    && (c.totalCount == 0 ==> c.count == 0)
    && (c.totalCount > 0 ==> c.count <= c.totalCount - 1)
  }

  /** One call of next_impl: its return value and the counters after it. */
  function Next(c: Cursor, r: ResultSet): (res: (bool, Cursor))
    ensures Inv(c, r) ==> Inv(res.1, r)
    ensures !res.0 ==> res.1 == c
    ensures c.totalCount == 0 ==> res.0 && res.1.count == c.count && res.1.totalCount == NTuples(r)
    ensures c.totalCount != 0 ==> res.1.totalCount == c.totalCount
    ensures res.1.count == c.count || (res.0 && res.1.count == c.count + 1)
    ensures c.fields != 0 ==> res.1.fields == c.fields
    ensures res.0 && c.fields == 0 ==> res.1.fields == r.nfields
  {
    var moved :=
      if c.totalCount == 0 then Some(c.(totalCount := NTuples(r)))
      else if c.count < c.totalCount - 1 then Some(c.(count := c.count + 1))
      else None;
    match moved
    case None => (false, c)
    case Some(c1) => (true, if c1.fields == 0 then c1.(fields := r.nfields) else c1)
  }

  /** The counters after n successive calls of next_impl. */
  function After(c: Cursor, r: ResultSet, n: nat): Cursor
    decreases n
  {
    if n == 0 then c else After(Next(c, r).1, r, n - 1)
  }

  /** The value returned by the (n+1)-th call of next_impl. */
  function Outcome(c: Cursor, r: ResultSet, n: nat): bool {
    Next(After(c, r, n), r).0
  }

  /** How many of the first n calls of next_impl return true. */
  function Trues(c: Cursor, r: ResultSet, n: nat): nat
    decreases n
  {
    if n == 0 then 0 else Trues(c, r, n - 1) + (if Outcome(c, r, n - 1) then 1 else 0)
  }

  function Min(a: nat, b: nat): nat {
    if a <= b then a else b
  }

  /** Every sequence of calls keeps the handle invariant. */
  lemma {:induction false} AfterKeepsInv(c: Cursor, r: ResultSet, n: nat)
    requires Inv(c, r)
    ensures Inv(After(c, r, n), r)
    decreases n
  {
    if n > 0 {
      AfterKeepsInv(Next(c, r).1, r, n - 1);
    }
  }

  /** Once the row count is known, each call moves one row forward until the
      last row, and then stays there. */
  lemma {:induction false} AfterStarted(k: nat, r: ResultSet, n: nat)
    requires NTuples(r) >= 1 && k <= NTuples(r) - 1
    ensures After(Cursor(NTuples(r), k, r.nfields), r, n)
            == Cursor(NTuples(r), Min(k + n, NTuples(r) - 1), r.nfields)
    decreases n
  {
    if n > 0 {
      var N := NTuples(r);
      if k < N - 1 {
        assert Next(Cursor(N, k, r.nfields), r).1 == Cursor(N, k + 1, r.nfields);
        AfterStarted(k + 1, r, n - 1);
      } else {
        ExhaustionIsAbsorbing(Cursor(N, k, r.nfields), r, n);
      }
    }
  }

  /** From a fresh handle over a result with N >= 1 rows: the first call only
      fetches the row count, the i-th later call moves to row i, and calls
      N + 1, N + 2, ... return false with count left at N - 1. */
  lemma FreshRun(r: ResultSet, n: nat)
    requires NTuples(r) >= 1
    ensures Outcome(Fresh, r, n) == (n < NTuples(r))
    ensures n >= 1 ==> After(Fresh, r, n) == Cursor(NTuples(r), Min(n - 1, NTuples(r) - 1), r.nfields)
  {
    var N := NTuples(r);
    var c1 := Cursor(N, 0, r.nfields);
    assert Next(Fresh, r).1 == c1;
    if n >= 1 {
      assert After(Fresh, r, n) == After(c1, r, n - 1);
      AfterStarted(0, r, n - 1);
    }
  }

  /** next_impl returns true exactly N times from a fresh handle over N >= 1
      rows, however often it is called. */
  lemma {:induction false} FreshTrueCount(r: ResultSet, n: nat)
    requires NTuples(r) >= 1
    ensures Trues(Fresh, r, n) == Min(n, NTuples(r))
    decreases n
  {
    if n > 0 {
      FreshTrueCount(r, n - 1);
      FreshRun(r, n - 1);
    }
  }

  /** A false return changes nothing, so every later call returns false too. */
  lemma {:induction false} ExhaustionIsAbsorbing(c: Cursor, r: ResultSet, n: nat)
    requires !Next(c, r).0
    ensures After(c, r, n) == c
    ensures !Outcome(c, r, n)
    decreases n
  {
    if n > 0 {
      ExhaustionIsAbsorbing(c, r, n - 1);
    }
  }

  /** Under the invariant, next_impl returns false exactly when count is on
      the last row of an already counted result. */
  lemma ExhaustedOnLastRow(c: Cursor, r: ResultSet)
    requires Inv(c, r)
    ensures !Next(c, r).0 <==> c.totalCount > 0 && c.count == c.totalCount - 1
  {
  }

  /** A result with no rows leaves totalCount at 0, so next_impl keeps
      returning true and never reports the end. */
  lemma {:induction false} ZeroRowsNeverExhausts(r: ResultSet, n: nat)
    requires NTuples(r) == 0
    ensures Outcome(Fresh, r, n)
    ensures n >= 1 ==> After(Fresh, r, n) == Cursor(0, 0, r.nfields)
    decreases n
  {
    if n >= 1 {
      ZeroRowsNeverExhausts(r, n - 1);
      assert After(Fresh, r, n) == Next(After(Fresh, r, n - 1), r).1 by {
        AfterLast(Fresh, r, n - 1);
      }
    }
  }

  /** n + 1 calls are n calls followed by one more. */
  lemma {:induction false} AfterLast(c: Cursor, r: ResultSet, n: nat)
    ensures After(c, r, n + 1) == Next(After(c, r, n), r).1
    decreases n
  {
    if n > 0 {
      AfterLast(Next(c, r).1, r, n - 1);
    }
  }

  /** The bind accepts a column index unless it exceeds the field count; an
      index equal to the field count passes although no such column exists. */
  predicate IndexAccepted(index: nat, fields: nat) {
    !(index > fields)
  }

  /** Once fields is set, the column one past the last passes the bound check
      but names no cell: libpq answers with no text, null and length 0. */
  lemma PhantomColumn(c: Cursor, r: ResultSet)
    requires WellFormed(r) && Inv(c, r) && c.fields != 0
    ensures IndexAccepted(c.fields, c.fields)
    ensures GetValue(r, c.count, c.fields).None?
    ensures GetIsNull(r, c.count, c.fields) && GetLength(r, c.count, c.fields) == 0
  {
    if c.count < |r.rows| {
      assert |r.rows[c.count]| == r.nfields;
    }
  }

  /** The message of the exception every bind throws for a column index
      past the bound. */
  const IndexOutOfRangeMessage := "PostgreSQL error: index out of range"

  /** The exception a bind throws, with its message. */
  datatype BindError = BindError(message: string)

  /** A value bind's two out-parameters. */
  datatype Bound<T> = Bound(value: T, isNull: bool)

  /** The text bind's two out-parameters: the text pointer (None for a null
      pointer) and the length. */
  datatype TextRef = TextRef(text: Option<string>, len: nat)

  /** The part of prepared_statement_handle_t the cursor uses. */
  class Handle {
    const result: ResultSet
    var totalCount: nat
    var count: nat
    var fields: nat

    function State(): Cursor
      reads this
    {
      Cursor(totalCount, count, fields)
    }

    ghost predicate Valid()
      reads this
    {
      WellFormed(result) && Inv(State(), result)
    }

    constructor (result: ResultSet)
      requires WellFormed(result)
      ensures Valid() && this.result == result && State() == Fresh
    {
      this.result := result;
      totalCount, count, fields := 0, 0, 0;
    }
  }

  /** bind_result_t: the cursor, holding the handle it borrows. */
  class BindResult {
    const handle: Handle

    constructor (handle: Handle)
      ensures this.handle == handle
    {
      this.handle := handle;
    }

    /** Advances to the next row. The first call only fetches the row count;
        each later call moves count one row forward, or returns false on the
        last row. The field count is fetched on the first true return. */
    method NextImpl() returns (more: bool)
      requires handle.Valid()
      modifies handle
      ensures handle.Valid()
      ensures (more, handle.State()) == Next(old(handle.State()), handle.result)
    {
      if handle.totalCount == 0 {
        handle.totalCount := NTuples(handle.result);
      } else {
        if handle.count < handle.totalCount - 1 {
          handle.count := handle.count + 1;
        } else {
          return false;
        }
      }
      if handle.fields == 0 {
        handle.fields := handle.result.nfields;
      }
      return true;
    }

    /** Reads one character of cell (count, index) and its null flag. */
    method BindBoolean(index: nat) returns (r: Result<Bound<Option<char>>, BindError>)
      ensures r.Failure? <==> !IndexAccepted(index, handle.fields)
      ensures r.Failure? ==> r.error.message == IndexOutOfRangeMessage
      ensures r.Success? ==> r.value.isNull == GetIsNull(handle.result, handle.count, index)
      ensures r.Success? && GetValue(handle.result, handle.count, index).Some? ==>
                r.value.value == ExtractChar(GetValue(handle.result, handle.count, index).value)
      ensures r.Success? && WellFormed(handle.result) && r.value.value.Some? ==>
                r.value.value.value as int < 256
    {
      if !IndexAccepted(index, handle.fields) {
        return Failure(BindError(IndexOutOfRangeMessage));
      }
      var text := GetValue(handle.result, handle.count, index);
      var value := if text.Some? then ExtractChar(text.value) else None;
      r := Success(Bound(value, GetIsNull(handle.result, handle.count, index)));
    }

    /** Checks the bound and reads the null flag of cell (count, index); the
        floating-point value itself is not modelled. */
    method BindFloatingPoint(index: nat) returns (r: Result<bool, BindError>)
      ensures r.Failure? <==> !IndexAccepted(index, handle.fields)
      ensures r.Failure? ==> r.error.message == IndexOutOfRangeMessage
      ensures r.Success? ==> r.value == GetIsNull(handle.result, handle.count, index)
    {
      if !IndexAccepted(index, handle.fields) {
        return Failure(BindError(IndexOutOfRangeMessage));
      }
      r := Success(GetIsNull(handle.result, handle.count, index));
    }

    /** Reads a 64-bit integer from cell (count, index) and its null flag. */
    method BindIntegral(index: nat) returns (r: Result<Bound<int>, BindError>)
      ensures r.Failure? <==> !IndexAccepted(index, handle.fields)
      ensures r.Failure? ==> r.error.message == IndexOutOfRangeMessage
      ensures r.Success? ==> r.value.isNull == GetIsNull(handle.result, handle.count, index)
      ensures r.Success? && GetValue(handle.result, handle.count, index).Some?
                && IsInt64Literal(GetValue(handle.result, handle.count, index).value) ==>
                r.value.value == ExtractInt64(GetValue(handle.result, handle.count, index).value)
    {
      if !IndexAccepted(index, handle.fields) {
        return Failure(BindError(IndexOutOfRangeMessage));
      }
      var text := GetValue(handle.result, handle.count, index);
      var value := if text.Some? && IsInt64Literal(text.value) then ExtractInt64(text.value) else 0;
      r := Success(Bound(value, GetIsNull(handle.result, handle.count, index)));
    }

    /** Hands out the text of cell (count, index) and its length; no null flag. */
    method BindText(index: nat) returns (r: Result<TextRef, BindError>)
      ensures r.Failure? <==> !IndexAccepted(index, handle.fields)
      ensures r.Failure? ==> r.error.message == IndexOutOfRangeMessage
      ensures r.Success? ==> r.value.text == GetValue(handle.result, handle.count, index)
      ensures r.Success? ==> r.value.len == GetLength(handle.result, handle.count, index)
      ensures r.Success? && WellFormed(handle.result) && r.value.text.Some? ==>
                r.value.len == |r.value.text.value|
    {
      if !IndexAccepted(index, handle.fields) {
        return Failure(BindError(IndexOutOfRangeMessage));
      }
      r := Success(TextRef(GetValue(handle.result, handle.count, index),
                           GetLength(handle.result, handle.count, index)));
    }
  }
}
