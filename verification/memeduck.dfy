/** memeduck.go: the INSERT statement builder and its own, narrower
    value-to-expression converter (`toExpr`), which knows no untyped nil, no
    time or date, no slices and no custom encoders. */
module Memeduck {
  import opened Wrappers
  import opened Values
  import Ast
  import Internal
  import Decimal

  /** One input row: its Go type (for the error message) and its elements.
      The source reads rows and the input with reflection's `Len` and
      `Index`: a slice, an array or a string (read as its bytes, each a
      `uint8`) is a sequence of elements here; an empty or nil map or chan
      row is `Row(typ, [])` and an empty map or chan input is `[]`.
      Reflection panics on an input or row whose kind is not slice, array,
      string, map or chan (a nil input included) and on a non-empty map or
      chan; those have no counterpart. */
  datatype Row = Row(typ: string, elems: seq<Value>)

  /** `InsertStmt`: table, column names and input rows, kept as given. */
  datatype InsertStmt = InsertStmt(table: string, cols: seq<string>, input: seq<Row>)

  /** `Insert(table, cols, input)`. */
  function Insert(table: string, cols: seq<string>, input: seq<Row>): InsertStmt {
    InsertStmt(table, cols, input)
  }

  /** The types this `toExpr` lists: strings, `[]byte`, `int`, `int64`,
      `bool` and `float64`, with their pointers and `spanner.Null*`
      wrappers. */
  predicate Listed(v: Value) {
    v.Str? || v.StrPtr? || v.NullString? || v.Bytes? ||
    v.Int? || v.IntPtr? || v.Int64? || v.Int64Ptr? || v.NullInt64? ||
    v.Bool? || v.BoolPtr? || v.NullBool? ||
    v.Float64? || v.Float64Ptr? || v.NullFloat64?
  }

  /** `toExpr`: the listed cases as in internal/ast.go, everything else
      (including the untyped nil) an error naming the type. */
  function ToExpr(val: Value): (r: Result<Ast.Expr, Error>)
  {
    match val
    case Str(s) => Success(Internal.StringLit(s))
    case StrPtr(p) => if p.None? then Success(Internal.NullLit()) else Success(Internal.StringLit(p.value))
    case NullString(s, valid) => if !valid then Success(Internal.NullLit()) else Success(Internal.StringLit(s))
    case Bytes(b) => if b.None? then Success(Internal.NullLit()) else Success(Internal.BytesLit(b.value))
    case Int(n) => Success(Internal.IntLit(n))
    case IntPtr(p) => if p.None? then Success(Internal.NullLit()) else Success(Internal.IntLit(p.value))
    case Int64(n) => Success(Internal.IntLit(n))
    case Int64Ptr(p) => if p.None? then Success(Internal.NullLit()) else Success(Internal.IntLit(p.value))
    case NullInt64(n, valid) => if !valid then Success(Internal.NullLit()) else Success(Internal.IntLit(n))
    case Bool(b) => Success(Internal.BoolLit(b))
    case BoolPtr(p) => if p.None? then Success(Internal.NullLit()) else Success(Internal.BoolLit(p.value))
    case NullBool(b, valid) => if !valid then Success(Internal.NullLit()) else Success(Internal.BoolLit(b))
    case Float64(f) => Success(Internal.FloatLit(f))
    case Float64Ptr(p) => if p.None? then Success(Internal.NullLit()) else Success(Internal.FloatLit(p.value))
    case NullFloat64(f, valid) => if !valid then Success(Internal.NullLit()) else Success(Internal.FloatLit(f))
    case _ => Failure(CantConvert(TypeName(val)))
  }

  /** This converter accepts exactly the listed types, and on those it
      agrees with the one in internal/ast.go; every other value, the untyped
      nil, time, date, slices and custom encoders included, is an error
      naming its type. */
  lemma ToExprAcceptsExactlyListed(v: Value)
    ensures ToExpr(v).Success? <==> Listed(v)
    ensures Listed(v) ==> ToExpr(v) == Internal.ToExpr(v)
    ensures !Listed(v) ==> ToExpr(v) == Failure(CantConvert(TypeName(v)))
  {
  }

  /** NULL comes out for nil pointers, invalid `Null*` wrappers and a nil
      `[]byte`, and for nothing else; present integers give base-10 literals
      that read back as the number. */
  lemma ToExprNullsAndIntegers(v: Value)
    ensures ToExpr(v) == Success(Ast.NullLiteral) <==> IsAbsent(v) && Listed(v)
    ensures (v.Int? || v.Int64? || (v.NullInt64? && v.valid)) ==>
      ToExpr(v).value.IntLiteral? && ToExpr(v).value.base == 10 &&
      Decimal.ParseInt(ToExpr(v).value.value) == Some(v.n as int)
    ensures ((v.IntPtr? && v.np.Some?) || (v.Int64Ptr? && v.np.Some?)) ==>
      ToExpr(v).value.IntLiteral? && ToExpr(v).value.base == 10 &&
      Decimal.ParseInt(ToExpr(v).value.value) == Some(v.np.value as int)
  {
    if v.Int? || v.Int64? || v.NullInt64? {
      Internal.IntLitIsDecimal(v.n);
    } else if (v.IntPtr? || v.Int64Ptr?) && v.np.Some? {
      Internal.IntLitIsDecimal(v.np.value);
    }
  }

  /** `toValuesRow` as a value: the elements converted in order, each in a
      `DefaultExpr`; the first failure stops it (see `ConvertRowMeaning`). */
  function ConvertRow(row: seq<Value>): Result<Ast.ValuesRow, Error> {
    if row == [] then Success(Ast.ValuesRow([]))
    else
      var n := |row| - 1;
      match ConvertRow(row[..n])
      case Failure(e) => Failure(e)
      case Success(prefix) =>
        match ToExpr(row[n])
        case Failure(e) => Failure(e)
        case Success(x) => Success(Ast.ValuesRow(prefix.exprs + [Ast.DefaultExpr(x)]))
  }

  /** The row loop of `toAST` as a value: one VALUES row per input row, in
      order; the first failure stops it (see `ConvertRowsMeaning`). */
  function ConvertRows(rows: seq<Row>): Result<seq<Ast.ValuesRow>, Error> {
    if rows == [] then Success([])
    else
      var n := |rows| - 1;
      match ConvertRows(rows[..n])
      case Failure(e) => Failure(e)
      case Success(prefix) =>
        match ConvertRow(rows[n].elems)
        case Failure(e) => Failure(CantConvertRow(rows[n].typ, e))
        case Success(x) => Success(prefix + [x])
  }

  /** A row converts exactly when each of its elements does, to one
      `DefaultExpr` per element wrapping that element's conversion, in
      order. */
  lemma {:induction false} ConvertRowMeaning(row: seq<Value>)
    ensures ConvertRow(row).Success? <==> forall i | 0 <= i < |row| :: ToExpr(row[i]).Success?
    ensures ConvertRow(row).Success? ==>
      |ConvertRow(row).value.exprs| == |row| &&
      forall i | 0 <= i < |row| :: ConvertRow(row).value.exprs[i] == Ast.DefaultExpr(ToExpr(row[i]).value)
    ensures ConvertRow(row).Failure? ==> ConvertRowFirstFailure(row)
  {
    if row != [] {
      var n := |row| - 1;
      var init := row[..n];
      ConvertRowMeaning(init);
      assert forall i | 0 <= i < n :: init[i] == row[i];
      var last := ToExpr(row[n]);
      match ConvertRow(init)
      case Failure(e) =>
        assert ConvertRow(row) == Failure(e);
        var i :| 0 <= i < n && ToExpr(init[i]).Failure? &&
          (forall j | 0 <= j < i :: ToExpr(init[j]).Success?) && e == ToExpr(init[i]).error;
        assert FailsFirstAt(row, i);
      case Success(prefix) =>
        if last.Failure? {
          assert ConvertRow(row) == Failure(last.error);
          assert FailsFirstAt(row, n);
        } else {
          assert ConvertRow(row) == Success(Ast.ValuesRow(prefix.exprs + [Ast.DefaultExpr(last.value)]));
        }
    }
  }

  /** Element `i` is the first of `row` that fails, and its error is the
      row's. */
  predicate FailsFirstAt(row: seq<Value>, i: nat) {
    i < |row| && ToExpr(row[i]).Failure? &&
    (forall j | 0 <= j < i :: ToExpr(row[j]).Success?) &&
    ConvertRow(row) == Failure(ToExpr(row[i]).error)
  }

  /** A failing row fails at its first failing element, with that element's
      error unchanged. */
  predicate ConvertRowFirstFailure(row: seq<Value>) {
    exists i | 0 <= i < |row| :: FailsFirstAt(row, i)
  }

  /** The input converts exactly when each row does, to one VALUES row per
      input row, in order; otherwise its error is that of the first failing
      row, wrapped with the row's type. */
  lemma {:induction false} ConvertRowsMeaning(rows: seq<Row>)
    ensures ConvertRows(rows).Success? <==> forall i | 0 <= i < |rows| :: ConvertRow(rows[i].elems).Success?
    ensures ConvertRows(rows).Success? ==>
      |ConvertRows(rows).value| == |rows| &&
      forall i | 0 <= i < |rows| :: ConvertRows(rows).value[i] == ConvertRow(rows[i].elems).value
    ensures ConvertRows(rows).Failure? ==>
      exists i | 0 <= i < |rows| ::
        ConvertRow(rows[i].elems).Failure? &&
        (forall j | 0 <= j < i :: ConvertRow(rows[j].elems).Success?) &&
        ConvertRows(rows).error == CantConvertRow(rows[i].typ, ConvertRow(rows[i].elems).error)
  {
    if rows != [] {
      var n := |rows| - 1;
      var init := rows[..n];
      ConvertRowsMeaning(init);
      assert forall i | 0 <= i < n :: init[i] == rows[i];
      var last := ConvertRow(rows[n].elems);
      match ConvertRows(init)
      case Failure(e) =>
        assert ConvertRows(rows) == Failure(e);
      case Success(prefix) =>
        if last.Failure? {
          assert ConvertRows(rows) == Failure(CantConvertRow(rows[n].typ, last.error));
          assert forall j | 0 <= j < n :: ConvertRow(rows[j].elems).Success?;
        } else {
          assert ConvertRows(rows) == Success(prefix + [last.value]);
        }
    }
  }

  /** Once a prefix of a row fails, the whole row fails with the same
      error: later elements are never looked at. */
  lemma {:induction false} ConvertRowStopsAtFailure(row: seq<Value>, k: nat)
    requires k <= |row| && ConvertRow(row[..k]).Failure?
    ensures ConvertRow(row) == ConvertRow(row[..k])
  {
    if k < |row| {
      var n := |row| - 1;
      assert row[..n][..k] == row[..k];
      ConvertRowStopsAtFailure(row[..n], k);
    } else {
      assert row[..k] == row;
    }
  }

  /** Once a prefix of the input fails, the whole input fails with the
      same error: later rows are never converted. */
  lemma {:induction false} ConvertRowsStopsAtFailure(rows: seq<Row>, k: nat)
    requires k <= |rows| && ConvertRows(rows[..k]).Failure?
    ensures ConvertRows(rows) == ConvertRows(rows[..k])
  {
    if k < |rows| {
      var n := |rows| - 1;
      assert rows[..n][..k] == rows[..k];
      ConvertRowsStopsAtFailure(rows[..n], k);
    } else {
      assert rows[..k] == rows;
    }
  }

  /** The column identifiers: one per name, in order. */
  function Idents(names: seq<string>): seq<Ast.Ident> {
    seq(|names|, i requires 0 <= i < |names| => Ast.Ident(names[i]))
  }

  /** `toAST` as a value: the table, the column identifiers and the VALUES
      rows, or the first error. */
  function Build(stmt: InsertStmt): (r: Result<Ast.Insert, Error>)
    ensures r.Success? <==> ConvertRows(stmt.input).Success?
    ensures r.Failure? ==> r.error == ConvertRows(stmt.input).error
    ensures r.Success? ==>
      r.value.tableName == Ast.Ident(stmt.table) &&
      |r.value.columns| == |stmt.cols| &&
      (forall i | 0 <= i < |stmt.cols| :: r.value.columns[i].name == stmt.cols[i]) &&
      r.value.input.rows == ConvertRows(stmt.input).value
  {
    match ConvertRows(stmt.input)
    case Failure(e) => Failure(e)
    case Success(rows) =>
      Success(Ast.Insert(Ast.Ident(stmt.table), Idents(stmt.cols), Ast.ValuesInput(rows)))
  }

  /** `toValuesRow`, with the source's loop. */
  method ToValuesRow(row: seq<Value>) returns (r: Result<Ast.ValuesRow, Error>)
    ensures r == ConvertRow(row)
  {
    var exprs: seq<Ast.DefaultExpr> := [];
    var i := 0;
    while i < |row|
      invariant 0 <= i <= |row|
      invariant ConvertRow(row[..i]) == Success(Ast.ValuesRow(exprs))
    {
      var expr := ToExpr(row[i]);
      assert row[..i + 1][..i] == row[..i];
      if expr.Failure? {
        ConvertRowStopsAtFailure(row, i + 1);
        return Failure(expr.error);
      }
      exprs := exprs + [Ast.DefaultExpr(expr.value)];
      i := i + 1;
    }
    assert row[..i] == row;
    r := Success(Ast.ValuesRow(exprs));
  }

  /** `toAST`, with the source's two loops: columns, then rows. */
  method ToAST(stmt: InsertStmt) returns (r: Result<Ast.Insert, Error>)
    ensures r == Build(stmt)
  {
    var cols: seq<Ast.Ident> := [];
    for i := 0 to |stmt.cols|
      invariant cols == Idents(stmt.cols[..i])
    {
      cols := cols + [Ast.Ident(stmt.cols[i])];
    }
    assert stmt.cols[..|stmt.cols|] == stmt.cols;
    var rows: seq<Ast.ValuesRow> := [];
    var i := 0;
    while i < |stmt.input|
      invariant 0 <= i <= |stmt.input|
      invariant ConvertRows(stmt.input[..i]) == Success(rows)
    {
      var row := ToValuesRow(stmt.input[i].elems);
      assert stmt.input[..i + 1][..i] == stmt.input[..i];
      if row.Failure? {
        ConvertRowsStopsAtFailure(stmt.input, i + 1);
        return Failure(CantConvertRow(stmt.input[i].typ, row.error));
      }
      rows := rows + [row.value];
      i := i + 1;
    }
    assert stmt.input[..i] == stmt.input;
    r := Success(Ast.Insert(Ast.Ident(stmt.table), cols, Ast.ValuesInput(rows)));
  }

  /** `InsertStmt.SQL`: the empty string and the error when the tree cannot
      be built, otherwise the tree's text and no error. `render` stands for
      memefish's `SQL()` method, which is outside the model. */
  method SQL(stmt: InsertStmt, render: Ast.Insert -> string) returns (text: string, err: Option<Error>)
    ensures err.None? <==> Build(stmt).Success?
    ensures err.None? ==> text == render(Build(stmt).value)
    ensures err.Some? ==> text == "" && err.value == Build(stmt).error
  {
    var ast := ToAST(stmt);
    if ast.Failure? {
      return "", Some(ast.error);
    }
    return render(ast.value), None;
  }

  /** The INSERT built from `Insert(table, cols, input)` names the table,
      has one column per name in order with duplicates kept, and one VALUES
      row per input row in order, each with one `DefaultExpr` per element
      wrapping that element's conversion, whatever the row's length. */
  lemma {:induction false} BuildShape(table: string, cols: seq<string>, input: seq<Row>)
    requires Build(Insert(table, cols, input)).Success?
    ensures var ins := Build(Insert(table, cols, input)).value;
      ins.tableName.name == table &&
      |ins.columns| == |cols| && (forall i | 0 <= i < |cols| :: ins.columns[i].name == cols[i]) &&
      |ins.input.rows| == |input| &&
      (forall i | 0 <= i < |input| :: |ins.input.rows[i].exprs| == |input[i].elems|) &&
      forall i, k | 0 <= i < |input| && 0 <= k < |input[i].elems| ::
        ToExpr(input[i].elems[k]).Success? &&
        ins.input.rows[i].exprs[k] == Ast.DefaultExpr(ToExpr(input[i].elems[k]).value)
  {
    ConvertRowsMeaning(input);
    forall i | 0 <= i < |input| {
      ConvertRowMeaning(input[i].elems);
    }
  }

  /** No input rows: an INSERT with zero VALUES rows, and no error. */
  lemma EmptyInputBuilds(table: string, cols: seq<string>)
    ensures Build(Insert(table, cols, [])).Success?
    ensures Build(Insert(table, cols, [])).value.input.rows == []
  {
  }

  /** A failure anywhere aborts the whole statement: the error is that of
      the first failing row, wrapped with the row's type, and that row's
      error is the one of its first failing element, unchanged. */
  lemma {:induction false} BuildFailsAtFirstBadElement(table: string, cols: seq<string>, input: seq<Row>)
    requires Build(Insert(table, cols, input)).Failure?
    ensures exists i, k | 0 <= i < |input| && 0 <= k < |input[i].elems| ::
      (forall j | 0 <= j < i :: ConvertRow(input[j].elems).Success?) &&
      (forall m | 0 <= m < k :: ToExpr(input[i].elems[m]).Success?) &&
      ToExpr(input[i].elems[k]).Failure? &&
      Build(Insert(table, cols, input)).error == CantConvertRow(input[i].typ, ToExpr(input[i].elems[k]).error)
  {
    ConvertRowsMeaning(input);
    var i :| 0 <= i < |input| && ConvertRow(input[i].elems).Failure? &&
      (forall j | 0 <= j < i :: ConvertRow(input[j].elems).Success?) &&
      ConvertRows(input).error == CantConvertRow(input[i].typ, ConvertRow(input[i].elems).error);
    var row := input[i].elems;
    ConvertRowMeaning(row);
    var k :| FailsFirstAt(row, k);
  }

  /** In this converter the untyped nil is not NULL: a row `{nil, nil}`
      aborts the statement with an error naming the row's type and `<nil>`. */
  lemma UntypedNilRowFails()
    ensures Build(Insert("hoge", ["a", "b"], [Row("[]interface {}", [Nil, Nil])])) ==
      Failure(CantConvertRow("[]interface {}", CantConvert("<nil>")))
  {
    var e := CantConvert("<nil>");
    assert ToExpr(Nil) == Failure(e);
    assert [Nil][..0] == [];
    assert ConvertRow([Nil]) == Failure(e);
    assert [Nil, Nil][..1] == [Nil];
    assert ConvertRow([Nil, Nil]) == Failure(e);
    var rows := [Row("[]interface {}", [Nil, Nil])];
    assert rows[..0] == [];
    assert ConvertRows(rows) == Failure(CantConvertRow("[]interface {}", e));
  }

  /** Typed nil pointers are NULL: `[][]*int{{nil, nil}}` gives one VALUES
      row `(NULL, NULL)` under the columns `a, b`. */
  lemma NilPointerRowIsNulls()
    ensures Build(Insert("hoge", ["a", "b"], [Row("[]*int", [IntPtr(None), IntPtr(None)])])) ==
      Success(Ast.Insert(Ast.Ident("hoge"), [Ast.Ident("a"), Ast.Ident("b")],
        Ast.ValuesInput([Ast.ValuesRow([Ast.DefaultExpr(Ast.NullLiteral), Ast.DefaultExpr(Ast.NullLiteral)])])))
  {
    var row := [IntPtr(None), IntPtr(None)];
    var nul := Ast.DefaultExpr(Ast.NullLiteral);
    assert ToExpr(IntPtr(None)) == Success(Ast.NullLiteral);
    assert [IntPtr(None)][..0] == [];
    assert ConvertRow([]) == Success(Ast.ValuesRow([]));
    assert [] + [nul] == [nul];
    assert ConvertRow([IntPtr(None)]) == Success(Ast.ValuesRow([nul]));
    assert row[..1] == [IntPtr(None)];
    assert row[1] == IntPtr(None);
    assert [nul] + [nul] == [nul, nul];
    assert ConvertRow(row) == Success(Ast.ValuesRow([Ast.DefaultExpr(Ast.NullLiteral), Ast.DefaultExpr(Ast.NullLiteral)]));
    var rows := [Row("[]*int", row)];
    assert rows[..0] == [];
    assert rows[0].elems == row;
    assert ConvertRows([]) == Success([]);
    assert ConvertRow(rows[0].elems) == Success(Ast.ValuesRow([nul, nul]));
    assert [] + [Ast.ValuesRow([nul, nul])] == [Ast.ValuesRow([nul, nul])];
    assert ConvertRows(rows) == Success([Ast.ValuesRow([nul, nul])]);
    assert Idents(["a", "b"]) == [Ast.Ident("a"), Ast.Ident("b")];
  }

  /** A string row is read as its bytes, each a `uint8` this converter does
      not accept: a non-empty one, of any length, aborts with the `uint8`
      error wrapped with the row type. */
  lemma {:induction false} NonEmptyStringRowFails(n: nat)
    requires n > 0
    ensures Build(Insert("t", ["a"], [Row("string", seq(n, _ => Other("uint8")))])) ==
      Failure(CantConvertRow("string", CantConvert("uint8")))
  {
    var row := seq(n, _ => Other("uint8"));
    assert row[..1][..0] == [];
    assert row[..1] == [Other("uint8")];
    assert ConvertRow(row[..1]) == Failure(CantConvert("uint8"));
    ConvertRowStopsAtFailure(row, 1);
    var rows := [Row("string", row)];
    assert rows[..0] == [];
    assert ConvertRows(rows) == Failure(CantConvertRow("string", CantConvert("uint8")));
  }

  /** The empty string is a row of no elements: an empty VALUES row. */
  lemma EmptyStringRowIsEmpty()
    ensures Build(Insert("t", ["a"], [Row("string", [])])).Success?
    ensures Build(Insert("t", ["a"], [Row("string", [])])).value.input.rows == [Ast.ValuesRow([])]
  {
    var empty := [Row("string", [])];
    assert empty[..0] == [];
    assert ConvertRow(empty[0].elems) == Success(Ast.ValuesRow([]));
    assert ConvertRows([]) == Success([]);
    assert [] + [Ast.ValuesRow([])] == [Ast.ValuesRow([])];
    assert ConvertRows(empty) == Success([Ast.ValuesRow([])]);
  }
}
