# memeduck value conversion and INSERT assembly, in Dafny

memeduck builds Spanner SQL statements from Go values. This project models
the part of it that decides which syntax tree a Go value becomes, and how an
INSERT statement, a WHERE leaf condition and a subquery select item are
assembled from those trees. The model covers:

- the general value dispatcher of `internal/ast.go` (`ToExpr` and the literal
  constructors). Its type switch is read over a closed `Value` datatype that
  lists the Go types it names: nil, strings, `[]byte`, `int`, `int64`, `bool`,
  `float64`, `time.Time` and `civil.Date`, their pointers and their
  `spanner.Null*` wrappers. The datatype also has a slice with its elements,
  a nil slice, a value with its own `ToASTExpr` encoder, and a value of any
  other type;
- the INSERT builder of `memeduck.go`: `Insert`, `SQL`, `toAST` and
  `toValuesRow`, together with that file's own narrower `toExpr`;
- the WHERE leaves of `where.go`: `Bool`, `Op` with `OpCond.ToAstWhere`, the
  six `BinaryOp` constants, and `Ident` with `IdentExpr.ToASTExpr`;
- the scalar and array subqueries of `subquery.go`: their constructors, `As`
  and `ToAST`.

The syntax tree is a datatype mirroring the memefish nodes these files build
(module `Ast`). Errors are a datatype whose `Message` gives the text that
`errors.Errorf` and `errors.WithMessagef` produce. Integer literals carry the
text of `strconv.FormatInt(v, 10)`, which module `Decimal` defines together
with a parser, so the text is proved to read back as the number.

Loops stay loops. `toAST`, `toValuesRow` and the slice branch of `ToExpr` are
methods with `while`/`for` loops. Each is proved equal to a recursive
specification function (`Build`, `ConvertRow`, `ToExpr` on a slice). The
lemmas state what those functions mean: one output per input in order,
success exactly when every element converts, and otherwise the first failure
with its context.

Modules: `Wrappers` (Option, Result), `Host` (Go scalar types), `Decimal`,
`Ast`, `Values` (Go values, type names, errors), `Internal` (internal/ast.go),
`Memeduck` (memeduck.go), `Where` (where.go), `Subquery` (subquery.go).

## Model

| member | source | states |
|---|---|---|
| `Decimal.FormatIntCanonical` | internal/ast.go:145-150 | The integer text is an optional `-` and then digits with no leading zero (only zero itself is `0`), with no `-0`. |
| `Decimal.ParseFormatInt` | internal/ast.go:145-150 | Reading the base-10 text back gives the number it was made from. |
| `Decimal.FormatIntInjective` | internal/ast.go:145-150 | Two different numbers never give the same text. |
| `Values.Unwrap` | internal/ast.go:25-106 | A pointer or `spanner.Null*` wrapper stands for nil exactly when it holds nothing (`HoldsNothing`: a nil pointer, or `Valid` false), and otherwise for a bare scalar of its own kind (string for `*string`/`NullString`, `int` for `*int`, `int64` for `*int64`/`NullInt64`, and so on). |
| `Values.WrappedMessageEndsWithCause` | memeduck.go:50 | The text of an "at index" or "can't convert ... into SQL row" error ends in `: ` and the whole text of the error it wraps, after a non-empty context. |
| `Internal.IntLitIsDecimal` | internal/ast.go:145-150 | `IntLit(v)` is a base-10 literal whose text reads back as `v` and is canonical; different `v` give different literals. |
| `Internal.ConvertElementsMeaning` | internal/ast.go:113-124 | The element loop succeeds exactly when every element converts, and then gives their conversions in order, with the same length. |
| `Internal.ConvertElementsFirstFailure` | internal/ast.go:116-121 | When the element loop fails, its error is that of the lowest failing index, prefixed with that index; every earlier element converted. |
| `Internal.ConvertElementsStopsAtFailure` | internal/ast.go:116-121 | Once a prefix fails, later elements do not change the result: the loop returns at the first error. |
| `Internal.ConvertSlice` | internal/ast.go:113-124 | The source's loop over a slice gives exactly `ToExpr` of that slice: the ARRAY literal, or the first element error prefixed with its index. |
| `Internal.NilIsNull` | internal/ast.go:21-22 | The untyped nil becomes the NULL literal. |
| `Internal.NullExactlyWhenAbsent` | internal/ast.go:19-130 | A value converts to NULL exactly when it is nil, a nil pointer, an invalid `Null*` wrapper, a nil `[]byte`, or a custom encoder that returns NULL. |
| `Internal.WrapperConvertsAsUnwrapped` | internal/ast.go:25-106 | Every pointer and `Null*` wrapper converts exactly as the value it stands for, and gives NULL exactly when that value is nil, whatever the payload. |
| `Internal.BytesAreBytesLiteral` | internal/ast.go:35-39 | A nil `[]byte` is NULL; any other `[]byte`, the empty one included, is a BYTES literal with exactly its bytes, never an ARRAY. |
| `Internal.IntegersAreDecimalLiterals` | internal/ast.go:40-58 | `int`, `int64`, their non-nil pointers and a valid `NullInt64` give a base-10 literal that reads back as the number. |
| `Internal.CustomEncoderVerbatim` | internal/ast.go:107-110 | A value with its own `ToASTExpr` gets that method's result unchanged, value or error. |
| `Internal.SliceIsArrayLiteral` | internal/ast.go:112-124 | A slice converts exactly when all its elements do, to an ARRAY literal of their conversions in order. Otherwise the error is the first failing element's error, prefixed by its index, and there is no partial result. |
| `Internal.EmptyAndNilSlicesAreEmptyArrays` | internal/ast.go:113-124 | An empty slice and a nil slice (not `[]byte`) both give the empty ARRAY literal. |
| `Internal.UnsupportedTypeIsError` | internal/ast.go:125-128 | A value of an unsupported type is the error `can't convert T into SQL expr`, naming its type. |
| `Internal.SucceedsIffConvertible` | internal/ast.go:19-130 | Conversion succeeds exactly when the value has no unsupported type at any depth and no failing custom encoder. The condition is stated without reference to the converter. |
| `Internal.NestedSlicesKeepShape` | internal/ast.go:113-124 | `[][]string{{}, {"a"}, {"b","c"}}` becomes an ARRAY of three ARRAYs of those strings, empty one included. |
| `Internal.NestedErrorsCarryEveryIndex` | internal/ast.go:116-121 | A bad value at index 0 of a slice at index 1 gives `AtIndex(1, AtIndex(0, ...))`: one prefix per level, the outer index outermost; the element after the bad one, whatever it is, does not change the result. |
| `Memeduck.ToExprAcceptsExactlyListed` | memeduck.go:88-153 | This `toExpr` succeeds exactly on strings, `[]byte`, `int`, `int64`, `bool`, `float64` and their pointers and wrappers. There it agrees with internal/ast.go. Anything else is the error naming its type: the untyped nil, time, date, slices and custom encoders included. |
| `Memeduck.ToExprNullsAndIntegers` | memeduck.go:88-153 | NULL comes out exactly for the absent forms of the accepted types. Present integers (`int`, `int64`, non-nil `*int` and `*int64`, valid `NullInt64`) give base-10 literals that read back as the number. |
| `Memeduck.ConvertRowMeaning` | memeduck.go:74-86 | A row converts exactly when each element does, to one `DefaultExpr` per element, in order. Otherwise it fails at its first failing element, with that element's error unchanged. |
| `Memeduck.ConvertRowsMeaning` | memeduck.go:45-53 | The input converts exactly when each row does, to one VALUES row per input row, in order. Otherwise the error is the first failing row's error, wrapped with that row's type. |
| `Memeduck.ConvertRowStopsAtFailure` | memeduck.go:78-82 | Once a prefix of a row fails, the remaining elements do not change the result. |
| `Memeduck.ConvertRowsStopsAtFailure` | memeduck.go:46-51 | Once a prefix of the rows fails, the remaining rows do not change the result. |
| `Memeduck.Build` | memeduck.go:37-59 | The INSERT is built exactly when all rows convert, and then names the table, one column per name in order, and the converted rows. Otherwise its error is that of the rows. |
| `Memeduck.ToValuesRow` | memeduck.go:74-86 | The source's element loop gives exactly `ConvertRow` of the row. |
| `Memeduck.ToAST` | memeduck.go:37-59 | The source's column loop and row loop give exactly `Build` of the statement. |
| `Memeduck.SQL` | memeduck.go:29-35 | No error exactly when the INSERT builds, and then the text is the rendering of that tree. Otherwise the text is empty and the error is the build error. |
| `Memeduck.BuildShape` | memeduck.go:37-59 | A built INSERT names the table and keeps the column names in order, duplicates included. It has one VALUES row per input row, each with exactly as many `DefaultExpr` as the input row has elements (none for an empty row), each wrapping that element's conversion. |
| `Memeduck.EmptyInputBuilds` | memeduck.go:42-58 | With no input rows the INSERT is built, with no VALUES rows and no error. |
| `Memeduck.BuildFailsAtFirstBadElement` | memeduck.go:45-53 | A failing INSERT fails at the first bad element of the first bad row. Its error is that element's error, wrapped with the row's type. |
| `Memeduck.UntypedNilRowFails` | memeduck.go:88-151 | `[][]interface{}{{nil, nil}}` is rejected with the row-type-wrapped error for `<nil>`. |
| `Memeduck.NilPointerRowIsNulls` | memeduck.go:109-113 | `[][]*int{{nil, nil}}` under columns `a, b` gives one VALUES row `(NULL, NULL)`. |
| `Memeduck.NonEmptyStringRowFails` | memeduck.go:74-86 | A string row of any non-zero length is read as its bytes and fails with `can't convert uint8`, wrapped with the row type `string`. |
| `Memeduck.EmptyStringRowIsEmpty` | memeduck.go:74-86 | An empty string row gives an empty VALUES row and no error. |
| `Where.ToASTExpr` | where.go:79-81 | `Ident(name).ToASTExpr()` is an identifier with exactly that name. |
| `Where.BoolToAstWhere` | where.go:13-22 | `Bool(v)` gives a WHERE clause holding the boolean literal `v`, and never fails. |
| `Where.OpToAstWhere` | where.go:42-67 | For any operator spelling, not only the six constants, `Op(lhs, op, rhs)` converts its operands only in `ToAstWhere`. It succeeds exactly when both operands convert. On failure it returns the left operand's error if that failed, else the right one's. On success it is the binary expression with the stored operator and the operands in the given order. |
| `Where.OpOperandOrder` | where.go:42-67 | Swapping the operands swaps the two sides of the comparison and nothing else. |
| `Where.OperatorConstants` | where.go:33-40 | `EQ`, `NE`, `LT`, `GT`, `LE` and `GE` are six distinct operators, spelled `=`, `!=`, `<`, `>`, `<=` and `>=`. |
| `Where.IdentOperandIsUnsupported` | where.go:69-81 | An `*IdentExpr` used as an operand is rejected with an error naming `*memeduck.IdentExpr`. Its one-result `ToASTExpr` does not make it an encoder. |
| `Subquery.As` | subquery.go:20-24 | `As(a)` gives a copy with alias `a`, the same query and the same kind. |
| `Subquery.ToASTResult` | subquery.go:26-47 | The query's build error is returned unchanged. Otherwise the item is plain when there is no alias, and an `Alias` named by the alias when there is one, around the subquery node of the built query. |
| `Subquery.AliasLifecycle` | subquery.go:14-47 | A fresh scalar or array subquery is a plain item. After `As(a)` with a non-empty `a` it is aliased `a`. The last `As` wins. |
| `Subquery.KindsDifferOnlyInNode` | subquery.go:26-86 | The scalar and array forms of one query and alias give the same error, or the same item apart from the kind of subquery node. |
| `Internal.ToExpr` | internal/ast.go:19-131 | The dispatcher itself. Its contract is carried by `Internal.NullExactlyWhenAbsent`, `WrapperConvertsAsUnwrapped`, `BytesAreBytesLiteral`, `IntegersAreDecimalLiterals`, `CustomEncoderVerbatim`, `SliceIsArrayLiteral`, `UnsupportedTypeIsError` and `SucceedsIffConvertible`. |
| `Internal.ConvertElements` | internal/ast.go:115-123 | The element loop as a recursive function; see `Internal.ConvertElementsMeaning` and `ConvertElementsFirstFailure`. |
| `Internal.NullLit` | internal/ast.go:186-188 | The NULL node; see `Internal.NullExactlyWhenAbsent`. |
| `Internal.StringLit` | internal/ast.go:133-137 | A STRING node with exactly the given text; see `Internal.WrapperConvertsAsUnwrapped`. |
| `Internal.BytesLit` | internal/ast.go:139-143 | A BYTES node with exactly the given bytes; see `Internal.BytesAreBytesLiteral`. |
| `Internal.IntLit` | internal/ast.go:145-150 | A base-10 INT64 node; see `Internal.IntLitIsDecimal`. |
| `Internal.BoolLit` | internal/ast.go:152-156 | A BOOL node with the given value; see `Where.BoolToAstWhere`. |
| `Internal.FloatLit` | internal/ast.go:158-162 | A FLOAT64 node keeping the payload (its text is left out). |
| `Internal.TimeLit` | internal/ast.go:164-170 | A TIMESTAMP node keeping the payload (its text is left out). |
| `Internal.DateLit` | internal/ast.go:172-178 | A DATE node keeping the payload (its text is left out). |
| `Internal.ArrayLit` | internal/ast.go:180-184 | An ARRAY node with the given elements in order; see `Internal.SliceIsArrayLiteral`. |
| `Memeduck.Insert` | memeduck.go:20-27 | Keeps table, columns and input as given; see `Memeduck.BuildShape`. |
| `Memeduck.ToExpr` | memeduck.go:88-153 | This file's converter; see `Memeduck.ToExprAcceptsExactlyListed` and `ToExprNullsAndIntegers`. |
| `Memeduck.ConvertRow` | memeduck.go:74-86 | The row loop as a recursive function; see `Memeduck.ConvertRowMeaning` and `Memeduck.ToValuesRow`. |
| `Memeduck.ConvertRows` | memeduck.go:45-53 | The input loop as a recursive function; see `Memeduck.ConvertRowsMeaning` and `Memeduck.ToAST`. |
| `Where.Bool` | where.go:19-22 | An `ExprCond` holding the boolean literal; see `Where.BoolToAstWhere`. |
| `Where.Op` | where.go:60-67 | An `OpCond` storing both operands unconverted and the operator; see `Where.OpToAstWhere`. |
| `Where.ToAstWhere` | where.go:13-17 | Both `ToAstWhere` methods (also where.go:42-58); see `Where.BoolToAstWhere`, `OpToAstWhere` and `OpOperandOrder`. |
| `Where.Ident` | where.go:74-77 | An `IdentExpr` with the name; see `Where.ToASTExpr` and `IdentOperandIsUnsupported`. |
| `Subquery.ScalarSubQuery` | subquery.go:14-18 | A scalar subquery with no alias; see `Subquery.AliasLifecycle`. |
| `Subquery.ArraySubQuery` | subquery.go:54-58 | An array subquery with no alias; see `Subquery.AliasLifecycle`. |
| `Subquery.ToAST` | subquery.go:26-47 | Both `ToAST` methods (also subquery.go:66-87); see `Subquery.ToASTResult` and `KindsDifferOnlyInNode`. |

## Left out

- Text rendering (`stmt.SQL()` of the memefish tree) is not modelled. `Memeduck.SQL` takes the renderer as a parameter.
- Float, timestamp and date literal text are not modelled. That text comes from `strconv.FormatFloat`, `time.Format` and `civil.Date.String`, which are not part of this model; `FloatLit`, `TimeLit` and `DateLit` keep the payload in the node instead.
- Reflection is not modelled. `reflect.ValueOf(...).Len()` and `Index(i)` on the input and on each row become sequences. A slice or array row is `Row(typ, elems)`, a string row is `Row("string", ...)` with one `Other("uint8")` per byte (`Memeduck.NonEmptyStringRowFails`, `Memeduck.EmptyStringRowIsEmpty`), an empty or nil map or chan row is `Row(typ, [])`, and an empty map or chan input is the empty input `[]`. Reflection panics on an input or row whose kind is not slice, array, string, map or chan (a nil input included, and e.g. `Insert("t", cols, 42)`), and on a non-empty map or chan; those panics are not modelled.
- `SelectStmt` and its `toAST` are not part of this model. The subquery functions take the query builder as a function parameter, and `Ast.Select` is an opaque token.
- Go's `int` is taken to be 64 bits wide, so `int64(v)` for an `int` is the identity.
- Aliasing is not modelled: pointers become `Option` values, so two pointers to one variable are two copies, and the statements and conditions are values.
- A Go value whose type has its own `ToASTExpr` and is also a slice: the source tries the encoder first. In the closed datatype such a value is a `Custom` value, so the order is built into the type rather than shown by a proof.
- Pointers to pointers, structs, maps, `big.Rat` and every other type are the single `Other(typ)` constructor. The source rejects them all in the same branch.
- The chained builder API that the repository's tests call (`Insert(table, cols).Values(rows)`, `Where`, `Select`, `Update`, `Delete`) is not in these files and is not modelled.

## Where the code and the documentation differ

The model follows the code in each case.

- A nil slice of a type other than `[]byte` becomes an empty ARRAY literal in `internal/ast.go` (lines 113-124). doc.go line 10 says that a nil of any type becomes NULL. See `Internal.EmptyAndNilSlicesAreEmptyArrays`.
- The `toExpr` of `memeduck.go` (lines 88-153) has no case for the untyped nil, `time.Time` or `civil.Date`. So an INSERT row `{nil, nil}` is an error there (`Memeduck.UntypedNilRowFails`), whereas the repository's tests, which use the chained API, expect `VALUES (NULL, NULL)`. Typed nil pointers do give NULL (`Memeduck.NilPointerRowIsNulls`).
- A nil of any type the switch does not list (a nil map, a nil pointer to a struct, a nil `**int`, ...) is the `can't convert` error of internal/ast.go lines 125-128, not NULL, although doc.go line 10 says NULL. In the model it is `Other(typ)`; see `Internal.UnsupportedTypeIsError`.
- internal/ast_test.go lines 138-146 expect a type whose `ToASTExpr` returns one value to be used as an encoder. The code only accepts the two-result form (internal/ast.go lines 14-17 and 108-110), so such a value is rejected; in the model it is `Other(typ)`.
- An empty input gives an INSERT with no VALUES rows and no error (`Memeduck.EmptyInputBuilds`). The tests of the chained API expect an error there.
- `IdentExpr.ToASTExpr` returns one value, while the encoder interface requires two, so an identifier passed to `Op` is rejected instead of becoming a column reference (`Where.IdentOperandIsUnsupported`).
