/** The SQL syntax-tree nodes the converters build. They mirror the nodes of
    the memefish parser library, keeping only the fields this code sets; the
    SQL text a node renders to is outside the model. */
module Ast {
  import opened Host

  /** An identifier (`ast.Ident`). */
  datatype Ident = Ident(name: string)

  /** A binary operator (`ast.BinaryOp`): memefish declares it as a string
      type holding the operator's spelling, so any spelling can be stored,
      not only those of the named constants below. */
  datatype BinaryOp = BinaryOp(token: string)

  /** memefish's comparison operator constants. */
  const OpEqual: BinaryOp := BinaryOp("=")
  const OpNotEqual: BinaryOp := BinaryOp("!=")
  const OpLess: BinaryOp := BinaryOp("<")
  const OpGreater: BinaryOp := BinaryOp(">")
  const OpLessEqual: BinaryOp := BinaryOp("<=")
  const OpGreaterEqual: BinaryOp := BinaryOp(">=")

  /** A SELECT statement's tree (`*ast.Select`). The builder that produces it
      is not part of this model, so its contents are an opaque token. */
  datatype Select = Select(token: nat)

  /** Expressions (`ast.Expr`). Float, timestamp and date literals keep the
      payload they were built from; memefish stores its formatted text. */
  datatype Expr =
    | NullLiteral
    | StringLiteral(value: string)
    | BytesLiteral(bytes: seq<byte>)
    | IntLiteral(base: int, value: string)
    | BoolLiteral(boolValue: bool)
    | FloatLiteral(float: FloatBits)
    | TimestampLiteral(time: Timestamp)
    | DateLiteral(date: CivilDate)
    | ArrayLiteral(values: seq<Expr>)
    | Identifier(ident: Ident)
    | BinaryExpr(op: BinaryOp, left: Expr, right: Expr)
    | ScalarSubQuery(query: Select)
    | ArraySubQuery(query: Select)

  /** A WHERE clause (`ast.Where`). */
  datatype Where = Where(expr: Expr)

  /** `ast.AsAlias`: the `AS name` part of an aliased select item. */
  datatype AsAlias = AsAlias(alias: Ident)

  /** Select-list items (`ast.SelectItem`). */
  datatype SelectItem =
    | ExprSelectItem(expr: Expr)
    | Alias(expr: Expr, asAlias: AsAlias)

  /** One value of a VALUES row (`ast.DefaultExpr` with only `Expr` set). */
  datatype DefaultExpr = DefaultExpr(expr: Expr)

  datatype ValuesRow = ValuesRow(exprs: seq<DefaultExpr>)

  datatype ValuesInput = ValuesInput(rows: seq<ValuesRow>)

  /** An INSERT statement (`ast.Insert`). */
  datatype Insert = Insert(tableName: Ident, columns: seq<Ident>, input: ValuesInput)
}
