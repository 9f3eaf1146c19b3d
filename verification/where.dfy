/** where.go: WHERE-clause leaf conditions. Operands are kept as given and
    converted by the dispatcher of internal/ast.go only when the condition is
    turned into a tree. */
module Where {
  import opened Wrappers
  import opened Values
  import Ast
  import Internal

  /** The exported operator constants. Where's `BinaryOp` is a conversion of
      `ast.BinaryOp`, so `Op` accepts any operator spelling, not only these. */
  const EQ: Ast.BinaryOp := Ast.OpEqual
  const NE: Ast.BinaryOp := Ast.OpNotEqual
  const LT: Ast.BinaryOp := Ast.OpLess
  const GT: Ast.BinaryOp := Ast.OpGreater
  const LE: Ast.BinaryOp := Ast.OpLessEqual
  const GE: Ast.BinaryOp := Ast.OpGreaterEqual

  /** The two condition types: `ExprCond`, holding a ready expression, and
      `OpCond`, holding two unconverted operands and an operator. */
  datatype Cond =
    | ExprCond(expr: Ast.Expr)
    | OpCond(lhs: Value, rhs: Value, op: Ast.BinaryOp)

  /** `Bool(v)`. */
  function Bool(v: bool): Cond {
    ExprCond(Internal.BoolLit(v))
  }

  /** `Op(lhs, op, rhs)`. */
  function Op(lhs: Value, op: Ast.BinaryOp, rhs: Value): Cond {
    OpCond(lhs, rhs, op)
  }

  /** `ToAstWhere` of both condition types: an `ExprCond` never fails; an
      `OpCond` converts its left operand, then its right one, and returns the
      first error as it is. */
  function ToAstWhere(c: Cond): Result<Ast.Where, Error> {
    match c
    case ExprCond(e) => Success(Ast.Where(e))
    case OpCond(lhs, rhs, op) =>
      match Internal.ToExpr(lhs)
      case Failure(e) => Failure(e)
      case Success(l) =>
        match Internal.ToExpr(rhs)
        case Failure(e) => Failure(e)
        case Success(r) => Success(Ast.Where(Ast.BinaryExpr(op, l, r)))
  }

  /** `IdentExpr`, built by `Ident(name)`. */
  datatype IdentExpr = IdentExpr(name: string)

  function Ident(name: string): IdentExpr {
    IdentExpr(name)
  }

  /** `IdentExpr.ToASTExpr`: an identifier with exactly the given name. */
  function ToASTExpr(ie: IdentExpr): (e: Ast.Expr)
    ensures e.Identifier? && e.ident.name == ie.name
  {
    Ast.Identifier(Ast.Ident(ie.name))
  }

  /** An `*IdentExpr` passed where a value is expected. Its `ToASTExpr` has
      one result, so it is not a custom encoder (`ToASTExpr() (ast.Expr,
      error)`): for the dispatcher it is a value of an unsupported type. */
  function AsOperand(ie: IdentExpr): Value {
    Other("*memeduck.IdentExpr")
  }

  /** `Bool(v)` gives the boolean literal `v` and never fails. */
  lemma BoolToAstWhere(v: bool)
    ensures ToAstWhere(Bool(v)) == Success(Ast.Where(Ast.BoolLiteral(v)))
  {
  }

  /** `Op` defers conversion: the condition is built whatever the operands,
      and `ToAstWhere` fails exactly when an operand does not convert, with
      the left operand's error when it fails and the right one's otherwise;
      on success it is the comparison of the two converted operands, with
      the stored operator and the operands in their given order. */
  lemma OpToAstWhere(lhs: Value, op: Ast.BinaryOp, rhs: Value)
    ensures var w := ToAstWhere(Op(lhs, op, rhs));
      (w.Success? <==> Internal.ToExpr(lhs).Success? && Internal.ToExpr(rhs).Success?) &&
      (Internal.ToExpr(lhs).Failure? ==> w == Failure(Internal.ToExpr(lhs).error)) &&
      (Internal.ToExpr(lhs).Success? && Internal.ToExpr(rhs).Failure? ==>
         w == Failure(Internal.ToExpr(rhs).error)) &&
      (w.Success? ==>
         w.value.expr == Ast.BinaryExpr(op, Internal.ToExpr(lhs).value, Internal.ToExpr(rhs).value))
  {
  }

  /** Swapping the operands swaps the two sides of the comparison and
      nothing else. */
  lemma OpOperandOrder(a: Value, op: Ast.BinaryOp, b: Value)
    requires ToAstWhere(Op(a, op, b)).Success?
    ensures ToAstWhere(Op(b, op, a)).Success?
    ensures var ab := ToAstWhere(Op(a, op, b)).value.expr;
      var ba := ToAstWhere(Op(b, op, a)).value.expr;
      ab.left == ba.right && ab.right == ba.left && ab.op == ba.op
  {
  }

  /** The six constants are six distinct operators, spelled `=`, `!=`, `<`,
      `>`, `<=` and `>=`. */
  lemma OperatorConstants()
    ensures EQ.token == "=" && NE.token == "!=" && LT.token == "<"
    ensures GT.token == ">" && LE.token == "<=" && GE.token == ">="
    ensures |{EQ, NE, LT, GT, LE, GE}| == 6
  {
  }

  /** An identifier used as an operand is rejected, with an error naming
      the `*memeduck.IdentExpr` type, never converted to a column reference. */
  lemma IdentOperandIsUnsupported(name: string, op: Ast.BinaryOp, rhs: Value)
    ensures ToAstWhere(Op(AsOperand(Ident(name)), op, rhs)) ==
      Failure(CantConvert("*memeduck.IdentExpr"))
  {
    Internal.UnsupportedTypeIsError("*memeduck.IdentExpr");
  }
}
