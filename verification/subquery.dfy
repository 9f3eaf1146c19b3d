/** subquery.go: scalar and array subqueries used as select items. The
    wrapped SELECT builder is a type parameter `S`; building its tree (the
    source's `SelectStmt.toAST`) is the function `build`, passed in. */
module Subquery {
  import opened Wrappers
  import opened Values
  import Ast

  /** `ScalarSubQueryStmt` and `ArraySubQueryStmt`: an alias (empty for
      none) and the wrapped query. */
  datatype SubQueryStmt<S> =
    | ScalarSubQueryStmt(alias: string, query: S)
    | ArraySubQueryStmt(alias: string, query: S)

  /** `ScalarSubQuery(stmt)`: no alias. */
  function ScalarSubQuery<S>(stmt: S): SubQueryStmt<S> {
    ScalarSubQueryStmt("", stmt)
  }

  /** `ArraySubQuery(stmt)`: no alias. */
  function ArraySubQuery<S>(stmt: S): SubQueryStmt<S> {
    ArraySubQueryStmt("", stmt)
  }

  /** `As(a)`: a copy with alias `a`; the receiver is a value and keeps its
      own alias. */
  function As<S>(s: SubQueryStmt<S>, a: string): (t: SubQueryStmt<S>)
    ensures t.alias == a && t.query == s.query
    ensures t.ScalarSubQueryStmt? <==> s.ScalarSubQueryStmt?
  {
    s.(alias := a)
  }

  /** The subquery expression node for the statement's kind. */
  function SubQueryNode<S>(s: SubQueryStmt<S>, sel: Ast.Select): Ast.Expr {
    if s.ScalarSubQueryStmt? then Ast.ScalarSubQuery(sel) else Ast.ArraySubQuery(sel)
  }

  /** `ToAST`: build the wrapped query, returning its error unchanged; then a
      plain item when there is no alias, an `Alias` item otherwise. */
  function ToAST<S>(s: SubQueryStmt<S>, build: S -> Result<Ast.Select, Error>): Result<Ast.SelectItem, Error> {
    match build(s.query)
    case Failure(e) => Failure(e)
    case Success(sel) =>
      var expr := SubQueryNode(s, sel);
      if s.alias == "" then Success(Ast.ExprSelectItem(expr))
      else Success(Ast.Alias(expr, Ast.AsAlias(Ast.Ident(s.alias))))
  }

  /** What `ToAST` gives: the query's own error when it fails to build;
      otherwise a plain item or, with an alias, an `Alias` named by it,
      around the subquery node of the built query. */
  lemma ToASTResult<S>(s: SubQueryStmt<S>, build: S -> Result<Ast.Select, Error>)
    ensures build(s.query).Failure? ==> ToAST(s, build) == Failure(build(s.query).error)
    ensures build(s.query).Success? ==> ToAST(s, build).Success?
    ensures build(s.query).Success? && s.alias == "" ==>
      ToAST(s, build).value == Ast.ExprSelectItem(SubQueryNode(s, build(s.query).value))
    ensures build(s.query).Success? && s.alias != "" ==>
      ToAST(s, build).value.Alias? &&
      ToAST(s, build).value.asAlias.alias.name == s.alias &&
      ToAST(s, build).value.expr == SubQueryNode(s, build(s.query).value)
  {
  }

  /** A freshly made scalar or array subquery converts to a plain item;
      after `As(a)` with a non-empty `a` to an item aliased `a`; the last
      `As` wins. */
  lemma AliasLifecycle<S>(q: S, a: string, b: string, build: S -> Result<Ast.Select, Error>)
    requires build(q).Success?
    ensures ToAST(ScalarSubQuery(q), build) == Success(Ast.ExprSelectItem(Ast.ScalarSubQuery(build(q).value)))
    ensures ToAST(ArraySubQuery(q), build) == Success(Ast.ExprSelectItem(Ast.ArraySubQuery(build(q).value)))
    ensures a != "" ==>
      (ToAST(As(ScalarSubQuery(q), a), build) ==
       Success(Ast.Alias(Ast.ScalarSubQuery(build(q).value), Ast.AsAlias(Ast.Ident(a)))))
    ensures As(As(ScalarSubQuery(q), a), b) == As(ScalarSubQuery(q), b)
  {
  }

  /** The scalar and array forms of one query and alias differ only in the
      kind of subquery node: same error, or the same item with the node's
      kind swapped. */
  lemma KindsDifferOnlyInNode<S>(alias: string, q: S, build: S -> Result<Ast.Select, Error>)
    ensures var sc := ToAST(ScalarSubQueryStmt(alias, q), build);
      var ar := ToAST(ArraySubQueryStmt(alias, q), build);
      (sc.Failure? <==> ar.Failure?) &&
      (sc.Failure? ==> sc.error == ar.error) &&
      (sc.Success? ==>
        sc.value.expr == Ast.ScalarSubQuery(build(q).value) &&
        ar.value.expr == Ast.ArraySubQuery(build(q).value) &&
        (sc.value.ExprSelectItem? <==> ar.value.ExprSelectItem?) &&
        (sc.value.Alias? ==> ar.value.Alias? && sc.value.asAlias == ar.value.asAlias))
  {
  }
}
