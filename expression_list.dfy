/** A list of expressions, such as `x, y, z`. It is built either from a parse
    event, which supplies the span, or from an explicit non-empty list of
    already-built expressions, whose span runs from the first expression's
    first token to the last expression's last token. */
module ExpressionListTrees {
  import opened Tokens
  import opened Trees

  type ExpressionListTree = t: Tree | t.ExpressionList?
    witness ExpressionList(Token("x", Position(1, 0)), Token("x", Position(1, 0)), [])

  /** Construction from a parse event: the span is the range the parser matched. */
  function FromAst(node: AstNode, expressions: seq<Tree>): (t: ExpressionListTree)
    ensures t.FirstToken() == node.token && t.LastToken() == node.lastToken
    ensures Expressions(t) == expressions
    ensures t.GetKind() == ExpressionListKind
  {
    ExpressionList(node.token, node.lastToken, expressions)
  }

  /** Construction from a list: the span is derived from the end elements. */
  function Of(expressions: seq<Tree>): (t: ExpressionListTree)
    requires |expressions| > 0
    ensures t.FirstToken() == expressions[0].FirstToken()
    ensures t.LastToken() == expressions[|expressions| - 1].LastToken()
    ensures Expressions(t) == expressions
    ensures t.GetKind() == ExpressionListKind
  {
    ExpressionList(expressions[0].FirstToken(), expressions[|expressions| - 1].LastToken(), expressions)
  }

  /** The list constructor as it behaves on every input: on an empty list the
      lookup of element 0 fails and no node is built. */
  function TryOf(expressions: seq<Tree>): (r: Result<ExpressionListTree>)
    ensures r.Failure? <==> |expressions| == 0
    ensures r.Failure? ==> r.error == IndexOutOfBounds(0, 0)
    ensures r.Success? ==>
      && r.value.Children() == expressions
      && r.value.FirstToken() == expressions[0].FirstToken()
      && r.value.LastToken() == expressions[|expressions| - 1].LastToken()
  {
    if |expressions| == 0 then Failure(IndexOutOfBounds(0, 0)) else Success(Of(expressions))
  }

  /** The expressions, which are also the node's generic children, in order;
      with the span they determine the node. */
  function Expressions(t: ExpressionListTree): (es: seq<Tree>)
    ensures es == t.Children()
    ensures t == ExpressionList(t.FirstToken(), t.LastToken(), es)
  {
    t.expressions
  }

  /** On either construction path, the children and the expressions are the
      list the node was built from. */
  lemma BothPathsKeepTheList(node: AstNode, expressions: seq<Tree>)
    ensures FromAst(node, expressions).Children() == expressions
    ensures |expressions| > 0 ==> Of(expressions).Children() == expressions
  {}

  /** A one-element list spans exactly what its element spans. */
  lemma SingletonSpan(e: Tree)
    ensures Of([e]).FirstToken() == e.FirstToken()
    ensures Of([e]).LastToken() == e.LastToken()
  {}

  /** The two construction paths build the same node exactly when the
      parser's range is the one the list path derives. */
  lemma PathsAgree(node: AstNode, expressions: seq<Tree>)
    requires |expressions| > 0
    ensures FromAst(node, expressions) == Of(expressions) <==>
      node.token == expressions[0].FirstToken() &&
      node.lastToken == expressions[|expressions| - 1].LastToken()
  {}

  lemma KindIsExpressionList(t: ExpressionListTree)
    ensures t.GetKind() == ExpressionListKind
  {}

  /** `Accept` calls the expression-list handler with the node itself,
      whatever the other handlers are. */
  lemma AcceptCallsVisitExpressionList<R>(t: ExpressionListTree, v: Visitor<R>)
    ensures t.Dispatch() == VisitExpressionList
    ensures t.Accept(v) == v.visitExpressionList(t)
  {}

  /** The parse-event path yields a well-formed list when the parser's range
      starts at or before the first expression and ends at or after the last,
      and the expressions are well formed and in source order. */
  lemma FromAstWellFormed(node: AstNode, expressions: seq<Tree>)
    requires AtOrBefore(node.token.position, node.lastToken.position)
    requires forall k :: 0 <= k < |expressions| ==> WellFormed(expressions[k])
    requires InSourceOrder(expressions)
    requires |expressions| > 0 ==>
      AtOrBefore(node.token.position, expressions[0].FirstToken().position) &&
      AtOrBefore(expressions[|expressions| - 1].LastToken().position, node.lastToken.position)
    ensures WellFormed(FromAst(node, expressions))
  {
    if |expressions| > 0 {
      BoundsEncloseChildren(FromAst(node, expressions));
    }
  }

  /** When the expressions are well formed and in source order, the derived
      span encloses every one of them and the node is well formed. */
  lemma OfEnclosesChildren(expressions: seq<Tree>)
    requires |expressions| > 0
    requires forall k :: 0 <= k < |expressions| ==> WellFormed(expressions[k])
    requires InSourceOrder(expressions)
    ensures forall k :: 0 <= k < |expressions| ==> Encloses(Of(expressions), expressions[k])
    ensures WellFormed(Of(expressions))
  {
    var t := Of(expressions);
    AtOrBeforeReflexive(expressions[0].FirstToken().position);
    AtOrBeforeReflexive(expressions[|expressions| - 1].LastToken().position);
    BoundsEncloseChildren(t);
  }
}
