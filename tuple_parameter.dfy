/** A parenthesised parameter group, such as `(a, b)` in `def f((a, b)):`.
    It keeps its parameters and the commas between them apart; the
    parentheses are the first and last tokens of its span. */
module TupleParameterTrees {
  import opened Tokens
  import opened Trees

  type TupleParameterTree = t: Tree | t.TupleParameter?
    witness TupleParameter(Token("(", Position(1, 0)), Token(")", Position(1, 1)), [], [])

  /** Construction from a parse event: the span is the range the parser matched. */
  function New(node: AstNode, parameters: seq<Tree>, commas: seq<Token>): (t: TupleParameterTree)
    ensures t.FirstToken() == node.token && t.LastToken() == node.lastToken
    ensures Parameters(t) == parameters && Commas(t) == commas
    ensures t.GetKind() == TupleParameterKind
  {
    TupleParameter(node.token, node.lastToken, parameters, commas)
  }

  function OpeningParenthesis(t: TupleParameterTree): (paren: Token)
    ensures paren == t.FirstToken()
  {
    t.first
  }

  /** The parameters, which are also the node's generic children, in order. */
  function Parameters(t: TupleParameterTree): (ps: seq<Tree>)
    ensures ps == t.Children()
  {
    t.parameters
  }

  /** The separating commas: together with the span and the children they
      determine the node, and they are not among the children. */
  function Commas(t: TupleParameterTree): (cs: seq<Token>)
    ensures t == TupleParameter(t.FirstToken(), t.LastToken(), t.Children(), cs)
  {
    t.commas
  }

  function ClosingParenthesis(t: TupleParameterTree): (paren: Token)
    ensures paren == t.LastToken()
  {
    t.last
  }

  /** The commas are not children: whatever commas a group is built with, its
      children are exactly the parameters it was given, and the commas are
      returned unchanged by `Commas` alone. */
  lemma ChildrenExcludeCommas(node: AstNode, parameters: seq<Tree>, commas: seq<Token>, otherCommas: seq<Token>)
    ensures New(node, parameters, commas).Children() == parameters
    ensures New(node, parameters, commas).Children() == New(node, parameters, otherCommas).Children()
    ensures Commas(New(node, parameters, commas)) == commas
  {}

  lemma KindIsTupleParameter(t: TupleParameterTree)
    ensures t.GetKind() == TupleParameterKind
  {}

  /** `Accept` calls the tuple-parameter handler with the node itself, whatever
      the other handlers are. */
  lemma AcceptCallsVisitTupleParameter<R>(t: TupleParameterTree, v: Visitor<R>)
    ensures t.Dispatch() == VisitTupleParameter
    ensures t.Accept(v) == v.visitTupleParameter(t)
  {}

  /** The parse-event path yields a well-formed group when the parser's range
      starts at or before the first parameter and ends at or after the last,
      and the parameters are well formed and in source order. */
  lemma NewWellFormed(node: AstNode, parameters: seq<Tree>, commas: seq<Token>)
    requires AtOrBefore(node.token.position, node.lastToken.position)
    requires forall k :: 0 <= k < |parameters| ==> WellFormed(parameters[k])
    requires InSourceOrder(parameters)
    requires |parameters| > 0 ==>
      AtOrBefore(node.token.position, parameters[0].FirstToken().position) &&
      AtOrBefore(parameters[|parameters| - 1].LastToken().position, node.lastToken.position)
    ensures WellFormed(New(node, parameters, commas))
  {
    var t := New(node, parameters, commas);
    if |parameters| > 0 {
      BoundsEncloseChildren(t);
    }
  }
}
