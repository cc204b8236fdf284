/** The syntax-tree node layer of the Python front end: one immutable `Tree`
    value per node, with its span (first and last token), its kind tag, its
    ordered children and its visitor dispatch. The two node classes modelled
    in full have their own constructors; every other node class of the
    catalogue is represented by `OtherTree`, which carries its own kind name
    and children. */
module Trees {
  import opened Tokens

  /** The kind tag of a node, one per grammar production. */
  datatype Kind = ExpressionListKind | TupleParameterKind | OtherKind(name: string)

  /** What the parser hands to a node's constructor on the parse-event path:
      the first and last tokens of the range it matched. */
  datatype AstNode = AstNode(token: Token, lastToken: Token)

  /** The fault a constructor raises when misused. */
  datatype Fault = IndexOutOfBounds(index: int, length: nat)

  datatype Result<T> = Success(value: T) | Failure(error: Fault)

  /** The visitor methods a node's `Accept` may call. */
  datatype VisitMethod = VisitExpressionList | VisitTupleParameter | VisitOther

  /** A visitor: one handler per visitor method; a handler receives the node
      that accepted the visitor. `R` is whatever the handler produces. */
  datatype Visitor<R> = Visitor(
    visitExpressionList: Tree -> R,
    visitTupleParameter: Tree -> R,
    visitOther: Tree -> R)
  {
    function Method(m: VisitMethod): Tree -> R {
      match m
      case VisitExpressionList => visitExpressionList
      case VisitTupleParameter => visitTupleParameter
      case VisitOther => visitOther
    }
  }

  datatype Tree =
    | ExpressionList(first: Token, last: Token, expressions: seq<Tree>)
    | TupleParameter(first: Token, last: Token, parameters: seq<Tree>, commas: seq<Token>)
    | OtherTree(name: string, first: Token, last: Token, subtrees: seq<Tree>)
  {
    function FirstToken(): Token { first }

    function LastToken(): Token { last }

    /** The semantic sub-nodes in source order; separator tokens are not trees.
        Every child is strictly smaller than its node, so a node never
        reaches itself through its children. */
    function Children(): (cs: seq<Tree>)
      ensures forall i :: 0 <= i < |cs| ==> cs[i] < this
    {
      match this
      case ExpressionList(_, _, es) => es
      case TupleParameter(_, _, ps, _) => ps
      case OtherTree(_, _, _, cs) => cs
    }

    /** The kind tag identifies the node's shape, in both directions. */
    function GetKind(): (k: Kind)
      ensures k == ExpressionListKind <==> this.ExpressionList?
      ensures k == TupleParameterKind <==> this.TupleParameter?
      ensures k.OtherKind? <==> this.OtherTree?
    {
      match this
      case ExpressionList(_, _, _) => ExpressionListKind
      case TupleParameter(_, _, _, _) => TupleParameterKind
      case OtherTree(n, _, _, _) => OtherKind(n)
    }

    /** The visitor method that `Accept` calls on this node. */
    function Dispatch(): (m: VisitMethod)
      ensures m == VisitExpressionList <==> GetKind() == ExpressionListKind
      ensures m == VisitTupleParameter <==> GetKind() == TupleParameterKind
      ensures m == VisitOther <==> GetKind().OtherKind?
    {
      match this
      case ExpressionList(_, _, _) => VisitExpressionList
      case TupleParameter(_, _, _, _) => VisitTupleParameter
      case OtherTree(_, _, _, _) => VisitOther
    }

    /** Double dispatch: the node hands itself to the one handler of `v`
        reserved for its kind. */
    function Accept<R>(v: Visitor<R>): (r: R)
      ensures r == v.Method(Dispatch())(this)
    {
      match this
      case ExpressionList(_, _, _) => v.visitExpressionList(this)
      case TupleParameter(_, _, _, _) => v.visitTupleParameter(this)
      case OtherTree(_, _, _, _) => v.visitOther(this)
    }
  }

  /** Two visitors that agree on the handler a node selects give the same
      result: no other handler takes part in `Accept`. */
  lemma AcceptUsesOnlySelectedHandler<R>(t: Tree, v: Visitor<R>, w: Visitor<R>)
    requires v.Method(t.Dispatch()) == w.Method(t.Dispatch())
    ensures t.Accept(v) == t.Accept(w)
  {}

  // ----- spans -----

  /** The node's first token is at or before its last token. */
  predicate SpanOrdered(t: Tree) {
    AtOrBefore(t.FirstToken().position, t.LastToken().position)
  }

  /** The span of `outer` encloses the span of `inner`. */
  predicate Encloses(outer: Tree, inner: Tree) {
    AtOrBefore(outer.FirstToken().position, inner.FirstToken().position) &&
    AtOrBefore(inner.LastToken().position, outer.LastToken().position)
  }

  /** Each element ends at or before the next one starts. */
  predicate InSourceOrder(ts: seq<Tree>) {
    forall i :: 0 <= i < |ts| - 1 ==>
      AtOrBefore(ts[i].LastToken().position, ts[i + 1].FirstToken().position)
  }

  /** The node's own span is ordered, its children are in source order and
      its span encloses each of them. */
  predicate LocallyWellFormed(t: Tree) {
    SpanOrdered(t) && InSourceOrder(t.Children()) &&
    forall i :: 0 <= i < |t.Children()| ==> Encloses(t, t.Children()[i])
  }

  /** The structural span invariant, for the node and every node below it. */
  predicate WellFormed(t: Tree) {
    LocallyWellFormed(t) &&
    match t
    case ExpressionList(_, _, es) => forall i :: 0 <= i < |es| ==> WellFormed(es[i])
    case TupleParameter(_, _, ps, _) => forall i :: 0 <= i < |ps| ==> WellFormed(ps[i])
    case OtherTree(_, _, _, cs) => forall i :: 0 <= i < |cs| ==> WellFormed(cs[i])
  }

  /** In a sequence of well-formed spans in source order, a later element
      starts and ends no earlier than an earlier one. */
  lemma {:induction false} LaterElementsFollow(ts: seq<Tree>, i: int, j: int)
    requires forall k :: 0 <= k < |ts| ==> SpanOrdered(ts[k])
    requires InSourceOrder(ts)
    requires 0 <= i <= j < |ts|
    ensures AtOrBefore(ts[i].FirstToken().position, ts[j].FirstToken().position)
    ensures AtOrBefore(ts[i].LastToken().position, ts[j].LastToken().position)
    decreases j - i
  {
    if i == j {
      AtOrBeforeReflexive(ts[i].FirstToken().position);
      AtOrBeforeReflexive(ts[i].LastToken().position);
    } else {
      LaterElementsFollow(ts, i + 1, j);
      var a, b := ts[i], ts[i + 1];
      assert AtOrBefore(a.LastToken().position, b.FirstToken().position);
      AtOrBeforeTransitive(a.FirstToken().position, a.LastToken().position, b.FirstToken().position);
      AtOrBeforeTransitive(a.FirstToken().position, b.FirstToken().position, ts[j].FirstToken().position);
      AtOrBeforeTransitive(a.LastToken().position, b.FirstToken().position, b.LastToken().position);
      AtOrBeforeTransitive(a.LastToken().position, b.LastToken().position, ts[j].LastToken().position);
    }
  }

  /** A span that starts at or before the first child and ends at or after the
      last one encloses every child, when the children are well formed and in
      source order. */
  lemma {:induction false} BoundsEncloseChildren(t: Tree)
    requires |t.Children()| > 0
    requires forall k :: 0 <= k < |t.Children()| ==> SpanOrdered(t.Children()[k])
    requires InSourceOrder(t.Children())
    requires AtOrBefore(t.FirstToken().position, t.Children()[0].FirstToken().position)
    requires AtOrBefore(t.Children()[|t.Children()| - 1].LastToken().position, t.LastToken().position)
    ensures SpanOrdered(t)
    ensures forall k :: 0 <= k < |t.Children()| ==> Encloses(t, t.Children()[k])
  {
    var cs := t.Children();
    var n := |cs|;
    forall k | 0 <= k < n
      ensures Encloses(t, cs[k])
    {
      LaterElementsFollow(cs, 0, k);
      LaterElementsFollow(cs, k, n - 1);
      AtOrBeforeTransitive(t.FirstToken().position, cs[0].FirstToken().position, cs[k].FirstToken().position);
      AtOrBeforeTransitive(cs[k].LastToken().position, cs[n - 1].LastToken().position, t.LastToken().position);
    }
    assert Encloses(t, cs[0]);
    assert SpanOrdered(cs[0]);
    AtOrBeforeTransitive(t.FirstToken().position, cs[0].FirstToken().position, cs[0].LastToken().position);
    AtOrBeforeTransitive(t.FirstToken().position, cs[0].LastToken().position, t.LastToken().position);
  }
}
