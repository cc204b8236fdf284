# Python syntax-tree nodes: expression lists and tuple parameters

This project models the immutable syntax-tree node layer of the Python front
end of SonarQube's Python analyzer, for its two node classes
`PyTupleParameterTreeImpl` and `PyExpressionListTreeImpl`.

Each node is a value of a single datatype `Trees.Tree` with one constructor per
node class. Every node has:

- a span: its first and last token;
- a kind tag;
- its ordered semantic children;
- a visitor dispatch (`Accept`).

Every other node class of the catalogue is folded into one `OtherTree`
constructor. That constructor carries its own kind name, span and children.

- `tokens.dfy`: tokens, their source positions, and the source order on
  positions (a total order).
- `trees.dfy`: the shared node layer. It holds the kind tags, the visitor (a
  record of handlers, one per visitor method), dispatch, and the span
  invariant `WellFormed`. That invariant says: every node's span is ordered,
  its children are in source order, and its span encloses each child.
- `tuple_parameter.dfy`: the parameter group `(a, b)`. Its parameters and its
  comma tokens are stored apart. The parentheses are the first and last
  tokens of the span.
- `expression_list.dfy`: the expression list. It has two construction paths.
  - The parse-event path takes its span from the parser.
  - The list path derives its span from the first and last elements. On an
    empty list it fails, because the lookup of element 0 fails.

All operations are pure functions: the Java fields are `final` and set once,
and no method loops or mutates.

## Model

| member | source | states |
|---|---|---|
| `Trees.Tree.Dispatch` | python-squid/src/main/java/org/sonar/python/tree/PyTupleParameterTreeImpl.java:62-65 | the visitor method a node selects is the tuple-parameter one iff its kind is TUPLE_PARAMETER, the expression-list one iff its kind is EXPRESSION_LIST, and the generic one iff its kind is another kind |
| `Trees.Tree.Accept` | python-squid/src/main/java/org/sonar/python/tree/PyExpressionListTreeImpl.java:53-56 | accepting a visitor applies exactly the handler that `Dispatch` selects, to the node itself |
| `Trees.AcceptUsesOnlySelectedHandler` | python-squid/src/main/java/org/sonar/python/tree/PyTupleParameterTreeImpl.java:62-65 | two visitors that agree on the selected handler give the same result, so no other handler takes part |
| `Trees.Tree.GetKind` | python-squid/src/main/java/org/sonar/python/tree/PyTupleParameterTreeImpl.java:72-75 | the kind tag identifies the node's shape, in both directions, for every shape: TUPLE_PARAMETER exactly for tuple-parameter nodes, EXPRESSION_LIST exactly for expression lists |
| `Trees.Tree.Children` | python-squid/src/main/java/org/sonar/python/tree/PyExpressionListTreeImpl.java:58-61 | every child is strictly smaller than its node, so the children form a strict tree; which list each node class returns is stated by `Parameters` and `Expressions` |
| `Trees.BoundsEncloseChildren` | python-squid/src/main/java/org/sonar/python/tree/PyExpressionListTreeImpl.java:38-41 | a span that starts at or before the first child and ends at or after the last child is ordered and encloses every child, when the children are well formed and in source order |
| `Trees.LaterElementsFollow` | python-squid/src/main/java/org/sonar/python/tree/PyExpressionListTreeImpl.java:39 | in an ordered list of well-formed spans, a later element starts and ends no earlier than an earlier one |
| `TupleParameterTrees.New` | python-squid/src/main/java/org/sonar/python/tree/PyTupleParameterTreeImpl.java:36-40 | a group has the span the parser matched; it returns its parameters and its commas unchanged; its kind is TUPLE_PARAMETER |
| `TupleParameterTrees.OpeningParenthesis` | python-squid/src/main/java/org/sonar/python/tree/PyTupleParameterTreeImpl.java:42-45 | the opening parenthesis is the node's first token |
| `TupleParameterTrees.ClosingParenthesis` | python-squid/src/main/java/org/sonar/python/tree/PyTupleParameterTreeImpl.java:57-60 | the closing parenthesis is the node's last token |
| `TupleParameterTrees.Parameters` | python-squid/src/main/java/org/sonar/python/tree/PyTupleParameterTreeImpl.java:47-50 | the parameters are exactly the generic children, same elements in the same order (`children()`, lines 67-70) |
| `TupleParameterTrees.Commas` | python-squid/src/main/java/org/sonar/python/tree/PyTupleParameterTreeImpl.java:52-55 | the commas, together with the span and the children, rebuild the node; they are stored apart from the children |
| `TupleParameterTrees.ChildrenExcludeCommas` | python-squid/src/main/java/org/sonar/python/tree/PyTupleParameterTreeImpl.java:52-55 | the children are the given parameters whatever commas the group is built with; the commas come back unchanged only through `Commas` |
| `TupleParameterTrees.KindIsTupleParameter` | python-squid/src/main/java/org/sonar/python/tree/PyTupleParameterTreeImpl.java:72-75 | every tuple-parameter node has kind TUPLE_PARAMETER, whatever its payload |
| `TupleParameterTrees.AcceptCallsVisitTupleParameter` | python-squid/src/main/java/org/sonar/python/tree/PyTupleParameterTreeImpl.java:62-65 | the node selects the tuple-parameter visitor method, and accepting any visitor is that handler applied to the node |
| `TupleParameterTrees.NewWellFormed` | python-squid/src/main/java/org/sonar/python/tree/PyTupleParameterTreeImpl.java:36-40 | a group built from an ordered parser range that covers its well-formed, source-ordered parameters satisfies the span invariant |
| `ExpressionListTrees.FromAst` | python-squid/src/main/java/org/sonar/python/tree/PyExpressionListTreeImpl.java:33-36 | the parse-event path gives the span the parser matched, keeps the expressions unchanged, and has kind EXPRESSION_LIST |
| `ExpressionListTrees.Of` | python-squid/src/main/java/org/sonar/python/tree/PyExpressionListTreeImpl.java:38-41 | given a non-empty list, the node starts at the first element's first token and ends at the last element's last token; the expressions are kept unchanged; the kind is EXPRESSION_LIST |
| `ExpressionListTrees.TryOf` | python-squid/src/main/java/org/sonar/python/tree/PyExpressionListTreeImpl.java:38-39 | the list path fails exactly on the empty list, with an out-of-bounds fault at index 0; otherwise it builds the node with the derived span and the list as its children |
| `ExpressionListTrees.Expressions` | python-squid/src/main/java/org/sonar/python/tree/PyExpressionListTreeImpl.java:43-46 | the expressions are exactly the generic children, in order (`children()`, lines 58-61); with the span they rebuild the node |
| `ExpressionListTrees.BothPathsKeepTheList` | python-squid/src/main/java/org/sonar/python/tree/PyExpressionListTreeImpl.java:33-46 | on either construction path the children are the list the node was built from |
| `ExpressionListTrees.SingletonSpan` | python-squid/src/main/java/org/sonar/python/tree/PyExpressionListTreeImpl.java:39 | a one-element list spans exactly its element's span |
| `ExpressionListTrees.PathsAgree` | python-squid/src/main/java/org/sonar/python/tree/PyExpressionListTreeImpl.java:33-41 | the two construction paths build the same node iff the parser's range is the derived span |
| `ExpressionListTrees.KindIsExpressionList` | python-squid/src/main/java/org/sonar/python/tree/PyExpressionListTreeImpl.java:48-51 | every expression-list node has kind EXPRESSION_LIST |
| `ExpressionListTrees.AcceptCallsVisitExpressionList` | python-squid/src/main/java/org/sonar/python/tree/PyExpressionListTreeImpl.java:53-56 | the node selects the expression-list visitor method, and accepting any visitor is that handler applied to the node |
| `ExpressionListTrees.FromAstWellFormed` | python-squid/src/main/java/org/sonar/python/tree/PyExpressionListTreeImpl.java:33-36 | a list built from an ordered parser range that covers its well-formed, source-ordered expressions satisfies the span invariant |
| `ExpressionListTrees.OfEnclosesChildren` | python-squid/src/main/java/org/sonar/python/tree/PyExpressionListTreeImpl.java:38-41 | when the expressions are well formed and in source order, the derived span encloses every expression and the node satisfies the span invariant |

## Left out

- The base class `PyTree` is not part of this model. Its parse-event constructor is modelled as taking the first and last tokens of an `AstNode`, which here is just that pair of tokens. How the parser's `AstNode` finds those tokens is not modelled.
- Tokens are compared as values (text and position). The Java code returns the same `Token` object; object identity is not modelled.
- The static element types `PyExpressionTree` and `PyAnyParameterTree` are not distinguished: children of both node classes are any `Tree`.
- `TupleParameterTrees.Parameters`, `TupleParameterTrees.Commas`, `ExpressionListTrees.Expressions` and `Trees.Tree.Children`: the Java constructors keep the caller's `List` without copying it. `parameters()`, `commas()` and `expressions()` return that mutable list itself, and `children()` is a live read-only view of it. A caller could therefore change a node's children after construction, while the span fixed by the list constructor stays the same, so the guarantee of `OfEnclosesChildren` could stop holding. The model treats every list as fixed at construction (an immutable `seq`), and does not capture this aliasing.
- `Trees.Tree.Accept`: the Java handlers return `void` and act through side effects. Here a handler returns a value of any type `R`, and the model states only which handler receives the node.
- Concrete visitors and traversal strategies are not part of the source files modelled.
- Node classes other than the two modelled are folded into `OtherTree`, with one generic visitor method.
- The span invariant `WellFormed` is not enforced by the Java constructors. The parse-event path trusts the parser's range: `NewWellFormed` and `FromAstWellFormed` prove the invariant when that range covers the children. The list path satisfies the invariant only when its elements are well formed and in source order (`OfEnclosesChildren`). The model states these as lemmas with hypotheses, not as a property of every node.
- The Pylint and xUnit report-sensor tests exercise file I/O, the sensor context and mocked measures of code that is not part of this model.
