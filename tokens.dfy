/** Lexical tokens as the tree layer sees them: immutable values produced by the
    lexer, each with a source position. Nodes only hold and compare them. */
module Tokens {

  /** A source position: a line and a column offset within that line. */
  datatype Position = Position(line: nat, column: nat)

  /** A token: its text and where it starts in the source. */
  datatype Token = Token(value: string, position: Position)

  /** Source order on positions: `a` is at or before `b` (line first, then column). */
  predicate AtOrBefore(a: Position, b: Position) {
    a.line < b.line || (a.line == b.line && a.column <= b.column)
  }

  // The four lemmas below establish that AtOrBefore is a total order on
  // positions; the span proofs use reflexivity and transitivity.

  lemma AtOrBeforeReflexive(a: Position)
    ensures AtOrBefore(a, a)
  {}

  lemma AtOrBeforeAntisymmetric(a: Position, b: Position)
    requires AtOrBefore(a, b) && AtOrBefore(b, a)
    ensures a == b
  {}

  lemma AtOrBeforeTransitive(a: Position, b: Position, c: Position)
    requires AtOrBefore(a, b) && AtOrBefore(b, c)
    ensures AtOrBefore(a, c)
  {}

  lemma AtOrBeforeTotal(a: Position, b: Position)
    ensures AtOrBefore(a, b) || AtOrBefore(b, a)
  {}
}
