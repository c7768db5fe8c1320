/** How unparenthesised chains of conditions associate: AND binds tighter than OR, and both group to the left. */
module Precedence {
  import opened Results
  import opened Ast
  import opened SqlText
  import opened Grammar
  import opened SqlRoundTrip

  function LeftAnd(left: Predicate, more: seq<Predicate>): Predicate
    decreases |more|
  {
    if more == [] then left else LeftAnd(And(left, more[0]), more[1..])
  }

  function LeftOr(left: Predicate, more: seq<Predicate>): Predicate
    decreases |more|
  {
    if more == [] then left else LeftOr(Or(left, more[0]), more[1..])
  }

  /** `AND p` for each further operand. */
  function AndChain(fp: FloatText, more: seq<Predicate>): seq<Token> {
    if more == [] then [] else [Keyword("AND")] + PredicateTokens(fp, more[0]) + AndChain(fp, more[1..])
  }

  /** A conjunction: its first operand and the others. */
  datatype Conjunction = Conjunction(first: Predicate, more: seq<Predicate>)

  function ConjunctionTokens(fp: FloatText, c: Conjunction): seq<Token> {
    PredicateTokens(fp, c.first) + AndChain(fp, c.more)
  }

  function OrChain(fp: FloatText, more: seq<Conjunction>): seq<Token> {
    if more == [] then [] else [Keyword("OR")] + ConjunctionTokens(fp, more[0]) + OrChain(fp, more[1..])
  }

  function Nested(c: Conjunction): Predicate {
    LeftAnd(c.first, c.more)
  }

  function NestedAll(cs: seq<Conjunction>): (r: seq<Predicate>)
    ensures |r| == |cs| && forall i :: 0 <= i < |cs| ==> r[i] == Nested(cs[i])
  {
    seq(|cs|, i requires 0 <= i < |cs| => Nested(cs[i]))
  }

  predicate PrintableConjunction(fp: FloatText, c: Conjunction) {
    Printable(fp, c.first) && forall i :: 0 <= i < |c.more| ==> Printable(fp, c.more[i])
  }

  lemma {:induction false} AndChainParses(fp: FloatText, left: Predicate, more: seq<Predicate>, rest: seq<Token>)
    requires forall i :: 0 <= i < |more| ==> Printable(fp, more[i])
    requires rest != [] && !At(rest, Identifier, "AND")
    ensures AndTail(fp, left, AndChain(fp, more) + rest) == Ok((LeftAnd(left, more), rest))
    decreases |more|
  {
    hide ParsePrimary, PredicateTokens, Printable, Clean;
    if more == [] {
      assert AndChain(fp, more) + rest == rest;
    } else {
      var tail := AndChain(fp, more[1..]) + rest;
      var right := PredicateTokens(fp, more[0]) + tail;
      PrimaryRoundTrip(fp, more[0], tail);
      AndChainParses(fp, And(left, more[0]), more[1..], rest);
      assert AndChain(fp, more) + rest == [Keyword("AND")] + right;
      assert ([Keyword("AND")] + right)[1..] == right;
    }
  }

  lemma ConjunctionParses(fp: FloatText, c: Conjunction, rest: seq<Token>)
    requires PrintableConjunction(fp, c) && rest != [] && !At(rest, Identifier, "AND")
    ensures ParseAnd(fp, ConjunctionTokens(fp, c) + rest) == Ok((Nested(c), rest))
  {
    hide ParsePrimary, PredicateTokens, Printable, Clean;
    var tail := AndChain(fp, c.more) + rest;
    PrimaryRoundTrip(fp, c.first, tail);
    AndChainParses(fp, c.first, c.more, rest);
    assert ConjunctionTokens(fp, c) + rest == PredicateTokens(fp, c.first) + tail;
  }

  lemma {:induction false} OrChainParses(fp: FloatText, left: Predicate, more: seq<Conjunction>, rest: seq<Token>)
    requires forall i :: 0 <= i < |more| ==> PrintableConjunction(fp, more[i])
    requires Stops(rest)
    ensures OrTail(fp, left, OrChain(fp, more) + rest) == Ok((LeftOr(left, NestedAll(more)), rest))
    decreases |more|
  {
    hide ParseAnd, ConjunctionTokens, PrintableConjunction, Clean, Nested;
    if more == [] {
      assert OrChain(fp, more) + rest == rest;
    } else {
      var tail := OrChain(fp, more[1..]) + rest;
      var right := ConjunctionTokens(fp, more[0]) + tail;
      OrChainStarts(fp, more[1..], rest);
      ConjunctionParses(fp, more[0], tail);
      OrChainParses(fp, Or(left, Nested(more[0])), more[1..], rest);
      assert OrChain(fp, more) + rest == [Keyword("OR")] + right;
      assert ([Keyword("OR")] + right)[1..] == right;
      assert NestedAll(more)[1..] == NestedAll(more[1..]);
    }
  }

  lemma OrChainStarts(fp: FloatText, more: seq<Conjunction>, rest: seq<Token>)
    requires Stops(rest)
    ensures OrChain(fp, more) + rest != [] && !At(OrChain(fp, more) + rest, Identifier, "AND")
  {
    hide ConjunctionTokens;
    if more == [] {
      assert OrChain(fp, more) + rest == rest;
    }
  }

  /** Any chain of conjunctions, however long, parses to a left-nested OR of left-nested ANDs. */
  lemma ChainPrecedence(fp: FloatText, first: Conjunction, more: seq<Conjunction>, rest: seq<Token>)
    requires PrintableConjunction(fp, first) && forall i :: 0 <= i < |more| ==> PrintableConjunction(fp, more[i])
    requires Stops(rest)
    ensures ParseOr(fp, ConjunctionTokens(fp, first) + OrChain(fp, more) + rest)
         == Ok((LeftOr(Nested(first), NestedAll(more)), rest))
  {
    hide ParseAnd, OrTail, OrChain, ConjunctionTokens, PrintableConjunction, Clean, Nested, NestedAll, LeftOr, At,
        Stops, NamedPredicate;
    var tail := OrChain(fp, more) + rest;
    OrChainStarts(fp, more, rest);
    ConjunctionParses(fp, first, tail);
    OrChainParses(fp, Nested(first), more, rest);
    assert ConjunctionTokens(fp, first) + OrChain(fp, more) + rest == ConjunctionTokens(fp, first) + tail;
  }

  lemma {:induction false} LeftAndLast(left: Predicate, more: seq<Predicate>)
    requires more != []
    ensures LeftAnd(left, more) == And(LeftAnd(left, more[..|more| - 1]), more[|more| - 1])
    decreases |more|
  {
    if |more| > 1 {
      LeftAndLast(And(left, more[0]), more[1..]);
      assert more[1..][..|more| - 2] == more[..|more| - 1][1..];
    }
  }

  /**
   A chain the parser reads in a loop is logged with one bracket level for each AND, so the replay reads it by recursion
   that deep.
   */
  lemma {:induction false} ChainBrackets(fp: FloatText, left: Predicate, more: seq<Predicate>)
    ensures var text := PredicateText(fp, LeftAnd(left, more));
      |more| <= |text| && forall i :: 0 <= i < |more| ==> text[i] == '('
    decreases |more|
  {
    if more != [] {
      var front := more[..|more| - 1];
      LeftAndLast(left, more);
      ChainBrackets(fp, left, front);
      var inner := PredicateText(fp, LeftAnd(left, front));
      var text := PredicateText(fp, LeftAnd(left, more));
      assert forall i :: 0 <= i < |inner| ==> text[i + 1] == inner[i];
    }
  }
}
