/** Binding of prepared statements: src/execution/query_executor.cpp:655-682. */
module Prepared {
  import opened Results
  import opened Values
  import opened Ast
  import opened Lexer
  import opened SqlText
  import opened LiteralText

  /** Each `?` of the template is replaced by the next parameter's literal; the counts must agree. */
  function Bind(fp: FloatText, sql: string, parameters: seq<Value>): Result<string>
    decreases |sql|
  {
    if sql == [] then if parameters == [] then Ok("") else Err
    else if sql[0] != '?' then
      var rest :- Bind(fp, sql[1..], parameters);
      Ok([sql[0]] + rest)
    else if parameters == [] then Err
    else
      var rest :- Bind(fp, sql[1..], parameters[1..]);
      Ok(SqlLiteral(fp, parameters[0]) + rest)
  }

  function Written(bound: string, rest: Result<string>): Result<string> {
    if rest.Ok? then Ok(bound + rest.value) else Err
  }

  lemma WrittenStep(bound: string, next: string, rest: Result<string>)
    ensures Written(bound, Written(next, rest)) == Written(bound + next, rest)
  {
    if rest.Ok? {
      assert bound + (next + rest.value) == (bound + next) + rest.value;
    }
  }

  method BindPrepared(fp: FloatText, sql: string, parameters: seq<Value>) returns (r: Result<string>)
    ensures r == Bind(fp, sql, parameters)
  {
    var bound := "";
    var parameterIndex := 0;
    assert sql[0..] == sql && parameters[0..] == parameters;
    assert Written("", Bind(fp, sql, parameters)) == Bind(fp, sql, parameters) by {
      var all := Bind(fp, sql, parameters);
      if all.Ok? { assert "" + all.value == all.value; }
    }
    for i := 0 to |sql|
      invariant 0 <= parameterIndex <= |parameters|
      invariant Bind(fp, sql, parameters) == Written(bound, Bind(fp, sql[i..], parameters[parameterIndex..]))
    {
      assert sql[i..][1..] == sql[i + 1..];
      ghost var given := parameters[parameterIndex..];
      if sql[i] != '?' {
        WrittenStep(bound, [sql[i]], Bind(fp, sql[i + 1..], given));
        bound := bound + [sql[i]];
      } else {
        if parameterIndex >= |parameters| {
          return Err;
        }
        assert given[1..] == parameters[parameterIndex + 1..];
        var literal := PrintLiteral(fp, parameters[parameterIndex]);
        WrittenStep(bound, literal, Bind(fp, sql[i + 1..], given[1..]));
        bound := bound + literal;
        parameterIndex := parameterIndex + 1;
      }
    }
    assert sql[|sql|..] == [];
    if parameterIndex != |parameters| {
      return Err;
    }
    assert bound + "" == bound;
    return Ok(bound);
  }

  // ----- Binding is substitution on tokens -----

  /** A template written as the pieces between its placeholders. */
  function Template(pieces: seq<string>): string
    requires pieces != []
  {
    if |pieces| == 1 then pieces[0] else pieces[0] + "?" + Template(pieces[1..])
  }

  function Substituted(fp: FloatText, pieces: seq<string>, parameters: seq<Value>): string
    requires |pieces| == |parameters| + 1
  {
    if parameters == [] then pieces[0]
    else pieces[0] + SqlLiteral(fp, parameters[0]) + Substituted(fp, pieces[1..], parameters[1..])
  }

  /** No placeholder hides in a piece. */
  predicate Plain(piece: string) {
    '?' !in piece
  }

  /** The placeholder after this piece is not glued to it. */
  predicate EndsClear(piece: string) {
    piece != [] && !Gluing(piece[|piece| - 1])
  }

  predicate StartsClear(piece: string) {
    piece == [] || !IsIdentifierPart(piece[0])
  }

  /** Pieces tokenize on their own and every placeholder is bounded by a space, a mark or the template's ends. */
  predicate WellBounded(pieces: seq<string>) {
    && pieces != []
    && (forall i :: 0 <= i < |pieces| ==> Plain(pieces[i]) && Lex(pieces[i]).Ok?)
    && (forall i :: 0 < i < |pieces| - 1 ==> EndsClear(pieces[i]))
    && (|pieces| > 1 ==> pieces[0] == "" || EndsClear(pieces[0]))
    && (forall i :: 0 < i < |pieces| ==> StartsClear(pieces[i]))
  }

  function SubstitutedTokens(fp: FloatText, pieces: seq<string>, parameters: seq<Value>): seq<Token>
    requires |pieces| == |parameters| + 1
    requires forall i :: 0 <= i < |pieces| ==> Lex(pieces[i]).Ok?
  {
    if parameters == [] then Lex(pieces[0]).value
    else Lex(pieces[0]).value + [LiteralToken(fp, parameters[0])] + SubstitutedTokens(fp, pieces[1..], parameters[1..])
  }

  lemma {:induction false} BindPlain(fp: FloatText, piece: string, rest: string, parameters: seq<Value>)
    requires Plain(piece)
    ensures Bind(fp, piece + rest, parameters) == Written(piece, Bind(fp, rest, parameters))
  {
    if piece == [] {
      assert piece + rest == rest;
      var all := Bind(fp, rest, parameters);
      if all.Ok? { assert piece + all.value == all.value; }
    } else {
      assert piece[0] in piece;
      assert (piece + rest)[1..] == piece[1..] + rest;
      BindPlain(fp, piece[1..], rest, parameters);
      WrittenStep([piece[0]], piece[1..], Bind(fp, rest, parameters));
      assert [piece[0]] + piece[1..] == piece;
    }
  }

  /**
   Binding succeeds exactly when the counts agree, and then each placeholder is replaced once: a `?` in a bound value
   stays.
   */
  lemma {:induction false} BindSubstitutes(fp: FloatText, pieces: seq<string>, parameters: seq<Value>)
    requires pieces != [] && forall i :: 0 <= i < |pieces| ==> Plain(pieces[i])
    ensures Bind(fp, Template(pieces), parameters)
         == if |pieces| == |parameters| + 1 then Ok(Substituted(fp, pieces, parameters)) else Err
    decreases |pieces|
  {
    if |pieces| == 1 {
      BindPlain(fp, pieces[0], "", parameters);
      assert pieces[0] + "" == pieces[0];
    } else {
      var rest := "?" + Template(pieces[1..]);
      BindPlain(fp, pieces[0], rest, parameters);
      assert pieces[0] + rest == Template(pieces);
      assert rest[1..] == Template(pieces[1..]);
      if parameters != [] {
        BindSubstitutes(fp, pieces[1..], parameters[1..]);
        if |pieces| == |parameters| + 1 {
          var tail := Substituted(fp, pieces[1..], parameters[1..]);
          assert pieces[0] + (SqlLiteral(fp, parameters[0]) + tail) == pieces[0] + SqlLiteral(fp, parameters[0]) + tail;
        }
      }
    }
  }

  lemma LiteralEdges(fp: FloatText, v: Value)
    requires Rereads(fp, v)
    ensures SqlLiteral(fp, v) != ""
  {
  }

  /** The bound text tokenizes to the pieces' tokens with one literal token per placeholder, in order. */
  lemma {:induction false} BoundTokens(fp: FloatText, pieces: seq<string>, parameters: seq<Value>)
    requires |pieces| == |parameters| + 1 && WellBounded(pieces)
    requires forall i :: 0 <= i < |parameters| ==> Rereads(fp, parameters[i])
    ensures Lexes(Substituted(fp, pieces, parameters), SubstitutedTokens(fp, pieces, parameters))
    decreases |pieces|
  {
    hide Lex, Rereads, LiteralToken, SqlLiteral;
    if parameters != [] {
      var literal, token := SqlLiteral(fp, parameters[0]), LiteralToken(fp, parameters[0]);
      var tail := Substituted(fp, pieces[1..], parameters[1..]);
      LiteralRoundTrip(fp, parameters[0], []);
      assert WellBounded(pieces[1..]) by {
        if |pieces| > 2 { assert EndsClear(pieces[1]); }
      }
      BoundTokens(fp, pieces[1..], parameters[1..]);
      assert StartsClear(pieces[1]);
      if |parameters| > 1 {
        assert EndsClear(pieces[1]);
        assert tail[0] == pieces[1][0];
      }
      LiteralEdges(fp, parameters[0]);
      Join3(pieces[0], Lex(pieces[0]).value, literal, [token], tail,
          SubstitutedTokens(fp, pieces[1..], parameters[1..]));
    }
  }

  /** The statement EXECUTE runs: tokenizing the bound template puts one literal token at each placeholder. */
  lemma PreparedBinding(fp: FloatText, pieces: seq<string>, parameters: seq<Value>)
    requires |pieces| == |parameters| + 1 && WellBounded(pieces)
    requires forall i :: 0 <= i < |parameters| ==> Rereads(fp, parameters[i])
    ensures Bind(fp, Template(pieces), parameters).Ok?
    ensures Tokens(Bind(fp, Template(pieces), parameters).value) ==
        Ok(SubstitutedTokens(fp, pieces, parameters) + [END])
  {
    hide Lex, Rereads;
    BindSubstitutes(fp, pieces, parameters);
    BoundTokens(fp, pieces, parameters);
  }
}
