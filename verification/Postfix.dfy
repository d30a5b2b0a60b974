/** The postfix builder as the translator runs it: loops over tokens, two stacks and an index the collectors advance. */
module Postfix {
  import opened Tokens
  import opened PostfixSpec

  /** Pops operators while they give way to the arriving one. */
  method PopWaiting(operations: seq<Group>, out: seq<Group>, arriving: Symbol) returns (ops: seq<Group>, result: seq<Group>)
    ensures Waiting(operations, arriving) <= operations
    ensures ops == Waiting(operations, arriving) && result == out + Moved(operations, ops)
  {
    StacksShrink(operations, arriving);
    ops, result := operations, out;
    while |ops| > 0 && TextOf(ops[|ops| - 1]) != LParen
      invariant Waiting(operations, arriving) <= ops <= operations
      invariant Waiting(ops, arriving) == Waiting(operations, arriving)
      invariant result == out + Moved(operations, ops)
      decreases |ops|
    {
      var back := TextOf(ops[|ops| - 1]);
      if !(back.Sym? && Pops(back.op, arriving)) { break; }
      StacksShrink(ops[..|ops| - 1], arriving);
      MovedNext(operations, ops);
      result := result + [ops[|ops| - 1]];
      ops := ops[..|ops| - 1];
    }
  }

  lemma MovedNext(all: seq<Group>, ops: seq<Group>)
    requires ops <= all && ops != []
    ensures Moved(all, ops[..|ops| - 1]) == Moved(all, ops) + [ops[|ops| - 1]]
  {
    var n := |ops|;
    assert all[n - 1..] == [ops[n - 1]] + all[n..];
    UnwindCons(ops[n - 1], all[n..]);
  }

  lemma {:induction false} UnwindCons(g: Group, s: seq<Group>)
    ensures Unwind([g] + s) == Unwind(s) + [g]
    decreases |s|
  {
    if s != [] {
      UnwindCons(g, s[..|s| - 1]);
      assert ([g] + s)[..|s|] == [g] + s[..|s| - 1];
    } else {
      assert [g] + s == [g];
    }
  }

  /** Pops operators down to the last open parenthesis, which is dropped. */
  method PopToParen(operations: seq<Group>, out: seq<Group>) returns (ops: seq<Group>, result: seq<Group>)
    ensures UpToParen(operations) <= operations
    ensures var stays := UpToParen(operations);
            ops == (if stays == [] then [] else stays[..|stays| - 1]) && result == out + Moved(operations, stays)
  {
    StacksShrink(operations, New);
    ops, result := operations, out;
    while |ops| > 0 && TextOf(ops[|ops| - 1]) != LParen
      invariant UpToParen(operations) <= ops <= operations && UpToParen(ops) == UpToParen(operations)
      invariant result == out + Moved(operations, ops)
      decreases |ops|
    {
      StacksShrink(ops[..|ops| - 1], New);
      MovedNext(operations, ops);
      result := result + [ops[|ops| - 1]];
      ops := ops[..|ops| - 1];
    }
    if |ops| > 0 {
      ops := ops[..|ops| - 1];
    }
  }

  /** The main case of the loop: an operand, an operator or a parenthesis. */
  method HandleSimple(operations: seq<Group>, out: seq<Group>, t: Group) returns (ops: seq<Group>, result: seq<Group>)
    ensures Yard(ops, result) == Shunt(Yard(operations, out), t)
  {
    ops, result := operations, out;
    var token := TokenOf(t);
    if token.kind == Identifier || token.kind == Literal || IsQualified(t) {
      result := result + [t];
    } else if IsOperator(t) {
      ops, result := PopWaiting(ops, result, token.text.op);
      ops := ops + [t];
    } else if token.text == LParen {
      ops := ops + [t];
    } else if token.text == RParen {
      ops, result := PopToParen(ops, result);
    }
  }

  /** Markers up to the first identifier form a type name. */
  method HandleType(tokens: seq<Group>, i: nat) returns (group: seq<Group>, index: nat)
    requires i < |tokens| && TokenOf(tokens[i]).kind == TypeMarker
    ensures group == TypeGroup(tokens, i) && index == AfterType(tokens, i)
  {
    var modifiers := [tokens[i]];
    index := i + 1;
    group := [];
    var j := i + 1;
    while j < |tokens|
      invariant i < j <= |tokens| && modifiers == tokens[i..j] && group == [] && index == i + 1
      invariant MarkersEnd(tokens, j) == MarkersEnd(tokens, i + 1)
    {
      var t := tokens[j];
      if TokenOf(t).kind == TypeMarker {
        modifiers := modifiers + [t];
      } else if NamesSomething(t) {
        assert tokens[i..j] + [t] == tokens[i..j + 1];
        return [Complex(TypeName, modifiers + [t])], j + 1;
      } else {
        break;
      }
      j := j + 1;
    }
    index := if i + 2 <= |tokens| then i + 2 else |tokens|;
  }

  method HandleDataAccessOrArrayLiteral(tokens: seq<Group>, start: nat, kind: GroupType) returns (g: Group, index: nat)
    requires start < |tokens|
    ensures var c := Bracket(tokens, start + 1, 1, [], []); g == Complex(kind, c.parts) && index == c.index
    decreases |tokens|, |tokens| - start
  {
    var parts: seq<Group>, args: seq<Group>, depth: nat, i := [], [], 1, start + 1;
    while i < |tokens| && depth > 0
      invariant 1 <= i <= |tokens| && |args| < i
      invariant Bracket(tokens, i, depth, args, parts) == Bracket(tokens, start + 1, 1, [], [])
    {
      var text := TextOf(tokens[i]);
      if text == LBracket {
        depth := depth + 1;
      } else if text == RBracket {
        depth := depth - 1;
      }
      if (text == Comma && depth == 1) || (text == RBracket && depth == 0) {
        if args != [] {
          var arg := BuildArgument(args);
          parts := parts + [arg];
          args := [];
        }
        i := i + 1;
        continue;
      }
      if depth > 0 {
        args := args + [tokens[i]];
      }
      i := i + 1;
    }
    return Complex(kind, parts), i - 1;
  }

  method BuildArgument(args: seq<Group>) returns (g: Group)
    ensures g == ArgumentOf(args)
    decreases |args|, |args| + 3
  {
    var built := BuildPostfix(args);
    g := Complex(Argument, if built.Complex? && built.kind == Root then built.parts else [built]);
  }

  method HandleFuncCall(tokens: seq<Group>, start: nat) returns (g: Group, index: nat)
    requires start + 2 <= |tokens|
    ensures var c := Call(tokens, start + 2, 1, [], [tokens[start]]); g == Complex(FunctionCall, c.parts) && index == c.index
    decreases |tokens|, |tokens| - start
  {
    var parts, args: seq<Group>, depth: nat, i := [tokens[start]], [], 1, start + 2;
    ghost var expected := Call(tokens, start + 2, 1, [], [tokens[start]]);
    while i < |tokens| && depth > 0
      invariant 2 <= i <= |tokens| && |args| + 2 <= i
      invariant Call(tokens, i, depth, args, parts) == expected
    {
      var text := TextOf(tokens[i]);
      if text == LParen {
        depth := depth + 1;
      } else if text == RParen {
        depth := depth - 1;
      } else if text == Comma && depth == 1 {
        if args == [] {
          return Complex(FunctionCall, parts), i;
        }
        var built := BuildPostfix(args);
        if built.Complex? && built.kind == Root {
          parts := parts + [Complex(Argument, built.parts)];
          args := [];
        } else {
          parts := parts + [Complex(Argument, [built])];
        }
        i := i + 1;
        continue;
      }
      if depth > 0 {
        args := args + [tokens[i]];
      }
      i := i + 1;
    }
    if args != [] {
      var arg := BuildArgument(args);
      parts := parts + [arg];
    }
    return Complex(FunctionCall, parts), i - 1;
  }

  /** Terminates on every token list: each collected argument is shorter than the list, and no collector moves back. */
  method BuildPostfix(tokens: seq<Group>) returns (g: Group)
    ensures g == Build(tokens)
    decreases |tokens|, |tokens| + 2
  {
    hide Identify, Call, Bracket, Shunt, AfterType, TypeGroup, Unwind;
    if |tokens| == 1 { return tokens[0]; }
    var operations, result: seq<Group>, i := [], [], 0;
    while i < |tokens|
      invariant 0 <= i <= |tokens|
      invariant Read(tokens, i, Yard(operations, result)) == Read(tokens, 0, Yard([], []))
      decreases |tokens| - i
    {
      var kind := Identify(tokens, i);
      if kind == FunctionCall {
        var call, index := HandleFuncCall(tokens, i);
        result := result + [call];
        i := index + 1;
      } else if kind == ArrayLiteral || kind == DataAccess {
        var group, index := HandleDataAccessOrArrayLiteral(tokens, i, kind);
        result := result + [group];
        i := index + 1;
      } else if kind == AttributeUsing {
        i := i + 1;
      } else if TokenOf(tokens[i]).kind == TypeMarker {
        var group, index := HandleType(tokens, i);
        result := result + group;
        i := index;
      } else {
        operations, result := HandleSimple(operations, result, tokens[i]);
        i := i + 1;
      }
    }
    result := PopAll(operations, result);
    return Complex(Root, result);
  }

  method PopAll(operations: seq<Group>, out: seq<Group>) returns (result: seq<Group>)
    ensures result == out + Unwind(operations)
  {
    var ops := operations;
    result := out;
    while |ops| > 0
      invariant result + Unwind(ops) == out + Unwind(operations)
      decreases |ops|
    {
      result := result + [ops[|ops| - 1]];
      ops := ops[..|ops| - 1];
    }
  }

  method Preprocess(tokens: seq<Token>) returns (result: seq<Group>)
    ensures result == Fold(tokens, 0, [])
  {
    result := [];
    var i := 0;
    while i < |tokens|
      invariant 0 <= i <= |tokens|
      invariant Fold(tokens, i, result) == Fold(tokens, 0, [])
      decreases |tokens| - i
    {
      var token := tokens[i];
      if token.kind == Operator && token.text == Sym(Scope) {
        if i > 0 && |result| > 0 && i + 1 < |tokens| && tokens[i + 1].kind == Identifier {
          var last := result[|result| - 1];
          if TokenOf(last).kind == Identifier {
            result := result[..|result| - 1] + [Complex(QualifiedName, [last, Simple(tokens[i + 1])])];
            i := i + 1;
          } else if IsQualified(last) {
            result := result[..|result| - 1] + [Complex(QualifiedName, last.parts + [Simple(tokens[i + 1])])];
            i := i + 1;
          }
        }
      } else {
        result := result + [Simple(token)];
      }
      i := i + 1;
    }
  }

  method BuildFromTokens(tokens: seq<Token>) returns (g: Group)
    ensures g == PostfixSpec.Postfix(tokens)
  {
    var groups := Preprocess(tokens);
    g := BuildPostfix(groups);
  }
}
