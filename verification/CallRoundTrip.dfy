/** Calls: the collector separates arguments by commas outside parentheses and keeps arguments of one token for the next one. */
module CallRoundTrip {
  import opened Tokens
  import opened PostfixSpec
  import opened PrintedTrees
  import opened PostfixRoundTrip

  // ----- parentheses and commas in token lists -----

  /** The parenthesis depth after some tokens; -1 when one is closed that was not open. */
  function Parens(x: seq<Group>, d: nat): int
    decreases |x|
  {
    if x == [] then d
    else
      var text := TextOf(x[0]);
      if text == LParen then Parens(x[1..], d + 1)
      else if text == RParen then if d == 0 then -1 else Parens(x[1..], d - 1)
      else Parens(x[1..], d)
  }

  /** The commas outside parentheses. */
  function Commas(x: seq<Group>, d: nat): nat
    decreases |x|
  {
    if x == [] then 0
    else
      var text := TextOf(x[0]);
      if text == LParen then Commas(x[1..], d + 1)
      else if text == RParen then if d == 0 then 0 else Commas(x[1..], d - 1)
      else (if text == Comma && d == 0 then 1 else 0) + Commas(x[1..], d)
  }

  lemma {:induction false} ParensAppend(a: seq<Group>, b: seq<Group>, d: nat)
    requires Parens(a, d) >= 0
    ensures Parens(a + b, d) == Parens(b, Parens(a, d))
    ensures Commas(a + b, d) == Commas(a, d) + Commas(b, Parens(a, d))
    decreases |a|
  {
    if a == [] {
      assert a + b == b;
    } else {
      assert (a + b)[0] == a[0] && (a + b)[1..] == a[1..] + b;
      var text := TextOf(a[0]);
      ParensAppend(a[1..], b, if text == LParen then d + 1 else if text == RParen then d - 1 else d);
    }
  }

  predicate IsComma(g: Group) {
    TextOf(g) == Comma
  }

  /** Parentheses are closed, and every comma stands between two other tokens. */
  ghost predicate Tidy(x: seq<Group>) {
    && x != [] && !IsComma(x[0]) && !IsComma(x[|x| - 1])
    && (forall k :: 0 < k < |x| ==> !(IsComma(x[k - 1]) && IsComma(x[k])))
    && (forall d: nat :: Parens(x, d) == d)
  }

  lemma TidyAppend(a: seq<Group>, b: seq<Group>)
    requires Tidy(a) && Tidy(b)
    ensures Tidy(a + b) && Commas(a + b, 0) == Commas(a, 0) + Commas(b, 0)
  {
    forall d: nat
      ensures Parens(a + b, d) == d
    {
      ParensAppend(a, b, d);
    }
    ParensAppend(a, b, 0);
    assert (a + b)[|a + b| - 1] == b[|b| - 1];
  }

  lemma TidyOne(g: Group)
    requires TextOf(g) != LParen && TextOf(g) != RParen && TextOf(g) != Comma
    ensures Tidy([g]) && Commas([g], 0) == 0
  {
    assert [g][1..] == [];
  }

  lemma TidyComma(a: seq<Group>, b: seq<Group>)
    requires Tidy(a) && Tidy(b)
    ensures Tidy(a + [Mark(Comma)] + b) && Commas(a + [Mark(Comma)] + b, 0) == Commas(a, 0) + 1 + Commas(b, 0)
  {
    var comma := [Mark(Comma)];
    assert comma[1..] == [];
    var x := a + comma + b;
    forall d: nat
      ensures Parens(x, d) == d
    {
      ParensAppend(a, comma, d);
      ParensAppend(a + comma, b, d);
    }
    ParensAppend(a, comma, 0);
    ParensAppend(a + comma, b, 0);
    assert x[|x| - 1] == b[|b| - 1];
    forall k | 0 < k < |x|
      ensures !(IsComma(x[k - 1]) && IsComma(x[k]))
    {
      if k == |a| {
        assert x[k - 1] == a[|a| - 1];
      } else if k == |a| + 1 {
        assert x[k] == b[0];
      } else if k > |a| + 1 {
        assert x[k] == b[k - |a| - 1] && x[k - 1] == b[k - |a| - 2];
      }
    }
  }

  lemma TidyParen(x: seq<Group>)
    requires Tidy(x)
    ensures Tidy([Mark(LParen)] + x + [Mark(RParen)])
  {
    var open, close := [Mark(LParen)], [Mark(RParen)];
    assert open[1..] == [] && close[1..] == [];
    var all := open + x + close;
    forall d: nat
      ensures Parens(all, d) == d
    {
      ParensAppend(open, x, d);
      ParensAppend(open + x, close, d);
    }
    forall k | 0 < k < |all|
      ensures !(IsComma(all[k - 1]) && IsComma(all[k]))
    {
      if 1 < k < |all| - 1 {
        assert all[k] == x[k - 1] && all[k - 1] == x[k - 2];
      }
    }
  }

  lemma TidyChild(bare: bool, x: seq<Group>)
    requires Tidy(x)
    ensures Tidy(Child(bare, x))
  {
    TidyParen(x);
  }

  // ----- printed trees are tidy -----

  /** No operand is spelled like a parenthesis; the collector compares strings only. */
  predicate NoParenText(e: Tree)
    decreases e
  {
    match e
    case Leaf(g) => TextOf(g) != LParen && TextOf(g) != RParen
    case Named(markers, name) =>
      && TextOf(name) != LParen && TextOf(name) != RParen
      && forall k :: 0 <= k < |markers| ==> TextOf(markers[k]) != LParen && TextOf(markers[k]) != RParen
    case Infix(_, l, r) => NoParenText(l) && NoParenText(r)
    case Prefix(_, a) => NoParenText(a)
    case Suffix(_, a) => NoParenText(a)
    case Access(base, args) => NoParenText(base) && forall k :: 0 <= k < |args| ==> NoParenText(args[k])
    case Array(args) => forall k :: 0 <= k < |args| ==> NoParenText(args[k])
    case Paren(a) => NoParenText(a)
  }

  predicate ArgumentOk(e: Tree) {
    TreeOk(e, true) && NoParenText(e)
  }

  predicate ArgumentsOk(args: seq<Tree>) {
    forall k :: 0 <= k < |args| ==> ArgumentOk(args[k])
  }

  lemma {:induction false} MarkersTidy(x: seq<Group>)
    requires x != [] && forall k :: 0 <= k < |x| ==> TextOf(x[k]) != LParen && TextOf(x[k]) != RParen && TextOf(x[k]) != Comma
    ensures Tidy(x) && Commas(x, 0) == 0
    decreases |x|
  {
    TidyOne(x[0]);
    assert [x[0]] + x[1..] == x;
    if |x| > 1 {
      MarkersTidy(x[1..]);
      TidyAppend([x[0]], x[1..]);
    }
  }

  lemma {:induction false} PrintTidy(e: Tree)
    requires ArgumentOk(e)
    ensures Tidy(Print(e))
    decreases e, 0
  {
    hide Tidy, Commas, BareLeft, BareRight, BareArg, BareBase, Child, PrintArgs, IsInfix, IsPrefix, IsSuffix;
    match e
    case Leaf(g) => TidyOne(g);
    case Named(markers, name) =>
      var x := markers + [name];
      MarkersTidy(x);
    case Infix(op, l, r) =>
      PrintTidy(l);
      PrintTidy(r);
      InfixTidy(Print(l), BareLeft(op, l), op, Print(r), BareRight(op, r));
    case Prefix(op, a) =>
      PrintTidy(a);
      TidyChild(BareArg(op, a), Print(a));
      TidyOne(OpToken(op));
      TidyAppend([OpToken(op)], Child(BareArg(op, a), Print(a)));
    case Suffix(op, a) =>
      PrintTidy(a);
      TidyChild(BareArg(op, a), Print(a));
      TidyOne(OpToken(op));
      TidyAppend(Child(BareArg(op, a), Print(a)), [OpToken(op)]);
    case Access(base, args) =>
      PrintTidy(base);
      BracketsTidy(args);
      AccessTidy(Print(base), BareBase(base), PrintArgs(args));
    case Array(args) =>
      BracketsTidy(args);
    case Paren(a) =>
      PrintTidy(a);
      TidyParen(Print(a));
  }

  lemma InfixTidy(l: seq<Group>, bareLeft: bool, op: Symbol, r: seq<Group>, bareRight: bool)
    requires Tidy(l) && Tidy(r)
    ensures Tidy(Child(bareLeft, l) + [OpToken(op)] + Child(bareRight, r))
  {
    hide Tidy, Commas;
    TidyChild(bareLeft, l);
    TidyChild(bareRight, r);
    TidyOne(OpToken(op));
    TidyAppend(Child(bareLeft, l), [OpToken(op)]);
    TidyAppend(Child(bareLeft, l) + [OpToken(op)], Child(bareRight, r));
  }

  lemma AccessTidy(base: seq<Group>, bare: bool, args: seq<Group>)
    requires Tidy(base) && Tidy([Mark(LBracket)] + args + [Mark(RBracket)])
    ensures Tidy(Child(bare, base) + [Mark(LBracket)] + args + [Mark(RBracket)])
  {
    hide Tidy, Commas;
    var brackets := [Mark(LBracket)] + args + [Mark(RBracket)];
    TidyChild(bare, base);
    TidyAppend(Child(bare, base), brackets);
    assert Child(bare, base) + [Mark(LBracket)] + args + [Mark(RBracket)] == Child(bare, base) + brackets;
  }

  lemma {:induction false} BracketsTidy(args: seq<Tree>)
    requires ArgumentsOk(args)
    ensures Tidy([Mark(LBracket)] + PrintArgs(args) + [Mark(RBracket)])
    decreases args, 1
  {
    hide Tidy, Print;
    var open, close := [Mark(LBracket)], [Mark(RBracket)];
    TidyOne(Mark(LBracket));
    TidyOne(Mark(RBracket));
    if args == [] {
      assert open + PrintArgs(args) == open;
      TidyAppend(open, close);
    } else {
      ArgsTidy(args);
      TidyAppend(open, PrintArgs(args));
      TidyAppend(open + PrintArgs(args), close);
    }
  }

  /** The commas outside parentheses are those between the arguments and those inside them. */
  lemma {:induction false} ArgsTidy(args: seq<Tree>)
    requires ArgumentsOk(args) && args != []
    ensures Tidy(PrintArgs(args)) && Commas(PrintArgs(args), 0) == |args| - 1 + InnerCommas(args)
    decreases args, 0
  {
    hide Tidy, Print;
    PrintTidy(args[0]);
    if |args| > 1 {
      ArgsTidy(args[1..]);
      TidyComma(Print(args[0]), PrintArgs(args[1..]));
    } else {
      assert args[1..] == [];
      assert InnerCommas(args[1..]) == 0;
    }
  }

  function InnerCommas(args: seq<Tree>): nat {
    if args == [] then 0 else Commas(Print(args[0]), 0) + InnerCommas(args[1..])
  }

  lemma {:induction false} NoInnerCommas(args: seq<Tree>)
    ensures InnerCommas(args) == 0 <==> forall k :: 0 <= k < |args| ==> Commas(Print(args[k]), 0) == 0
  {
    if args != [] {
      NoInnerCommas(args[1..]);
      assert forall k :: 0 < k < |args| ==> args[k] == args[1..][k - 1];
      assert forall k :: 0 <= k < |args| - 1 ==> args[1..][k] == args[k + 1];
    }
  }

  // ----- what the collector collects -----

  lemma TakenOff<T>(args: seq<T>, x: seq<T>)
    requires x != []
    ensures x == [x[0]] + x[1..] && args + [x[0]] + x[1..] == args + x
  {
  }

  /** Tokens without a comma outside parentheses are collected as they are. */
  lemma {:induction false} CallTakes(tokens: seq<Group>, i: nat, x: seq<Group>, d: nat, args: seq<Group>, parts: seq<Group>)
    requires 2 <= i && |args| + 2 <= i && At(tokens, i, x) && Parens(x, d) == 0 && Commas(x, d) == 0
    ensures i + |x| <= |tokens| && |args + x| + 2 <= i + |x|
    ensures Call(tokens, i, d + 1, args, parts) == Call(tokens, i + |x|, 1, args + x, parts)
    decreases |x|
  {
    if x == [] {
      assert args + x == args;
    } else {
      FirstAt(tokens, i, x);
      TakenOff(args, x);
      AtSplit(tokens, i, [x[0]], x[1..]);
      var text := TextOf(x[0]);
      var d' := if text == LParen then d + 1 else if text == RParen then d - 1 else d;
      CallTakes(tokens, i + 1, x[1..], d', args + [x[0]], parts);
    }
  }

  /** A comma ends an argument, which stays collected when it was a single token. */
  lemma CallComma(tokens: seq<Group>, q: nat, x: seq<Group>, parts: seq<Group>)
    requires 2 <= q < |tokens| && x != [] && |x| + 2 <= q && tokens[q] == Mark(Comma)
    ensures Call(tokens, q, 1, x, parts) == Call(tokens, q + 1, 1, if |x| == 1 && !IsRoot(x[0]) then x else [], parts + [ArgumentOf(x)])
  {
  }

  lemma CallEnd(tokens: seq<Group>, q: nat, x: seq<Group>, parts: seq<Group>)
    requires 2 <= q < |tokens| && |x| + 2 <= q && tokens[q] == Mark(RParen)
    ensures Call(tokens, q, 1, x, parts) == Collected(if x == [] then parts else parts + [ArgumentOf(x)], q)
  {
    hide ArgumentOf;
    assert Call(tokens, q + 1, 0, x, parts) == Collected(if x == [] then parts else parts + [ArgumentOf(x)], q);
  }

  lemma FirstApart<T>(x: seq<T>, last: T)
    requires x != []
    ensures x + [last] == [x[0]] + (x[1..] + [last])
    ensures forall k :: 0 < k < |x[1..]| ==> x[1..][k] == x[k + 1] && x[1..][k - 1] == x[k]
    ensures |x| > 1 ==> x[1..][0] == x[1] && x[1..][|x| - 2] == x[|x| - 1]
  {
  }

  /** What has been collected stays; the number of arguments collected is that of the commas, plus one. */
  lemma {:induction false} CallCounts(tokens: seq<Group>, i: nat, x: seq<Group>, d: nat, args: seq<Group>, parts: seq<Group>)
    requires 2 <= i && |args| + 2 <= i && At(tokens, i, x + [Mark(RParen)]) && Parens(x, d) == 0
    requires args == [] ==> x != [] && !IsComma(x[0])
    requires x != [] ==> !IsComma(x[|x| - 1])
    requires forall k :: 0 < k < |x| ==> !(IsComma(x[k - 1]) && IsComma(x[k]))
    ensures var c := Call(tokens, i, d + 1, args, parts);
            parts <= c.parts && |c.parts| == |parts| + Commas(x, d) + 1 && c.index == i + |x|
    decreases |x|
  {
    hide ArgumentOf, Build;
    if x == [] {
      assert x + [Mark(RParen)] == [Mark(RParen)];
      AtOne(tokens, i, Mark(RParen));
      CallEnd(tokens, i, args, parts);
    } else {
      FirstApart(x, Mark(RParen));
      AtSplit(tokens, i, [x[0]], x[1..] + [Mark(RParen)]);
      AtOne(tokens, i, x[0]);
      var text, rest := TextOf(x[0]), x[1..];
      if text == Comma && d == 0 {
        CallCounts(tokens, i + 1, rest, d, if IsRoot(Build(args)) then [] else args, parts + [ArgumentOf(args)]);
      } else {
        var d' := if text == LParen then d + 1 else if text == RParen then d - 1 else d;
        CallCounts(tokens, i + 1, rest, d', args + [x[0]], parts);
      }
    }
  }

  // ----- calls of trees -----

  function PrintCall(f: Group, args: seq<Tree>): seq<Group> {
    [f, Mark(LParen)] + PrintArgs(args) + [Mark(RParen)]
  }

  /** Every argument but the last has more than one token, and no argument has a comma outside parentheses. */
  predicate Separates(args: seq<Tree>) {
    && (forall k :: 0 <= k < |args| - 1 ==> |Print(args[k])| > 1)
    && (forall k :: 0 <= k < |args| ==> Commas(Print(args[k]), 0) == 0)
  }

  /** One argument and what ends it. */
  lemma TakesArgument(tokens: seq<Group>, i: nat, e: Tree, kept: seq<Group>, rest: seq<Group>, parts: seq<Group>)
    requires 2 <= i && |kept| + 2 <= i && ArgumentOk(e) && Commas(Print(e), 0) == 0 && At(tokens, i, Print(e) + rest)
    ensures |kept + Print(e)| + 2 <= i + |Print(e)| <= |tokens| && At(tokens, i + |Print(e)|, rest)
    ensures Call(tokens, i, 1, kept, parts) == Call(tokens, i + |Print(e)|, 1, kept + Print(e), parts)
  {
    hide Print, At, Call;
    AtSplit(tokens, i, Print(e), rest);
    PrintTidy(e);
    CallTakes(tokens, i, Print(e), 0, kept, parts);
  }

  lemma ArgumentBuilt(e: Tree)
    requires ArgumentOk(e)
    ensures ArgumentOf(Print(e)) == Complex(Argument, PostOrder(e))
    ensures Print(e) != [] && (|Print(e)| == 1 ==> IsOperand(Print(e)[0]) && e == Leaf(Print(e)[0]))
  {
    BuildTree(e, true);
    PrintNotEmpty(e);
    if |Print(e)| == 1 {
      SingleIsLeaf(e, true);
    }
  }

  /** When arguments separate, exactly they are collected. */
  lemma {:induction false} SeparatedCollected(tokens: seq<Group>, i: nat, args: seq<Tree>, parts: seq<Group>)
    requires 2 <= i && At(tokens, i, PrintArgs(args) + [Mark(RParen)]) && ArgumentsOk(args) && Separates(args)
    ensures Call(tokens, i, 1, [], parts) == Collected(parts + Arguments(args), i + |PrintArgs(args)|)
    decreases args
  {
    hide Print, At, Call, Build, ArgumentOf, PostOrder;
    var close := [Mark(RParen)];
    if args == [] {
      NothingAfter(close);
      AtOne(tokens, i, Mark(RParen));
      CallEnd(tokens, i, [], parts);
      NothingAfter(parts);
    } else {
      var x := Print(args[0]);
      var rest := if |args| == 1 then close else [Mark(Comma)] + (PrintArgs(args[1..]) + close);
      assert PrintArgs(args) + close == x + rest;
      TakesArgument(tokens, i, args[0], [], rest, parts);
      NothingAfter(x);
      ArgumentBuilt(args[0]);
      var q, parts' := i + |x|, parts + [ArgumentOf(x)];
      Reassociate(parts, [ArgumentOf(x)], Arguments(args[1..]));
      if |args| == 1 {
        AtOne(tokens, q, Mark(RParen));
        CallEnd(tokens, q, x, parts);
        assert args[1..] == [];
        NothingAfter(parts');
      } else {
        AtSplit(tokens, q, [Mark(Comma)], PrintArgs(args[1..]) + close);
        AtOne(tokens, q, Mark(Comma));
        CallComma(tokens, q, x, parts);
        assert forall k :: 0 <= k < |args| - 1 ==> args[1..][k] == args[k + 1];
        SeparatedCollected(tokens, q + 1, args[1..], parts');
      }
    }
  }

  // ----- when arguments do not separate -----

  /** Reading only adds to the output. */
  lemma {:induction false} ReadExtends(tokens: seq<Group>, i: nat, y: Yard)
    requires i <= |tokens|
    ensures y.out <= Read(tokens, i, y)
    decreases |tokens| - i
  {
    hide Call, Bracket, Shunt, TypeGroup, Unwind;
    if i < |tokens| {
      var kind := Identify(tokens, i);
      if kind == FunctionCall {
        var c := Call(tokens, i + 2, 1, [], [tokens[i]]);
        ReadExtends(tokens, c.index + 1, y.(out := y.out + [Complex(FunctionCall, c.parts)]));
      } else if kind == ArrayLiteral || kind == DataAccess {
        var c := Bracket(tokens, i + 1, 1, [], []);
        ReadExtends(tokens, c.index + 1, y.(out := y.out + [Complex(kind, c.parts)]));
      } else if kind == AttributeUsing {
        ReadExtends(tokens, i + 1, y);
      } else if TokenOf(tokens[i]).kind == TypeMarker {
        ReadExtends(tokens, AfterType(tokens, i), y.(out := y.out + TypeGroup(tokens, i)));
      } else {
        ShuntExtends(y, tokens[i]);
        ReadExtends(tokens, i + 1, Shunt(y, tokens[i]));
      }
    }
  }

  lemma ShuntExtends(y: Yard, g: Group)
    ensures y.out <= Shunt(y, g).out
  {
  }

  predicate IsKind(g: Group, kind: GroupType) {
    g.Complex? && g.kind == kind
  }

  /** The first group of a post-order is no call, and an array literal when the tree starts with a bracket. */
  lemma {:induction false} FirstInOrder(e: Tree)
    requires TreeOk(e, true)
    ensures PostOrder(e) != [] && !IsKind(PostOrder(e)[0], FunctionCall)
    ensures Print(e) != [] && (IsDelimiter(TokenOf(Print(e)[0]), LBracket) ==> IsKind(PostOrder(e)[0], ArrayLiteral))
    decreases e
  {
    match e
    case Leaf(_) =>
    case Named(markers, name) => assert Print(e)[0] == markers[0];
    case Infix(op, l, r) =>
      FirstInOrder(l);
      assert Print(e)[0] == Child(BareLeft(op, l), Print(l))[0];
    case Prefix(op, a) => FirstInOrder(a);
    case Suffix(op, a) =>
      FirstInOrder(a);
      assert Print(e)[0] == Child(BareArg(op, a), Print(a))[0];
    case Access(base, args) =>
      FirstInOrder(base);
      assert Print(e)[0] == Child(BareBase(base), Print(base))[0];
    case Array(_) =>
    case Paren(a) => FirstInOrder(a);
  }

  lemma FirstOperand(tokens: seq<Group>, g: Group)
    requires |tokens| > 1 && tokens[0] == g && IsOperand(g)
    ensures if NamesSomething(g) && IsDelimiter(TokenOf(tokens[1]), LParen) then
              var c := Call(tokens, 2, 1, [], [g]);
              Read(tokens, 0, Yard([], [])) == Read(tokens, c.index + 1, Yard([], [Complex(FunctionCall, c.parts)]))
            else Read(tokens, 0, Yard([], [])) == Read(tokens, 1, Yard([], [g]))
  {
    hide Call, Read;
    var none: seq<Group> := [];
    assert none + [g] == [g];
    if NamesSomething(g) && IsDelimiter(TokenOf(tokens[1]), LParen) {
      CallStarts(tokens, g);
    } else {
      ReadSimple(tokens, 0, Yard([], []));
    }
  }

  lemma CallStarts(tokens: seq<Group>, f: Group)
    requires |tokens| > 1 && tokens[0] == f && NamesSomething(f) && IsDelimiter(TokenOf(tokens[1]), LParen)
    ensures var c := Call(tokens, 2, 1, [], [f]);
            Read(tokens, 0, Yard([], [])) == Read(tokens, c.index + 1, Yard([], [Complex(FunctionCall, c.parts)]))
  {
    hide Call;
    var none: seq<Group> := [];
    var c := Call(tokens, 2, 1, [], [f]);
    assert none + [Complex(FunctionCall, c.parts)] == [Complex(FunctionCall, c.parts)];
    assert Identify(tokens, 0) == FunctionCall;
  }

  /** A kept token in front of an argument spoils it. */
  lemma KeptSpoils(g: Group, e: Tree)
    requires IsOperand(g) && ArgumentOk(e)
    ensures ArgumentOf([g] + Print(e)) != Complex(Argument, PostOrder(e))
  {
    hide Read, Call, Print, PostOrder, Emitted, Pending, TreeOk, Unwind;
    var tokens := [g] + Print(e);
    UnfoldOk(e);
    FirstInOrder(e);
    assert tokens[1] == Print(e)[0];
    FirstOperand(tokens, g);
    if NamesSomething(g) && IsDelimiter(TokenOf(tokens[1]), LParen) {
      var c := Call(tokens, 2, 1, [], [g]);
      ReadExtends(tokens, c.index + 1, Yard([], [Complex(FunctionCall, c.parts)]));
    } else if IsDelimiter(TokenOf(tokens[1]), LBracket) {
      ReadExtends(tokens, 1, Yard([], [g]));
    } else {
      assert At(tokens, 1, Print(e));
      ReadTree(tokens, 1, e, [], [g], true);
      PostOrderSplits(e);
      NothingAfter(Pending(e));
      ReadEnd(tokens, Yard(Pending(e), [g] + Emitted(e)));
      Reassociate([g], Emitted(e), Unwind(Pending(e)));
    }
  }

  lemma UnfoldOk(e: Tree)
    requires ArgumentOk(e)
    ensures TreeOk(e, true) && NoParenText(e)
  {
  }

  /** Once an argument of one token is not the last one, the next argument is wrong. */
  lemma {:induction false} KeptCollected(tokens: seq<Group>, i: nat, args: seq<Tree>, parts: seq<Group>)
    requires 2 <= i && At(tokens, i, PrintArgs(args) + [Mark(RParen)]) && ArgumentsOk(args)
    requires (forall k :: 0 <= k < |args| ==> Commas(Print(args[k]), 0) == 0) && !Separates(args)
    ensures Call(tokens, i, 1, [], parts).parts != parts + Arguments(args)
    decreases args
  {
    hide Print, At, Call, Build, ArgumentOf, PostOrder, Commas;
    var close := [Mark(RParen)];
    var x, rest := Print(args[0]), [Mark(Comma)] + (PrintArgs(args[1..]) + close);
    assert PrintArgs(args) + close == x + rest;
    TakesArgument(tokens, i, args[0], [], rest, parts);
    NothingAfter(x);
    ArgumentBuilt(args[0]);
    var q, parts' := i + |x|, parts + [ArgumentOf(x)];
    AtSplit(tokens, q, [Mark(Comma)], PrintArgs(args[1..]) + close);
    AtOne(tokens, q, Mark(Comma));
    CallComma(tokens, q, x, parts);
    Reassociate(parts, [ArgumentOf(x)], Arguments(args[1..]));
    if |x| > 1 {
      assert forall k :: 0 <= k < |args| - 1 ==> args[1..][k] == args[k + 1];
      SeparatesTail(args);
      KeptCollected(tokens, q + 1, args[1..], parts');
    } else {
      SecondSpoilt(tokens, q + 1, x, args[1..], parts');
      assert (parts + Arguments(args))[|parts'|] == Arguments(args[1..])[0];
    }
  }

  lemma SeparatesTail(args: seq<Tree>)
    requires args != [] && !Separates(args) && |Print(args[0])| > 1 && Commas(Print(args[0]), 0) == 0
    ensures |args| > 1 && !Separates(args[1..])
  {
    var rest := args[1..];
    assert forall k :: 0 <= k < |rest| ==> rest[k] == args[k + 1];
    assert forall k :: 0 < k < |args| ==> args[k] == rest[k - 1];
  }

  lemma SecondSpoilt(tokens: seq<Group>, i: nat, x: seq<Group>, args: seq<Tree>, parts: seq<Group>)
    requires 3 <= i && |x| == 1 && IsOperand(x[0]) && args != [] && ArgumentsOk(args) && Commas(Print(args[0]), 0) == 0
    requires At(tokens, i, PrintArgs(args) + [Mark(RParen)])
    ensures var c := Call(tokens, i, 1, x, parts); |c.parts| > |parts| && c.parts[|parts|] != Arguments(args)[0]
  {
    hide Print, At, Call, Build, ArgumentOf, PostOrder, Commas;
    var close := [Mark(RParen)];
    var y := Print(args[0]);
    var rest := if |args| == 1 then close else [Mark(Comma)] + (PrintArgs(args[1..]) + close);
    assert PrintArgs(args) + close == y + rest;
    TakesArgument(tokens, i, args[0], x, rest, parts);
    ArgumentBuilt(args[0]);
    KeptSpoils(x[0], args[0]);
    assert x + y == [x[0]] + y;
    var q, parts' := i + |y|, parts + [ArgumentOf(x + y)];
    if |args| == 1 {
      AtOne(tokens, q, Mark(RParen));
      CallEnd(tokens, q, x + y, parts);
    } else {
      AtSplit(tokens, q, [Mark(Comma)], PrintArgs(args[1..]) + close);
      AtOne(tokens, q, Mark(Comma));
      CallComma(tokens, q, x + y, parts);
      ArgsTidy(args[1..]);
      TidyCounts(tokens, q + 1, PrintArgs(args[1..]), parts');
      var c := Call(tokens, i, 1, x, parts);
      assert c.parts[|parts|] == parts'[|parts|];
    }
  }

  lemma TidyCounts(tokens: seq<Group>, i: nat, x: seq<Group>, parts: seq<Group>)
    requires 2 <= i && At(tokens, i, x + [Mark(RParen)]) && Tidy(x)
    ensures var c := Call(tokens, i, 1, [], parts);
            parts <= c.parts && |c.parts| == |parts| + Commas(x, 0) + 1 && c.index == i + |x|
  {
    hide Call, At, Commas, Parens;
    assert Parens(x, 0) == 0;
    CallCounts(tokens, i, x, 0, [], parts);
  }

  lemma {:induction false} ArgumentsCount(args: seq<Tree>)
    ensures |Arguments(args)| == |args|
    decreases args
  {
    if args != [] {
      ArgumentsCount(args[1..]);
    }
  }

  /** A call of a name is built with exactly its arguments if and only if every argument but the last has more than one token and no argument has a comma outside parentheses. */
  lemma CallIsExact(f: Group, args: seq<Tree>)
    requires NamesSomething(f) && ArgumentsOk(args)
    ensures Build(PrintCall(f, args)) == Complex(Root, [Complex(FunctionCall, [f] + Arguments(args))]) <==> Separates(args)
  {
    hide Read, Call, Print, PostOrder, Tidy, Commas;
    var tokens, x := PrintCall(f, args), PrintArgs(args);
    Reassociate([f, Mark(LParen)], x, [Mark(RParen)]);
    assert At(tokens, 2, x + [Mark(RParen)]);
    var c := Call(tokens, 2, 1, [], [f]);
    CallStarts(tokens, f);
    if args == [] {
      SeparatedCollected(tokens, 2, args, [f]);
    } else {
      ArgsTidy(args);
      TidyCounts(tokens, 2, x, [f]);
    }
    assert c.index + 1 == |tokens|;
    ReadEnd(tokens, Yard([], [Complex(FunctionCall, c.parts)]));
    UnwindNothing();
    NothingAfter([Complex(FunctionCall, c.parts)]);
    assert Build(tokens) == Complex(Root, [Complex(FunctionCall, c.parts)]);
    NoInnerCommas(args);
    ArgumentsCount(args);
    if Separates(args) {
      SeparatedCollected(tokens, 2, args, [f]);
    } else if InnerCommas(args) == 0 {
      KeptCollected(tokens, 2, args, [f]);
    }
  }

  /** An argument of one token in front of another argument: the call is built wrongly. */
  lemma SingleArgumentRepeats(f: Group, a: Group, rest: Tree)
    requires NamesSomething(f) && ArgumentOk(Leaf(a)) && ArgumentOk(rest)
    ensures Build(PrintCall(f, [Leaf(a), rest])) != Complex(Root, [Complex(FunctionCall, [f] + Arguments([Leaf(a), rest]))])
  {
    hide Build, Arguments, PrintCall;
    CallIsExact(f, [Leaf(a), rest]);
    assert |Print([Leaf(a), rest][0])| == 1;
  }

  /** An argument with two indices is split at the comma inside its brackets. */
  lemma IndicesSplit(f: Group, a: Group, i: Group, j: Group)
    requires NamesSomething(f) && ArgumentOk(Leaf(a)) && ArgumentOk(Leaf(i)) && ArgumentOk(Leaf(j))
    ensures var args := [Access(Leaf(a), [Leaf(i), Leaf(j)])];
            Build(PrintCall(f, args)) != Complex(Root, [Complex(FunctionCall, [f] + Arguments(args))])
  {
    var e := Access(Leaf(a), [Leaf(i), Leaf(j)]);
    var x := [a, Mark(LBracket), i, Mark(Comma), j, Mark(RBracket)];
    assert Print(e) == x by {
      assert [Leaf(i), Leaf(j)][1..] == [Leaf(j)];
      assert PrintArgs([Leaf(j)]) == [j];
      assert PrintArgs([Leaf(i), Leaf(j)]) == [i] + [Mark(Comma)] + [j];
    }
    CommaInside(a, i, j);
    hide Build, Arguments, PrintCall, Print;
    CallIsExact(f, [e]);
    assert [e][0] == e;
  }

  lemma CommaInside(a: Group, i: Group, j: Group)
    requires ArgumentOk(Leaf(a)) && ArgumentOk(Leaf(i)) && ArgumentOk(Leaf(j))
    ensures Commas([a, Mark(LBracket), i, Mark(Comma), j, Mark(RBracket)], 0) == 1
  {
    var x0, x1, x2 := [a, Mark(LBracket), i], [Mark(Comma)], [j, Mark(RBracket)];
    assert [a, Mark(LBracket), i, Mark(Comma), j, Mark(RBracket)] == x0 + x1 + x2;
    MarkersTidy(x0);
    MarkersTidy(x2);
    TidyComma(x0, x2);
  }
}
