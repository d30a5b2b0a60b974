/** Suffix operators in a row, written without parentheses. */
module SuffixChains {
  import opened Tokens
  import opened PostfixSpec
  import opened PrintedTrees
  import opened PostfixRoundTrip

  /** The tree in which the suffixes apply one after the other. */
  function Suffixed(e: Tree, chain: seq<Symbol>): Tree
    decreases |chain|
  {
    if chain == [] then e else Suffix(chain[|chain| - 1], Suffixed(e, chain[..|chain| - 1]))
  }

  predicate AllSuffixes(chain: seq<Symbol>) {
    forall k :: 0 <= k < |chain| ==> IsSuffix(chain[k])
  }

  function Ops(chain: seq<Symbol>): (s: seq<Group>)
    ensures |s| == |chain|
  {
    seq(|chain|, k requires 0 <= k < |chain| => OpToken(chain[k]))
  }

  function Reversed<T>(s: seq<T>): (r: seq<T>)
    ensures |r| == |s|
  {
    if s == [] then [] else [s[|s| - 1]] + Reversed(s[..|s| - 1])
  }

  /** The operand, in parentheses where a suffix needs them, and the suffixes behind it. */
  function PrintChain(e: Tree, chain: seq<Symbol>): seq<Group> {
    Child(Level(e) > 9, Print(e)) + Ops(chain)
  }

  lemma {:induction false} SuffixedOrder(e: Tree, chain: seq<Symbol>)
    ensures PostOrder(Suffixed(e, chain)) == PostOrder(e) + Ops(chain)
    decreases |chain|
  {
    if chain == [] {
      assert PostOrder(e) + [] == PostOrder(e);
    } else {
      var n := |chain| - 1;
      SuffixedOrder(e, chain[..n]);
      SuffixOrder(Suffixed(e, chain[..n]), chain[n]);
      assert Ops(chain) == Ops(chain[..n]) + [OpToken(chain[n])];
    }
  }

  /** Suffixes wait for one another: each stays below the next. */
  lemma {:induction false} ReadSuffixes(tokens: seq<Group>, p: nat, chain: seq<Symbol>, waiting: seq<Symbol>, out: seq<Group>)
    requires AllSuffixes(chain) && AllSuffixes(waiting) && At(tokens, p, Ops(chain))
    ensures Read(tokens, p, Yard(Ops(waiting), out)) == Read(tokens, p + |chain|, Yard(Ops(waiting + chain), out))
    decreases |chain|
  {
    hide Read, Steady, At, Ops, Priority, IsSuffix, Unwind;
    if chain == [] {
      assert waiting + chain == waiting;
    } else {
      var op, rest := chain[0], chain[1..];
      assert chain == [op] + rest;
      OpsAppend([op], rest);
      OpsAppend(waiting, [op]);
      OneOp(op);
      AtSplit(tokens, p, [OpToken(op)], Ops(rest));
      SteadySuffixes(waiting, op);
      var none: seq<Group> := [];
      UnwindNothing();
      NothingAfter(out);
      NothingAfter(Ops(waiting));
      ReadOperator(tokens, p, op, Ops(waiting), none, out);
      ReadSuffixes(tokens, p + 1, rest, waiting + [op], out);
      assert waiting + [op] + rest == waiting + chain;
    }
  }

  lemma OpsAppend(a: seq<Symbol>, b: seq<Symbol>)
    ensures Ops(a + b) == Ops(a) + Ops(b)
  {
  }

  lemma OneOp(op: Symbol)
    ensures Ops([op]) == [OpToken(op)]
  {
  }

  lemma SteadySuffixes(waiting: seq<Symbol>, op: Symbol)
    requires AllSuffixes(waiting) && IsSuffix(op)
    ensures Steady(Ops(waiting), Priority(op))
  {
    if waiting != [] {
      var top := waiting[|waiting| - 1];
      SuffixesTie(top, op);
      KeptOut(top, op);
    }
  }

  lemma {:induction false} UnwindReverses(chain: seq<Symbol>)
    ensures Unwind(Ops(chain)) == Ops(Reversed(chain))
    decreases |chain|
  {
    if chain != [] {
      var n := |chain| - 1;
      assert Ops(chain)[..n] == Ops(chain[..n]);
      UnwindReverses(chain[..n]);
      var front, rest := [chain[n]], Reversed(chain[..n]);
      assert Ops(front + rest) == Ops(front) + Ops(rest);
      assert Ops(front) == [OpToken(chain[n])];
    }
  }

  lemma OpsAreOperators(a: seq<Symbol>, b: seq<Symbol>)
    ensures Ops(a) == Ops(b) <==> a == b
  {
    if Ops(a) == Ops(b) {
      forall k | 0 <= k < |a|
        ensures a[k] == b[k]
      {
        assert Ops(a)[k] == Ops(b)[k];
      }
    }
  }

  /** A chain of suffixes comes out backwards behind the operand's post-order. */
  lemma ChainReverses(e: Tree, chain: seq<Symbol>)
    requires TreeOk(e, false) && AllSuffixes(chain) && chain != []
    ensures Build(PrintChain(e, chain)) == Complex(Root, PostOrder(e) + Ops(Reversed(chain)))
  {
    hide Read, Print, PostOrder, Level, Unwind, Child;
    var tokens, op, rest := PrintChain(e, chain), chain[0], chain[1..];
    var bare := Level(e) > 9;
    var child := Child(bare, Print(e));
    assert Ops(chain) == [OpToken(op)] + Ops(rest);
    var first := child + [OpToken(op)];
    Reassociate(child, [OpToken(op)], Ops(rest));
    assert At(tokens, 0, first + Ops(rest));
    AtSplit(tokens, 0, first, Ops(rest));
    FirstSuffix(op, e);
    SteadySuffixes([], op);
    var none: seq<Group> := [];
    assert Ops([]) == none;
    ReadLeftChild(tokens, 0, e, bare, op, none, none, false);
    NothingAfter([OpToken(op)]);
    NothingAfter(PostOrder(e));
    assert Ops([op]) == [OpToken(op)];
    ReadSuffixes(tokens, |first|, rest, [op], PostOrder(e));
    assert [op] + rest == chain;
    ReadEnd(tokens, Yard(Ops(chain), PostOrder(e)));
    UnwindReverses(chain);
    ChildLength(e, bare);
  }

  lemma FirstSuffix(op: Symbol, e: Tree)
    requires IsSuffix(op)
    ensures BareArg(op, e) == (Level(e) > 9)
  {
  }

  lemma ChildLength(e: Tree, bare: bool)
    requires TreeOk(e, false)
    ensures |Child(bare, Print(e))| >= 1
  {
  }

  /** The chain is built as the tree in which the suffixes apply in order if and only if it reads the same backwards. */
  lemma ChainIsExact(e: Tree, chain: seq<Symbol>)
    requires TreeOk(e, false) && AllSuffixes(chain) && chain != []
    ensures Build(PrintChain(e, chain)) == Complex(Root, PostOrder(Suffixed(e, chain))) <==> Reversed(chain) == chain
  {
    hide Build, PostOrder;
    ChainReverses(e, chain);
    SuffixedOrder(e, chain);
    OpsAreOperators(chain, Reversed(chain));
    var x, a, b := PostOrder(e), Ops(chain), Ops(Reversed(chain));
    assert (x + a)[|x|..] == a && (x + b)[|x|..] == b;
  }

  /** An increment and a decrement in a row come out in the wrong order. */
  lemma MixedSuffixesSwap(e: Tree)
    requires TreeOk(e, false)
    ensures Build(PrintChain(e, [UIncrement, UDecrement])) != Complex(Root, PostOrder(Suffixed(e, [UIncrement, UDecrement])))
  {
    var chain := [UIncrement, UDecrement];
    ChainIsExact(e, chain);
    assert Reversed(chain)[0] == UDecrement;
  }
}
