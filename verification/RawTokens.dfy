/** From raw tokens to groups: what joining qualified names computes, and the round trip of printed trees on raw tokens. */
module RawTokens {
  import opened Tokens
  import opened PostfixSpec
  import opened PrintedTrees
  import R = PostfixRoundTrip

  predicate IsScope(t: Token) {
    t.kind == Operator && t.text == Sym(Scope)
  }

  /** A list that neither begins nor ends with a scope operator. */
  predicate Bounded(tokens: seq<Token>) {
    tokens != [] ==> !IsScope(tokens[0]) && !IsScope(tokens[|tokens| - 1])
  }

  // ----- lists side by side -----

  /** Behind other groups, folding goes on as it would from the start, once it has a group of its own to join to. */
  lemma {:induction false} FoldBehind(a: seq<Token>, b: seq<Token>, j: nat, before: seq<Group>, done: seq<Group>)
    requires j <= |b| && (j == 0 ==> done == []) && (done == [] && j < |b| ==> j == 0 && !IsScope(b[0]))
    ensures Fold(a + b, |a| + j, before + done) == before + Fold(b, j, done)
    decreases |b| - j
  {
    var all := a + b;
    if j < |b| {
      var t := b[j];
      assert all[|a| + j] == t;
      if IsScope(t) {
        var last := done[|done| - 1];
        var init := done[..|done| - 1];
        assert (before + done)[|before + done| - 1] == last && (before + done)[..|before + done| - 1] == before + init;
        if j + 1 < |b| && b[j + 1].kind == Identifier && (TokenOf(last).kind == Identifier || IsQualified(last)) {
          assert all[|a| + j + 1] == b[j + 1];
          var name := Complex(QualifiedName, (if IsQualified(last) then last.parts else [last]) + [Simple(b[j + 1])]);
          QualifiedIsNoToken(last);
          assert TokenOf(last).kind == Identifier ==> [last, Simple(b[j + 1])] == [last] + [Simple(b[j + 1])];
          assert before + init + [name] == before + (init + [name]);
          FoldBehind(a, b, j + 2, before, init + [name]);
        } else {
          assert j + 1 < |b| ==> all[|a| + j + 1] == b[j + 1];
          FoldBehind(a, b, j + 1, before, done);
        }
      } else {
        assert before + done + [Simple(t)] == before + (done + [Simple(t)]);
        FoldBehind(a, b, j + 1, before, done + [Simple(t)]);
      }
    }
  }

  lemma QualifiedIsNoToken(g: Group)
    ensures IsQualified(g) ==> TokenOf(g).kind != Identifier
  {
  }

  /** In front of other tokens, folding does what it does alone, when no scope operator stands at the boundary. */
  lemma {:induction false} FoldBefore(a: seq<Token>, b: seq<Token>, i: nat, done: seq<Group>)
    requires i <= |a| && Bounded(a)
    ensures Fold(a + b, i, done) == Fold(a + b, |a|, Fold(a, i, done))
    decreases |a| - i
  {
    var all := a + b;
    if i < |a| {
      var t := a[i];
      assert all[i] == t;
      if IsScope(t) {
        assert i + 1 < |a|;
        assert all[i + 1] == a[i + 1];
        if i > 0 && done != [] && a[i + 1].kind == Identifier {
          var last := done[|done| - 1];
          if TokenOf(last).kind == Identifier {
            FoldBefore(a, b, i + 2, done[..|done| - 1] + [Complex(QualifiedName, [last, Simple(a[i + 1])])]);
          } else if IsQualified(last) {
            FoldBefore(a, b, i + 2, done[..|done| - 1] + [Complex(QualifiedName, last.parts + [Simple(a[i + 1])])]);
          } else {
            FoldBefore(a, b, i + 1, done);
          }
        } else {
          FoldBefore(a, b, i + 1, done);
        }
      } else {
        FoldBefore(a, b, i + 1, done + [Simple(t)]);
      }
    }
  }

  /** Two lists without a scope operator at their boundary are folded one by one. */
  lemma FoldAppend(a: seq<Token>, b: seq<Token>)
    requires Bounded(a) && Bounded(b)
    ensures Fold(a + b, 0, []) == Fold(a, 0, []) + Fold(b, 0, [])
  {
    FoldBefore(a, b, 0, []);
    var done := Fold(a, 0, []);
    assert done + [] == done;
    FoldBehind(a, b, 0, done, []);
  }

  // ----- what single lists fold to -----

  function Singles(tokens: seq<Token>): seq<Group> {
    if tokens == [] then [] else [Simple(tokens[0])] + Singles(tokens[1..])
  }

  /** A list without scope operators folds to its tokens, one group each. */
  lemma {:induction false} PlainFolds(tokens: seq<Token>)
    requires forall k :: 0 <= k < |tokens| ==> !IsScope(tokens[k])
    ensures Fold(tokens, 0, []) == Singles(tokens)
  {
    if tokens != [] {
      var one, rest := [tokens[0]], tokens[1..];
      assert tokens == one + rest;
      FoldAppend(one, rest);
      assert [] + [Simple(tokens[0])] == [Simple(tokens[0])];
      PlainFolds(rest);
    }
  }

  /** Names separated by scope operators. */
  function Joined(names: seq<Token>): seq<Token>
    requires names != []
  {
    if |names| == 1 then names else Joined(names[..|names| - 1]) + [Token(Operator, Sym(Scope)), names[|names| - 1]]
  }

  predicate AllNames(tokens: seq<Token>) {
    forall k :: 0 <= k < |tokens| ==> tokens[k].kind == Identifier
  }

  lemma {:induction false} JoinedShape(names: seq<Token>)
    requires names != [] && AllNames(names)
    ensures |Joined(names)| == 2 * |names| - 1 && Bounded(Joined(names)) && Joined(names)[0] == names[0]
  {
    if |names| > 1 {
      JoinedShape(names[..|names| - 1]);
    }
  }

  lemma {:induction false} SinglesAt(tokens: seq<Token>)
    ensures |Singles(tokens)| == |tokens| && forall k :: 0 <= k < |tokens| ==> Singles(tokens)[k] == Simple(tokens[k])
  {
    if tokens != [] {
      SinglesAt(tokens[1..]);
      assert forall k :: 0 < k < |tokens| ==> tokens[1..][k - 1] == tokens[k];
    }
  }

  /** The group that names joined by scope operators stand for: one name is itself, several are one qualified name with exactly these parts. */
  function NameGroup(names: seq<Token>): Group
    requires names != []
  {
    if |names| == 1 then Simple(names[0]) else Complex(QualifiedName, Singles(names))
  }

  /** Names joined by scope operators fold to one qualified name with exactly these parts, whatever stands around them. */
  lemma {:induction false} NamesFold(names: seq<Token>)
    requires names != [] && AllNames(names)
    ensures Fold(Joined(names), 0, []) == [NameGroup(names)]
    decreases |names|
  {
    if |names| == 1 {
      PlainFolds(names);
      SinglesAt(names);
      assert Singles(names) == [Simple(names[0])];
    } else {
      hide Fold, Joined;
      var n := |names| - 1;
      var init, last := names[..n], names[n];
      JoinedStep(names);
      var x, tail := Joined(init), [Token(Operator, Sym(Scope)), last];
      NamesFold(init);
      JoinedShape(init);
      FoldBefore(x, tail, 0, []);
      var all, g := x + tail, NameGroup(init);
      assert all[|x|] == tail[0] && all[|x| + 1] == last;
      GroupStep(names);
      LastFolds(all, |x|, g, last, NameGroup(names));
    }
  }

  lemma JoinedStep(names: seq<Token>)
    requires |names| > 1
    ensures var n := |names| - 1; Joined(names) == Joined(names[..n]) + [Token(Operator, Sym(Scope)), names[n]]
  {
  }

  lemma GroupStep(names: seq<Token>)
    requires |names| > 1 && AllNames(names)
    ensures var g, n := NameGroup(names[..|names| - 1]), |names| - 1;
            && NameGroup(names) == Complex(QualifiedName, (if g.Simple? then [g] else g.parts) + [Simple(names[n])])
            && (if g.Simple? then g.token.kind == Identifier else g.kind == QualifiedName)
  {
    var n := |names| - 1;
    SinglesAt(names[..n]);
    SinglesAt(names);
    assert Singles(names[..n]) + [Simple(names[n])] == Singles(names);
    assert n == 1 ==> Singles(names[..n]) == [NameGroup(names[..n])];
  }

  /** The last scope operator joins the name behind it to the group before it. */
  lemma LastFolds(all: seq<Token>, i: nat, g: Group, last: Token, joined: Group)
    requires 0 < i && |all| == i + 2 && IsScope(all[i]) && all[i + 1] == last && last.kind == Identifier
    requires joined == Complex(QualifiedName, (if g.Simple? then [g] else g.parts) + [Simple(last)])
    requires if g.Simple? then g.token.kind == Identifier else g.kind == QualifiedName
    ensures Fold(all, i, [g]) == [joined]
  {
    assert [g][..0] + [joined] == [joined];
    assert g.Simple? ==> [g] + [Simple(last)] == [g, Simple(last)];
    assert Fold(all, i + 2, [joined]) == [joined];
  }

  // ----- groups written out -----

  /** A group that can be written down: a token other than the scope operator, or a qualified name of at least two identifiers. */
  predicate Writable(g: Group) {
    match g
    case Simple(t) => !IsScope(t)
    case Complex(kind, parts) =>
      kind == QualifiedName && |parts| >= 2 && forall k :: 0 <= k < |parts| ==> parts[k].Simple? && parts[k].token.kind == Identifier
  }

  predicate AllWritable(groups: seq<Group>) {
    forall k :: 0 <= k < |groups| ==> Writable(groups[k])
  }

  function NamesOf(g: Group): (names: seq<Token>)
    requires g.Complex? && Writable(g)
    ensures |names| == |g.parts| && AllNames(names)
  {
    seq(|g.parts|, k requires 0 <= k < |g.parts| => g.parts[k].token)
  }

  function Written(groups: seq<Group>): seq<Token>
    requires AllWritable(groups)
  {
    if groups == [] then []
    else (if groups[0].Simple? then [groups[0].token] else Joined(NamesOf(groups[0]))) + Written(groups[1..])
  }

  /** The tokens of a tree, for trees that can be written down. */
  function SourceOf(e: Tree): seq<Token> {
    if AllWritable(Print(e)) then Written(Print(e)) else []
  }

  lemma OneFolds(g: Group)
    requires Writable(g)
    ensures var x := if g.Simple? then [g.token] else Joined(NamesOf(g));
            x != [] && Bounded(x) && Fold(x, 0, []) == [g]
  {
    match g
    case Simple(t) =>
      PlainFolds([t]);
      SinglesAt([t]);
      assert Singles([t]) == [g];
    case Complex(kind, parts) =>
      var names := NamesOf(g);
      JoinedShape(names);
      NamesFold(names);
      SinglesAt(names);
      assert Singles(names) == parts;
  }

  lemma {:induction false} WrittenBounded(groups: seq<Group>)
    requires AllWritable(groups)
    ensures Bounded(Written(groups)) && (groups != [] ==> Written(groups) != [])
  {
    if groups != [] {
      OneFolds(groups[0]);
      WrittenBounded(groups[1..]);
    }
  }

  /** Writing groups out as tokens and folding these gives the groups. */
  lemma {:induction false} FoldWritten(groups: seq<Group>)
    requires AllWritable(groups)
    ensures Fold(Written(groups), 0, []) == groups
  {
    if groups != [] {
      OneFolds(groups[0]);
      WrittenBounded(groups[1..]);
      FoldWritten(groups[1..]);
      FoldAppend(if groups[0].Simple? then [groups[0].token] else Joined(NamesOf(groups[0])), Written(groups[1..]));
      assert [groups[0]] + groups[1..] == groups;
    }
  }

  /** The postfix form of the raw tokens of a printed tree is the tree's post-order. */
  lemma RawTreeBuilds(e: Tree)
    requires TreeOk(e, false) && AllWritable(Print(e))
    ensures Elements(PostfixSpec.Postfix(Written(Print(e)))) == PostOrder(e)
    ensures PostfixSpec.Postfix(Written(Print(e))) == Build(Print(e))
  {
    FoldWritten(Print(e));
    R.BuildTree(e, false);
  }
}
