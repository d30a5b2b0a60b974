/** Literals of the source: from their texts, interned by the compiler, to the bytes the machine loads. */
module Literals {
  import opened Words
  import opened ByteCode
  import opened Machine
  import opened Pseudo
  import opened CodegenSpec
  import opened RegisterBalance
  import opened StackEvaluator
  import opened CodegenCorrect
  import opened Expressions
  import opened ConstantsTable
  import opened CompiledCode
  import opened Simulation
  import opened LinkedRun
  import opened CodegenRun
  import opened ReadOnlyData
  import opened ObjectFormat
  import opened ObjectRoundTrip
  import I = ConstantIdentity
  import LS = LinkSpec
  import B = ByteMachine
  import M = SourceToMachine
  import P = PrintedTrees
  import RT = RawTokens
  import S = SourceExpressions
  import T = ExpressionsTranslator
  import U = Startup
  import V = VM
  import Tokens

  /** What a literal's text stands for; decoding texts is not part of this model. */
  datatype Literal = Literal(bytes: seq<Byte>, kind: Primitive, isString: bool)

  type Decoder = Tokens.Text -> Literal

  // ----- the meaning of a tree, literals read from their texts -----

  /** Operators that have a meaning here, on known names and literals. */
  predicate Operates(names: T.Names, e: P.Tree)
    decreases e
  {
    match e
    case Leaf(g) => g.Simple? && ((g.token.kind == Tokens.Identifier && g.token.text in names) || g.token.kind == Tokens.Literal)
    case Infix(op, l, r) => S.Computes(op) && T.OpCodeOf(op) != Exponentiate && Operates(names, l) && Operates(names, r)
    case Prefix(op, a) => (op == Tokens.MinusU || op == Tokens.BitNotU) && Operates(names, a)
    case Paren(a) => Operates(names, a)
    case _ => false
  }

  /** The bytes of a literal, or where they are when they do not fit a register. */
  function LiteralValue(decode: Decoder, address: Tokens.Text -> Word, text: Tokens.Text): Cell {
    var l := decode(text);
    Value(if |l.bytes| > 8 || l.isString then address(text) else ReadBytes(l.bytes, 0, |l.bytes|), l.kind)
  }

  function TreeValue(names: T.Names, ctx: Context, mem: Memory, decode: Decoder, address: Tokens.Text -> Word, e: P.Tree): (r: Answer)
    requires ContextOk(ctx) && |mem| == ctx.space.end && Operates(names, e)
    ensures r.Answer? ==> r.value.Value?
    decreases e
  {
    match e
    case Leaf(g) =>
      if g.token.kind == Tokens.Literal then Answer(LiteralValue(decode, address, g.token.text))
      else
        var id := names[g.token.text];
        if id in ctx.env.vars then Answer(Read(ctx, mem, VariableCell(ctx, id))) else IllTyped
    case Infix(op, l, r) =>
      S.ComputesBinary(op);
      ApplyAnswers(T.OpCodeOf(op), TreeValue(names, ctx, mem, decode, address, l), TreeValue(names, ctx, mem, decode, address, r))
    case Prefix(op, a) => ApplyAnswer(T.OpCodeOf(op), TreeValue(names, ctx, mem, decode, address, a))
    case Paren(a) => TreeValue(names, ctx, mem, decode, address, a)
  }

  // ----- the interned constants -----

  /** Constants only come in at the end. */
  lemma {:induction false} ConstantsGrow(names: T.Names, e: P.Tree, constants: seq<Tokens.Text>)
    requires S.Denoted(names, e, constants).Denotes?
    ensures constants <= S.Denoted(names, e, constants).constants
    decreases e
  {
    match e
    case Leaf(_) =>
    case Infix(op, l, r) =>
      ConstantsGrow(names, l, constants);
      ConstantsGrow(names, r, S.Denoted(names, l, constants).constants);
    case Prefix(_, a) => ConstantsGrow(names, a, constants);
    case Paren(a) => ConstantsGrow(names, a, constants);
  }

  /** The tables of the code generator and of the linked program are those of the interned texts. */
  ghost predicate Carries(ctx: Context, table: seq<Tokens.Text>, decode: Decoder) {
    && |table| <= TWO64 && |ctx.env.constants| == |ctx.layout.constants| == |ctx.layout.constantAddresses| == |table|
    && forall k :: 0 <= k < |table| ==>
         var l := decode(table[k]);
         && ctx.layout.constants[k] == l.bytes
         && ctx.env.constants[k].kind == l.kind && ctx.env.constants[k].size == |l.bytes| && ctx.env.constants[k].isString == l.isString
  }

  lemma CarriedLength(ctx: Context, table: seq<Tokens.Text>, decode: Decoder)
    requires Carries(ctx, table, decode)
    ensures |ctx.layout.constantAddresses| == |table|
  {
  }

  function AddressIn(ctx: Context, table: seq<Tokens.Text>): Tokens.Text -> Word
    requires |ctx.layout.constantAddresses| == |table|
  {
    (text: Tokens.Text) => if text in table then ctx.layout.constantAddresses[IndexIn(table, text)] else 0
  }

  /** The constant at a text's index is what the text stands for. */
  lemma ConstantRead(ctx: Context, mem: Memory, table: seq<Tokens.Text>, decode: Decoder, text: Tokens.Text)
    requires ContextOk(ctx) && |mem| == ctx.space.end && Carries(ctx, table, decode) && text in table
    ensures IndexIn(table, text) < TWO64
    ensures Evaluate(ctx, mem, Const(IndexIn(table, text))) == Answer(LiteralValue(decode, AddressIn(ctx, table), text))
  {
    hide PlaceOk, SpaceOk, ReadBytes;
  }

  /** A literal is read as what its text stands for, also after later constants have come in. */
  lemma LiteralRead(ctx: Context, mem: Memory, table: seq<Tokens.Text>, decode: Decoder, constants: seq<Tokens.Text>, text: Tokens.Text)
    requires ContextOk(ctx) && |mem| == ctx.space.end && Carries(ctx, table, decode) && Interned(constants, text) <= table
    ensures Evaluate(ctx, mem, Const(Wrap(IndexIn(Interned(constants, text), text))))
         == Answer(LiteralValue(decode, AddressIn(ctx, table), text))
  {
    hide ContextOk, Carries, Evaluate, LiteralValue;
    var k := IndexIn(Interned(constants, text), text);
    PrefixIndex(Interned(constants, text), table, text);
    assert table[k] == text;
    ConstantRead(ctx, mem, table, decode, text);
  }

  /** The expression a tree says has the tree's own value, whatever constants were and will be interned around it. */
  lemma {:induction false} DenotedValue(names: T.Names, e: P.Tree, constants: seq<Tokens.Text>, ctx: Context, mem: Memory,
                                        table: seq<Tokens.Text>, decode: Decoder)
    requires ContextOk(ctx) && |mem| == ctx.space.end && Carries(ctx, table, decode)
    requires Operates(names, e) && S.Denoted(names, e, constants).Denotes? && S.Denoted(names, e, constants).constants <= table
    ensures var d := S.Denoted(names, e, constants);
            && OperatorsOk(d.expr) && Covered(d.expr)
            && Evaluate(ctx, mem, d.expr) == TreeValue(names, ctx, mem, decode, AddressIn(ctx, table), e)
    decreases e
  {
    hide ContextOk, Carries, ApplyAnswers, ApplyAnswer, T.OpCodeOf, Interned, LiteralValue, Read, VariableCell;
    match e
    case Leaf(g) =>
      if g.token.kind == Tokens.Literal {
        LiteralRead(ctx, mem, table, decode, constants, g.token.text);
      }
    case Infix(op, l, r) =>
      S.ComputesBinary(op);
      var x := S.Denoted(names, l, constants);
      ConstantsGrow(names, r, x.constants);
      DenotedValue(names, l, constants, ctx, mem, table, decode);
      DenotedValue(names, r, x.constants, ctx, mem, table, decode);
    case Prefix(op, a) =>
      PrefixCode(op);
      DenotedValue(names, a, constants, ctx, mem, table, decode);
    case Paren(a) =>
      DenotedValue(names, a, constants, ctx, mem, table, decode);
  }

  lemma PrefixCode(op: Tokens.Symbol)
    requires op == Tokens.MinusU || op == Tokens.BitNotU
    ensures T.OpCodeOf(op) == Negative || T.OpCodeOf(op) == PseudoOpCode.BitNot
  {
  }

  lemma {:induction false} OperatesSays(names: T.Names, e: P.Tree, constants: seq<Tokens.Text>)
    requires Operates(names, e)
    ensures S.Denoted(names, e, constants).Denotes?
    decreases e
  {
    match e
    case Leaf(_) =>
    case Infix(op, l, r) =>
      OperatesSays(names, l, constants);
      OperatesSays(names, r, S.Denoted(names, l, constants).constants);
    case Prefix(_, a) => OperatesSays(names, a, constants);
    case Paren(a) => OperatesSays(names, a, constants);
  }

  // ----- assignments -----

  /** Assignments to known variables, of an expression or of another assignment. */
  predicate Stores(names: T.Names, ctx: Context, e: P.Tree)
    decreases e
  {
    match e
    case Paren(a) => Stores(names, ctx, a)
    case Infix(op, l, r) =>
      && S.IsAssignment(e) && S.IsVariable(names, S.Bare(l)) && names[S.Bare(l).operand.token.text] in ctx.env.vars
      && (T.OpCodeOf(op) == Nop || (IsBinary(T.OpCodeOf(op)) && IsCovered(T.OpCodeOf(op))))
      && if S.IsAssignment(S.Bare(r)) then Stores(names, ctx, r) else Operates(names, r)
    case _ => false
  }

  function TargetOf(names: T.Names, ctx: Context, e: P.Tree): (id: Word)
    requires Stores(names, ctx, e)
    ensures id in ctx.env.vars
    decreases e
  {
    match e
    case Paren(a) => TargetOf(names, ctx, a)
    case Infix(op, l, r) => names[S.Bare(l).operand.token.text]
  }

  function Written(ctx: Context, mem: Memory, target: Word, compound: PseudoOpCode, v: Cell): Effect
    requires ContextOk(ctx) && |mem| == ctx.space.end && target in ctx.env.vars && v.Value?
    requires compound == Nop || (IsBinary(compound) && IsCovered(compound))
  {
    WriteTarget(ctx, mem, Expressions.Assignment(target, compound, Expressions.Plain(Var(target))), v)
  }

  /** The memory after the assignment of a tree, literals read from their texts. */
  function TreeEffect(names: T.Names, ctx: Context, mem: Memory, decode: Decoder, address: Tokens.Text -> Word, e: P.Tree): (r: Effect)
    requires ContextOk(ctx) && |mem| == ctx.space.end && Stores(names, ctx, e)
    ensures r.Wrote? ==> |r.mem| == ctx.space.end
    decreases e
  {
    match e
    case Paren(a) => TreeEffect(names, ctx, mem, decode, address, a)
    case Infix(op, l, r) =>
      var target, compound := names[S.Bare(l).operand.token.text], T.OpCodeOf(op);
      if S.IsAssignment(S.Bare(r)) then
        match TreeEffect(names, ctx, mem, decode, address, r)
        case Wrote(mem') => Written(ctx, mem', target, compound, Read(ctx, mem', VariableCell(ctx, TargetOf(names, ctx, r))))
        case Failed(answer) => Failed(answer)
      else
        var v := TreeValue(names, ctx, mem, decode, address, r);
        if v.Answer? then Written(ctx, mem, target, compound, v.value) else Failed(v)
  }

  /** The assignment a tree says has the tree's own effect. */
  lemma {:induction false} DenotedEffect(names: T.Names, e: P.Tree, constants: seq<Tokens.Text>, ctx: Context, mem: Memory,
                                         table: seq<Tokens.Text>, decode: Decoder)
    requires ContextOk(ctx) && |mem| == ctx.space.end && Carries(ctx, table, decode) && Stores(names, ctx, e)
    requires S.DenotedAssignment(names, e, constants).Assigns? ==> S.DenotedAssignment(names, e, constants).constants <= table
    ensures var d := S.DenotedAssignment(names, e, constants);
            && d.Assigns? && AssignmentOk(ctx, d.a) && d.a.target == TargetOf(names, ctx, e)
            && RunAssignment(ctx, mem, d.a) == TreeEffect(names, ctx, mem, decode, AddressIn(ctx, table), e)
    decreases e
  {
    hide ContextOk, Carries, T.OpCodeOf, IsBinary, Read, VariableCell, WriteTarget, Operates, S.Denoted, Evaluate, TreeValue;
    match e
    case Paren(a) =>
      DenotedEffect(names, a, constants, ctx, mem, table, decode);
    case Infix(op, l, r) =>
      if S.IsAssignment(S.Bare(r)) {
        DenotedEffect(names, r, constants, ctx, mem, table, decode);
        var inner := S.DenotedAssignment(names, r, constants);
        var d := S.DenotedAssignment(names, e, constants);
        var effect := RunAssignment(ctx, mem, inner.a);
        if effect.Wrote? {
          SameChained(ctx, effect.mem, d.a, inner.a.target);
        }
      } else {
        OperatesSays(names, r, constants);
        DenotedValue(names, r, constants, ctx, mem, table, decode);
        var d := S.DenotedAssignment(names, e, constants);
        var v := Evaluate(ctx, mem, S.Denoted(names, r, constants).expr);
        if v.Answer? {
          SameWritten(ctx, mem, d.a, v.value);
        }
      }
  }

  lemma SameWritten(ctx: Context, mem: Memory, a: Expressions.Assignment, v: Cell)
    requires ContextOk(ctx) && |mem| == ctx.space.end && AssignmentOk(ctx, a) && v.Value?
    ensures WriteTarget(ctx, mem, a, v) == Written(ctx, mem, a.target, a.compound, v)
  {
  }

  lemma SameChained(ctx: Context, mem: Memory, a: Expressions.Assignment, id: Word)
    requires ContextOk(ctx) && |mem| == ctx.space.end && AssignmentOk(ctx, a) && id in ctx.env.vars
    ensures SpaceOk(ctx.space) && CellOk(ctx, VariableCell(ctx, id))
    ensures WriteTarget(ctx, mem, a, Read(ctx, mem, VariableCell(ctx, id)))
         == Written(ctx, mem, a.target, a.compound, Read(ctx, mem, VariableCell(ctx, id)))
  {
  }

  // ----- through the object file into memory -----

  function BytesOf(decode: Decoder, table: seq<Tokens.Text>): seq<seq<Byte>> {
    seq(|table|, k requires 0 <= k < |table| => decode(table[k]).bytes)
  }

  /** What the code generator knows of each constant. */
  ghost predicate Described(env: Env, table: seq<Tokens.Text>, decode: Decoder) {
    && |env.constants| == |table|
    && forall k :: 0 <= k < |table| ==>
         var l := decode(table[k]);
         env.constants[k].kind == l.kind && env.constants[k].size == |l.bytes| && env.constants[k].isString == l.isString
  }

  /**
   * Interned texts, written to an object file as their bytes, read back, laid out and loaded: the tables are those of the texts, and the
   * bytes of each text stand in memory at its recorded address.
   */
  lemma TextsAreLoaded(ctx: Context, table: seq<Tokens.Text>, decode: Decoder, m: MoState, aligned: bool, mem: Memory)
    requires MoOk(m) && Readable(m.symbols) && m.constants == BytesOf(decode, table) && Described(ctx.env, table, decode)
    requires ReadMo(MoBytes(m), aligned).Some? ==> U.LaidOut(ReadMo(MoBytes(m), aligned).value.constants, ctx.layout)
    ensures ReadMo(MoBytes(m), aligned).Some? && SizesOk(ReadMo(MoBytes(m), aligned).value.constants) && Carries(ctx, table, decode)
    ensures U.Loaded(ReadMo(MoBytes(m), aligned).value.constants, mem) ==>
              forall text :: text in table ==>
                var a, bytes := AddressIn(ctx, table)(text), decode(text).bytes;
                a + |bytes| <= |mem| && mem[a..a + |bytes|] == bytes
  {
    hide MoOk, ReadMo, MoBytes, Image, AddressOf, TotalSize, ObjectRoundTrip.Kept;
    MoRoundTrip(m, aligned);
    TableFits(m);
    var c := ObjectRoundTrip.Kept(m.constants, 0, aligned);
    I.KeptFits(m.constants, 0, aligned);
    forall k | 0 <= k < |table|
      ensures ctx.layout.constants[k] == decode(table[k]).bytes
    {
      KeptAt(m.constants, 0, aligned, k);
    }
    if U.Loaded(c, mem) {
      forall text | text in table
        ensures var a, bytes := AddressIn(ctx, table)(text), decode(text).bytes;
                a + |bytes| <= |mem| && mem[a..a + |bytes|] == bytes
      {
        var k := IndexIn(table, text);
        KeptAt(m.constants, 0, aligned, k);
        ConstantAtAddress(c, k);
        var a, n := AddressOf(c, k), |c[k].data|;
        assert mem[..TotalSize(c)][a..a + n] == mem[a..a + n];
      }
    }
  }

  lemma KeptSizes(constants: seq<seq<Byte>>, aligned: bool)
    requires |constants| <= TWO64
    ensures SizesOk(ObjectRoundTrip.Kept(constants, 0, aligned))
  {
    I.KeptFits(constants, 0, aligned);
  }

  lemma TableFits(m: MoState)
    requires MoOk(m) && Readable(m.symbols)
    ensures |m.constants| <= TWO64
  {
    MoRoundTrip(m, false);
  }

  /** The object file holds the interned texts' bytes, and the program is linked against what is read back. */
  ghost predicate ThroughFile(ctx: Context, table: seq<Tokens.Text>, decode: Decoder, m: MoState, aligned: bool) {
    && MoOk(m) && Readable(m.symbols) && m.constants == BytesOf(decode, table) && Described(ctx.env, table, decode)
    && (ReadMo(MoBytes(m), aligned).Some? ==> U.LaidOut(ReadMo(MoBytes(m), aligned).value.constants, ctx.layout))
  }

  /** Every text's bytes are in the running machine's memory, where its address says. */
  ghost predicate InMemory(ctx: Context, table: seq<Tokens.Text>, decode: Decoder, mem: Memory)
    requires |ctx.layout.constantAddresses| == |table|
  {
    forall text :: text in table ==>
      var a, bytes := AddressIn(ctx, table)(text), decode(text).bytes;
      a + |bytes| <= |mem| && mem[a..a + |bytes|] == bytes
  }

  lemma RunningHoldsTexts(ctx: Context, table: seq<Tokens.Text>, decode: Decoder, l: Link, c: B.Config, v: V.VMState, code: seq<Command>)
    requires Carries(ctx, table, decode) && M.Placed(ctx, l, c, v, code)
    ensures InMemory(ctx, table, decode, v.mem)
  {
    hide LS.Linked, LinkOk, B.SupportedProgram;
    forall text | text in table
      ensures var a, bytes := AddressIn(ctx, table)(text), decode(text).bytes;
              a + |bytes| <= |v.mem| && v.mem[a..a + |bytes|] == bytes
    {
      var k := IndexIn(table, text);
      assert ctx.layout.constants[k] == decode(table[k]).bytes;
    }
  }

  /** The constants interned up to the end of the expression are the first of the program's. */
  predicate ConstantsWithin(names: T.Names, e: P.Tree, constants: seq<Tokens.Text>, table: seq<Tokens.Text>) {
    match S.Denoted(names, e, constants) case Denotes(_, k) => k <= table case Unsupported => true
  }

  predicate AssignmentWithin(names: T.Names, e: P.Tree, constants: seq<Tokens.Text>, table: seq<Tokens.Text>) {
    match S.DenotedAssignment(names, e, constants) case Assigns(_, k) => k <= table case NotAssigning => true
  }

  /**
   * After n turns the register holds the value of the tree in the memory given, each literal being what its text stands for, and the
   * machine's memory holds the texts' bytes.
   */
  ghost predicate LeavesTree(names: T.Names, e: P.Tree, constants: seq<Tokens.Text>, table: seq<Tokens.Text>, decode: Decoder, ctx: Context,
                             g: GState, mem: Memory, l: Link, v: V.VMState, n: nat)
  {
    && ContextOk(ctx) && |mem| == ctx.space.end && |ctx.layout.constantAddresses| == |table| && Operates(names, e)
    && InMemory(ctx, table, decode, v.mem)
    && M.LeavesLoaded(names, e, constants, ctx.env, g, l, v, n, TreeValue(names, ctx, mem, decode, AddressIn(ctx, table), e))
  }

  /** After n turns memory is what the assignment of the tree makes of it. */
  ghost predicate DoesTree(names: T.Names, e: P.Tree, table: seq<Tokens.Text>, decode: Decoder, ctx: Context, mem: Memory, l: Link,
                           v: V.VMState, n: nat)
  {
    && ContextOk(ctx) && |mem| == ctx.space.end && |ctx.layout.constantAddresses| == |table| && Stores(names, ctx, e)
    && InMemory(ctx, table, decode, v.mem)
    && M.Does(l, v, n, TreeEffect(names, ctx, mem, decode, AddressIn(ctx, table), e))
  }

  /**
   * The tokens of an expression, translated with the constants interned so far, compiled, and linked with all constants of the program: the
   * machine computes the value of the tree, in which every literal is what its text stands for, its bytes being in memory.
   */
  lemma SourceLiteralsRun(names: T.Names, e: P.Tree, constants: seq<Tokens.Text>, table: seq<Tokens.Text>, decode: Decoder,
                          m: MoState, aligned: bool, ctx: Context, g: GState, s: EState, c: B.Config, l: Link, v: V.VMState)
    returns (n: nat)
    requires Refines(ctx, g, s, c) && P.TreeOk(e, false) && Operates(names, e) && ThroughFile(ctx, table, decode, m, aligned)
    requires ConstantsWithin(names, e, constants, table)
    requires M.ExpressionPlaced(names, e, constants, ctx, g, c, l, v)
    ensures LeavesTree(names, e, constants, table, decode, ctx, g, s.mem, l, v, n)
  {
    hide MoOk, ReadMo, MoBytes, U.LaidOut, S.Translation, S.Denoted, EmitAll, LoadOperand, Evaluate, TreeValue, M.Placed, Carries, Described,
         ContextOk, Operates, LS.Linked, V.Run, AddressIn, InMemory, M.LeavesLoaded;
    OperatesSays(names, e, constants);
    TextsAreLoaded(ctx, table, decode, m, aligned, s.mem);
    assert |ctx.layout.constantAddresses| == |table| by { CarriedLength(ctx, table, decode); }
    Unfold(ctx, g, s, c);
    DenotedValue(names, e, constants, ctx, s.mem, table, decode);
    var ops := S.Translation(names, RT.SourceOf(e), constants).code;
    RunningHoldsTexts(ctx, table, decode, l, c, v, M.Tail(g.code, LoadOperand(ctx.env, EmitAll(ctx.env, g, ops).value).value.rest.code));
    n := M.SourceExpressionRuns(names, e, constants, ctx, g, s, c, l, v);
  }

  /** The same for the tokens of an assignment: memory becomes what the tree says. */
  lemma SourceAssignmentLiteralsRun(names: T.Names, e: P.Tree, constants: seq<Tokens.Text>, table: seq<Tokens.Text>, decode: Decoder,
                                    m: MoState, aligned: bool, ctx: Context, g: GState, s: EState, c: B.Config, l: Link, v: V.VMState)
    returns (n: nat)
    requires Refines(ctx, g, s, c) && P.TreeOk(e, false) && Stores(names, ctx, e) && ThroughFile(ctx, table, decode, m, aligned)
    requires AssignmentWithin(names, e, constants, table)
    requires M.AssignmentPlaced(names, e, constants, ctx, g, c, l, v)
    ensures DoesTree(names, e, table, decode, ctx, s.mem, l, v, n)
  {
    hide MoOk, ReadMo, MoBytes, U.LaidOut, S.Translation, S.DenotedAssignment, EmitAll, LoadOperand, RunAssignment, TreeEffect, M.Placed, Carries,
         Described, ContextOk, Stores, LS.Linked, V.Run, AddressIn, InMemory, AssignmentOk, M.Does;
    TextsAreLoaded(ctx, table, decode, m, aligned, s.mem);
    assert |ctx.layout.constantAddresses| == |table| by { CarriedLength(ctx, table, decode); }
    Unfold(ctx, g, s, c);
    DenotedEffect(names, e, constants, ctx, s.mem, table, decode);
    var ops := S.Translation(names, RT.SourceOf(e), constants).code;
    RunningHoldsTexts(ctx, table, decode, l, c, v, M.Tail(g.code, EmitAll(ctx.env, g, ops).value.code));
    n := M.SourceAssignmentRuns(names, e, constants, ctx, g, s, c, l, v);
  }
}
