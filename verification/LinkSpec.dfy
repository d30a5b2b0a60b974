/** What linking is meant to produce: relocation, expansion to VM operations and two-pass label resolution. */
module LinkSpec {
  import opened Words
  import opened ByteCode
  import opened VM

  // ----- relocation -----

  /** A module that has not been placed yet reads as base 0, as a default-inserting lookup does. */
  function BaseOf(bases: map<ModuleId, Word>, m: ModuleId): Word {
    if m in bases then bases[m] else 0
  }

  /** None: the argument names a symbol or constant that does not exist, or a function symbol. */
  function Relocate(layout: Layout, m: ModuleId, a: Arg): Option<Arg> {
    match a.source
    case Symbol =>
      if a.data >= |layout.symbols| then None
      else
        var s := layout.symbols[a.data];
        if s.kind == VariableSymbol then Some(Arg(Wrap(BaseOf(layout.bases, s.moduleId) + s.offset), MemoryAddress))
        else if s.kind == FunctionSymbol then None
        else Some(a)
    case MemoryAddress => Some(Arg(Wrap(BaseOf(layout.bases, m) + a.data), MemoryAddress))
    case Constant =>
      if a.data >= |layout.constantAddresses| then None
      else Some(Arg(layout.constantAddresses[a.data], MemoryAddress))
    case _ => Some(a)
  }

  function RelocateCommand(layout: Layout, m: ModuleId, c: Command): Option<Command> {
    var a0 := Relocate(layout, m, c.arg0);
    var a1 := Relocate(layout, m, c.arg1);
    var a2 := Relocate(layout, m, c.arg2);
    if a0.Some? && a1.Some? && a2.Some?
    then Some(c.(arg0 := a0.value, arg1 := a1.value, arg2 := a2.value))
    else None
  }

  // ----- expansion -----

  function TableCode(op: ByteOpCode): VMOpCode {
    match op
    case ADDR => ADD_RRR_REAL case SUBR => SUB_RRR_REAL case DIVR => DIV_RRR_REAL
    case MULR => MUL_RRR_REAL case NEGR => NEG_RR_REAL
    case ADDI => ADD_RRR_INTEGER case SUBI => SUB_RRR_INTEGER case DIVI => DIV_RRR_INTEGER
    case MULI => MUL_RRR_INTEGER case NEGI => NEG_RR_INTEGER case MODI => MOD_RRR_INTEGER
    case ADDU => ADD_RRR_UNSIGNED case SUBU => SUB_RRR_UNSIGNED case DIVU => DIV_RRR_UNSIGNED
    case MULU => MUL_RRR_UNSIGNED case MODU => MOD_RRR_UNSIGNED
    case AND => AND_RRR case OR => OR_RRR case NOT => NOT_RR
    case BIT_OR => BIT_OR_RRR case BIT_NOT => BIT_NOT_RR case BIT_AND => BIT_AND_RRR
    case BIT_OFFSET_LEFT => BIT_OFFSET_LEFT_RRR case BIT_OFFSET_RIGHT => BIT_OFFSET_RIGHT_RRR
    case _ => VMOpCode.NOP
  }

  /** How a comparison is spelled: which comparison sets the flags, which flags are asked for, and a final negation. */
  datatype Spelling = Spelling(cmp: VMOpCode, flag1: Word, flag2: Word, negate: bool)

  function SpellComparison(op: ByteOpCode): Option<Spelling> {
    match op
    case EQUALI => Some(Spelling(CMP_RR_INTEGER, FLAG_ZERO, FLAG_NONE, false))
    case NOT_EQUALI => Some(Spelling(CMP_RR_INTEGER, FLAG_ZERO, FLAG_NONE, true))
    case GREATERI => Some(Spelling(CMP_RR_INTEGER, FLAG_GREATER, FLAG_NONE, false))
    case LESSI => Some(Spelling(CMP_RR_INTEGER, FLAG_LESS, FLAG_NONE, false))
    case EGREATERI => Some(Spelling(CMP_RR_INTEGER, FLAG_GREATER, FLAG_ZERO, false))
    case ELESSI => Some(Spelling(CMP_RR_INTEGER, FLAG_LESS, FLAG_ZERO, false))
    case EQUALU => Some(Spelling(CMP_RR_UNSIGNED, FLAG_ZERO, FLAG_NONE, false))
    case NOT_EQUALU => Some(Spelling(CMP_RR_UNSIGNED, FLAG_ZERO, FLAG_NONE, true))
    case GREATERU => Some(Spelling(CMP_RR_UNSIGNED, FLAG_GREATER, FLAG_NONE, false))
    case LESSU => Some(Spelling(CMP_RR_UNSIGNED, FLAG_LESS, FLAG_NONE, false))
    case EGREATERU => Some(Spelling(CMP_RR_UNSIGNED, FLAG_GREATER, FLAG_ZERO, false))
    case ELESSU => Some(Spelling(CMP_RR_UNSIGNED, FLAG_LESS, FLAG_ZERO, false))
    case EQUALR => Some(Spelling(CMP_RR_REAL, FLAG_ZERO, FLAG_NONE, false))
    case NOT_EQUALR => Some(Spelling(CMP_RR_REAL, FLAG_ZERO, FLAG_NONE, true))
    case GREATERR => Some(Spelling(CMP_RR_REAL, FLAG_GREATER, FLAG_NONE, false))
    case LESSR => Some(Spelling(CMP_RR_REAL, FLAG_LESS, FLAG_NONE, false))
    case EGREATERR => Some(Spelling(CMP_RR_REAL, FLAG_GREATER, FLAG_ZERO, false))
    case ELESSR => Some(Spelling(CMP_RR_REAL, FLAG_LESS, FLAG_ZERO, false))
    case _ => None
  }

  function ConversionCode(op: ByteOpCode): Option<VMOpCode> {
    match op
    case TC_ITR => Some(TC_ITR_R) case TC_RTI => Some(TC_RTI_R)
    case TC_UTR => Some(TC_UTR_R) case TC_UTI => Some(TC_UTI_R)
    case TC_RTU => Some(TC_RTU_R) case TC_ITU => Some(TC_ITU_R)
    case _ => None
  }

  /** Memory and register commands; codes outside the list are accepted and emit nothing. */
  function ExpandMemory(c: Command): Option<seq<VMOp>> {
    var a0, a1, a2 := c.arg0.data, c.arg1.data, c.arg2.data;
    match c.code
    case MOVRR => Some([VMOp(MOV_RR, a0, a1, 0)])
    case MOVRI => Some([VMOp(MOV_RI, a0, a1, 0)])
    case STACK_UP => Some([VMOp(MOV_RI, VM.A0, a0, 0), VMOp(ADD_RRR_UNSIGNED, VM.SP, VM.SP, VM.A0)])
    case STACK_DOWN => Some([VMOp(MOV_RI, VM.A0, a0, 0), VMOp(SUB_RRR_UNSIGNED, VM.SP, VM.SP, VM.A0)])
    case LEA_STATIC => Some([VMOp(MOV_RI, a1, a0, 0)])
    case LEA_DYNAMIC => None
    case LOAD_DYNAMIC => Some([VMOp(LOAD_BY_ADDRESS, a1, a0, a2)])
    case STORE_DYNAMIC => Some([VMOp(STORE_BY_ADDRESS, a1, a0, a2)])
    case LOAD_CONST_STATIC => Some([VMOp(LOAD_ABSOLUTE, a1, a0, a2)])
    case LEA_CONST => Some([VMOp(MOV_RI, a1, a0, 0)])
    case LOAD_STATIC => Some([VMOp(LOAD_LOCAL, a1, a0, a2)])
    case STORE_STATIC => Some([VMOp(STORE_LOCAL, a1, a0, a2)])
    case ALLOC => Some([VMOp(ALLOCATE_MEMORY, a0, a1, a2)])
    case FREE => Some([VMOp(FREE_MEMORY, a0, a1, a2)])
    case COPY_STATIC => Some([VMOp(STATIC_COPY, a0, a1, a2)])
    case COPY_DYNAMIC => Some([VMOp(DYNAMIC_COPY, a0, a1, a2)])
    case _ => Some([])
  }

  /** The operations of one relocated command; a jump still carries its label id as target. None: refused. */
  function Expand(c: Command): Option<seq<VMOp>> {
    var a0, a1, a2 := c.arg0.data, c.arg1.data, c.arg2.data;
    match SectionOf(c.code)
    case ArithmeticLogic =>
      if TableCode(c.code) == VMOpCode.NOP then None else Some([VMOp(TableCode(c.code), a0, a1, a2)])
    case Comparing =>
      (match SpellComparison(c.code)
       case None => None
       case Some(s) =>
         Some([VMOp(s.cmp, a1, a2, 0), VMOp(GET_FLAG, a0, s.flag1, s.flag2)]
              + if s.negate then [VMOp(NOT_RR, a0, a0, 0)] else []))
    case ControlFlow =>
      (match c.code
       case JMP_LABEL => Some([])
       case JMP => Some([VMOp(VMOpCode.JMP, a0, 0, 0)])
       case JMPCV => Some([VMOp(JMP_CV, a0, a1, 0)])
       case JMPCNV => Some([VMOp(JMP_CNV, a0, a1, 0)])
       case _ => Some([VMOp(VMOpCode.NOP, 0, 0, 0)]))
    case MemoryRegisters => ExpandMemory(c)
    case Special =>
      if ConversionCode(c.code).Some? then Some([VMOp(ConversionCode(c.code).value, a0, 0, 0)])
      else if c.code == SPEC_CALL then Some([VMOp(VM_CALL, a0, a1, a2)])
      else None
    case Outside => if c.code == ByteOpCode.NOP then Some([]) else None
  }

  function Expansion(c: Command): seq<VMOp> {
    if Expand(c).Some? then Expand(c).value else []
  }

  function Flatten(xs: seq<seq<VMOp>>): seq<VMOp> {
    if xs == [] then [] else Flatten(xs[..|xs| - 1]) + xs[|xs| - 1]
  }

  function Expansions(cs: seq<Command>): seq<seq<VMOp>> {
    seq(|cs|, i requires 0 <= i < |cs| => Expansion(cs[i]))
  }

  /** All commands' operations in order, jumps unresolved. */
  function Emit(cs: seq<Command>): seq<VMOp> {
    Flatten(Expansions(cs))
  }

  // ----- labels -----

  /** A label and the VM position it stands for. */
  datatype Def = Def(id: Word, pos: nat)

  function Defs(cs: seq<Command>): seq<Def> {
    if cs == [] then []
    else
      var before := cs[..|cs| - 1];
      var c := cs[|cs| - 1];
      if c.code == JMP_LABEL then Defs(before) + [Def(c.arg0.data, |Emit(before)|)] else Defs(before)
  }

  predicate IsJumpCode(code: VMOpCode) {
    code == VMOpCode.JMP || code == JMP_CV || code == JMP_CNV
  }

  predicate Defined(defs: seq<Def>, id: Word) {
    exists i :: 0 <= i < |defs| && defs[i].id == id
  }

  /** The last declaration at or before a position. */
  function LastBefore(defs: seq<Def>, id: Word, pos: nat): Option<nat> {
    if defs == [] then None
    else
      var d := defs[|defs| - 1];
      if d.id == id && d.pos <= pos then Some(d.pos) else LastBefore(defs[..|defs| - 1], id, pos)
  }

  /** The first declaration after a position. */
  function FirstAfter(defs: seq<Def>, id: Word, pos: nat): Option<nat> {
    if defs == [] then None
    else
      var r := FirstAfter(defs[..|defs| - 1], id, pos);
      var d := defs[|defs| - 1];
      if r.Some? then r else if d.id == id && d.pos > pos then Some(d.pos) else None
  }

  /** Where a jump at a position goes: back to the latest declaration, else forward to the first one. */
  function Target(defs: seq<Def>, id: Word, pos: nat): Option<nat> {
    if LastBefore(defs, id, pos).Some? then LastBefore(defs, id, pos) else FirstAfter(defs, id, pos)
  }

  /** The second pass over one operation; an undeclared label leaves 0. */
  function Resolve(op: VMOp, pos: nat, defs: seq<Def>): VMOp {
    if IsJumpCode(op.code) then
      op.(arg0 := match Target(defs, op.arg0, pos) case Some(p) => Wrap(p) case None => 0)
    else op
  }

  function ResolveAll(e: seq<VMOp>, defs: seq<Def>): (code: seq<VMOp>)
    ensures |code| == |e|
  {
    seq(|e|, k requires 0 <= k < |e| => Resolve(e[k], k, defs))
  }

  /** Two passes: collect every label first, then resolve every jump. */
  function Linked(cs: seq<Command>): seq<VMOp> {
    ResolveAll(Emit(cs), Defs(cs))
  }

  ghost predicate AllLabelsDefined(cs: seq<Command>) {
    forall k :: 0 <= k < |Emit(cs)| && IsJumpCode(Emit(cs)[k].code) ==> Defined(Defs(cs), Emit(cs)[k].arg0)
  }

  // ----- facts used by the single-pass translator -----

  lemma FlattenAppend(xs: seq<seq<VMOp>>, x: seq<VMOp>)
    ensures Flatten(xs + [x]) == Flatten(xs) + x
  {
    assert (xs + [x])[..|xs|] == xs;
  }

  lemma EmitAppend(cs: seq<Command>, c: Command)
    ensures Emit(cs + [c]) == Emit(cs) + Expansion(c)
    ensures Defs(cs + [c]) == if c.code == JMP_LABEL then Defs(cs) + [Def(c.arg0.data, |Emit(cs)|)] else Defs(cs)
  {
    assert (cs + [c])[..|cs|] == cs;
    assert Expansions(cs + [c]) == Expansions(cs) + [Expansion(c)];
    FlattenAppend(Expansions(cs), Expansion(c));
  }

  lemma EmitShorter(cs: seq<Command>)
    requires cs != []
    ensures Emit(cs) == Emit(cs[..|cs| - 1]) + Expansion(cs[|cs| - 1])
  {
    assert cs == cs[..|cs| - 1] + [cs[|cs| - 1]];
    EmitAppend(cs[..|cs| - 1], cs[|cs| - 1]);
  }

  /** The operations of the first commands come first. */
  lemma {:induction false} FlattenPrefix(xs: seq<seq<VMOp>>, i: nat)
    requires i <= |xs|
    ensures Flatten(xs[..i]) <= Flatten(xs)
    decreases |xs| - i
  {
    if i == |xs| {
      assert xs[..i] == xs;
    } else {
      assert xs[..i + 1][..i] == xs[..i];
      FlattenPrefix(xs, i + 1);
    }
  }

  lemma {:induction false} DefsBounded(cs: seq<Command>)
    ensures forall i :: 0 <= i < |Defs(cs)| ==> Defs(cs)[i].pos <= |Emit(cs)|
  {
    if cs != [] {
      DefsBounded(cs[..|cs| - 1]);
      EmitShorter(cs);
    }
  }

  lemma {:induction false} TargetDefined(defs: seq<Def>, id: Word, pos: nat)
    ensures Target(defs, id, pos).Some? <==> Defined(defs, id)
  {
    if defs == [] {
    } else {
      var before, d := defs[..|defs| - 1], defs[|defs| - 1];
      TargetDefined(before, id, pos);
      if Defined(before, id) {
        var i :| 0 <= i < |before| && before[i].id == id;
        assert defs[i].id == id;
      }
      if Defined(defs, id) && d.id != id {
        var i :| 0 <= i < |defs| && defs[i].id == id;
        assert before[i].id == id;
      }
    }
  }

  /** A declaration after a jump changes its target only when the jump had none. */
  lemma TargetLater(defs: seq<Def>, d: Def, id: Word, pos: nat)
    requires d.pos > pos
    ensures Target(defs + [d], id, pos) ==
            if Target(defs, id, pos).Some? || d.id != id then Target(defs, id, pos) else Some(d.pos)
  {
    assert (defs + [d])[..|defs|] == defs;
  }

  /** With every declaration at or before the position, the latest one is the target. */
  lemma {:induction false} TargetIsLatest(defs: seq<Def>, id: Word, pos: nat)
    requires forall i :: 0 <= i < |defs| ==> defs[i].pos <= pos
    ensures Target(defs, id, pos) == LastBefore(defs, id, pos)
  {
    NothingAfter(defs, id, pos);
  }

  lemma {:induction false} NothingAfter(defs: seq<Def>, id: Word, pos: nat)
    requires forall i :: 0 <= i < |defs| ==> defs[i].pos <= pos
    ensures FirstAfter(defs, id, pos) == None
  {
    if defs != [] {
      NothingAfter(defs[..|defs| - 1], id, pos);
    }
  }

  lemma {:induction false} LatestStays(defs: seq<Def>, id: Word, p: nat, q: nat)
    requires forall i :: 0 <= i < |defs| ==> defs[i].pos <= p && defs[i].pos <= q
    ensures LastBefore(defs, id, p) == LastBefore(defs, id, q)
  {
    if defs != [] {
      LatestStays(defs[..|defs| - 1], id, p, q);
    }
  }
}
