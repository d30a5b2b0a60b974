/** The linker's translator: one pass over the byte commands that appends VM operations and back-patches jumps. */
module Translator {
  import opened Words
  import opened ByteCode
  import opened VM
  import opened LinkSpec
  import opened LinkOrder
  import opened ReadOnlyData

  // ----- the single-pass invariant -----

  /** The recorded position of each label seen is its latest declaration. */
  ghost predicate LabelsOk(labelIp: map<Word, nat>, defs: seq<Def>, size: nat) {
    forall id: Word ::
      (id in labelIp <==> Defined(defs, id)) && (id in labelIp ==> LastBefore(defs, id, size) == Some(labelIp[id]))
  }

  /** An operation that waits for a label. */
  predicate Waits(e: seq<VMOp>, k: nat, id: Word) {
    k < |e| && IsJumpCode(e[k].code) && e[k].arg0 == id
  }

  /** Exactly the jumps to labels not seen yet are recorded as pending. */
  ghost predicate PendingOk(pending: map<Word, seq<nat>>, e: seq<VMOp>, defs: seq<Def>) {
    && (forall id: Word :: id in pending ==> pending[id] != [] && !Defined(defs, id))
    && (forall id: Word, k: nat :: id in pending && k in pending[id] ==> Waits(e, k, id))
    && (forall id: Word, k: nat :: Waits(e, k, id) && !Defined(defs, id) ==> id in pending && k in pending[id])
  }

  ghost predicate Pass(code: seq<VMOp>, labelIp: map<Word, nat>, pending: map<Word, seq<nat>>, e: seq<VMOp>, defs: seq<Def>) {
    && code == ResolveAll(e, defs)
    && (forall i :: 0 <= i < |defs| ==> defs[i].pos <= |e|)
    && LabelsOk(labelIp, defs, |e|)
    && PendingOk(pending, e, defs)
  }

  /** The code is at every point what two passes over the handled commands give. */
  ghost predicate SinglePass(code: seq<VMOp>, labelIp: map<Word, nat>, pending: map<Word, seq<nat>>, done: seq<Command>) {
    Pass(code, labelIp, pending, Emit(done), Defs(done))
  }

  lemma LabelsGrow(labelIp: map<Word, nat>, defs: seq<Def>, size: nat, size': nat)
    requires LabelsOk(labelIp, defs, size) && size <= size'
    requires forall i :: 0 <= i < |defs| ==> defs[i].pos <= size
    ensures LabelsOk(labelIp, defs, size')
  {
    forall id: Word {
      LatestStays(defs, id, size, size');
    }
  }

  /** Operations that are no jumps. */
  lemma AppendPlain(code: seq<VMOp>, labelIp: map<Word, nat>, pending: map<Word, seq<nat>>, e: seq<VMOp>, defs: seq<Def>,
                    x: seq<VMOp>)
    requires Pass(code, labelIp, pending, e, defs)
    requires forall k :: 0 <= k < |x| ==> !IsJumpCode(x[k].code)
    ensures Pass(code + x, labelIp, pending, e + x, defs)
  {
    assert ResolveAll(e + x, defs) == ResolveAll(e, defs) + x;
    LabelsGrow(labelIp, defs, |e|, |e + x|);
    assert forall k: nat, id: Word :: Waits(e + x, k, id) <==> Waits(e, k, id);
  }

  /** A jump: op carries the label id. */
  lemma AppendJump(code: seq<VMOp>, labelIp: map<Word, nat>, pending: map<Word, seq<nat>>, e: seq<VMOp>, defs: seq<Def>,
                   op: VMOp)
    requires Pass(code, labelIp, pending, e, defs) && IsJumpCode(op.code)
    ensures |code| == |e|
    ensures op.arg0 in labelIp ==>
              Pass(code + [op.(arg0 := Wrap(labelIp[op.arg0]))], labelIp, pending, e + [op], defs)
    ensures op.arg0 !in labelIp ==>
              var before := if op.arg0 in pending then pending[op.arg0] else [];
              Pass(code + [op.(arg0 := 0)], labelIp, pending[op.arg0 := before + [|e|]], e + [op], defs)
  {
    var n, id := |e|, op.arg0;
    TargetIsLatest(defs, id, n);
    TargetDefined(defs, id, n);
    LabelsGrow(labelIp, defs, n, n + 1);
    assert ResolveAll(e + [op], defs) == ResolveAll(e, defs) + [Resolve(op, n, defs)];
    assert forall k: nat, l: Word :: Waits(e + [op], k, l) <==> Waits(e, k, l) || (k == n && l == id);
    assert id in labelIp <==> Defined(defs, id);
  }

  /** A label: the waiting jumps are patched. */
  lemma AppendLabel(code: seq<VMOp>, labelIp: map<Word, nat>, pending: map<Word, seq<nat>>, e: seq<VMOp>, defs: seq<Def>,
                    id: Word, code': seq<VMOp>)
    requires Pass(code, labelIp, pending, e, defs)
    requires |code'| == |code|
    requires forall k :: 0 <= k < |code| ==>
               code'[k] == if id in pending && k in pending[id] then code[k].(arg0 := Wrap(|code|)) else code[k]
    ensures Pass(code', labelIp[id := |code|], pending - {id}, e, defs + [Def(id, |e|)])
  {
    var d := Def(id, |e|);
    forall k | 0 <= k < |e|
      ensures ResolveAll(e, defs + [d])[k] == code'[k]
    {
      if IsJumpCode(e[k].code) {
        TargetLater(defs, d, e[k].arg0, k);
        TargetDefined(defs, e[k].arg0, k);
        assert Waits(e, k, e[k].arg0);
      }
    }
    DefinedAppend(defs, d);
    assert (defs + [d])[..|defs|] == defs;
  }

  lemma LabelStep(code: seq<VMOp>, labelIp: map<Word, nat>, pending: map<Word, seq<nat>>, done: seq<Command>, c: Command,
                  code': seq<VMOp>)
    requires SinglePass(code, labelIp, pending, done) && c.code == JMP_LABEL
    requires |code'| == |code|
    requires var id := c.arg0.data;
             forall k :: 0 <= k < |code| ==>
               code'[k] == if id in pending && k in pending[id] then code[k].(arg0 := Wrap(|code|)) else code[k]
    ensures SinglePass(code', labelIp[c.arg0.data := |code|], pending - {c.arg0.data}, done + [c])
  {
    EmitAppend(done, c);
    assert Emit(done) + Expansion(c) == Emit(done);
    AppendLabel(code, labelIp, pending, Emit(done), Defs(done), c.arg0.data, code');
  }

  lemma PlainStep(code: seq<VMOp>, labelIp: map<Word, nat>, pending: map<Word, seq<nat>>, done: seq<Command>, c: Command)
    requires SinglePass(code, labelIp, pending, done)
    requires Expand(c).Some? && c.code != JMP_LABEL
    requires forall k :: 0 <= k < |Expansion(c)| ==> !IsJumpCode(Expansion(c)[k].code)
    ensures SinglePass(code + Expansion(c), labelIp, pending, done + [c])
  {
    EmitAppend(done, c);
    AppendPlain(code, labelIp, pending, Emit(done), Defs(done), Expansion(c));
  }

  lemma JumpStep(code: seq<VMOp>, labelIp: map<Word, nat>, pending: map<Word, seq<nat>>, done: seq<Command>, c: Command,
                 op: VMOp)
    requires SinglePass(code, labelIp, pending, done)
    requires Expand(c) == Some([op]) && IsJumpCode(op.code)
    ensures op.arg0 in labelIp ==>
              SinglePass(code + [op.(arg0 := Wrap(labelIp[op.arg0]))], labelIp, pending, done + [c])
    ensures op.arg0 !in labelIp ==>
              var before := if op.arg0 in pending then pending[op.arg0] else [];
              SinglePass(code + [op.(arg0 := 0)], labelIp, pending[op.arg0 := before + [|code|]], done + [c])
  {
    hide Pass, Emit, Defs;
    EmitAppend(done, c);
    AppendJump(code, labelIp, pending, Emit(done), Defs(done), op);
  }

  /** A jump command becomes one jump operation that carries its label's id. */
  lemma JumpExpanded(c: Command)
    requires c.code == ByteOpCode.JMP || c.code == JMPCV || c.code == JMPCNV
    ensures Expand(c) == Some([if c.code == ByteOpCode.JMP then VMOp(VMOpCode.JMP, c.arg0.data, 0, 0)
                               else VMOp(if c.code == JMPCV then JMP_CV else JMP_CNV, c.arg0.data, c.arg1.data, 0)])
  {
  }

  class Translator {
    var code: seq<VMOp>
    var labelIp: map<Word, nat>
    var pending: map<Word, seq<nat>>
    /** Constants, symbols and the module bases known so far. */
    var layout: Layout
    var globalOffset: Word
    /** The relocated commands handled so far. */
    ghost var done: seq<Command>

    ghost predicate Valid()
      reads this
    {
      SinglePass(code, labelIp, pending, done)
    }

    constructor (layout: Layout)
      ensures Valid() && done == [] && code == [] && this.layout == layout
    {
      code, labelIp, pending, done := [], map[], map[], [];
      this.layout, globalOffset := layout, 0;
    }

    method PushVMCommand(op: VMOpCode, arg0: Arg, arg1: Arg, arg2: Arg)
      modifies this`code
      ensures code == old(code) + [VMOp(op, arg0.data, arg1.data, arg2.data)]
    {
      code := code + [VMOp(op, arg0.data, arg1.data, arg2.data)];
    }

    /** Arithmetic and logic: looked up in the operation table; what the table lacks is refused. */
    method HandleAL(c: Command) returns (ok: bool)
      requires SectionOf(c.code) == ArithmeticLogic
      modifies this`code
      ensures ok == Expand(c).Some?
      ensures code == old(code) + Expansion(c)
    {
      var op := TableCode(c.code);
      if op == VMOpCode.NOP {
        return false;
      }
      PushVMCommand(op, c.arg0, c.arg1, c.arg2);
      return true;
    }

    /** A comparison becomes a compare, a flag query and, for inequality, a negation. */
    method HandleCOMP(c: Command) returns (ok: bool)
      requires SectionOf(c.code) == Comparing
      modifies this`code
      ensures ok == Expand(c).Some?
      ensures code == old(code) + Expansion(c)
    {
      var dest, src0, src1 := c.arg0.data, c.arg1.data, c.arg2.data;
      var cmpCode, flag1, flag2, useNot := CMP_RR_INTEGER, FLAG_NONE, FLAG_NONE, false;
      match c.code {
        case EQUALI => flag1 := FLAG_ZERO;
        case NOT_EQUALI => flag1, useNot := FLAG_ZERO, true;
        case GREATERI => flag1 := FLAG_GREATER;
        case LESSI => flag1 := FLAG_LESS;
        case EGREATERI => flag1, flag2 := FLAG_GREATER, FLAG_ZERO;
        case ELESSI => flag1, flag2 := FLAG_LESS, FLAG_ZERO;
        case EQUALU => cmpCode, flag1 := CMP_RR_UNSIGNED, FLAG_ZERO;
        case NOT_EQUALU => cmpCode, flag1, useNot := CMP_RR_UNSIGNED, FLAG_ZERO, true;
        case GREATERU => cmpCode, flag1 := CMP_RR_UNSIGNED, FLAG_GREATER;
        case LESSU => cmpCode, flag1 := CMP_RR_UNSIGNED, FLAG_LESS;
        case EGREATERU => cmpCode, flag1, flag2 := CMP_RR_UNSIGNED, FLAG_GREATER, FLAG_ZERO;
        case ELESSU => cmpCode, flag1, flag2 := CMP_RR_UNSIGNED, FLAG_LESS, FLAG_ZERO;
        case EQUALR => cmpCode, flag1 := CMP_RR_REAL, FLAG_ZERO;
        case NOT_EQUALR => cmpCode, flag1, useNot := CMP_RR_REAL, FLAG_ZERO, true;
        case GREATERR => cmpCode, flag1 := CMP_RR_REAL, FLAG_GREATER;
        case LESSR => cmpCode, flag1 := CMP_RR_REAL, FLAG_LESS;
        case EGREATERR => cmpCode, flag1, flag2 := CMP_RR_REAL, FLAG_GREATER, FLAG_ZERO;
        case ELESSR => cmpCode, flag1, flag2 := CMP_RR_REAL, FLAG_LESS, FLAG_ZERO;
        case _ => return false;
      }
      code := code + [VMOp(cmpCode, src0, src1, 0)];
      code := code + [VMOp(GET_FLAG, dest, flag1, flag2)];
      if useNot {
        code := code + [VMOp(NOT_RR, dest, dest, 0)];
      }
      return true;
    }

    /** Memory and register commands. */
    method HandleMR(c: Command) returns (ok: bool)
      requires SectionOf(c.code) == MemoryRegisters
      modifies this`code
      ensures ok == Expand(c).Some?
      ensures code == old(code) + Expansion(c)
    {
      match c.code {
        case MOVRR => code := code + [VMOp(MOV_RR, c.arg0.data, c.arg1.data, 0)];
        case MOVRI => code := code + [VMOp(MOV_RI, c.arg0.data, c.arg1.data, 0)];
        case STACK_UP =>
          code := code + [VMOp(MOV_RI, VM.A0, c.arg0.data, 0)];
          code := code + [VMOp(ADD_RRR_UNSIGNED, VM.SP, VM.SP, VM.A0)];
        case STACK_DOWN =>
          code := code + [VMOp(MOV_RI, VM.A0, c.arg0.data, 0)];
          code := code + [VMOp(SUB_RRR_UNSIGNED, VM.SP, VM.SP, VM.A0)];
        case LEA_STATIC => code := code + [VMOp(MOV_RI, c.arg1.data, c.arg0.data, 0)];
        case LEA_DYNAMIC => return false;
        case LOAD_DYNAMIC => PushVMCommand(LOAD_BY_ADDRESS, c.arg1, c.arg0, c.arg2);
        case STORE_DYNAMIC => PushVMCommand(STORE_BY_ADDRESS, c.arg1, c.arg0, c.arg2);
        case LOAD_CONST_STATIC => PushVMCommand(LOAD_ABSOLUTE, c.arg1, c.arg0, c.arg2);
        case LEA_CONST => PushVMCommand(MOV_RI, c.arg1, c.arg0, NoArg());
        case LOAD_STATIC => PushVMCommand(LOAD_LOCAL, c.arg1, c.arg0, c.arg2);
        case STORE_STATIC => PushVMCommand(STORE_LOCAL, c.arg1, c.arg0, c.arg2);
        case ALLOC => PushVMCommand(ALLOCATE_MEMORY, c.arg0, c.arg1, c.arg2);
        case FREE => PushVMCommand(FREE_MEMORY, c.arg0, c.arg1, c.arg2);
        case COPY_STATIC => PushVMCommand(STATIC_COPY, c.arg0, c.arg1, c.arg2);
        case COPY_DYNAMIC => PushVMCommand(DYNAMIC_COPY, c.arg0, c.arg1, c.arg2);
        case _ =>
      }
      return true;
    }

    /** Type conversions and system calls. */
    method HandleSP(c: Command) returns (ok: bool)
      requires SectionOf(c.code) == Special
      modifies this`code
      ensures ok == Expand(c).Some?
      ensures code == old(code) + Expansion(c)
    {
      match c.code {
        case TC_ITR => code := code + [VMOp(TC_ITR_R, c.arg0.data, 0, 0)];
        case TC_RTI => code := code + [VMOp(TC_RTI_R, c.arg0.data, 0, 0)];
        case TC_UTR => code := code + [VMOp(TC_UTR_R, c.arg0.data, 0, 0)];
        case TC_UTI => code := code + [VMOp(TC_UTI_R, c.arg0.data, 0, 0)];
        case TC_RTU => code := code + [VMOp(TC_RTU_R, c.arg0.data, 0, 0)];
        case TC_ITU => code := code + [VMOp(TC_ITU_R, c.arg0.data, 0, 0)];
        case SPEC_CALL => code := code + [VMOp(VM_CALL, c.arg0.data, c.arg1.data, c.arg2.data)];
        case _ => return false;
      }
      return true;
    }

    /** Patches every operation in the list to jump to the given position. */
    method Patch(ips: seq<nat>, current: nat)
      requires forall i :: 0 <= i < |ips| ==> ips[i] < |code|
      modifies this`code
      ensures |code| == |old(code)|
      ensures forall k :: 0 <= k < |code| ==>
                code[k] == if k in ips then old(code)[k].(arg0 := Wrap(current)) else old(code)[k]
    {
      var i := 0;
      while i < |ips|
        invariant 0 <= i <= |ips|
        invariant |code| == |old(code)|
        invariant forall k :: 0 <= k < |code| ==>
                    code[k] == if k in ips[..i] then old(code)[k].(arg0 := Wrap(current)) else old(code)[k]
      {
        var ip := ips[i];
        assert ips[..i + 1] == ips[..i] + [ip];
        code := code[ip := code[ip].(arg0 := Wrap(current))];
        i := i + 1;
      }
      assert ips[..i] == ips;
    }

    /** A label: patches the jumps waiting for it and records its position. */
    method HandleLabel(c: Command)
      requires Valid() && c.code == JMP_LABEL
      modifies this`code, this`labelIp, this`pending, this`done
      ensures Valid() && done == old(done) + [c]
    {
      var id := c.arg0.data;
      var current := |code|;
      ghost var code0, pending0 := code, pending;
      if id in pending {
        forall i | 0 <= i < |pending[id]|
          ensures pending[id][i] < |code|
        {
          assert pending[id][i] in pending[id];
          assert Waits(Emit(done), pending[id][i], id);
        }
        Patch(pending[id], current);
        pending := pending - {id};
      } else {
        assert pending - {id} == pending;
      }
      LabelStep(code0, labelIp, pending0, done, c, code);
      labelIp := labelIp[id := current];
      done := done + [c];
    }

    /** A jump: resolved at once when its label is known, else recorded. */
    method HandleJump(c: Command)
      requires Valid() && (c.code == ByteOpCode.JMP || c.code == JMPCV || c.code == JMPCNV)
      modifies this`code, this`labelIp, this`pending, this`done
      ensures Valid() && done == old(done) + [c]
    {
      hide SinglePass, Emit, Defs;
      JumpExpanded(c);
      hide Expand;
      var id := c.arg0.data;
      var current := |code|;
      var op := VMOp(VMOpCode.JMP, 0, 0, 0);
      if c.code != ByteOpCode.JMP {
        op := op.(code := if c.code == JMPCV then JMP_CV else JMP_CNV, arg1 := c.arg1.data);
      }
      JumpStep(code, labelIp, pending, done, c, op.(arg0 := id));
      if id in labelIp {
        op := op.(arg0 := Wrap(labelIp[id]));
      } else {
        pending := pending[id := (if id in pending then pending[id] else []) + [current]];
      }
      code := code + [op];
      done := done + [c];
    }

    method HandleCF(c: Command) returns (ok: bool)
      requires Valid() && SectionOf(c.code) == ControlFlow
      modifies this`code, this`labelIp, this`pending, this`done
      ensures ok && Valid() && done == old(done) + [c]
    {
      hide SinglePass;
      if c.code == JMP_LABEL {
        HandleLabel(c);
      } else if c.code == ByteOpCode.JMP || c.code == JMPCV || c.code == JMPCNV {
        HandleJump(c);
      } else {
        PlainStep(code, labelIp, pending, done, c);
        code := code + [VMOp(VMOpCode.NOP, 0, 0, 0)];
        done := done + [c];
      }
      return true;
    }

    /** Commands outside control flow: dispatched by section. */
    method HandlePlain(c: Command) returns (ok: bool)
      requires SectionOf(c.code) != ControlFlow
      modifies this`code
      ensures ok == Expand(c).Some?
      ensures code == old(code) + Expansion(c)
    {
      match SectionOf(c.code) {
        case ArithmeticLogic => ok := HandleAL(c);
        case Comparing => ok := HandleCOMP(c);
        case MemoryRegisters => ok := HandleMR(c);
        case Special => ok := HandleSP(c);
        case _ => ok := c.code == ByteOpCode.NOP;
      }
    }

    /** One command of a module: its arguments are relocated, then it is dispatched by section. */
    method HandleCommand(m: ModuleId, cmd: Command) returns (ok: bool)
      requires Valid()
      modifies this`code, this`labelIp, this`pending, this`done
      ensures var r := RelocateCommand(layout, m, cmd);
              ok <==> r.Some? && Expand(r.value).Some?
      ensures ok ==> Valid() && done == old(done) + [RelocateCommand(layout, m, cmd).value]
    {
      var r := RelocateCommand(layout, m, cmd);
      if r.None? {
        return false;
      }
      var c := r.value;
      if SectionOf(c.code) == ControlFlow {
        ok := HandleCF(c);
      } else {
        ok := HandlePlain(c);
        if ok {
          PlainHasNoJump(c);
          PlainStep(old(code), labelIp, pending, done, c);
          done := done + [c];
        }
      }
    }

    /** Where a module stands: the given commands of it have been handled. */
    ghost predicate Handled(id: ModuleId, commands: seq<Command>, before: seq<Command>)
      reads this
    {
      var r := ModuleCommands(layout, id, commands);
      r.Some? && done == before + r.value
    }

    /** The next command of a module. */
    method HandleNext(id: ModuleId, commands: seq<Command>, i: nat, ghost before: seq<Command>) returns (ok: bool)
      requires Valid() && i < |commands| && Handled(id, commands[..i], before)
      modifies this`code, this`labelIp, this`pending, this`done
      ensures ok <==> ModuleCommands(layout, id, commands[..i + 1]).Some?
      ensures ok ==> Valid() && Handled(id, commands[..i + 1], before)
    {
      ModuleCommandsStep(layout, id, commands, i);
      ok := HandleCommand(id, commands[i]);
    }

    method HandleCommands(id: ModuleId, commands: seq<Command>) returns (ok: bool)
      requires Valid()
      modifies this`code, this`labelIp, this`pending, this`done
      ensures ok <==> ModuleCommands(layout, id, commands).Some?
      ensures ok ==> Valid() && Handled(id, commands, old(done))
    {
      ghost var before := done;
      var i := 0;
      assert Handled(id, commands[..i], before);
      while i < |commands|
        invariant 0 <= i <= |commands| && Valid()
        invariant Handled(id, commands[..i], before)
      {
        ok := HandleNext(id, commands, i, before);
        if !ok {
          RefusedStays(layout, id, commands, i + 1);
          return false;
        }
        i := i + 1;
      }
      assert commands[..i] == commands;
      return true;
    }

    /** One module: all its commands in order, then its stack bytes are reserved. */
    method HandleModule(id: ModuleId, file: Option<ModuleFile>) returns (ok: bool)
      requires Valid()
      modifies this`code, this`labelIp, this`pending, this`done, this`globalOffset
      ensures ok <==> file.Some? && ModuleCommands(layout, id, file.value.commands).Some?
      ensures ok ==>
                && Valid() && done == old(done) + ModuleCommands(layout, id, file.value.commands).value
                && globalOffset == Wrap(old(globalOffset) + file.value.stackSize)
    {
      if file.None? {
        return false;
      }
      ok := HandleCommands(id, file.value.commands);
      if ok {
        globalOffset := Wrap(globalOffset + file.value.stackSize);
      }
    }

    /** Where linking stands after the first i modules. */
    ghost predicate Linking(layout0: Layout, start: Word, order: seq<ModuleId>, files: map<ModuleId, ModuleFile>)
      reads this
    {
      && layout == layout0.(bases := Place(start, order, files).bases)
      && globalOffset == Place(start, order, files).offset
      && LinkedCommands(layout0, start, order, files) == Some(done)
    }

    /** The next module: it is placed at the next free offset and handled. */
    method LinkNext(ghost layout0: Layout, ghost start: Word, order: seq<ModuleId>, files: map<ModuleId, ModuleFile>, i: nat)
      returns (ok: bool)
      requires Valid() && i < |order| && Linking(layout0, start, order[..i], files)
      modifies this
      ensures ok <==> LinkedCommands(layout0, start, order[..i + 1], files).Some?
      ensures ok ==> Valid() && Linking(layout0, start, order[..i + 1], files)
    {
      hide SinglePass;
      LinkedCommandsStep(layout0, start, order, files, i);
      var id := order[i];
      layout := layout.(bases := layout.bases[id := globalOffset]);
      ok := HandleModule(id, if id in files then Some(files[id]) else None);
    }

    /**
     * Links every module in order. It succeeds exactly when every command is accepted and every jump's label is declared
     * somewhere, and then the code is what two passes over all the modules give.
     */
    method Translate(start: Word, order: seq<ModuleId>, files: map<ModuleId, ModuleFile>) returns (ok: bool)
      requires Valid() && done == [] && layout.bases == map[]
      modifies this
      ensures ok <==> Links(old(layout), start, order, files)
      ensures ok ==> code == Linked(LinkedCommands(old(layout), start, order, files).value)
      ensures ok ==> layout == old(layout).(bases := Place(start, order, files).bases)
    {
      ghost var layout0 := layout;
      globalOffset := start;
      var i := 0;
      while i < |order|
        invariant 0 <= i <= |order| && Valid()
        invariant Linking(layout0, start, order[..i], files)
      {
        ok := LinkNext(layout0, start, order, files, i);
        if !ok {
          FailedStays(layout0, start, order, files, i + 1);
          return false;
        }
        i := i + 1;
      }
      assert order[..i] == order;
      ok := pending == map[];
      NothingPending(pending, done, code, labelIp);
    }
  }

  /** All modules are there, all commands accepted, all labels declared. */
  ghost predicate Links(layout: Layout, start: Word, order: seq<ModuleId>, files: map<ModuleId, ModuleFile>) {
    var r := LinkedCommands(layout, start, order, files);
    r.Some? && AllLabelsDefined(r.value)
  }

  /** Nothing is pending exactly when every jump's label has been declared. */
  lemma NothingPending(pending: map<Word, seq<nat>>, done: seq<Command>, code: seq<VMOp>, labelIp: map<Word, nat>)
    requires SinglePass(code, labelIp, pending, done)
    ensures pending == map[] <==> AllLabelsDefined(done)
    ensures code == Linked(done)
  {
    var e, defs := Emit(done), Defs(done);
    if pending != map[] {
      var id :| id in pending;
      var k := pending[id][0];
      assert k in pending[id];
      assert Waits(e, k, id);
    } else {
      forall k | 0 <= k < |e| && IsJumpCode(e[k].code)
        ensures Defined(defs, e[k].arg0)
      {
        assert Waits(e, k, e[k].arg0);
      }
    }
  }

  lemma PlainHasNoJump(c: Command)
    requires SectionOf(c.code) != ControlFlow
    ensures forall k :: 0 <= k < |Expansion(c)| ==> !IsJumpCode(Expansion(c)[k].code)
  {
  }

  lemma DefinedAppend(defs: seq<Def>, d: Def)
    ensures forall id: Word :: Defined(defs + [d], id) <==> Defined(defs, id) || id == d.id
  {
    forall id: Word
      ensures Defined(defs + [d], id) <==> Defined(defs, id) || id == d.id
    {
      if Defined(defs, id) {
        var i :| 0 <= i < |defs| && defs[i].id == id;
        assert (defs + [d])[i].id == id;
      }
      if id == d.id {
        assert (defs + [d])[|defs|].id == id;
      }
      if Defined(defs + [d], id) && id != d.id {
        var i :| 0 <= i < |defs| + 1 && (defs + [d])[i].id == id;
        assert defs[i].id == id;
      }
    }
  }
}
