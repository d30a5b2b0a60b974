/** What both machines share: data memory, faults and the meaning of arithmetic, logic and comparison. */
module Machine {
  import opened Words
  import opened ByteCode

  /** The virtual address space: read-only data, then stack, then heap. */
  datatype Space = Space(stackStart: nat, heapStart: nat, end: nat)

  predicate SpaceOk(space: Space) {
    space.stackStart <= space.heapStart <= space.end < TWO64
  }

  datatype Error = ZeroDivision | InvalidMemoryAccess | ReadOnlyRewriting | OutOfMemory | UnknownOperation

  datatype Outcome<+S> = Next(state: S) | Fault(error: Error)

  datatype Event = Event(call: Word, value: Word)

  // ----- arithmetic and logic -----

  datatype BinaryOp =
    | AddInt | SubInt | DivInt | MulInt | ModInt
    | AddUInt | SubUInt | DivUInt | MulUInt | ModUInt
    | LogicAnd | LogicOr | BitwiseOr | BitwiseAnd | OffsetLeft | OffsetRight

  datatype UnaryOp = NegInt | LogicNot | BitwiseNot

  /** None: division by zero. */
  function EvalBinary(op: BinaryOp, a: Word, b: Word): Option<Word> {
    match op
    case AddInt => Some(Wrap(Signed(a) + Signed(b)))
    case SubInt => Some(Wrap(Signed(a) - Signed(b)))
    case MulInt => Some(Wrap(Signed(a) * Signed(b)))
    case DivInt => if b == 0 then None else Some(Wrap(TruncDiv(Signed(a), Signed(b))))
    case ModInt => if b == 0 then None else Some(Wrap(TruncMod(Signed(a), Signed(b))))
    case AddUInt => Some(Wrap(a + b))
    case SubUInt => Some(Wrap(a - b))
    case MulUInt => Some(Wrap(a * b))
    case DivUInt => if b == 0 then None else Some(Wrap(a / b))
    case ModUInt => if b == 0 then None else Some(Wrap(a % b))
    case LogicAnd => Some(Bool(a != 0 && b != 0))
    case LogicOr => Some(Bool(a != 0 || b != 0))
    case BitwiseOr => Some(BitOr(a, b))
    case BitwiseAnd => Some(BitAnd(a, b))
    case OffsetLeft => Some(ShiftLeft(a, b))
    case OffsetRight => Some(ShiftRight(a, b))
  }

  function EvalUnary(op: UnaryOp, a: Word): Word {
    match op
    case NegInt => Wrap(-Signed(a))
    case LogicNot => Bool(a == 0)
    case BitwiseNot => BitNot(a)
  }

  datatype Relation = Equal | NotEqual | Greater | Less | GreaterEqual | LessEqual

  function Compare(rel: Relation, signed: bool, a: Word, b: Word): bool {
    var x := if signed then Signed(a) else a;
    var y := if signed then Signed(b) else b;
    match rel
    case Equal => x == y
    case NotEqual => x != y
    case Greater => x > y
    case Less => x < y
    case GreaterEqual => x >= y
    case LessEqual => x <= y
  }

  // ----- memory access -----

  predicate InInterval(start: nat, end: nat, address: nat, size: nat) {
    start <= address < end && address + size <= end
  }

  /** A load that must stay below the given limit. */
  function Load(mem: Memory, limit: nat, address: nat, size: nat): Outcome<Word>
    requires limit <= |mem|
  {
    if InInterval(0, limit, address, size) then Next(ReadBytes(mem, address, size)) else Fault(InvalidMemoryAccess)
  }

  /** A load through a pointer; size 0 yields 0 without looking at the address. */
  function LoadByAddress(space: Space, mem: Memory, address: nat, size: nat): Outcome<Word>
    requires space.end <= |mem|
  {
    if size == 0 then Next(0) else Load(mem, space.end, address, size)
  }

  /** The guarded write: nothing below the stack may be written. */
  function Store(space: Space, mem: Memory, address: nat, value: Word, size: nat): Outcome<Memory>
    requires SpaceOk(space) && space.end == |mem|
  {
    if address < space.stackStart then Fault(ReadOnlyRewriting)
    else if address + Min(size, 8) > space.end then Fault(OutOfMemory)
    else Next(WriteBytes(mem, address, value, size))
  }

  function StoreLocal(space: Space, mem: Memory, address: nat, value: Word, size: nat): Outcome<Memory>
    requires SpaceOk(space) && space.end == |mem|
  {
    if InInterval(space.stackStart, space.heapStart, address, size)
    then Store(space, mem, address, value, size)
    else Fault(InvalidMemoryAccess)
  }

  function StoreByAddress(space: Space, mem: Memory, address: nat, value: Word, size: nat): Outcome<Memory>
    requires SpaceOk(space) && space.end == |mem|
  {
    if size == 0 then Next(mem) else Store(space, mem, address, value, size)
  }

  function Copy(space: Space, mem: Memory, destination: nat, source: nat, size: nat): Outcome<Memory>
    requires SpaceOk(space) && space.end == |mem|
  {
    if destination + size > space.end then Fault(InvalidMemoryAccess)
    else if destination < space.stackStart then Fault(ReadOnlyRewriting)
    else if source + size > space.end then Fault(OutOfMemory)
    else Next(mem[..destination] + mem[source..source + size] + mem[destination + size..])
  }

  /** No write reaches the read-only data. */
  lemma StoreKeepsReadOnly(space: Space, mem: Memory, address: nat, value: Word, size: nat)
    requires SpaceOk(space) && space.end == |mem|
    ensures var r := Store(space, mem, address, value, size);
            r.Next? ==> |r.state| == |mem| && r.state[..space.stackStart] == mem[..space.stackStart]
  {
  }

  lemma CopyKeepsReadOnly(space: Space, mem: Memory, destination: nat, source: nat, size: nat)
    requires SpaceOk(space) && space.end == |mem|
    ensures var r := Copy(space, mem, destination, source, size);
            r.Next? ==> |r.state| == |mem| && r.state[..space.stackStart] == mem[..space.stackStart]
  {
  }
}
