/** The instruction set: opcode numbers, names, operand table, and the meaning of a word. */
module Opcodes {
  import opened Words
  import opened Values

  const NUM_OPS := 28

  /** OPCODE_LABELS */
  const LABELS: seq<string> := [
    "nop", "move", "loadk", "loadbool", "loadnull", "getglobal", "setglobal", "getlocal",
    "setlocal", "getarg", "getexternal", "add", "sub", "mul", "div", "pow", "rem", "unm", "not",
    "eq", "lt", "gt", "le", "ge", "jmp", "call", "closure", "return"]

  /** The operand flags ARG_A, ARG_B, ARG_C, ARG_Bx and ARG_sBx. */
  datatype Operands = Operands(a: bool, b: bool, c: bool, bx: bool, sbx: bool)

  /** OPCODE_ARGS */
  function Args(op: int): Operands
    requires 0 <= op < NUM_OPS
  {
    if op == 0 then Operands(false, false, false, false, false)
    else if op == 4 || op == 27 then Operands(true, false, false, false, false)
    else if op == 1 || op == 3 || op == 10 || 17 <= op <= 23 then Operands(true, true, false, false, false)
    else if 11 <= op <= 16 || op == 25 then Operands(true, true, true, false, false)
    else if op == 24 then Operands(false, false, false, false, true)
    else Operands(true, false, false, true, false)
  }

  /** What the interpreter does with a word. */
  datatype Instr =
    | Nop
    | Move(a: int, b: int)
    | LoadK(a: int, bx: int)
    | LoadBool(a: int, b: int)
    | LoadNull(a: int)
    | GetGlobal(a: int, bx: int)
    | SetGlobal(a: int, bx: int)
    | GetLocal(a: int, bx: int)
    | SetLocal(a: int, bx: int)
    | GetArg(a: int, bx: int)
    | GetExternal(a: int, b: int)
    | Binary(op: BinOp, a: int, b: int, c: int)
    | Negate(a: int, b: int)
    | Not(a: int, b: int)
    | TestEqual(a: int, b: int)
    | Test(cmp: CmpOp, a: int, b: int)
    | Jump(offset: int)
    | Call(a: int, b: int, c: int)
    | MakeClosure(a: int, bx: int)
    | Return(a: int)
    | Unknown(opcode: int)

  /** The interpreter's switch on the opcode, with the operands each case reads. */
  function Decode(i: Word): Instr {
    DecodeFields(GetOp(i), GetA(i), GetB(i), GetC(i), GetBx(i))
  }

  function DecodeFields(op: int, a: int, b: int, c: int, bx: int): Instr {
    if op == 0 then Nop
    else if op == 1 then Move(a, b)
    else if op == 2 then LoadK(a, bx)
    else if op == 3 then LoadBool(a, b)
    else if op == 4 then LoadNull(a)
    else if op == 5 then GetGlobal(a, bx)
    else if op == 6 then SetGlobal(a, bx)
    else if op == 7 then GetLocal(a, bx)
    else if op == 8 then SetLocal(a, bx)
    else if op == 9 then GetArg(a, bx)
    else if op == 10 then GetExternal(a, b)
    else if op == 11 then Binary(Add, a, b, c)
    else if op == 12 then Binary(Sub, a, b, c)
    else if op == 13 then Binary(Mul, a, b, c)
    else if op == 14 then Binary(Div, a, b, c)
    else if op == 15 then Binary(Pow, a, b, c)
    else if op == 16 then Binary(Rem, a, b, c)
    else if op == 17 then Negate(a, b)
    else if op == 18 then Not(a, b)
    else if op == 19 then TestEqual(a, b)
    else if op == 20 then Test(Lt, a, b)
    else if op == 21 then Test(Gt, a, b)
    else if op == 22 then Test(Le, a, b)
    else if op == 23 then Test(Ge, a, b)
    else if op == 24 then Jump(bx - EXCESS)
    else if op == 25 then Call(a, b, c)
    else if op == 26 then MakeClosure(a, bx)
    else if op == 27 then Return(a)
    else Unknown(op)
  }

  /** The name and the operands under which an instruction is written. */
  function Mnemonic(instr: Instr): (string, seq<int>) {
    match instr
    case Nop => ("nop", [])
    case Move(a, b) => ("move", [a, b])
    case LoadK(a, bx) => ("loadk", [a, bx])
    case LoadBool(a, b) => ("loadbool", [a, b])
    case LoadNull(a) => ("loadnull", [a])
    case GetGlobal(a, bx) => ("getglobal", [a, bx])
    case SetGlobal(a, bx) => ("setglobal", [a, bx])
    case GetLocal(a, bx) => ("getlocal", [a, bx])
    case SetLocal(a, bx) => ("setlocal", [a, bx])
    case GetArg(a, bx) => ("getarg", [a, bx])
    case GetExternal(a, b) => ("getexternal", [a, b])
    case Binary(op, a, b, c) =>
      ((match op case Add => "add" case Sub => "sub" case Mul => "mul" case Div => "div" case Pow => "pow" case Rem => "rem"),
       [a, b, c])
    case Negate(a, b) => ("unm", [a, b])
    case Not(a, b) => ("not", [a, b])
    case TestEqual(a, b) => ("eq", [a, b])
    case Test(cmp, a, b) =>
      ((match cmp case Lt => "lt" case Gt => "gt" case Le => "le" case Ge => "ge"), [a, b])
    case Jump(offset) => ("jmp", [offset])
    case Call(a, b, c) => ("call", [a, b, c])
    case MakeClosure(a, bx) => ("closure", [a, bx])
    case Return(a) => ("return", [a])
    case Unknown(_) => ("", [])
  }

  /** The operands that the table lists, in the order in which they are printed. */
  function Listed(op: nat, a: int, b: int, c: int, bx: int): seq<int>
    requires op < NUM_OPS
  {
    var flags := Args(op);
    (if flags.a then [a] else []) + (if flags.b then [b] else []) + (if flags.c then [c] else [])
    + (if flags.bx then [bx] else []) + (if flags.sbx then [bx - EXCESS] else [])
  }

  /** The switch of the interpreter and the tables of names and operands describe one instruction
      set: what runs is what the disassembler prints. */
  lemma TablesAgree(op: nat, a: int, b: int, c: int, bx: int)
    ensures op < NUM_OPS ==>
              Mnemonic(DecodeFields(op, a, b, c, bx)) == (LABELS[op], Listed(op, a, b, c, bx))
    ensures op >= NUM_OPS ==> DecodeFields(op, a, b, c, bx) == Unknown(op)
  {
    if op < NUM_OPS {
      var flags := Args(op);
      assert Listed(op, a, b, c, bx) ==
             if flags.c then [a, b, c] else if flags.b then [a, b] else if flags.bx then [a, bx]
             else if flags.a then [a] else if flags.sbx then [bx - EXCESS] else [];
    }
  }

  /** What each name of the assembly language means, with the operands by their fields. */
  lemma NamesMean(op: nat, a: int, b: int, c: int, bx: int)
    requires op < NUM_OPS
    ensures var instr := DecodeFields(op, a, b, c, bx);
            match LABELS[op]
            case "nop" => instr == Nop
            case "move" => instr == Move(a, b)
            case "loadk" => instr == LoadK(a, bx)
            case "loadbool" => instr == LoadBool(a, b)
            case "loadnull" => instr == LoadNull(a)
            case "getglobal" => instr == GetGlobal(a, bx)
            case "setglobal" => instr == SetGlobal(a, bx)
            case "getlocal" => instr == GetLocal(a, bx)
            case "setlocal" => instr == SetLocal(a, bx)
            case "getarg" => instr == GetArg(a, bx)
            case "getexternal" => instr == GetExternal(a, b)
            case "add" => instr == Binary(Add, a, b, c)
            case "sub" => instr == Binary(Sub, a, b, c)
            case "mul" => instr == Binary(Mul, a, b, c)
            case "div" => instr == Binary(Div, a, b, c)
            case "pow" => instr == Binary(Pow, a, b, c)
            case "rem" => instr == Binary(Rem, a, b, c)
            case "unm" => instr == Negate(a, b)
            case "not" => instr == Not(a, b)
            case "eq" => instr == TestEqual(a, b)
            case "lt" => instr == Test(Lt, a, b)
            case "gt" => instr == Test(Gt, a, b)
            case "le" => instr == Test(Le, a, b)
            case "ge" => instr == Test(Ge, a, b)
            case "jmp" => instr == Jump(bx - 131071)
            case "call" => instr == Call(a, b, c)
            case "closure" => instr == MakeClosure(a, bx)
            case "return" => instr == Return(a)
            case _ => false
  {
  }

  /** Two words of one opcode that agree on every operand the table lists for it. */
  predicate AgreeOnListed(i: Word, j: Word) {
    && GetOp(i) == GetOp(j) < NUM_OPS
    && var args := Args(GetOp(i));
       && (args.a ==> GetA(i) == GetA(j))
       && (args.b ==> GetB(i) == GetB(j))
       && (args.c ==> GetC(i) == GetC(j))
       && (args.bx ==> GetBx(i) == GetBx(j))
       && (args.sbx ==> GetSBx(i) == GetSBx(j))
  }

  /** The interpreter reads no operand that the table does not list. */
  lemma DecodeReadsListed(i: Word, j: Word)
    requires AgreeOnListed(i, j)
    ensures Decode(i) == Decode(j)
  {
    DecodeFieldsReadsListed(GetOp(i), GetA(i), GetB(i), GetC(i), GetBx(i),
                            GetA(j), GetB(j), GetC(j), GetBx(j));
  }

  lemma DecodeFieldsReadsListed(op: int, a: int, b: int, c: int, bx: int, a': int, b': int, c': int, bx': int)
    requires 0 <= op < NUM_OPS
    requires Args(op).a ==> a == a'
    requires Args(op).b ==> b == b'
    requires Args(op).c ==> c == c'
    requires Args(op).bx || Args(op).sbx ==> bx == bx'
    ensures DecodeFields(op, a, b, c, bx) == DecodeFields(op, a', b', c', bx')
  {
  }

  /** The word the assembler builds when an instruction is written with its listed operands only:
      a missing operand is read as -1, which fills its field with ones, and `jmp` gets A = 0. */
  function Canonical(i: Word): Word
    requires GetOp(i) < NUM_OPS
  {
    var args := Args(GetOp(i));
    if args.bx then i
    else if args.sbx then SetA(i, 0)
    else
      CreateABC(GetOp(i),
                if args.a then GetA(i) else 255,
                if args.b then GetB(i) else 511,
                if args.c then GetC(i) else 511)
  }

  lemma CanonicalAgrees(i: Word)
    requires GetOp(i) < NUM_OPS
    ensures AgreeOnListed(i, Canonical(i))
    ensures Canonical(Canonical(i)) == Canonical(i)
  {
    var args := Args(GetOp(i));
    CreateAfterGet(i);
    GetAfterSet(i, 0);
    if !args.bx && !args.sbx {
      GetAfterCreate(GetOp(i),
                     if args.a then GetA(i) else 255,
                     if args.b then GetB(i) else 511,
                     if args.c then GetC(i) else 511);
    } else if args.sbx {
      CreateAfterGet(SetA(i, 0));
      SetAfterSet(i, 0, 0);
    }
  }

  /** Canonical forms are exactly equal when the words agree on what is listed. */
  lemma CanonicalUnique(i: Word, j: Word)
    requires AgreeOnListed(i, j)
    ensures Canonical(i) == Canonical(j)
  {
    if Args(GetOp(i)).bx || Args(GetOp(i)).sbx {
      CreateAfterGet(i);
      CreateAfterGet(j);
      GetAfterSet(i, 0);
      GetAfterSet(j, 0);
      SameFields(Canonical(i), Canonical(j));
    }
  }
}
