/** What each instruction does, said of registers, constants, children, arguments and cells themselves. */
module Instructions {
  import opened Wrappers
  import opened Values
  import opened Opcodes
  import opened Blocks
  import opened Machine

  /** The next instruction of the frame is `instr`, in the code of `b`. */
  predicate Executes(vm: Vm, fr: Frame, b: Block, instr: Instr) {
    Lookup(vm.root, fr.path) == Some(b) && 0 <= fr.pc < |b.code| && Decode(b.code[fr.pc]) == instr
  }

  /** A 9-bit operand denotes `v`: a register below 256, a constant from there on. */
  predicate Denotes(b: Block, fr: Frame, x: int, v: TValue) {
    if x >= 256 then x < 512 && x - 256 < |b.k| && v == b.k[x - 256]
    else 0 <= x < |fr.regs| && v == fr.regs[x]
  }

  lemma DenotesRK(b: Block, fr: Frame, x: int, v: TValue)
    requires Denotes(b, fr, x, v)
    ensures RK(b, fr, x) == Success(v)
  {
  }

  /** The frame goes on with the next instruction, and of its registers only `a` has changed. */
  function Stored(fr: Frame, a: nat, v: TValue): Frame
    requires a < |fr.regs|
  {
    fr.(regs := fr.regs[a := v], pc := fr.pc + 1)
  }

  // ----- data -----

  lemma Moves(vm: Vm, fr: Frame, w: World, b: Block, a: nat, x: nat)
    requires Executes(vm, fr, b, Move(a, x)) && a < |fr.regs| && x < |fr.regs|
    ensures StepFrame(vm, fr, w) == Next(Stored(fr, a, fr.regs[x]), w)
  {
    hide Decode;
  }

  lemma LoadsConstant(vm: Vm, fr: Frame, w: World, b: Block, a: nat, bx: nat)
    requires Executes(vm, fr, b, LoadK(a, bx)) && a < |fr.regs| && bx < |b.k|
    ensures StepFrame(vm, fr, w) == Next(Stored(fr, a, b.k[bx]), w)
  {
    hide Decode;
  }

  lemma LoadsLiteral(vm: Vm, fr: Frame, w: World, b: Block, a: nat, x: nat)
    requires a < |fr.regs|
    ensures Executes(vm, fr, b, LoadBool(a, x)) ==> StepFrame(vm, fr, w) == Next(Stored(fr, a, TBoolean(x)), w)
    ensures Executes(vm, fr, b, LoadNull(a)) ==> StepFrame(vm, fr, w) == Next(Stored(fr, a, TNull), w)
  {
    hide Decode;
  }

  /** An argument is read from the window that the caller passed; beyond it the function returns. */
  lemma ReadsArgument(vm: Vm, fr: Frame, w: World, b: Block, a: nat, bx: nat)
    requires Executes(vm, fr, b, GetArg(a, bx)) && a < |fr.regs| && |fr.argv| == fr.argc
    ensures StepFrame(vm, fr, w) == if bx < fr.argc then Next(Stored(fr, a, fr.argv[bx]), w) else Leave(TNone, w)
  {
    hide Decode;
  }

  // ----- arithmetic and tests -----

  /** The left operand is B and the right one C. */
  lemma Computes(vm: Vm, fr: Frame, w: World, b: Block, op: BinOp, a: nat, x: nat, y: nat, m: Number, n: Number)
    requires Executes(vm, fr, b, Binary(op, a, x, y)) && a < |fr.regs|
    requires Denotes(b, fr, x, TNumber(m)) && Denotes(b, fr, y, TNumber(n))
    ensures StepFrame(vm, fr, w) ==
            match vm.ar.binary(op, m, n)
            case None => Fault(ArithmeticTrap)
            case Some(r) => Next(Stored(fr, a, TNumber(r)), w)
  {
    hide Decode, RK, Denotes;
    DenotesRK(b, fr, x, TNumber(m));
    DenotesRK(b, fr, y, TNumber(n));
  }

  /** An operand that is no number leaves every register as it is. */
  lemma ComputesNothing(vm: Vm, fr: Frame, w: World, b: Block, op: BinOp, a: nat, x: nat, y: nat, u: TValue, v: TValue)
    requires Executes(vm, fr, b, Binary(op, a, x, y)) && Denotes(b, fr, x, u) && Denotes(b, fr, y, v)
    requires !u.Junk? && !v.Junk? && (!u.TNumber? || !v.TNumber?)
    ensures StepFrame(vm, fr, w) == Next(fr.(pc := fr.pc + 1), w)
  {
    hide Decode, RK, Denotes;
    DenotesRK(b, fr, x, u);
    DenotesRK(b, fr, y, v);
  }

  lemma Negates(vm: Vm, fr: Frame, w: World, b: Block, a: nat, x: nat, n: Number)
    requires Executes(vm, fr, b, Negate(a, x)) && a < |fr.regs| && Denotes(b, fr, x, TNumber(n))
    ensures StepFrame(vm, fr, w) == Next(Stored(fr, a, TNumber(vm.ar.negate(n))), w)
  {
    hide Decode, RK, Denotes;
    DenotesRK(b, fr, x, TNumber(n));
  }

  /** `not` looks at the integer member: of a boolean its value, of a number the low half of the low
      eight bytes of its image. */
  lemma Inverts(vm: Vm, fr: Frame, w: World, b: Block, a: nat, x: nat, v: TValue)
    requires Executes(vm, fr, b, Not(a, x)) && a < |fr.regs| && Denotes(b, fr, x, v)
    requires v.TBoolean? || v.TNumber?
    ensures var zero := if v.TBoolean? then v.b == 0 else forall i :: 0 <= i < 4 ==> v.n[i] == 0;
            StepFrame(vm, fr, w) == Next(Stored(fr, a, TBoolean(if zero then 1 else 0)), w)
  {
    hide Decode, RK, Denotes;
    DenotesRK(b, fr, x, v);
    if v.TNumber? {
      assert BooleanMember(v) == Some(0) <==> v.n[0] == 0 && v.n[1] == 0 && v.n[2] == 0 && v.n[3] == 0;
    }
  }

  /** A comparison that holds skips the instruction that follows it. The left operand is A. */
  lemma TestSkips(vm: Vm, fr: Frame, w: World, b: Block, cmp: CmpOp, a: nat, x: nat, m: Number, n: Number)
    requires Executes(vm, fr, b, Test(cmp, a, x)) && a < 256
    requires Denotes(b, fr, a, TNumber(m)) && Denotes(b, fr, x, TNumber(n))
    ensures StepFrame(vm, fr, w) == Next(fr.(pc := fr.pc + if vm.ar.compare(cmp, m, n) then 2 else 1), w)
  {
    hide Decode, RK, Denotes;
    DenotesRK(b, fr, a, TNumber(m));
    DenotesRK(b, fr, x, TNumber(n));
  }

  /** So does `eq`, for numbers that are equal and for other values that are the same; a function
      or a pointer equals nothing. */
  lemma EqualSkips(vm: Vm, fr: Frame, w: World, b: Block, a: nat, x: nat, u: TValue, v: TValue)
    requires Executes(vm, fr, b, TestEqual(a, x)) && a < 256
    requires Denotes(b, fr, a, u) && Denotes(b, fr, x, v) && !u.Junk? && !v.Junk?
    ensures u.TNumber? && v.TNumber? ==>
              StepFrame(vm, fr, w) == Next(fr.(pc := fr.pc + if vm.ar.equal(u.n, v.n) then 2 else 1), w)
    ensures (u.TNull? || u.TBoolean? || (u.TString? && u.s.Content() != [])) ==>
              StepFrame(vm, fr, w) == Next(fr.(pc := fr.pc + if u == v then 2 else 1), w)
    ensures u.TFunction? || u.TPointer? || u.TNone? || (u.TNumber? && !v.TNumber?) ==>
              StepFrame(vm, fr, w) == Next(fr.(pc := fr.pc + 1), w)
  {
    hide Decode, RK, Denotes;
    DenotesRK(b, fr, a, u);
    DenotesRK(b, fr, x, v);
  }

  // ----- control -----

  /** The offset counts from the instruction after the jump. */
  lemma Jumps(vm: Vm, fr: Frame, w: World, b: Block, offset: int)
    requires Executes(vm, fr, b, Jump(offset))
    ensures StepFrame(vm, fr, w) == Next(fr.(pc := fr.pc + 1 + offset), w)
  {
    hide Decode;
  }

  lemma Returns(vm: Vm, fr: Frame, w: World, b: Block, a: nat)
    requires Executes(vm, fr, b, Return(a)) && a < 256 && a < |fr.regs|
    ensures StepFrame(vm, fr, w) == Leave(fr.regs[a], w)
  {
    hide Decode;
  }

  /** `nop` does nothing. Locals do not exist, so their instructions return none; so does an unknown
      opcode, once it has been reported. Without linked libraries `getexternal` ends the process. */
  lemma OtherInstructions(vm: Vm, fr: Frame, w: World, b: Block, a: int, x: int)
    ensures Executes(vm, fr, b, Nop) ==> StepFrame(vm, fr, w) == Next(fr.(pc := fr.pc + 1), w)
    ensures Executes(vm, fr, b, GetLocal(a, x)) ==> StepFrame(vm, fr, w) == Leave(TNone, w)
    ensures Executes(vm, fr, b, SetLocal(a, x)) ==> StepFrame(vm, fr, w) == Leave(TNone, w)
    ensures Executes(vm, fr, b, Unknown(x)) ==>
              StepFrame(vm, fr, w) == Leave(TNone, w.(trace := w.trace + [DontKnowOpcode(x)]))
    ensures Executes(vm, fr, b, GetExternal(a, x)) && 0 <= x < |b.k| ==> StepFrame(vm, fr, w) == Exit(1)
  {
    hide Decode;
  }

  /** The frame that waits gets the result in the register its call names, and goes on after it. */
  lemma ReturnsToCaller(vm: Vm, fr: Frame, w: World, b: Block, a: nat, caller: Frame, dst: nat, up: Callers)
    requires Executes(vm, fr, b, Return(a)) && a < 256 && a < |fr.regs| && dst < |caller.regs|
    ensures MachineStep(vm, Running(fr, Caller(caller, dst, up), w)) ==
            Running(Stored(caller, dst, fr.regs[a]), up, w)
  {
    hide StepFrame;
    Returns(vm, fr, w, b, a);
  }

  // ----- functions -----

  /** `closure` selects the child, or the built-in function, of that number. */
  lemma SelectsChild(vm: Vm, fr: Frame, w: World, b: Block, a: nat, bx: nat)
    requires Executes(vm, fr, b, MakeClosure(a, bx)) && a < |fr.regs| && bx < |b.children| < 256
    ensures StepFrame(vm, fr, w) == Next(Stored(fr, a, TFunction(Closure(fr.path + [bx]))), w)
    ensures Lookup(vm.root, fr.path + [bx]) == Some(b.children[bx])
  {
    hide Decode;
    LookupChild(vm.root, fr.path, bx);
  }

  lemma SelectsBuiltin(vm: Vm, fr: Frame, w: World, b: Block, a: nat, i: nat)
    requires Executes(vm, fr, b, MakeClosure(a, 256 + i)) && a < |fr.regs| && i < |vm.builtins| && i < 256
    ensures StepFrame(vm, fr, w) == Next(Stored(fr, a, TFunction(Builtin(i))), w)
  {
    hide Decode;
  }

  /** A call of a block starts at its first instruction, with fresh registers, and argument `i` is the
      register `i` places after the one that holds the function. The number of arguments must be
      the one the block declares. */
  lemma CallEnters(vm: Vm, fr: Frame, w: World, b: Block, a: nat, x: nat, argc: nat, path: seq<nat>, callee: Block)
    requires Executes(vm, fr, b, Call(a, x, argc)) && x + argc < |fr.regs|
    requires fr.regs[x] == TFunction(Closure(path)) && Lookup(vm.root, path) == Some(callee)
    ensures if callee.argc != argc then StepFrame(vm, fr, w) == Exit(0)
            else
              var act := StepFrame(vm, fr, w);
              && act.Enter? && act.dst == a
              && act.callee.path == path && act.callee.pc == 0
              && |act.callee.regs| == callee.regc && (forall i :: 0 <= i < callee.regc ==> act.callee.regs[i] == Junk)
              && |act.callee.argv| == act.callee.argc == argc
              && forall i :: 0 <= i < argc ==> act.callee.argv[i] == fr.regs[x + 1 + i]
  {
    hide Decode;
  }

  /** The events of printing some values, one by one. */
  predicate Prints(vs: seq<TValue>, events: seq<Event>) {
    |events| == |vs| && forall i :: 0 <= i < |vs| ==> events[i] == Printed(vs[i])
  }

  /** `print` and `println` take any number of arguments, write them in order, and give null. */
  lemma CallPrints(vm: Vm, fr: Frame, w: World, b: Block, a: nat, x: nat, argc: nat, i: nat, line: seq<Event>)
    requires Executes(vm, fr, b, Call(a, x, argc)) && x + argc < |fr.regs| && a < |fr.regs|
    requires fr.regs[x] == TFunction(Builtin(i)) && i < |vm.builtins|
    requires Junk !in fr.regs[x + 1..x + 1 + argc]
    requires Prints(fr.regs[x + 1..x + 1 + argc], line)
    ensures vm.builtins[i].Print? ==>
              StepFrame(vm, fr, w) == Next(Stored(fr, a, TNull), w.(trace := w.trace + line))
    ensures vm.builtins[i].Println? ==>
              StepFrame(vm, fr, w) == Next(Stored(fr, a, TNull), w.(trace := w.trace + line + [NewLine]))
  {
    hide Decode;
    var args := fr.regs[x + 1..x + 1 + argc];
    assert PrintedAll(args) == line;
    assert w.trace + (line + []) == w.trace + line;
  }

  /** Any other built-in must get as many arguments as it declares, unless it declares -1. */
  lemma CallsNative(vm: Vm, fr: Frame, w: World, b: Block, a: nat, x: nat, argc: nat, i: nat)
    requires Executes(vm, fr, b, Call(a, x, argc)) && x + argc < |fr.regs| && a < |fr.regs|
    requires fr.regs[x] == TFunction(Builtin(i)) && i < |vm.builtins| && vm.builtins[i].Native?
    requires Junk !in fr.regs[x + 1..x + 1 + argc]
    ensures var f := vm.builtins[i];
            if f.arity != -1 && f.arity != argc then StepFrame(vm, fr, w) == Exit(0)
            else
              var (v, seed) := f.fn(fr.regs[x + 1..x + 1 + argc], w.seed);
              StepFrame(vm, fr, w) == Next(Stored(fr, a, v), w.(seed := seed))
  {
    hide Decode;
  }
}
