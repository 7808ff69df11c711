/** Well-formed programs never leave their code, registers, constants, children or arguments. */
module Safety {
  import opened Words
  import opened Wrappers
  import opened Values
  import opened Opcodes
  import opened Blocks
  import opened Machine

  predicate RKOk(b: Block, x: int) {
    if IsK(x) then IndexK(x) < |b.k| else x < b.regc
  }

  predicate Inside(b: Block, pc: int) {
    0 <= pc < |b.code|
  }

  /** Operands lie within the registers, the pool, the children and the built-ins, and every
      instruction that may follow lies within the code. A closure operand beyond the count is
      checked by the interpreter; one equal to it is not. */
  predicate InstrOk(vm: Vm, b: Block, pc: int, instr: Instr) {
    match instr
    case Nop => Inside(b, pc + 1)
    case Move(a, x) => a < b.regc && x < b.regc && Inside(b, pc + 1)
    case LoadK(a, bx) => a < b.regc && 0 <= bx < |b.k| && !b.k[bx].TFunction? && Inside(b, pc + 1)
    case LoadBool(a, _) => a < b.regc && Inside(b, pc + 1)
    case LoadNull(a) => a < b.regc && Inside(b, pc + 1)
    case GetGlobal(a, bx) => a < b.regc && bx < |b.k| && Inside(b, pc + 1)
    case SetGlobal(a, bx) => a < b.regc && bx < |b.k| && Inside(b, pc + 1)
    case GetArg(a, _) => a < b.regc && Inside(b, pc + 1)
    case GetExternal(_, x) => x < |b.k|
    case Binary(_, a, x, y) => a < b.regc && RKOk(b, x) && RKOk(b, y) && Inside(b, pc + 1)
    case Negate(a, x) => a < b.regc && RKOk(b, x) && Inside(b, pc + 1)
    case Not(a, x) => a < b.regc && RKOk(b, x) && Inside(b, pc + 1)
    case TestEqual(a, x) => a < b.regc && RKOk(b, x) && Inside(b, pc + 1) && Inside(b, pc + 2)
    case Test(_, a, x) => a < b.regc && RKOk(b, x) && Inside(b, pc + 1) && Inside(b, pc + 2)
    case Jump(offset) => Inside(b, pc + 1 + offset)
    case Call(a, x, argc) => a < b.regc && x + argc < b.regc && Inside(b, pc + 1)
    case MakeClosure(a, bx) =>
      && a < b.regc && Inside(b, pc + 1)
      && if IsK(bx) then IndexK(bx) != |vm.builtins| else bx != |b.children|
    case Return(a) => a < b.regc
    case _ => true
  }

  predicate BlockOk(vm: Vm, b: Block) {
    && |b.code| > 0
    && |b.children| < 256
    && forall pc :: 0 <= pc < |b.code| ==> InstrOk(vm, b, pc, Decode(b.code[pc]))
  }

  predicate TreeOk(vm: Vm, b: Block) {
    && BlockOk(vm, b)
    && forall i :: 0 <= i < |b.children| ==> TreeOk(vm, b.children[i])
  }

  /** Built-in functions other than `print` and `println` compute data, never functions. */
  ghost predicate NativesGiveData(vm: Vm) {
    forall i, args: seq<TValue>, seed: int ::
      0 <= i < |vm.builtins| && vm.builtins[i].Native? ==> !NativeResult(vm.builtins[i], args, seed).TFunction?
  }

  function NativeResult(f: BuiltinFunction, args: seq<TValue>, seed: int): TValue
    requires f.Native?
  {
    f.fn(args, seed).0
  }

  ghost predicate ProgramOk(vm: Vm) {
    TreeOk(vm, vm.root) && NativesGiveData(vm)
  }

  lemma {:induction false} TreeOkAt(vm: Vm, b: Block, path: seq<nat>)
    requires TreeOk(vm, b)
    ensures Lookup(b, path).Some? ==> TreeOk(vm, Lookup(b, path).value)
  {
    if path != [] && path[0] < |b.children| {
      TreeOkAt(vm, b.children[path[0]], path[1..]);
    }
  }

  /** A function value denotes a built-in or a block of the program. */
  predicate ValueOk(vm: Vm, v: TValue) {
    match v
    case TFunction(Builtin(i)) => i < |vm.builtins|
    case TFunction(Closure(path)) => Lookup(vm.root, path).Some?
    case TFunction(Wild) => false
    case _ => true
  }

  predicate ValuesOk(vm: Vm, vs: seq<TValue>) {
    forall i :: 0 <= i < |vs| ==> ValueOk(vm, vs[i])
  }

  /** What holds of a frame before each instruction and while it waits for a call. */
  predicate FrameOk(vm: Vm, fr: Frame) {
    match Lookup(vm.root, fr.path)
    case None => false
    case Some(b) =>
      && Inside(b, fr.pc)
      && |fr.regs| == b.regc
      && |fr.argv| == fr.argc
      && ValuesOk(vm, fr.regs)
      && ValuesOk(vm, fr.argv)
  }

  /** A waiting frame can take the result of its call and go on after it. */
  predicate CallersOk(vm: Vm, callers: Callers) {
    match callers
    case Bottom => true
    case Caller(fr, dst, up) =>
      && FrameOk(vm, fr)
      && dst < |fr.regs|
      && FrameOk(vm, fr.(pc := fr.pc + 1))
      && CallersOk(vm, up)
  }

  /** The faults a well-formed program can still run into: they concern values, not memory. */
  predicate Benign(f: FaultKind) {
    f == Indeterminate || f == WrongMember || f == ArithmeticTrap || f == NullCompared
  }

  predicate ConfigOk(vm: Vm, c: Config) {
    && ValuesOk(vm, c.w.globals)
    && match c
       case Running(top, callers, _) => FrameOk(vm, top) && CallersOk(vm, callers)
       case Done(Returned(v), _) => ValueOk(vm, v)
       case Done(Exited(_), _) => true
       case Done(Stuck(f), _) => Benign(f)
  }

  predicate ActionOk(vm: Vm, fr: Frame, act: Action) {
    match act
    case Next(fr', w') => FrameOk(vm, fr') && ValuesOk(vm, w'.globals)
    case Leave(v, w') => ValueOk(vm, v) && ValuesOk(vm, w'.globals)
    case Enter(callee, dst) =>
      FrameOk(vm, callee) && dst < |fr.regs| && FrameOk(vm, fr.(pc := fr.pc + 1))
    case Exit(_) => true
    case Fault(f) => Benign(f)
  }

  lemma PutOk(vm: Vm, fr: Frame, w: World, a: nat, v: TValue)
    requires FrameOk(vm, fr) && FrameOk(vm, fr.(pc := fr.pc + 1)) && ValuesOk(vm, w.globals)
    requires a < |fr.regs| && ValueOk(vm, v)
    ensures ActionOk(vm, fr, Put(fr, w, a, Success(v)))
  {
  }

  lemma EntryOk(vm: Vm, fr: Frame, path: seq<nat>, first: nat, argc: nat)
    requires ProgramOk(vm) && ValuesOk(vm, fr.regs) && first + argc <= |fr.regs|
    requires Lookup(vm.root, path).Some?
    ensures FrameOk(vm, Entry(Lookup(vm.root, path).value, path, argc, Window(fr.regs, first, argc)))
  {
    TreeOkAt(vm, vm.root, path);
  }

  lemma CallOk(vm: Vm, b: Block, fr: Frame, w: World, a: nat, x: nat, argc: nat)
    requires ProgramOk(vm) && Lookup(vm.root, fr.path) == Some(b)
    requires FrameOk(vm, fr) && ValuesOk(vm, w.globals)
    requires InstrOk(vm, b, fr.pc, Call(a, x, argc))
    ensures ActionOk(vm, fr, StepCall(vm, fr, w, a, x, argc))
  {
    assert ValueOk(vm, fr.regs[x]);
    match fr.regs[x]
    case TFunction(Builtin(i)) =>
      var args := Window(fr.regs, x + 1, argc);
      var f := vm.builtins[i];
      if f.Native? {
        assert !NativeResult(f, args, w.seed).TFunction?;
      }
    case TFunction(Closure(path)) =>
      EntryOk(vm, fr, path, x + 1, argc);
    case _ =>
  }

  lemma RKGivesOk(vm: Vm, b: Block, fr: Frame, x: int)
    requires 0 <= x < 512 && RKOk(b, x) && |fr.regs| == b.regc
    ensures RK(b, fr, x).Success?
  {
  }

  /** The arithmetic, the tests and `not`. */
  predicate Computes(instr: Instr) {
    instr.Binary? || instr.Negate? || instr.Not? || instr.TestEqual? || instr.Test?
  }

  lemma ComputeOk(vm: Vm, b: Block, fr: Frame, w: World, instr: Instr)
    requires Lookup(vm.root, fr.path) == Some(b)
    requires FrameOk(vm, fr) && FrameOk(vm, fr.(pc := fr.pc + 1)) && ValuesOk(vm, w.globals)
    requires Bounded(instr) && InstrOk(vm, b, fr.pc, instr) && Computes(instr)
    ensures ActionOk(vm, fr, Execute(vm, b, fr, w, instr))
  {
    hide RK, Put;
    match instr
    case Binary(op, a, x, y) =>
      RKGivesOk(vm, b, fr, x);
      RKGivesOk(vm, b, fr, y);
      BinaryOk(vm, fr, w, op, a, RK(b, fr, x).value, RK(b, fr, y).value);
    case Negate(a, x) =>
      RKGivesOk(vm, b, fr, x);
      var u := RK(b, fr, x).value;
      if u.TNumber? { PutOk(vm, fr, w, a, TNumber(vm.ar.negate(u.n))); }
    case Not(a, x) =>
      RKGivesOk(vm, b, fr, x);
      PutOk(vm, fr, w, a, TBoolean(0));
      PutOk(vm, fr, w, a, TBoolean(1));
    case TestEqual(a, x) => RKGivesOk(vm, b, fr, a); RKGivesOk(vm, b, fr, x);
    case Test(_, a, x) => RKGivesOk(vm, b, fr, a); RKGivesOk(vm, b, fr, x);
  }

  lemma ExecuteOk(vm: Vm, b: Block, fr: Frame, w: World, instr: Instr)
    requires ProgramOk(vm) && Lookup(vm.root, fr.path) == Some(b)
    requires FrameOk(vm, fr) && ValuesOk(vm, w.globals)
    requires Bounded(instr) && InstrOk(vm, b, fr.pc, instr) && |b.children| < 256
    ensures ActionOk(vm, fr, Execute(vm, b, fr, w, instr))
  {
    hide StepCall, StepMakeClosure, TreeOk, RK, Put;
    if FallsThrough(instr) {
      FallThroughOk(vm, b, fr);
    }
    if Computes(instr) {
      ComputeOk(vm, b, fr, w, instr);
      return;
    }
    match instr
    case Move(a, x) => PutOk(vm, fr, w, a, fr.regs[x]);
    case LoadK(a, bx) => PutOk(vm, fr, w, a, b.k[bx]);
    case LoadBool(a, x) => PutOk(vm, fr, w, a, TBoolean(x));
    case LoadNull(a) => PutOk(vm, fr, w, a, TNull);
    case GetGlobal(a, bx) =>
      var g := FindGlobal(vm.ar, b, w, bx);
      if g.At? { PutOk(vm, fr, w, a, w.globals[g.index]); }
    case GetArg(a, bx) =>
      if bx < fr.argc { PutOk(vm, fr, w, a, fr.argv[bx]); }
    case Return(a) => RegisterOperand(b, fr, a);
    case Call(a, x, argc) => CallOk(vm, b, fr, w, a, x, argc);
    case MakeClosure(a, bx) => ClosureOk(vm, b, fr, w, a, bx);
    case _ =>
  }

  lemma ClosureOk(vm: Vm, b: Block, fr: Frame, w: World, a: nat, bx: nat)
    requires Lookup(vm.root, fr.path) == Some(b) && |b.children| < 256
    requires FrameOk(vm, fr) && FrameOk(vm, fr.(pc := fr.pc + 1)) && ValuesOk(vm, w.globals)
    requires InstrOk(vm, b, fr.pc, MakeClosure(a, bx))
    ensures ActionOk(vm, fr, StepMakeClosure(vm, b, fr, w, a, bx))
  {
    hide Put;
    LookupChild(vm.root, fr.path, bx);
    if IsK(bx) {
      if IndexK(bx) < |vm.builtins| { PutOk(vm, fr, w, a, TFunction(Builtin(IndexK(bx)))); }
    } else if bx < |b.children| {
      PutOk(vm, fr, w, a, TFunction(Closure(fr.path + [bx])));
    }
  }

  /** The bounds checks of `closure` compare with `>`: an operand above the count ends the process, as
      it should, but the count itself passes and an entry past the end is read, that of a child
      exactly when the byte that counts the children has not wrapped. */
  lemma ClosureFaultsExactly(vm: Vm, fr: Frame, w: World, b: Block, a: nat, bx: nat)
    requires Fetch(vm, fr) == Success((b, MakeClosure(a, bx))) && a < |fr.regs|
    ensures var act := StepFrame(vm, fr, w);
            && (act.Fault? <==> if IsK(bx) then IndexK(bx) == |vm.builtins| else bx == |b.children| < 256)
            && (act.Fault? ==> act.fault == if IsK(bx) then BadBuiltin else BadChild)
            && (act == Exit(1) <==> if IsK(bx) then IndexK(bx) > |vm.builtins| else bx > NumChildren(b))
  {
    hide Decode;
  }

  /** `closure 0 0` and `closure 0 1` */
  const CLOSURE_FIRST: Word := 26
  const CLOSURE_SECOND: Word := 16410

  lemma ClosureWords()
    ensures Decode(CLOSURE_FIRST) == MakeClosure(0, 0) && Decode(CLOSURE_SECOND) == MakeClosure(0, 1)
  {
  }

  /** In a block without children the check refuses `closure 0 1` and lets `closure 0 0` through. */
  lemma ClosureOfCountFaults(vm: Vm, w: World)
    requires |vm.root.code| > 0 && vm.root.children == [] && vm.root.regc == 1
    ensures var r := Exec(vm, 1, Entry(vm.root, [], 0, []), w);
            && (vm.root.code[0] == CLOSURE_FIRST ==> r == Finished(Stuck(BadChild), w, 0))
            && (vm.root.code[0] == CLOSURE_SECOND ==> r == Finished(Exited(1), w, 0))
  {
    hide StepFrame, Decode;
    var fr := Entry(vm.root, [], 0, []);
    var first := Decode(vm.root.code[0]);
    ClosureWords();
    if first == MakeClosure(0, 0) {
      ClosureFaultsExactly(vm, fr, w, vm.root, 0, 0);
    } else if first == MakeClosure(0, 1) {
      ClosureFaultsExactly(vm, fr, w, vm.root, 0, 1);
    }
  }

  /** The next instruction may be the one after this. */
  predicate FallsThrough(instr: Instr) {
    !instr.Jump? && !instr.Return? && !instr.GetLocal? && !instr.SetLocal? && !instr.GetExternal? && !instr.Unknown?
  }

  lemma FallThroughOk(vm: Vm, b: Block, fr: Frame)
    requires Lookup(vm.root, fr.path) == Some(b) && FrameOk(vm, fr) && Inside(b, fr.pc + 1)
    ensures FrameOk(vm, fr.(pc := fr.pc + 1))
  {
  }

  lemma BinaryOk(vm: Vm, fr: Frame, w: World, op: BinOp, a: nat, x: TValue, y: TValue)
    requires FrameOk(vm, fr) && FrameOk(vm, fr.(pc := fr.pc + 1)) && ValuesOk(vm, w.globals)
    requires a < |fr.regs|
    ensures ActionOk(vm, fr, StepBinary(vm.ar, fr, w, op, a, x, y))
  {
    if x.TNumber? && y.TNumber? && vm.ar.binary(op, x.n, y.n).Some? {
      PutOk(vm, fr, w, a, TNumber(vm.ar.binary(op, x.n, y.n).value));
    }
  }

  /** The A operand has 8 bits, so `RK(A)` is always a register. */
  lemma RegisterOperand(b: Block, fr: Frame, a: int)
    requires 0 <= a < 256
    ensures RK(b, fr, a) == Reg(fr, a)
  {
  }

  lemma StepOk(vm: Vm, fr: Frame, w: World)
    requires ProgramOk(vm) && FrameOk(vm, fr) && ValuesOk(vm, w.globals)
    ensures ActionOk(vm, fr, StepFrame(vm, fr, w))
  {
    hide Execute, ActionOk, InstrOk;
    var b := Lookup(vm.root, fr.path).value;
    TreeOkAt(vm, vm.root, fr.path);
    DecodeBounded(b.code[fr.pc]);
    ExecuteOk(vm, b, fr, w, Decode(b.code[fr.pc]));
  }

  /** Every step at every call depth keeps the invariant, and gets stuck only on values. */
  lemma MachineStepOk(vm: Vm, c: Config)
    requires ProgramOk(vm) && ConfigOk(vm, c)
    ensures ConfigOk(vm, MachineStep(vm, c))
  {
    hide StepFrame, TreeOk;
    if c.Running? {
      StepOk(vm, c.top, c.w);
    }
  }

  lemma {:induction false} StepsOk(vm: Vm, n: nat, c: Config)
    requires ProgramOk(vm) && ConfigOk(vm, c)
    ensures ConfigOk(vm, Steps(vm, n, c))
  {
    if n > 0 {
      MachineStepOk(vm, c);
      StepsOk(vm, n - 1, MachineStep(vm, c));
    }
  }

  /** A run of the interpreter on a well-formed program never touches memory it does not own: when
      it gets stuck, the fault is one of the four that concern values. */
  lemma RunsAreSafe(vm: Vm, fuel: nat, fr: Frame, w: World)
    requires ProgramOk(vm) && FrameOk(vm, fr) && ValuesOk(vm, w.globals)
    ensures match Exec(vm, fuel, fr, w)
            case OutOfFuel => true
            case Finished(Returned(v), w', _) => ValueOk(vm, v) && ValuesOk(vm, w'.globals)
            case Finished(Exited(_), w', _) => ValuesOk(vm, w'.globals)
            case Finished(Stuck(f), _, _) =>
              f == Indeterminate || f == WrongMember || f == ArithmeticTrap || f == NullCompared
  {
    StepsOk(vm, fuel, Running(fr, Bottom, w));
    var r := Exec(vm, fuel, fr, w);
    if r.Finished? {
      InterpreterAgreesWithMachine(vm, fuel, fr, w, r.o, r.w);
    }
  }

  /** The run that the main program starts: the outermost block, no arguments. */
  lemma MainIsSafe(vm: Vm, fuel: nat, w: World)
    requires ProgramOk(vm) && ValuesOk(vm, w.globals)
    ensures var r := Exec(vm, fuel, Entry(vm.root, [], 0, []), w);
            r.Finished? && r.o.Stuck? ==>
              r.o.fault in {Indeterminate, WrongMember, ArithmeticTrap, NullCompared}
  {
    RunsAreSafe(vm, fuel, Entry(vm.root, [], 0, []), w);
  }
}
