/**
 The meaning of a program: what one instruction does to a frame, the recursive interpreter with
 its calls, and the machine with an explicit stack of frames that the interpreter stands for.
 */
module Machine {
  import opened Words
  import opened Wrappers
  import opened Values
  import opened Opcodes
  import opened Blocks

  /** What is written to standard output. */
  datatype Event = Printed(v: TValue) | NewLine | DontKnowOpcode(op: int)

  /** A built-in function: `print`, `println`, or one that computes from its arguments and the
      state of the random number generator. An arity of -1 takes any number of arguments. */
  datatype BuiltinFunction =
    | Print
    | Println
    | Native(arity: int, fn: (seq<TValue>, int) -> (TValue, int))
  {
    function Arity(): int {
      if Native? then arity else -1
    }
  }

  /** The part of a virtual machine that does not change while it runs. */
  datatype Vm = Vm(root: Block, builtins: seq<BuiltinFunction>, ar: Arith)

  /** The part that does: globals, output so far, and random number generator. */
  datatype World = World(globals: seq<TValue>, trace: seq<Event>, seed: int)

  /** An activation of the block at `path`. `argv` holds the arguments that lie inside the caller's
      registers; `argc` is how many the call claims to pass. */
  datatype Frame = Frame(path: seq<nat>, pc: int, regs: seq<TValue>, argc: nat, argv: seq<TValue>)

  /** Where the C program has no defined behaviour. The last four concern values: an uninitialised
      one is inspected, the wrong member of the union is read, the processor traps, a null pointer
      is handed to `strcmp`. The others concern memory. */
  datatype FaultKind =
    | BadPc
    | BadRegister
    | BadConstant
    | BadChild
    | BadBuiltin
    | BadArgument
    | BadPointer
    | Indeterminate
    | WrongMember
    | ArithmeticTrap
    | NullCompared

  /** What an instruction asks for: go on, return, call into `callee` and store the result in
      register `dst`, end the process, or it has no defined behaviour. */
  datatype Action =
    | Next(fr: Frame, w: World)
    | Leave(v: TValue, w: World)
    | Enter(callee: Frame, dst: nat)
    | Exit(code: int)
    | Fault(fault: FaultKind)

  // ----- one instruction -----

  function Reg(fr: Frame, x: int): Result<TValue, FaultKind> {
    if 0 <= x < |fr.regs| then Success(fr.regs[x]) else Failure(BadRegister)
  }

  function Constant(b: Block, x: int): Result<TValue, FaultKind> {
    if 0 <= x < |b.k| then Success(b.k[x]) else Failure(BadConstant)
  }

  /** The RK macro. */
  function RK(b: Block, fr: Frame, x: int): Result<TValue, FaultKind> {
    if IsK(x) then Constant(b, IndexK(x)) else Reg(fr, x)
  }

  /** The frame after `R[a] = v; DISPATCH`. */
  function Resume(fr: Frame, a: nat, v: TValue): Result<Frame, FaultKind> {
    if a < |fr.regs| then Success(fr.(regs := fr.regs[a := v], pc := fr.pc + 1)) else Failure(BadRegister)
  }

  function Put(fr: Frame, w: World, a: nat, v: Result<TValue, FaultKind>): Action {
    match v
    case Failure(f) => Fault(f)
    case Success(x) =>
      match Resume(fr, a, x)
      case Failure(f) => Fault(f)
      case Success(fr') => Next(fr', w)
  }

  /** `DISPATCH`, after skipping `extra` instructions. */
  function Skip(fr: Frame, w: World, extra: int): Action {
    Next(fr.(pc := fr.pc + 1 + extra), w)
  }

  datatype GlobalIndex = At(index: nat) | Refused | Undefined(fault: FaultKind)

  /** The checks of getglobal and setglobal: the operand against the number of globals, the
      constant's type, and the number it holds against the number of globals. */
  function FindGlobal(ar: Arith, b: Block, w: World, bx: int): GlobalIndex {
    if bx >= |w.globals| then Refused
    else
      match Constant(b, bx)
      case Failure(f) => Undefined(f)
      case Success(v) =>
        if !v.TNumber? then Refused
        else
          var index := ar.truncate(v.n);
          if 0 <= index < |w.globals| then At(index) else Refused
  }

  function StepBinary(ar: Arith, fr: Frame, w: World, op: BinOp, a: nat, x: TValue, y: TValue): Action {
    if x.Junk? || y.Junk? then Fault(Indeterminate)
    else if !x.TNumber? || !y.TNumber? then Skip(fr, w, 0)
    else
      match ar.binary(op, x.n, y.n)
      case None => Fault(ArithmeticTrap)
      case Some(n) => Put(fr, w, a, Success(TNumber(n)))
  }

  function StepTest(ar: Arith, fr: Frame, w: World, cmp: CmpOp, x: TValue, y: TValue): Action {
    if x.Junk? || y.Junk? then Fault(Indeterminate)
    else if !x.TNumber? || !y.TNumber? then Fault(WrongMember)
    else Skip(fr, w, if ar.compare(cmp, x.n, y.n) then 1 else 0)
  }

  function StepTestEqual(ar: Arith, fr: Frame, w: World, x: TValue, y: TValue): Action {
    if x.Junk? || y.Junk? then Fault(Indeterminate)
    else if !Comparable(x, y) then Fault(NullCompared)
    else Skip(fr, w, if Equal(ar, x, y) then 1 else 0)
  }

  function StepNot(fr: Frame, w: World, a: nat, x: TValue): Action {
    match BooleanMember(x)
    case None => Fault(if x.Junk? then Indeterminate else WrongMember)
    case Some(b) => Put(fr, w, a, Success(TBoolean(if b == 0 then 1 else 0)))
  }

  function StepMakeClosure(vm: Vm, b: Block, fr: Frame, w: World, a: nat, bx: nat): Action {
    if IsK(bx) then
      var index := IndexK(bx);
      if index > |vm.builtins| then Exit(1)
      else if index == |vm.builtins| then Fault(BadBuiltin)
      else Put(fr, w, a, Success(TFunction(Builtin(index))))
    else
      if bx > NumChildren(b) then Exit(1)
      else if bx >= |b.children| then Fault(BadChild)
      else Put(fr, w, a, Success(TFunction(Closure(fr.path + [bx]))))
  }

  /** The arguments of a call that lie inside the caller's registers. */
  function Window(regs: seq<TValue>, first: nat, argc: nat): seq<TValue> {
    if first + argc <= |regs| then regs[first..first + argc]
    else if first <= |regs| then regs[first..]
    else []
  }

  /** The result of a built-in function and the world after it. */
  function RunBuiltin(f: BuiltinFunction, w: World, argc: nat, args: seq<TValue>): Result<(TValue, World), FaultKind> {
    if |args| < argc then Failure(BadArgument)
    else if Junk in args then Failure(Indeterminate)
    else if f.Native? then
      var (v, seed) := f.fn(args, w.seed);
      Success((v, w.(seed := seed)))
    else
      Success((TNull, w.(trace := w.trace + PrintedAll(args) + if f.Println? then [NewLine] else [])))
  }

  function PrintedAll(args: seq<TValue>): seq<Event> {
    seq(|args|, i requires 0 <= i < |args| => Printed(args[i]))
  }

  /** A fresh activation: every register is uninitialised. */
  function Entry(b: Block, path: seq<nat>, argc: nat, args: seq<TValue>): Frame {
    Frame(path, 0, seq(b.regc, _ => Junk), argc, args)
  }

  /** How a call of a function value begins: a built-in gives its result, a block is entered, a
      wrong number of arguments ends the process. */
  datatype CallStart = Given(v: TValue, w: World) | Entered(callee: Frame) | Ended(code: int) | Failed(fault: FaultKind)

  /** BijouFunction_call, up to the run of the callee. */
  function StartCall(vm: Vm, func: FuncRef, argc: nat, args: seq<TValue>, w: World): CallStart {
    match func
    case Wild => Failed(BadPointer)
    case Builtin(i) =>
      if i >= |vm.builtins| then Failed(BadPointer)
      else if vm.builtins[i].Arity() != -1 && vm.builtins[i].Arity() != argc then Ended(0)
      else
        (match RunBuiltin(vm.builtins[i], w, argc, args)
         case Failure(f) => Failed(f)
         case Success((v, w')) => Given(v, w'))
    case Closure(path) =>
      (match Lookup(vm.root, path)
       case None => Failed(BadPointer)
       case Some(callee) =>
         if callee.argc != argc then Ended(0) else Entered(Entry(callee, path, argc, args)))
  }

  function StepCall(vm: Vm, fr: Frame, w: World, a: nat, x: nat, argc: nat): Action {
    match Reg(fr, x)
    case Failure(f) => Fault(f)
    case Success(Junk) => Fault(Indeterminate)
    case Success(TFunction(func)) =>
      (match StartCall(vm, func, argc, Window(fr.regs, x + 1, argc), w)
       case Given(v, w') => Put(fr, w', a, Success(v))
       case Entered(callee) => Enter(callee, a)
       case Ended(code) => Exit(code)
       case Failed(f) => Fault(f))
    case Success(_) => Exit(1)
  }

  function Execute(vm: Vm, b: Block, fr: Frame, w: World, instr: Instr): Action
    requires Bounded(instr)
  {
    match instr
    case Nop => Skip(fr, w, 0)
    case Move(a, x) => Put(fr, w, a, Reg(fr, x))
    case LoadK(a, bx) => Put(fr, w, a, Constant(b, bx))
    case LoadBool(a, x) => Put(fr, w, a, Success(TBoolean(x)))
    case LoadNull(a) => Put(fr, w, a, Success(TNull))
    case GetGlobal(a, bx) =>
      (match FindGlobal(vm.ar, b, w, bx)
       case Undefined(f) => Fault(f)
       case Refused => Leave(TNone, w)
       case At(index) =>
         if index < |w.globals| then Put(fr, w, a, Success(w.globals[index])) else Fault(BadPointer))
    case SetGlobal(a, bx) =>
      (match FindGlobal(vm.ar, b, w, bx)
       case Undefined(f) => Fault(f)
       case Refused => Leave(TNone, w)
       case At(index) =>
         (match Reg(fr, a)
          case Failure(f) => Fault(f)
          case Success(v) =>
            if index < |w.globals| then Skip(fr, w.(globals := w.globals[index := v]), 0) else Fault(BadPointer)))
    case GetLocal(_, _) => Leave(TNone, w)  // a block never has locals, so every index is out of range
    case SetLocal(_, _) => Leave(TNone, w)
    case GetArg(a, bx) =>
      if bx >= fr.argc then Leave(TNone, w)
      else if bx >= |fr.argv| then Fault(BadArgument)
      else Put(fr, w, a, Success(fr.argv[bx]))
    case GetExternal(_, x) =>
      // no library is linked: a string that names a function and anything else both end the process
      (match Constant(b, x)
       case Failure(f) => Fault(f)
       case Success(_) => Exit(1))
    case Binary(op, a, x, y) =>
      (match (RK(b, fr, x), RK(b, fr, y))
       case (Success(u), Success(v)) => StepBinary(vm.ar, fr, w, op, a, u, v)
       case (Failure(f), _) => Fault(f)
       case (_, Failure(f)) => Fault(f))
    case Negate(a, x) =>
      (match RK(b, fr, x)
       case Failure(f) => Fault(f)
       case Success(u) =>
         if u.Junk? then Fault(Indeterminate)
         else if !u.TNumber? then Skip(fr, w, 0)
         else Put(fr, w, a, Success(TNumber(vm.ar.negate(u.n)))))
    case Not(a, x) =>
      (match RK(b, fr, x)
       case Failure(f) => Fault(f)
       case Success(u) => StepNot(fr, w, a, u))
    case TestEqual(x, y) =>
      (match (RK(b, fr, x), RK(b, fr, y))
       case (Success(u), Success(v)) => StepTestEqual(vm.ar, fr, w, u, v)
       case (Failure(f), _) => Fault(f)
       case (_, Failure(f)) => Fault(f))
    case Test(cmp, x, y) =>
      (match (RK(b, fr, x), RK(b, fr, y))
       case (Success(u), Success(v)) => StepTest(vm.ar, fr, w, cmp, u, v)
       case (Failure(f), _) => Fault(f)
       case (_, Failure(f)) => Fault(f))
    case Jump(offset) => Skip(fr, w, offset)
    case Call(a, x, argc) => StepCall(vm, fr, w, a, x, argc)
    case MakeClosure(a, bx) => StepMakeClosure(vm, b, fr, w, a, bx)
    case Return(a) =>
      (match RK(b, fr, a)
       case Failure(f) => Fault(f)
       case Success(v) => Leave(v, w))
    case Unknown(op) => Leave(TNone, w.(trace := w.trace + [DontKnowOpcode(op)]))
  }

  /** Operands as the fields of a word bound them. */
  predicate Bounded(instr: Instr) {
    match instr
    case Move(a, b) => 0 <= a < 256 && 0 <= b < 512
    case LoadK(a, bx) => 0 <= a < 256 && 0 <= bx
    case LoadBool(a, b) => 0 <= a < 256
    case LoadNull(a) => 0 <= a < 256
    case GetGlobal(a, bx) => 0 <= a < 256 && 0 <= bx
    case SetGlobal(a, bx) => 0 <= a < 256 && 0 <= bx
    case GetArg(a, bx) => 0 <= a < 256 && 0 <= bx
    case GetExternal(_, b) => 0 <= b < 512
    case Binary(_, a, b, c) => 0 <= a < 256 && 0 <= b < 512 && 0 <= c < 512
    case Negate(a, b) => 0 <= a < 256 && 0 <= b < 512
    case Not(a, b) => 0 <= a < 256 && 0 <= b < 512
    case TestEqual(a, b) => 0 <= a < 256 && 0 <= b < 512
    case Test(_, a, b) => 0 <= a < 256 && 0 <= b < 512
    case Call(a, b, c) => 0 <= a < 256 && 0 <= b < 512 && 0 <= c < 512
    case MakeClosure(a, bx) => 0 <= a < 256 && 0 <= bx
    case Return(a) => 0 <= a < 256
    case _ => true
  }

  lemma DecodeBounded(i: Word)
    ensures Bounded(Decode(i))
  {
    CreateAfterGet(i);
    DecodeFieldsBounded(GetOp(i), GetA(i), GetB(i), GetC(i), GetBx(i));
  }

  lemma DecodeFieldsBounded(op: int, a: int, b: int, c: int, bx: int)
    requires InFields(op, a, b, c) && 0 <= bx
    ensures Bounded(DecodeFields(op, a, b, c, bx))
  {
  }

  /** The block a frame runs and the instruction it is about to execute. */
  function Fetch(vm: Vm, fr: Frame): Result<(Block, Instr), FaultKind> {
    match Lookup(vm.root, fr.path)
    case None => Failure(BadPointer)
    case Some(b) =>
      if 0 <= fr.pc < |b.code| then Success((b, Decode(b.code[fr.pc]))) else Failure(BadPc)
  }

  function StepFrame(vm: Vm, fr: Frame, w: World): Action {
    match Fetch(vm, fr)
    case Failure(f) => Fault(f)
    case Success((b, instr)) =>
      DecodeBounded(b.code[fr.pc]);
      Execute(vm, b, fr, w, instr)
  }

  // ----- the recursive interpreter -----

  datatype Outcome = Returned(v: TValue) | Exited(code: int) | Stuck(fault: FaultKind)

  /** How a run that may take `fuel` instructions ends, and how many of them it did not use. */
  datatype Verdict = OutOfFuel | Finished(o: Outcome, w: World, left: nat)

  /** bijou_interpret and, in the case of `Enter`, BijouFunction_call. */
  function Exec(vm: Vm, fuel: nat, fr: Frame, w: World): (r: Verdict)
    ensures r.Finished? ==> r.left < fuel
    decreases fuel
  {
    if fuel == 0 then OutOfFuel
    else
      match StepFrame(vm, fr, w)
      case Next(fr', w') => Exec(vm, fuel - 1, fr', w')
      case Leave(v, w') => Finished(Returned(v), w', fuel - 1)
      case Exit(code) => Finished(Exited(code), w, fuel - 1)
      case Fault(f) => Finished(Stuck(f), w, fuel - 1)
      case Enter(callee, dst) =>
        match Exec(vm, fuel - 1, callee, w)
        case OutOfFuel => OutOfFuel
        case Finished(o, w', left) =>
          if !o.Returned? then Finished(o, w', left)
          else
            match Resume(fr, dst, o.v)
            case Failure(f) => Finished(Stuck(f), w', left)
            case Success(fr') => Exec(vm, left, fr', w')
  }

  // ----- the machine with an explicit stack -----

  /** The frames waiting for the running one, each with the register that takes the result. */
  datatype Callers = Bottom | Caller(fr: Frame, dst: nat, up: Callers)

  datatype Config = Running(top: Frame, callers: Callers, w: World) | Done(o: Outcome, w: World)

  function ReturnTo(callers: Callers, v: TValue, w: World): Config {
    match callers
    case Bottom => Done(Returned(v), w)
    case Caller(fr, dst, up) =>
      match Resume(fr, dst, v)
      case Failure(f) => Done(Stuck(f), w)
      case Success(fr') => Running(fr', up, w)
  }

  function MachineStep(vm: Vm, c: Config): Config {
    if c.Done? then c
    else
      match StepFrame(vm, c.top, c.w)
      case Next(fr, w) => Running(fr, c.callers, w)
      case Leave(v, w) => ReturnTo(c.callers, v, w)
      case Exit(code) => Done(Exited(code), c.w)
      case Fault(f) => Done(Stuck(f), c.w)
      case Enter(callee, dst) => Running(callee, Caller(c.top, dst, c.callers), c.w)
  }

  function Steps(vm: Vm, n: nat, c: Config): Config {
    if n == 0 then c else Steps(vm, n - 1, MachineStep(vm, c))
  }

  lemma {:induction false} StepsAdd(vm: Vm, m: nat, n: nat, c: Config)
    ensures Steps(vm, m + n, c) == Steps(vm, n, Steps(vm, m, c))
  {
    if m > 0 {
      StepsAdd(vm, m - 1, n, MachineStep(vm, c));
    }
  }

  lemma {:induction false} DoneStays(vm: Vm, n: nat, c: Config)
    requires c.Done?
    ensures Steps(vm, n, c) == c
  {
    if n > 0 {
      DoneStays(vm, n - 1, c);
    }
  }

  function Deliver(callers: Callers, o: Outcome, w: World): Config {
    if o.Returned? then ReturnTo(callers, o.v, w) else Done(o, w)
  }

  /** A complete call, however deep its recursion, is a run of the machine that leaves the waiting
      frames alone: it ends by delivering its result to them, and nothing else of them changes. */
  lemma {:induction false} ExecRunsMachine(vm: Vm, fuel: nat, fr: Frame, callers: Callers, w: World)
    ensures match Exec(vm, fuel, fr, w)
            case OutOfFuel => Steps(vm, fuel, Running(fr, callers, w)).Running?
            case Finished(o, w', left) =>
              Steps(vm, fuel - left, Running(fr, callers, w)) == Deliver(callers, o, w')
    decreases fuel
  {
    hide StepFrame;
    if fuel > 0 {
      var c := Running(fr, callers, w);
      match StepFrame(vm, fr, w)
      case Next(fr', w') =>
        ExecRunsMachine(vm, fuel - 1, fr', callers, w');
      case Enter(callee, dst) =>
        ExecRunsMachine(vm, fuel - 1, callee, Caller(fr, dst, callers), w);
        match Exec(vm, fuel - 1, callee, w) {
          case OutOfFuel =>
          case Finished(o, w', left) =>
            var inner := fuel - left;
            assert Steps(vm, inner, c) == Deliver(Caller(fr, dst, callers), o, w');
            if o.Returned? && Resume(fr, dst, o.v).Success? {
              var fr' := Resume(fr, dst, o.v).value;
              ExecRunsMachine(vm, left, fr', callers, w');
              match Exec(vm, left, fr', w') {
                case OutOfFuel => StepsAdd(vm, inner, left, c);
                case Finished(_, _, left') => StepsAdd(vm, inner, left - left', c);
              }
            }
        }
      case _ =>
        assert Steps(vm, 1, c) == MachineStep(vm, c);
    }
  }

  /** The recursive interpreter and the machine with an explicit stack agree in both directions. */
  lemma InterpreterAgreesWithMachine(vm: Vm, fuel: nat, fr: Frame, w: World, o: Outcome, w': World)
    ensures var c := Steps(vm, fuel, Running(fr, Bottom, w));
            var r := Exec(vm, fuel, fr, w);
            && (r.OutOfFuel? <==> c.Running?)
            && (r.Finished? && r.o == o && r.w == w' <==> c == Done(o, w'))
  {
    hide StepFrame;
    ExecRunsMachine(vm, fuel, fr, Bottom, w);
    var r := Exec(vm, fuel, fr, w);
    if r.Finished? {
      var c := Running(fr, Bottom, w);
      StepsAdd(vm, fuel - r.left, r.left, c);
      DoneStays(vm, r.left, Steps(vm, fuel - r.left, c));
    }
  }

  /** More fuel never changes how a run that finished ended; it is only left over. */
  lemma {:induction false} MoreFuel(vm: Vm, fuel: nat, extra: nat, fr: Frame, w: World)
    requires Exec(vm, fuel, fr, w).Finished?
    ensures var r := Exec(vm, fuel, fr, w);
            Exec(vm, fuel + extra, fr, w) == Finished(r.o, r.w, r.left + extra)
    decreases fuel
  {
    hide StepFrame;
    match StepFrame(vm, fr, w)
    case Next(fr', w') =>
      MoreFuel(vm, fuel - 1, extra, fr', w');
    case Enter(callee, dst) =>
      MoreFuel(vm, fuel - 1, extra, callee, w);
      var r := Exec(vm, fuel - 1, callee, w);
      if r.o.Returned? && Resume(fr, dst, r.o.v).Success? {
        MoreFuel(vm, r.left, extra, Resume(fr, dst, r.o.v).value, r.w);
      }
    case _ =>
  }
}
