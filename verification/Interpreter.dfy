/** The interpreter as it runs: registers and globals are arrays written in place, and a call passes
    a window into the caller's registers. */
module Interpreter {
  import opened Words
  import opened Wrappers
  import opened Values
  import opened Opcodes
  import opened Blocks
  import opened Machine

  /** What the dispatch loop does after an instruction: fetch at `pc`, or end the run. */
  datatype Control = Go(pc: int) | Stop(o: Outcome)

  /** BijouFunction_call with the arguments copied. */
  function CallFunction(vm: Vm, fuel: nat, func: FuncRef, argc: nat, args: seq<TValue>, w: World): (r: Verdict)
    ensures r.Finished? ==> r.left <= fuel
  {
    match StartCall(vm, func, argc, args, w)
    case Given(v, w') => Finished(Returned(v), w', fuel)
    case Entered(callee) => Exec(vm, fuel, callee, w)
    case Ended(code) => Finished(Exited(code), w, fuel)
    case Failed(f) => Finished(Stuck(f), w, fuel)
  }

  lemma CallSteps(vm: Vm, fr: Frame, w: World, b: Block, a: nat, x: nat, argc: nat)
    requires Fetch(vm, fr) == Success((b, Call(a, x, argc)))
    ensures StepFrame(vm, fr, w) == StepCall(vm, fr, w, a, x, argc)
  {
    hide Decode;
  }

  /** A call instruction on something that is no function. */
  lemma CallRefused(vm: Vm, fuel: nat, fr: Frame, w: World, b: Block, a: nat, x: nat, argc: nat)
    requires fuel > 0 && Fetch(vm, fr) == Success((b, Call(a, x, argc)))
    requires x < |fr.regs| ==> !fr.regs[x].TFunction?
    ensures Exec(vm, fuel, fr, w) ==
            Finished(if x >= |fr.regs| then Stuck(BadRegister)
                     else if fr.regs[x].Junk? then Stuck(Indeterminate)
                     else Exited(1), w, fuel - 1)
  {
    hide StepFrame, Fetch;
    CallSteps(vm, fr, w, b, a, x, argc);
  }

  /** A call instruction stores the result of the called function and changes no other register. */
  lemma CallUnfolds(vm: Vm, fuel: nat, fr: Frame, w: World, b: Block, a: nat, x: nat, argc: nat)
    requires fuel > 0 && Fetch(vm, fr) == Success((b, Call(a, x, argc)))
    requires x < |fr.regs| && fr.regs[x].TFunction?
    ensures
      var r := Exec(vm, fuel, fr, w);
      match CallFunction(vm, fuel - 1, fr.regs[x].func, argc, Window(fr.regs, x + 1, argc), w)
      case OutOfFuel => r.OutOfFuel?
      case Finished(o, w', left) =>
        if !o.Returned? then r == Finished(o, w', left)
        else if a < |fr.regs| then r == Exec(vm, left, fr.(regs := fr.regs[a := o.v], pc := fr.pc + 1), w')
        else r.Finished? && r.o == Stuck(BadRegister) && r.left == left
  {
    hide StepFrame, Fetch, RunBuiltin, Window, Entry;
    CallSteps(vm, fr, w, b, a, x, argc);
  }

  class BijouVM {
    const vm: Vm
    var globals: array<TValue>
    var trace: seq<Event>
    var seed: int

    function World(): World
      reads this, globals
    {
      Machine.World(globals[..], trace, seed)
    }

    constructor (vm: Vm, numglobals: nat, seed: int)
      ensures this.vm == vm && fresh(globals)
      ensures World() == Machine.World(seq(numglobals, _ => Junk), [], seed)
    {
      this.vm := vm;
      globals := new TValue[numglobals](_ => Junk);
      trace := [];
      this.seed := seed;
    }

    /** `R[a] = v; DISPATCH` */
    method Store(stack: array<TValue>, pc: int, a: nat, v: TValue) returns (c: Control)
      modifies stack
      ensures if a < stack.Length then c == Go(pc + 1) && stack[..] == old(stack[..])[a := v]
              else c == Stop(Stuck(BadRegister)) && stack[..] == old(stack[..])
    {
      if a < stack.Length {
        stack[a] := v;
        return Go(pc + 1);
      }
      return Stop(Stuck(BadRegister));
    }

    /** The RK macro. */
    method Operand(b: Block, stack: array<TValue>, x: nat) returns (r: Result<TValue, FaultKind>)
      ensures forall fr: Frame :: fr.regs == stack[..] ==> r == RK(b, fr, x)
    {
      if IsK(x) {
        return if IndexK(x) < |b.k| then Success(b.k[IndexK(x)]) else Failure(BadConstant);
      }
      return if x < stack.Length then Success(stack[x]) else Failure(BadRegister);
    }

    /** The outcome of a step in place is the one `act` describes. */
    ghost predicate Did(act: Action, fr: Frame, c: Control, stack: array<TValue>, w: World)
      reads this, globals, stack
    {
      match act
      case Next(fr', w') => c == Go(fr'.pc) && fr' == fr.(pc := fr'.pc, regs := stack[..]) && World() == w'
      case Leave(v, w') => c == Stop(Returned(v)) && World() == w'
      case Exit(code) => c == Stop(Exited(code)) && World() == w
      case Fault(f) => c == Stop(Stuck(f)) && World() == w
      case Enter(_, _) => false
    }

    /** The arithmetic, the tests and `not`. */
    method ComputeInPlace(b: Block, ghost fr: Frame, instr: Instr, pc: int, stack: array<TValue>)
      returns (c: Control)
      requires Bounded(instr)
      requires instr.Binary? || instr.Negate? || instr.Not? || instr.TestEqual? || instr.Test?
      requires stack != globals && fr.pc == pc && fr.regs == stack[..]
      modifies stack
      ensures Did(Execute(vm, b, fr, old(World()), instr), fr, c, stack, old(World()))
    {
      var left, right := if instr.TestEqual? || instr.Test? then instr.a else instr.b,
                         if instr.Binary? then instr.c else instr.b;
      var u := Operand(b, stack, left);
      var v := Operand(b, stack, right);
      if u.Failure? { return Stop(Stuck(u.error)); }
      if v.Failure? { return Stop(Stuck(v.error)); }
      var x, y := u.value, v.value;
      if instr.Not? {
        var member := BooleanMember(x);
        if member.None? { return Stop(Stuck(if x.Junk? then Indeterminate else WrongMember)); }
        c := Store(stack, pc, instr.a, TBoolean(if member.value == 0 then 1 else 0));
        return;
      }
      if x.Junk? || y.Junk? { return Stop(Stuck(Indeterminate)); }
      match instr
      case Binary(op, a, _, _) =>
        // a non-number gives TNONE, and the destination keeps its value
        if !x.TNumber? || !y.TNumber? { return Go(pc + 1); }
        var n := vm.ar.binary(op, x.n, y.n);
        if n.None? { return Stop(Stuck(ArithmeticTrap)); }
        c := Store(stack, pc, a, TNumber(n.value));
      case Negate(a, _) =>
        if !x.TNumber? { return Go(pc + 1); }
        c := Store(stack, pc, a, TNumber(vm.ar.negate(x.n)));
      case TestEqual(_, _) =>
        if !Comparable(x, y) { return Stop(Stuck(NullCompared)); }
        c := Go(if Equal(vm.ar, x, y) then pc + 2 else pc + 1);
      case Test(cmp, _, _) =>
        if !x.TNumber? || !y.TNumber? { return Stop(Stuck(WrongMember)); }
        c := Go(if vm.ar.compare(cmp, x.n, y.n) then pc + 2 else pc + 1);
    }

    method ClosureInPlace(b: Block, ghost fr: Frame, path: seq<nat>, pc: int, stack: array<TValue>, a: nat, bx: nat)
      returns (c: Control)
      requires stack != globals && fr.pc == pc && fr.path == path && fr.regs == stack[..]
      modifies stack
      ensures Did(StepMakeClosure(vm, b, fr, old(World()), a, bx), fr, c, stack, old(World()))
    {
      if IsK(bx) {
        if IndexK(bx) > |vm.builtins| { return Stop(Exited(1)); }
        if IndexK(bx) == |vm.builtins| { return Stop(Stuck(BadBuiltin)); }
        c := Store(stack, pc, a, TFunction(Builtin(IndexK(bx))));
      } else {
        if bx > NumChildren(b) { return Stop(Exited(1)); }
        if bx >= |b.children| { return Stop(Stuck(BadChild)); }
        c := Store(stack, pc, a, TFunction(Closure(path + [bx])));
      }
    }

    /** Everything but a call. */
    method ExecuteInPlace(b: Block, ghost fr: Frame, instr: Instr, path: seq<nat>, pc: int,
                          stack: array<TValue>, argc: nat, argv: array<TValue>, base: nat)
      returns (c: Control)
      requires Bounded(instr) && !instr.Call?
      requires stack != globals && argv != globals && stack != argv
      requires fr == Frame(path, pc, stack[..], argc, Window(argv[..], base, argc))
      modifies stack, globals, this`trace
      ensures Did(Execute(vm, b, fr, old(World()), instr), fr, c, stack, old(World()))
    {
      hide StepMakeClosure, StepBinary, StepTest, StepTestEqual, StepNot, StepCall;
      match instr
      case Nop => c := Go(pc + 1);
      case Move(a, x) =>
        if x >= stack.Length { return Stop(Stuck(BadRegister)); }
        c := Store(stack, pc, a, stack[x]);
      case LoadK(a, bx) =>
        if bx >= |b.k| { return Stop(Stuck(BadConstant)); }
        c := Store(stack, pc, a, b.k[bx]);
      case LoadBool(a, x) => c := Store(stack, pc, a, TBoolean(x));
      case LoadNull(a) => c := Store(stack, pc, a, TNull);
      case GetGlobal(a, bx) =>
        if bx >= globals.Length { return Stop(Returned(TNone)); }
        if bx >= |b.k| { return Stop(Stuck(BadConstant)); }
        if !b.k[bx].TNumber? { return Stop(Returned(TNone)); }
        var index := vm.ar.truncate(b.k[bx].n);
        if !(0 <= index < globals.Length) { return Stop(Returned(TNone)); }
        c := Store(stack, pc, a, globals[index]);
      case SetGlobal(a, bx) =>
        if bx >= globals.Length { return Stop(Returned(TNone)); }
        if bx >= |b.k| { return Stop(Stuck(BadConstant)); }
        if !b.k[bx].TNumber? { return Stop(Returned(TNone)); }
        var index := vm.ar.truncate(b.k[bx].n);
        if !(0 <= index < globals.Length) { return Stop(Returned(TNone)); }
        if a >= stack.Length { return Stop(Stuck(BadRegister)); }
        globals[index] := stack[a];
        c := Go(pc + 1);
      case GetLocal(_, _) => c := Stop(Returned(TNone));
      case SetLocal(_, _) => c := Stop(Returned(TNone));
      case GetArg(a, bx) =>
        if bx >= argc { return Stop(Returned(TNone)); }
        if base + bx >= argv.Length { return Stop(Stuck(BadArgument)); }
        c := Store(stack, pc, a, argv[base + bx]);
      case GetExternal(_, x) =>
        c := Stop(if x < |b.k| then Exited(1) else Stuck(BadConstant));
      case MakeClosure(a, bx) => c := ClosureInPlace(b, fr, path, pc, stack, a, bx);
      case Jump(offset) => c := Go(pc + 1 + offset);
      case Return(a) =>
        var u := Operand(b, stack, a);
        c := Stop(if u.Success? then Returned(u.value) else Stuck(u.error));
      case Unknown(op) =>
        trace := trace + [DontKnowOpcode(op)];
        c := Stop(Returned(TNone));
      case Binary(_, _, _, _) => c := ComputeInPlace(b, fr, instr, pc, stack);
      case Negate(_, _) => c := ComputeInPlace(b, fr, instr, pc, stack);
      case Not(_, _) => c := ComputeInPlace(b, fr, instr, pc, stack);
      case TestEqual(_, _) => c := ComputeInPlace(b, fr, instr, pc, stack);
      case Test(_, _, _) => c := ComputeInPlace(b, fr, instr, pc, stack);
    }

    /** func_print: one argument after the other. */
    method PrintArguments(argv: array<TValue>, base: nat, argc: nat)
      requires base + argc <= argv.Length && argv != globals
      modifies this`trace
      ensures trace == old(trace) + PrintedAll(argv[base..base + argc])
    {
      var i := 0;
      while i < argc
        invariant 0 <= i <= argc
        invariant trace == old(trace) + PrintedAll(argv[base..base + argc])[..i]
      {
        trace := trace + [Printed(argv[base + i])];
        i := i + 1;
      }
    }

    method CallBuiltin(f: BuiltinFunction, argc: nat, argv: array<TValue>, base: nat) returns (o: Outcome)
      requires argv != globals && base <= argv.Length
      modifies this`trace, this`seed
      ensures match RunBuiltin(f, old(World()), argc, Window(argv[..], base, argc))
              case Failure(fault) => o == Stuck(fault) && World() == old(World())
              case Success((v, w)) => o == Returned(v) && World() == w
    {
      if base + argc > argv.Length { return Stuck(BadArgument); }
      var args := argv[base..base + argc];
      assert args == Window(argv[..], base, argc);
      if Junk in args { return Stuck(Indeterminate); }
      match f
      case Native(_, fn) =>
        var (v, seed') := fn(args, seed);
        seed := seed';
        o := Returned(v);
      case Print =>
        PrintArguments(argv, base, argc);
        o := Returned(TNull);
      case Println =>
        PrintArguments(argv, base, argc);
        trace := trace + [NewLine];
        o := Returned(TNull);
    }

    /** What the caller is promised about a run: how it ends, the fuel left, and the world, which
        means nothing any more once the program got stuck. */
    ghost predicate Ended(spec: Verdict, ended: bool, o: Outcome, left: nat)
      reads this, globals
    {
      match spec
      case OutOfFuel => !ended
      case Finished(o', w', left') =>
        ended && o == o' && left == left' && (!o.Stuck? ==> World() == w')
    }

    /** BijouFunction_call. The arguments stay where they are, in the caller's registers `argv`; they
        are not among what it modifies, and it behaves as if it had been given a copy. */
    method FunctionCall(func: FuncRef, argc: nat, argv: array<TValue>, base: nat, fuel: nat)
      returns (ended: bool, o: Outcome, left: nat)
      requires argv != globals && base <= argv.Length
      modifies this`trace, this`seed, globals
      ensures argv[..] == old(argv[..])
      ensures Ended(CallFunction(vm, fuel, func, argc, Window(old(argv[..]), base, argc), old(World())), ended, o, left)
      decreases fuel, 2
    {
      ended, left := true, fuel;
      match func
      case Wild => o := Stuck(BadPointer);
      case Builtin(i) =>
        if i >= |vm.builtins| {
          o := Stuck(BadPointer);
        } else if vm.builtins[i].Arity() != -1 && vm.builtins[i].Arity() != argc {
          o := Exited(0);
        } else {
          o := CallBuiltin(vm.builtins[i], argc, argv, base);
        }
      case Closure(path) =>
        var callee := Lookup(vm.root, path);
        if callee.None? {
          o := Stuck(BadPointer);
        } else if callee.value.argc != argc {
          o := Exited(0);
        } else {
          ended, o, left := Interpret(callee.value, path, argc, argv, base, fuel);
        }
    }

    /** The call instruction: of the caller's registers only `R[a]` changes. */
    method CallInPlace(b: Block, ghost fr: Frame, a: nat, x: nat, argc: nat, pc: int, stack: array<TValue>, fuel: nat)
      returns (ended: bool, c: Control, left: nat)
      requires fuel > 0 && Fetch(vm, fr) == Success((b, Call(a, x, argc)))
      requires stack != globals && fr.pc == pc && fr.regs == stack[..]
      modifies this`trace, this`seed, globals, stack
      ensures forall i :: 0 <= i < stack.Length && i != a ==> stack[i] == old(stack[i])
      ensures ended && c.Go? ==>
                && left < fuel && a < stack.Length
                && Exec(vm, fuel, fr, old(World())) == Exec(vm, left, fr.(pc := c.pc, regs := stack[..]), World())
      ensures !(ended && c.Go?) ==>
                Ended(Exec(vm, fuel, fr, old(World())), ended, if c.Stop? then c.o else Returned(TNone), left)
      decreases fuel, 0
    {
      hide CallFunction, Fetch, Exec, StepFrame, StepCall;
      ended, left := true, fuel - 1;
      if x >= stack.Length || !stack[x].TFunction? {
        CallRefused(vm, fuel, fr, World(), b, a, x, argc);
      } else {
        CallUnfolds(vm, fuel, fr, World(), b, a, x, argc);
      }
      if x >= stack.Length {
        c := Stop(Stuck(BadRegister));
      } else if stack[x].Junk? {
        c := Stop(Stuck(Indeterminate));
      } else if !stack[x].TFunction? {
        c := Stop(Exited(1));
      } else {
        var o;
        ended, o, left := FunctionCall(stack[x].func, argc, stack, x + 1, fuel - 1);
        if !ended || !o.Returned? {
          c := Stop(o);
        } else {
          c := Store(stack, pc, a, o.v);
        }
      }
    }

    /** bijou_interpret, started at the first instruction: the dispatch loop. */
    method Interpret(b: Block, path: seq<nat>, argc: nat, argv: array<TValue>, base: nat, fuel: nat)
      returns (ended: bool, o: Outcome, left: nat)
      requires Lookup(vm.root, path) == Some(b)
      requires argv != globals && base <= argv.Length
      modifies this`trace, this`seed, globals
      ensures argv[..] == old(argv[..])
      ensures Ended(Exec(vm, fuel, Entry(b, path, argc, Window(old(argv[..]), base, argc)), old(World())), ended, o, left)
      decreases fuel, 1
    {
      hide Execute, Decode, CallFunction;
      var stack := new TValue[b.regc](_ => Junk);
      var pc := 0;
      ended, o, left := true, Returned(TNone), fuel;
      ghost var args := Window(argv[..], base, argc);
      ghost var goal := Exec(vm, fuel, Entry(b, path, argc, args), World());
      assert stack[..] == Entry(b, path, argc, args).regs;
      while left > 0
        invariant left <= fuel
        invariant fresh(stack) && argv[..] == old(argv[..])
        invariant Exec(vm, left, Frame(path, pc, stack[..], argc, args), World()) == goal
        decreases left
      {
        ghost var fr := Frame(path, pc, stack[..], argc, args);
        ghost var w := World();
        if !(0 <= pc < |b.code|) {
          left := left - 1;
          return true, Stuck(BadPc), left;
        }
        var instr := Decode(b.code[pc]);
        DecodeBounded(b.code[pc]);
        assert Fetch(vm, fr) == Success((b, instr));
        if instr.Call? {
          var c;
          ended, c, left := CallInPlace(b, fr, instr.a, instr.b, instr.c, pc, stack, left);
          if !ended { return; }
          match c
          case Stop(outcome) => o := outcome; return;
          case Go(next) => pc := next;
        } else {
          var c := ExecuteInPlace(b, fr, instr, path, pc, stack, argc, argv, base);
          left := left - 1;
          match c
          case Stop(outcome) => return true, outcome, left;
          case Go(next) => pc := next;
        }
      }
      ended := false;
    }
  }
}
