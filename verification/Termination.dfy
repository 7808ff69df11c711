/** Programs without backward jumps that take functions from nowhere but their own closures halt. */
module Termination {
  import opened Values
  import opened Opcodes
  import opened Blocks
  import opened Machine
  import opened Safety

  /** No jump goes back, and no function enters a register through the globals or the arguments. */
  predicate ForwardInstr(instr: Instr) {
    match instr
    case Jump(offset) => offset >= 0
    case GetGlobal(_, _) => false
    case GetArg(_, _) => false
    case _ => true
  }

  predicate ForwardTree(b: Block) {
    && (forall pc :: 0 <= pc < |b.code| ==> ForwardInstr(Decode(b.code[pc])))
    && forall i :: 0 <= i < |b.children| ==> ForwardTree(b.children[i])
  }

  lemma {:induction false} ForwardTreeAt(b: Block, path: seq<nat>)
    requires ForwardTree(b)
    ensures Lookup(b, path).Some? ==> ForwardTree(Lookup(b, path).value)
  {
    if path != [] && path[0] < |b.children| {
      ForwardTreeAt(b.children[path[0]], path[1..]);
    }
  }

  /** How many generations of blocks there are, `b` included. */
  function Height(b: Block): nat {
    1 + HeightOfAll(b.children)
  }

  function HeightOfAll(bs: seq<Block>): nat {
    if bs == [] then 0
    else
      var h, t := Height(bs[0]), HeightOfAll(bs[1..]);
      if h > t then h else t
  }

  lemma {:induction false} ChildIsLower(bs: seq<Block>, i: nat)
    requires i < |bs|
    ensures Height(bs[i]) <= HeightOfAll(bs)
  {
    if i > 0 {
      ChildIsLower(bs[1..], i - 1);
    }
  }

  lemma {:induction false} PathsAreShort(b: Block, path: seq<nat>)
    ensures Lookup(b, path).Some? ==> |path| < Height(b)
  {
    if path != [] && path[0] < |b.children| {
      PathsAreShort(b.children[path[0]], path[1..]);
      ChildIsLower(b.children, path[0]);
    }
  }

  /** `v` is no bytecode function, or that of a strict descendant of the block at `path`. */
  predicate Below(path: seq<nat>, v: TValue) {
    v.TFunction? && v.func.Closure? ==> |path| < |v.func.path| && path <= v.func.path
  }

  predicate AllBelow(path: seq<nat>, vs: seq<TValue>) {
    forall i :: 0 <= i < |vs| ==> Below(path, vs[i])
  }

  /** One instruction goes forward or down, and registers only ever hold functions from below. */
  lemma StepDescends(vm: Vm, fr: Frame, w: World)
    requires ForwardTree(vm.root) && NativesGiveData(vm) && AllBelow(fr.path, fr.regs)
    ensures match StepFrame(vm, fr, w)
            case Next(fr', _) => fr'.path == fr.path && fr'.pc > fr.pc && AllBelow(fr.path, fr'.regs)
            case Leave(v, _) => Below(fr.path, v)
            case Enter(callee, _) =>
              |fr.path| < |callee.path| && fr.path <= callee.path && AllBelow(callee.path, callee.regs)
            case _ => true
  {
    hide Execute, Decode;
    ForwardTreeAt(vm.root, fr.path);
    if Fetch(vm, fr).Success? {
      var (b, instr) := Fetch(vm, fr).value;
      DecodeBounded(b.code[fr.pc]);
      ExecuteDescends(vm, b, fr, w, instr);
    }
  }

  lemma ExecuteDescends(vm: Vm, b: Block, fr: Frame, w: World, instr: Instr)
    requires NativesGiveData(vm) && AllBelow(fr.path, fr.regs)
    requires Bounded(instr) && ForwardInstr(instr)
    ensures match Execute(vm, b, fr, w, instr)
            case Next(fr', _) => fr'.path == fr.path && fr'.pc > fr.pc && AllBelow(fr.path, fr'.regs)
            case Leave(v, _) => Below(fr.path, v)
            case Enter(callee, _) =>
              |fr.path| < |callee.path| && fr.path <= callee.path && AllBelow(callee.path, callee.regs)
            case _ => true
  {
    hide RK, StepCall;
    match instr
    case Return(a) => RegisterOperand(b, fr, a);
    case Call(a, x, argc) => CallDescends(vm, fr, w, a, x, argc);
    case _ =>
  }

  lemma CallDescends(vm: Vm, fr: Frame, w: World, a: nat, x: nat, argc: nat)
    requires NativesGiveData(vm) && AllBelow(fr.path, fr.regs)
    ensures match StepCall(vm, fr, w, a, x, argc)
            case Next(fr', _) => fr'.path == fr.path && fr'.pc > fr.pc && AllBelow(fr.path, fr'.regs)
            case Leave(_, _) => false
            case Enter(callee, _) =>
              |fr.path| < |callee.path| && fr.path <= callee.path && AllBelow(callee.path, callee.regs)
            case _ => true
  {
    if x < |fr.regs| && fr.regs[x].TFunction? {
      assert Below(fr.path, fr.regs[x]);
      var func := fr.regs[x].func;
      if func.Builtin? && func.index < |vm.builtins| && vm.builtins[func.index].Native? {
        var f, args := vm.builtins[func.index], Window(fr.regs, x + 1, argc);
        assert !NativeResult(f, args, w.seed).TFunction?;
      }
    }
  }

  lemma BelowDeeper(path: seq<nat>, deeper: seq<nat>, v: TValue)
    requires path <= deeper && Below(deeper, v)
    ensures Below(path, v)
  {
  }

  /** From any frame of such a program there is an amount of fuel that suffices; a function it
      returns is a strict descendant of its block. The measure is the number of generations below
      the block and then the code left to run. */
  lemma {:induction false} RunEnds(vm: Vm, fr: Frame, w: World) returns (fuel: nat)
    requires ForwardTree(vm.root) && NativesGiveData(vm) && AllBelow(fr.path, fr.regs)
    ensures Exec(vm, fuel, fr, w).Finished?
    ensures Exec(vm, fuel, fr, w).o.Returned? ==> Below(fr.path, Exec(vm, fuel, fr, w).o.v)
    decreases Height(vm.root) - |fr.path|, CodeLeft(vm, fr)
  {
    hide StepFrame, Below;
    StepDescends(vm, fr, w);
    PathsAreShort(vm.root, fr.path);
    var act := StepFrame(vm, fr, w);
    match act
    case Next(fr', w') =>
      NextIsFetched(vm, fr, w);
      var n := RunEnds(vm, fr', w');
      fuel := n + 1;
    case Enter(callee, dst) =>
      NextIsFetched(vm, fr, w);
      var n := RunEnds(vm, callee, w);
      var r := Exec(vm, n, callee, w);
      fuel := n + 1;
      if r.o.Returned? && Resume(fr, dst, r.o.v).Success? {
        BelowDeeper(fr.path, callee.path, r.o.v);
        var fr' := Resume(fr, dst, r.o.v).value;
        assert AllBelow(fr'.path, fr'.regs);
        var m := RunEnds(vm, fr', r.w);
        fuel := n + m + 1;
        MoreFuel(vm, n, m, callee, w);
        MoreFuel(vm, m, r.left, fr', r.w);
      }
    case _ =>
      fuel := 1;
  }

  function CodeLeft(vm: Vm, fr: Frame): int {
    match Lookup(vm.root, fr.path)
    case None => 0
    case Some(b) => if fr.pc < |b.code| then |b.code| - fr.pc else 0
  }

  lemma NextIsFetched(vm: Vm, fr: Frame, w: World)
    requires !StepFrame(vm, fr, w).Fault?
    ensures Fetch(vm, fr).Success?
  {
  }

  /** Every run of such a program ends, whatever the globals and arguments hold. */
  lemma ProgramsHalt(vm: Vm, path: seq<nat>, argc: nat, args: seq<TValue>, w: World)
    requires ForwardTree(vm.root) && NativesGiveData(vm) && Lookup(vm.root, path).Some?
    ensures exists fuel: nat :: Exec(vm, fuel, Entry(Lookup(vm.root, path).value, path, argc, args), w).Finished?
  {
    var fuel := RunEnds(vm, Entry(Lookup(vm.root, path).value, path, argc, args), w);
  }

  /** The condition on jumps is needed: `jmp -1` jumps to itself, and no amount of fuel is enough. */
  lemma {:induction false} BackwardJumpLoops(vm: Vm, fuel: nat, fr: Frame, w: World)
    requires Fetch(vm, fr).Success? && Fetch(vm, fr).value.1 == Jump(-1)
    ensures Exec(vm, fuel, fr, w) == OutOfFuel
  {
    hide Fetch;
    if fuel > 0 {
      assert StepFrame(vm, fr, w) == Next(fr.(pc := fr.pc + 1 - 1), w);
      BackwardJumpLoops(vm, fuel - 1, fr, w);
    }
  }
}
