/** When two versions of a program run alike. */
module Simulation {
  import opened Words
  import opened Opcodes
  import opened Blocks
  import opened Machine

  /** The instruction reads the constant at index `x`. */
  predicate Names(instr: Instr, x: int) {
    match instr
    case LoadK(_, bx) => x == bx
    case GetGlobal(_, bx) => x == bx
    case SetGlobal(_, bx) => x == bx
    case GetExternal(_, b) => x == b
    case Binary(_, _, b, c) => NamesRK(b, x) || NamesRK(c, x)
    case Negate(_, b) => NamesRK(b, x)
    case Not(_, b) => NamesRK(b, x)
    case TestEqual(_, b) => NamesRK(b, x)
    case Test(_, _, b) => NamesRK(b, x)
    case _ => false
  }

  predicate NamesRK(operand: int, x: int) {
    IsK(operand) && x == IndexK(operand)
  }

  /** The two pools give the same answer at index `x`, which may be that there is none. */
  predicate SameConstant(b: Block, b': Block, x: int) {
    Constant(b, x) == Constant(b', x)
  }

  /** Blocks the interpreter cannot tell apart, their children aside. */
  ghost predicate SimilarBlocks(b: Block, b': Block) {
    && b.regc == b'.regc
    && b.argc == b'.argc
    && |b.children| == |b'.children|
    && |b.code| == |b'.code|
    && (forall pc :: 0 <= pc < |b.code| ==> Decode(b.code[pc]) == Decode(b'.code[pc]))
    && (forall pc, x: int :: 0 <= pc < |b.code| && Names(Decode(b.code[pc]), x) ==> SameConstant(b, b', x))
  }

  ghost predicate Similar(b: Block, b': Block) {
    && SimilarBlocks(b, b')
    && forall i :: 0 <= i < |b.children| ==> Similar(b.children[i], b'.children[i])
  }

  lemma {:induction false} SimilarAt(b: Block, b': Block, path: seq<nat>)
    requires Similar(b, b')
    ensures match (Lookup(b, path), Lookup(b', path))
            case (Some(c), Some(c')) => Similar(c, c')
            case (None, None) => true
            case _ => false
  {
    if path != [] && path[0] < |b.children| {
      SimilarAt(b.children[path[0]], b'.children[path[0]], path[1..]);
    }
  }

  lemma ExecuteAlike(vm: Vm, vm': Vm, b: Block, b': Block, fr: Frame, w: World, instr: Instr)
    requires Similar(vm.root, vm'.root) && vm.builtins == vm'.builtins && vm.ar == vm'.ar
    requires |b.children| == |b'.children|
    requires forall x: int :: Names(instr, x) ==> SameConstant(b, b', x)
    requires Bounded(instr)
    ensures Execute(vm, b, fr, w, instr) == Execute(vm', b', fr, w, instr)
  {
    match instr
    case LoadK(_, bx) => assert Names(instr, bx);
    case GetGlobal(_, bx) => assert Names(instr, bx);
    case SetGlobal(_, bx) => assert Names(instr, bx);
    case GetExternal(_, x) => assert Names(instr, x);
    case Binary(_, _, x, y) =>
      if IsK(x) { assert Names(instr, IndexK(x)); }
      if IsK(y) { assert Names(instr, IndexK(y)); }
    case Negate(_, x) => if IsK(x) { assert Names(instr, IndexK(x)); }
    case Not(_, x) => if IsK(x) { assert Names(instr, IndexK(x)); }
    case TestEqual(_, x) => if IsK(x) { assert Names(instr, IndexK(x)); }
    case Test(_, _, x) => if IsK(x) { assert Names(instr, IndexK(x)); }
    case Call(_, x, _) =>
      if 0 <= x < |fr.regs| && fr.regs[x].TFunction? && fr.regs[x].func.Closure? {
        SimilarAt(vm.root, vm'.root, fr.regs[x].func.path);
      }
    case _ =>
  }

  lemma StepAlike(vm: Vm, vm': Vm, fr: Frame, w: World)
    requires Similar(vm.root, vm'.root) && vm.builtins == vm'.builtins && vm.ar == vm'.ar
    ensures StepFrame(vm, fr, w) == StepFrame(vm', fr, w)
  {
    hide Execute;
    SimilarAt(vm.root, vm'.root, fr.path);
    var r := Fetch(vm, fr);
    if r.Success? {
      var (b, instr) := r.value;
      var b' := Lookup(vm'.root, fr.path).value;
      DecodeBounded(b.code[fr.pc]);
      ExecuteAlike(vm, vm', b, b', fr, w, instr);
    }
  }

  /** Similar programs give equal whole runs from every frame and world, nested calls included. */
  lemma {:induction false} RunsAlike(vm: Vm, vm': Vm, fuel: nat, fr: Frame, w: World)
    requires Similar(vm.root, vm'.root) && vm.builtins == vm'.builtins && vm.ar == vm'.ar
    ensures Exec(vm, fuel, fr, w) == Exec(vm', fuel, fr, w)
    decreases fuel
  {
    hide StepFrame;
    if fuel > 0 {
      StepAlike(vm, vm', fr, w);
      match StepFrame(vm, fr, w)
      case Next(fr', w') => RunsAlike(vm, vm', fuel - 1, fr', w');
      case Enter(callee, dst) =>
        RunsAlike(vm, vm', fuel - 1, callee, w);
        var r := Exec(vm, fuel - 1, callee, w);
        if r.Finished? && r.o.Returned? && Resume(fr, dst, r.o.v).Success? {
          RunsAlike(vm, vm', r.left, Resume(fr, dst, r.o.v).value, r.w);
        }
      case _ =>
    }
  }

  // ----- code that agrees on the listed operands -----

  /** Trees that differ only in operand fields their instructions do not list. */
  ghost predicate AgreeOnListedTree(b: Block, b': Block) {
    && b'.(code := b.code, children := b.children) == b
    && |b.code| == |b'.code|
    && (forall pc :: 0 <= pc < |b.code| ==> AgreeOnListed(b.code[pc], b'.code[pc]))
    && |b.children| == |b'.children|
    && forall i :: 0 <= i < |b.children| ==> AgreeOnListedTree(b.children[i], b'.children[i])
  }

  lemma {:induction false} AgreeOnListedIsSimilar(b: Block, b': Block)
    requires AgreeOnListedTree(b, b')
    ensures Similar(b, b')
  {
    hide Decode, AgreeOnListed;
    forall pc | 0 <= pc < |b.code| ensures Decode(b.code[pc]) == Decode(b'.code[pc]) {
      DecodeReadsListed(b.code[pc], b'.code[pc]);
    }
    forall i | 0 <= i < |b.children| ensures Similar(b.children[i], b'.children[i]) {
      AgreeOnListedIsSimilar(b.children[i], b'.children[i]);
    }
  }

  /** The interpreter reads only listed operands: words that agree on them run the same. */
  lemma UnlistedFieldsAreNotRead(vm: Vm, root': Block, fuel: nat, fr: Frame, w: World)
    requires AgreeOnListedTree(vm.root, root')
    ensures Exec(vm, fuel, fr, w) == Exec(vm.(root := root'), fuel, fr, w)
  {
    AgreeOnListedIsSimilar(vm.root, root');
    RunsAlike(vm, vm.(root := root'), fuel, fr, w);
  }
}
