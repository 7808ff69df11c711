/** What a run does to the global variables. */
module Globals {
  import opened Values
  import opened Opcodes
  import opened Blocks
  import opened Machine
  import opened Instructions

  /** The operand of a getglobal or setglobal selects cell `j`: it is below the number of globals, and
      the constant it names is a number whose conversion to an integer is `j`. */
  predicate Selects(ar: Arith, b: Block, w: World, bx: int, j: int) {
    && 0 <= bx < |w.globals|
    && bx < |b.k|
    && b.k[bx].TNumber?
    && 0 <= ar.truncate(b.k[bx].n) == j < |w.globals|
  }

  lemma FindGlobalExactly(ar: Arith, b: Block, w: World, bx: nat, j: nat)
    ensures FindGlobal(ar, b, w, bx) == At(j) <==> Selects(ar, b, w, bx, j)
  {
  }

  /** getglobal copies the selected cell to its register. */
  lemma GetGlobalReads(vm: Vm, fr: Frame, w: World, b: Block, a: nat, bx: nat, j: nat)
    requires Executes(vm, fr, b, GetGlobal(a, bx)) && a < |fr.regs| && Selects(vm.ar, b, w, bx, j)
    ensures StepFrame(vm, fr, w) == Next(Stored(fr, a, w.globals[j]), w)
  {
    hide Decode;
    FindGlobalExactly(vm.ar, b, w, bx, j);
  }

  /** setglobal copies its register to the selected cell, and changes nothing else. */
  lemma SetGlobalStores(vm: Vm, fr: Frame, w: World, b: Block, a: nat, bx: nat, j: nat)
    requires Executes(vm, fr, b, SetGlobal(a, bx)) && a < |fr.regs| && Selects(vm.ar, b, w, bx, j)
    ensures StepFrame(vm, fr, w) == Next(fr.(pc := fr.pc + 1), w.(globals := w.globals[j := fr.regs[a]]))
  {
    hide Decode;
    FindGlobalExactly(vm.ar, b, w, bx, j);
  }

  /** The running frame is about to execute a setglobal that selects cell `j`. */
  predicate Writes(vm: Vm, c: Config, j: nat) {
    && c.Running?
    && Lookup(vm.root, c.top.path).Some?
    && var (b, fr) := (Lookup(vm.root, c.top.path).value, c.top);
       && 0 <= fr.pc < |b.code|
       && var instr := Decode(b.code[fr.pc]);
          && instr.SetGlobal?
          && 0 <= instr.a < |fr.regs|
          && Selects(vm.ar, b, c.w, instr.bx, j)
  }

  /** The register whose value it stores. */
  function Written(vm: Vm, c: Config, j: nat): TValue
    requires Writes(vm, c, j)
  {
    c.top.regs[Decode(Lookup(vm.root, c.top.path).value.code[c.top.pc]).a]
  }

  lemma ExecuteGlobals(vm: Vm, b: Block, fr: Frame, w: World, instr: Instr)
    requires Bounded(instr)
    ensures var act := Execute(vm, b, fr, w, instr);
            act.Next? ==>
              if instr.SetGlobal? then
                var g := FindGlobal(vm.ar, b, w, instr.bx);
                && g.At? && g.index < |w.globals| && Reg(fr, instr.a).Success?
                && act.w.globals == w.globals[g.index := Reg(fr, instr.a).value]
              else act.w.globals == w.globals
    ensures var act := Execute(vm, b, fr, w, instr);
            act.Leave? ==> act.w.globals == w.globals
  {
  }

  lemma StepGlobals(vm: Vm, c: Config, j: nat)
    requires j < |c.w.globals|
    ensures var c' := MachineStep(vm, c);
            && |c'.w.globals| == |c.w.globals|
            && c'.w.globals[j] == if Writes(vm, c, j) then Written(vm, c, j) else c.w.globals[j]
  {
    hide Execute;
    if c.Running? && Fetch(vm, c.top).Success? {
      var (b, instr) := Fetch(vm, c.top).value;
      DecodeBounded(b.code[c.top.pc]);
      ExecuteGlobals(vm, b, c.top, c.w, instr);
      if instr.SetGlobal? {
        SetGlobalActs(vm, b, c.top, c.w, instr);
        FindGlobalExactly(vm.ar, b, c.w, instr.bx, j);
      }
    }
  }

  /** Every way a setglobal can go: a refused index leaves with TNONE and changes no global. */
  lemma SetGlobalActs(vm: Vm, b: Block, fr: Frame, w: World, instr: Instr)
    requires Bounded(instr) && instr.SetGlobal?
    ensures match FindGlobal(vm.ar, b, w, instr.bx)
            case Refused => Execute(vm, b, fr, w, instr) == Leave(TNone, w)
            case Undefined(f) => Execute(vm, b, fr, w, instr) == Fault(f)
            case At(j) =>
              j < |w.globals| &&
              match Reg(fr, instr.a)
              case Failure(f) => Execute(vm, b, fr, w, instr) == Fault(f)
              case Success(v) =>
                Execute(vm, b, fr, w, instr) == Next(fr.(pc := fr.pc + 1), w.(globals := w.globals[j := v]))
  {
  }

  /** The operand is too large, or the constant it names is no number, negative, or too large. */
  predicate Refuses(ar: Arith, b: Block, w: World, bx: nat) {
    || bx >= |w.globals|
    || (bx < |b.k| && (b.k[bx].TNumber? ==> ar.truncate(b.k[bx].n) < 0 || ar.truncate(b.k[bx].n) >= |w.globals|))
  }

  /** Exactly when an access to a global is refused. */
  lemma RefusedExactly(ar: Arith, b: Block, w: World, bx: nat)
    ensures FindGlobal(ar, b, w, bx).Refused? <==> Refuses(ar, b, w, bx)
  {
  }

  /** Such an access makes the function return none. */
  lemma RefusedReturnsNone(vm: Vm, fr: Frame, w: World, b: Block, a: nat, bx: nat)
    requires Executes(vm, fr, b, GetGlobal(a, bx)) || Executes(vm, fr, b, SetGlobal(a, bx))
    requires Refuses(vm.ar, b, w, bx)
    ensures StepFrame(vm, fr, w) == Leave(TNone, w)
  {
    hide Decode;
    RefusedExactly(vm.ar, b, w, bx);
  }

  /** Over any run, nested calls included, the globals keep their number, and each cell holds what
      the last accepted setglobal to it stored, or its first value if there was none. */
  lemma {:induction false} RunGlobals(vm: Vm, n: nat, c: Config, j: nat)
    requires j < |c.w.globals|
    ensures |Steps(vm, n, c).w.globals| == |c.w.globals|
    ensures if exists i :: 0 <= i < n && Writes(vm, Steps(vm, i, c), j)
            then exists i :: LastWrite(vm, n, c, j, i)
            else Steps(vm, n, c).w.globals[j] == c.w.globals[j]
  {
    hide MachineStep, Writes, Written;
    if n > 0 {
      var m := n - 1;
      RunGlobals(vm, m, c, j);
      StepsAdd(vm, m, 1, c);
      var before := Steps(vm, m, c);
      assert Steps(vm, 1, before) == MachineStep(vm, before);
      StepGlobals(vm, before, j);
      if Writes(vm, before, j) {
        assert LastWrite(vm, n, c, j, m);
      } else if exists i :: 0 <= i < m && Writes(vm, Steps(vm, i, c), j) {
        var i :| LastWrite(vm, m, c, j, i);
        assert LastWrite(vm, n, c, j, i);
      }
    }
  }

  ghost predicate LastWrite(vm: Vm, n: nat, c: Config, j: nat, i: int) {
    && 0 <= i < n
    && Writes(vm, Steps(vm, i, c), j)
    && j < |Steps(vm, n, c).w.globals|
    && Steps(vm, n, c).w.globals[j] == Written(vm, Steps(vm, i, c), j)
    && forall m :: i < m < n ==> !Writes(vm, Steps(vm, m, c), j)
  }

  /** The same for a complete call of the recursive interpreter: a cell that differs at the end was
      written by some accepted setglobal on the way. */
  lemma CallGlobals(vm: Vm, fuel: nat, fr: Frame, w: World, j: nat)
    requires j < |w.globals| && Exec(vm, fuel, fr, w).Finished?
    ensures var r := Exec(vm, fuel, fr, w);
            && |r.w.globals| == |w.globals|
            && (r.w.globals[j] != w.globals[j] ==>
                  exists i :: 0 <= i < fuel && Writes(vm, Steps(vm, i, Running(fr, Bottom, w)), j))
  {
    hide StepFrame, Writes;
    var r := Exec(vm, fuel, fr, w);
    InterpreterAgreesWithMachine(vm, fuel, fr, w, r.o, r.w);
    RunGlobals(vm, fuel, Running(fr, Bottom, w), j);
  }
}
