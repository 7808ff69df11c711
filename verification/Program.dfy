/** From a compiled block to the end of its run, through a bytecode file. */
module Program {
  import opened Wrappers
  import opened Values
  import opened Blocks
  import opened Machine
  import opened Simulation
  import opened Interpreter
  import opened RoundTrip
  import opened Trees
  import opened SaveLoad

  /** What the run of the outermost block means: the program as its author wrote it, with fresh
      globals and no arguments. */
  function Meaning(vm: Vm, seed: int, fuel: nat): Verdict {
    Exec(vm, fuel, Entry(vm.root, [], 0, []), Machine.World(seq(vm.root.numglobal, _ => Junk), [], seed))
  }

  /** The assembler writes the block to a file, the virtual machine loads the file and runs what it
      finds, with registers and globals updated in place. How the run ends, what it printed and what
      it left in the globals is what the block means with its strings unescaped. */
  method SaveLoadAndRun(ar: Arith, builtins: seq<BuiltinFunction>, b: Block, seed: int, fuel: nat)
    returns (r: Result<BijouVM, Stop>, ended: bool, o: Outcome, left: nat)
    requires DistinctPools(ar, b) && Fits(ToProto(b)) && Savable(ar, b) && ChildrenCounted(b)
    ensures r.Success? <==> StringsUnescape(ToProto(b)) && Loadable(ToProto(b))
    ensures r.Failure? ==> StopsWith(ToProto(b), r.error)
    ensures r.Success? ==>
              fresh(r.value) && fresh(r.value.globals) &&
              r.value.Ended(Meaning(Vm(Unescaped(b), builtins, ar), seed, fuel), ended, o, left)
  {
    hide Fits, Loadable, StringsUnescape, StopsWith, ChildrenCounted, DistinctPools, Savable, Exec, Similar;
    ended, o, left := false, Returned(TNone), fuel;
    var saved, numglobals := SaveAndLoad(ar, b);
    if saved.Failure? {
      r := Failure(saved.error);
      return;
    }
    var root := saved.value.Contents();
    var image, meant := Vm(root, builtins, ar), Vm(Unescaped(b), builtins, ar);
    var vm := new BijouVM(image, numglobals, seed);
    var nothing := new TValue[0];
    assert nothing[..] == [];
    SameEntry(Unescaped(b), root);
    RunsAlike(meant, image, fuel, Entry(root, [], 0, []), vm.World());
    ended, o, left := vm.Interpret(root, [], 0, nothing, 0, fuel);
    r := Success(vm);
  }
}
