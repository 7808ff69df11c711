/** Whole runs of small programs, two of them from the samples of the repository, from the words of
    their code to what they return, print and leave in the globals. */
module Samples {
  import opened Words
  import opened Wrappers
  import opened Values
  import opened Opcodes
  import opened Blocks
  import opened Machine
  import opened Instructions
  import opened Globals

  lemma OneStep(vm: Vm, fuel: nat, fr: Frame, w: World, fr': Frame, w': World)
    requires fuel > 0 && StepFrame(vm, fr, w) == Next(fr', w')
    ensures Exec(vm, fuel, fr, w) == Exec(vm, fuel - 1, fr', w')
  {
    hide StepFrame;
  }

  // ----- sample/param.s -----

  /** `loadk 0 0`, `getarg 1 0`, `sub 2 0 1`, `return 2` */
  function Invert(zero: Number): Block {
    Unnamed([TNumber(zero)], [2, 73, 16524, 4294951067], 3, 1, [])
  }

  /** `closure 0 0`, `loadk 1 0`, `call 2 0 1`, `return 2` */
  function ParamProgram(n: Number, zero: Number): Block {
    Unnamed([TNumber(n), TFunction(Wild)], [26, 66, 16537, 4294951067], 3, 0, [Invert(zero)])
  }

  lemma ParamWords()
    ensures Decode(26) == MakeClosure(0, 0) && Decode(66) == LoadK(1, 0) && Decode(16537) == Call(2, 0, 1)
    ensures Decode(4294951067) == Return(2)
  {
  }

  lemma InvertWords()
    ensures Decode(2) == LoadK(0, 0) && Decode(73) == GetArg(1, 0) && Decode(16524) == Binary(Sub, 2, 0, 1)
    ensures Decode(4294951067) == Return(2)
  {
  }

  /** The nested function returns zero minus its argument, in four instructions. */
  lemma InvertRuns(vm: Vm, fuel: nat, path: seq<nat>, zero: Number, n: Number, r: Number, w: World)
    requires Lookup(vm.root, path) == Some(Invert(zero)) && fuel >= 4
    requires vm.ar.binary(Sub, zero, n) == Some(r)
    ensures Exec(vm, fuel, Entry(Invert(zero), path, 1, [TNumber(n)]), w) ==
            Finished(Returned(TNumber(r)), w, fuel - 4)
  {
    hide StepFrame, Decode;
    InvertWords();
    var b := Invert(zero);
    var f0 := Entry(b, path, 1, [TNumber(n)]);
    LoadsConstant(vm, f0, w, b, 0, 0);
    var f1 := Stored(f0, 0, TNumber(zero));
    OneStep(vm, fuel, f0, w, f1, w);
    ReadsArgument(vm, f1, w, b, 1, 0);
    var f2 := Stored(f1, 1, TNumber(n));
    OneStep(vm, fuel - 1, f1, w, f2, w);
    Computes(vm, f2, w, b, Sub, 2, 0, 1, zero, n);
    var f3 := Stored(f2, 2, TNumber(r));
    OneStep(vm, fuel - 2, f2, w, f3, w);
    Returns(vm, f3, w, b, 2);
  }

  /** The program returns zero minus its constant. */
  lemma ParamRuns(vm: Vm, fuel: nat, zero: Number, n: Number, r: Number, w: World)
    requires vm.root == ParamProgram(n, zero) && fuel >= 8
    requires vm.ar.binary(Sub, zero, n) == Some(r)
    ensures Exec(vm, fuel, Entry(vm.root, [], 0, []), w) == Finished(Returned(TNumber(r)), w, fuel - 8)
  {
    hide StepFrame, Decode;
    ParamWords();
    var b := vm.root;
    var f0 := Entry(b, [], 0, []);
    SelectsChild(vm, f0, w, b, 0, 0);
    assert [] + [0] == [0];
    var f1 := Stored(f0, 0, TFunction(Closure([0])));
    OneStep(vm, fuel, f0, w, f1, w);
    LoadsConstant(vm, f1, w, b, 1, 0);
    var f2 := Stored(f1, 1, TNumber(n));
    OneStep(vm, fuel - 1, f1, w, f2, w);
    CallEnters(vm, f2, w, b, 2, 0, 1, [0], Invert(zero));
    var act := StepFrame(vm, f2, w);
    assert act.callee == Entry(Invert(zero), [0], 1, [TNumber(n)]);
    InvertRuns(vm, fuel - 3, [0], zero, n, r, w);
    var f3 := Stored(f2, 2, TNumber(r));
    assert Exec(vm, fuel - 2, f2, w) == Exec(vm, fuel - 7, f3, w);
    Returns(vm, f3, w, b, 2);
  }

  // ----- sample/test.s -----

  /** `loadk 0 2`, `add 1 0 1K`, `setglobal 1 0`, `getglobal 0 0`, `closure 0 1K`, `loadk 1 3`,
      `call 2 0 1`, `return 2` */
  function TestProgram(n0: Number, n1: Number, n2: Number, text: CString): Block {
    Unnamed([TNumber(n0), TNumber(n1), TNumber(n2), TString(text)],
          [32770, 4210763, 70, 5, 4210714, 49218, 16537, 4294951067], 20, 0, [])
  }

  lemma TestWords()
    ensures Decode(32770) == LoadK(0, 2) && Decode(4210763) == Binary(Add, 1, 0, 257)
    ensures Decode(70) == SetGlobal(1, 0) && Decode(5) == GetGlobal(0, 0)
  {
  }

  lemma PrintWords()
    ensures Decode(4210714) == MakeClosure(0, 257)
    ensures Decode(49218) == LoadK(1, 3) && Decode(16537) == Call(2, 0, 1) && Decode(4294951067) == Return(2)
  {
  }

  /** The program stores the sum of its third and second constant in the global that its first one
      numbers, prints its string and a newline, and returns null. */
  lemma TestRuns(vm: Vm, fuel: nat, n0: Number, n1: Number, n2: Number, text: CString, sum: Number, w: World)
    requires vm.root == TestProgram(n0, n1, n2, text) && fuel >= 8
    requires |vm.builtins| > 1 && vm.builtins[1] == Println
    requires vm.ar.binary(Add, n2, n1) == Some(sum) && 0 <= vm.ar.truncate(n0) < |w.globals|
    ensures Exec(vm, fuel, Entry(vm.root, [], 0, []), w) ==
            Finished(Returned(TNull),
                     World(w.globals[vm.ar.truncate(n0) := TNumber(sum)],
                           w.trace + [Printed(TString(text)), NewLine], w.seed), fuel - 8)
  {
    hide StepFrame, Decode;
    TestWords();
    var b, j := vm.root, vm.ar.truncate(n0);
    var f0 := Entry(b, [], 0, []);
    LoadsConstant(vm, f0, w, b, 0, 2);
    var f1 := Stored(f0, 0, TNumber(n2));
    OneStep(vm, fuel, f0, w, f1, w);
    Computes(vm, f1, w, b, Add, 1, 0, 257, n2, n1);
    var f2 := Stored(f1, 1, TNumber(sum));
    OneStep(vm, fuel - 1, f1, w, f2, w);
    SetGlobalStores(vm, f2, w, b, 1, 0, j);
    var w3 := w.(globals := w.globals[j := TNumber(sum)]);
    var f3 := f2.(pc := 3);
    OneStep(vm, fuel - 2, f2, w, f3, w3);
    GetGlobalReads(vm, f3, w3, b, 0, 0, j);
    var f4 := Stored(f3, 0, TNumber(sum));
    OneStep(vm, fuel - 3, f3, w3, f4, w3);
    PrintsText(vm, fuel - 4, b, f4, w3, text);
  }

  /** The second half: from `closure 0 1K` on. */
  lemma PrintsText(vm: Vm, fuel: nat, b: Block, f4: Frame, w: World, text: CString)
    requires Lookup(vm.root, f4.path) == Some(b) && |b.k| == 4 && b.k[3] == TString(text)
    requires b.code == [32770, 4210763, 70, 5, 4210714, 49218, 16537, 4294951067]
    requires f4.pc == 4 && |f4.regs| == 20 && fuel >= 4
    requires |vm.builtins| > 1 && vm.builtins[1] == Println
    ensures Exec(vm, fuel, f4, w) ==
            Finished(Returned(TNull), w.(trace := w.trace + [Printed(TString(text)), NewLine]), fuel - 4)
  {
    hide StepFrame, Decode;
    PrintWords();
    SelectsBuiltin(vm, f4, w, b, 0, 1);
    var f5 := Stored(f4, 0, TFunction(Builtin(1)));
    OneStep(vm, fuel, f4, w, f5, w);
    LoadsConstant(vm, f5, w, b, 1, 3);
    var f6 := Stored(f5, 1, TString(text));
    OneStep(vm, fuel - 1, f5, w, f6, w);
    assert f6.regs[1..2] == [TString(text)];
    CallPrints(vm, f6, w, b, 2, 0, 1, 1, [Printed(TString(text))]);
    var f7, w7 := Stored(f6, 2, TNull), w.(trace := w.trace + [Printed(TString(text))] + [NewLine]);
    OneStep(vm, fuel - 2, f6, w, f7, w7);
    assert w7.trace == w.trace + [Printed(TString(text)), NewLine];
    Returns(vm, f7, w7, b, 2);
  }

  // ----- counting -----

  /** 0: `closure 3 1K`, 1: `loadk 0 0`, 2: `ge 0 1K`, 3: `jmp 1`, 4: `return 0`, 5: `move 4 0`,
      6: `call 5 3 1`, 7: `add 0 0 2K`, 8: `jmp -7` */
  const COUNT_CODE: seq<Word> :=
    [4210906, 2, 2164244503, 2147483672, 4294950939, 8372481, 25182553, 4227083, 2147352600]

  function CountProgram(zero: Number, n: Number, one: Number): Block {
    Unnamed([TNumber(zero), TNumber(n), TNumber(one)], COUNT_CODE, 6, 0, [])
  }

  lemma CountWords()
    ensures Decode(4210906) == MakeClosure(3, 257) && Decode(2) == LoadK(0, 0) && Decode(4294950939) == Return(0)
  {
  }

  lemma LoopWords()
    ensures Decode(2164244503) == Test(Ge, 0, 257) && Decode(2147483672) == Jump(1) && Decode(8372481) == Move(4, 0)
    ensures Decode(25182553) == Call(5, 3, 1) && Decode(4227083) == Binary(Add, 0, 0, 258) && Decode(2147352600) == Jump(-7)
  {
  }

  /** On the images `num(0)` to `num(n)` adding one and comparing with `num(n)` do what they should. */
  ghost predicate CountsTo(ar: Arith, num: nat -> Number, n: nat) {
    && ar.compare(Ge, num(n), num(n))
    && forall i: nat :: i < n ==>
         !ar.compare(Ge, num(i), num(n)) && ar.binary(Add, num(i), num(1)) == Some(num(i + 1))
  }

  /** The numbers below `n`, each on its line. */
  function Lines(num: nat -> Number, n: nat): seq<Event> {
    seq(2 * n, k requires 0 <= k < 2 * n => if k % 2 == 0 then Printed(TNumber(num(k / 2))) else NewLine)
  }

  /** What holds whenever the loop is at its test with `num(i)` in register 0. */
  ghost predicate AtTest(vm: Vm, fr: Frame, num: nat -> Number, n: nat, i: nat) {
    && |vm.builtins| > 1 && vm.builtins[1] == Println
    && CountsTo(vm.ar, num, n) && i <= n
    && Lookup(vm.root, fr.path) == Some(CountProgram(num(0), num(n), num(1)))
    && fr.pc == 2 && |fr.regs| == 6
    && fr.regs[0] == TNumber(num(i)) && fr.regs[3] == TFunction(Builtin(1))
  }

  /** One turn of the loop takes six instructions and prints one line. */
  lemma CountOnce(vm: Vm, fuel: nat, fr: Frame, w: World, num: nat -> Number, n: nat, i: nat) returns (fr': Frame)
    requires AtTest(vm, fr, num, n, i) && i < n && fuel >= 6
    ensures AtTest(vm, fr', num, n, i + 1)
    ensures Exec(vm, fuel, fr, w) ==
            Exec(vm, fuel - 6, fr', w.(trace := w.trace + [Printed(TNumber(num(i))), NewLine]))
  {
    hide StepFrame, Decode;
    CountWords();
    LoopWords();
    var b := CountProgram(num(0), num(n), num(1));
    TestSkips(vm, fr, w, b, Ge, 0, 257, num(i), num(n));
    OneStep(vm, fuel, fr, w, fr.(pc := 3), w);
    Jumps(vm, fr.(pc := 3), w, b, 1);
    OneStep(vm, fuel - 1, fr.(pc := 3), w, fr.(pc := 5), w);
    Moves(vm, fr.(pc := 5), w, b, 4, 0);
    var f6 := Stored(fr.(pc := 5), 4, TNumber(num(i)));
    OneStep(vm, fuel - 2, fr.(pc := 5), w, f6, w);
    assert f6.regs[4..5] == [TNumber(num(i))];
    CallPrints(vm, f6, w, b, 5, 3, 1, 1, [Printed(TNumber(num(i)))]);
    var f7, w7 := Stored(f6, 5, TNull), w.(trace := w.trace + [Printed(TNumber(num(i)))] + [NewLine]);
    OneStep(vm, fuel - 3, f6, w, f7, w7);
    Computes(vm, f7, w7, b, Add, 0, 0, 258, num(i), num(1));
    var f8 := Stored(f7, 0, TNumber(num(i + 1)));
    OneStep(vm, fuel - 4, f7, w7, f8, w7);
    Jumps(vm, f8, w7, b, -7);
    fr' := f8.(pc := 2);
    OneStep(vm, fuel - 5, f8, w7, fr', w7);
    assert w7.trace == w.trace + [Printed(TNumber(num(i))), NewLine];
  }

  lemma {:induction false} CountFrom(vm: Vm, fuel: nat, fr: Frame, w: World, out: seq<Event>, num: nat -> Number, n: nat, i: nat)
    requires AtTest(vm, fr, num, n, i) && fuel >= 6 * (n - i) + 2 && w.trace == out + Lines(num, i)
    ensures Exec(vm, fuel, fr, w) ==
            Finished(Returned(TNumber(num(n))), w.(trace := out + Lines(num, n)), fuel - 6 * (n - i) - 2)
    decreases n - i
  {
    hide StepFrame, Decode, Exec;
    if i < n {
      var fr' := CountOnce(vm, fuel, fr, w, num, n, i);
      var w' := w.(trace := w.trace + [Printed(TNumber(num(i))), NewLine]);
      assert w'.trace == out + Lines(num, i + 1);
      CountFrom(vm, fuel - 6, fr', w', out, num, n, i + 1);
    } else {
      CountEnds(vm, fuel, fr, w, num, n);
    }
  }

  lemma CountEnds(vm: Vm, fuel: nat, fr: Frame, w: World, num: nat -> Number, n: nat)
    requires AtTest(vm, fr, num, n, n) && fuel >= 2
    ensures Exec(vm, fuel, fr, w) == Finished(Returned(TNumber(num(n))), w, fuel - 2)
  {
    hide StepFrame, Decode;
    CountWords();
    LoopWords();
    var b := CountProgram(num(0), num(n), num(1));
    TestSkips(vm, fr, w, b, Ge, 0, 257, num(n), num(n));
    OneStep(vm, fuel, fr, w, fr.(pc := 4), w);
    Returns(vm, fr.(pc := 4), w, b, 0);
  }

  /** For every `n` the program prints the numbers from zero up to but not including `n`, each on a
      line of its own, and returns `n`, after exactly 6 n + 4 instructions. */
  lemma CountRuns(vm: Vm, fuel: nat, w: World, num: nat -> Number, n: nat)
    requires vm.root == CountProgram(num(0), num(n), num(1)) && CountsTo(vm.ar, num, n)
    requires |vm.builtins| > 1 && vm.builtins[1] == Println && fuel >= 6 * n + 4
    ensures Exec(vm, fuel, Entry(vm.root, [], 0, []), w) ==
            Finished(Returned(TNumber(num(n))), w.(trace := w.trace + Lines(num, n)), fuel - 6 * n - 4)
  {
    hide StepFrame, Decode;
    CountWords();
    var f0 := Entry(vm.root, [], 0, []);
    SelectsBuiltin(vm, f0, w, vm.root, 3, 1);
    var f1 := Stored(f0, 3, TFunction(Builtin(1)));
    OneStep(vm, fuel, f0, w, f1, w);
    LoadsConstant(vm, f1, w, vm.root, 0, 0);
    var f2 := Stored(f1, 0, TNumber(num(0)));
    OneStep(vm, fuel - 1, f1, w, f2, w);
    assert w.trace + Lines(num, 0) == w.trace;
    CountFrom(vm, fuel - 2, f2, w, w.trace, num, n, 0);
  }
}
