/** sample/function.s: what it does, with how many registers it works, and that it does the same after it
    was saved and loaded. It also shows that the conditions of the general theorems can be met. */
module EndToEnd {
  import opened Words
  import opened Wrappers
  import opened Values
  import opened Opcodes
  import opened Blocks
  import opened Machine
  import opened Instructions
  import opened Safety
  import opened Termination
  import opened Strings
  import opened Bytecode
  import opened RoundTrip
  import opened Trees
  import opened SaveLoad
  import opened Text
  import opened Assembly
  import opened Reassembly
  import opened Samples

  /** `loadk 0 0`, `return 0` */
  function Answer(text: CString): Block {
    Unnamed([TString(text)], [2, 4294950939], 1, 0, [])
  }

  /** `closure 0 0`, `call 1 0 0`, `return 1` */
  function FunctionProgram(regc: u8, n: Number, text: CString): Block {
    Unnamed([TNumber(n), TFunction(Wild)], [26, 89, 4294951003], regc, 0, [Answer(text)])
  }

  lemma FunctionWords()
    ensures Decode(26) == MakeClosure(0, 0) && Decode(89) == Call(1, 0, 0) && Decode(4294951003) == Return(1)
    ensures Decode(2) == LoadK(0, 0) && Decode(4294950939) == Return(0)
  {
  }

  lemma FunctionFields()
    ensures GetOp(26) == 26 && GetA(26) == 0 && GetBx(26) == 0
    ensures GetOp(89) == 25 && GetA(89) == 1 && GetB(89) == 0 && GetC(89) == 0
    ensures GetOp(4294951003) == 27 && GetA(4294951003) == 1
  {
  }

  /** The disassembler prints these words as the sample is written. */
  lemma FunctionTexts()
    ensures OpText(26) == "\tclosure 0 0" && OpText(89) == "\tcall 1 0 0" && OpText(4294951003) == "\treturn 1"
  {
    hide GetOp, GetA, GetB, GetC, GetBx, OperandsText, NatText;
    FunctionFields();
    OperandTexts();
    assert PrintedOperands(26) == [0, 0] && PrintedOperands(89) == [1, 0, 0] && PrintedOperands(4294951003) == [1];
  }

  lemma OperandTexts()
    ensures OperandsText([1]) == " 1" && OperandsText([0, 0]) == " 0 0" && OperandsText([1, 0, 0]) == " 1 0 0"
  {
    var one, two, three: seq<int> := [1], [0, 0], [1, 0, 0];
    assert IntText(0) == "0" && IntText(1) == "1";
    assert one[1..] == [] && two[1..] == [0] && two[1..][1..] == [] && three[1..] == two;
    assert OperandsText(two[1..]) == " 0";
  }

  lemma FunctionIsCanonical()
    ensures GetOp(26) == 26 && GetOp(89) == 25 && GetOp(4294951003) == 27
    ensures Canonical(26) == 26 && Canonical(89) == 89 && Canonical(4294951003) == 4294951003
  {
    hide GetOp, GetA, GetB, GetC, GetBx;
    FunctionFields();
  }

  /** The assembler makes these words of the code section of the sample, whatever its comments. */
  lemma FunctionAssembles(level: nat, comments: seq<(string, nat)>, ws: string, s: string)
    requires |comments| == 3 && AllSpace(ws) && forall j :: 0 <= j < 3 ==> IsComment(comments[j].0)
    ensures PrintableCode([26, 89, 4294951003], comments)
    ensures CompileCode(SectionText(level, [26, 89, 4294951003], comments, ws) + s) == Success(([26, 89, 4294951003], s))
  {
    hide CompileCode, SectionText, IsComment, GetOp, Canonical;
    FunctionIsCanonical();
    var code: seq<Word> := [26, 89, 4294951003];
    assert CanonicalAll(code) == code;
    CodeReassemblesExactly(level, code, comments, ws, s);
  }

  lemma AnswerRuns(vm: Vm, fuel: nat, path: seq<nat>, text: CString, w: World)
    requires Lookup(vm.root, path) == Some(Answer(text)) && fuel >= 2
    ensures Exec(vm, fuel, Entry(Answer(text), path, 0, []), w) == Finished(Returned(TString(text)), w, fuel - 2)
  {
    hide StepFrame, Decode;
    FunctionWords();
    var f0 := Entry(Answer(text), path, 0, []);
    LoadsConstant(vm, f0, w, Answer(text), 0, 0);
    OneStep(vm, fuel, f0, w, Stored(f0, 0, TString(text)), w);
    Returns(vm, Stored(f0, 0, TString(text)), w, Answer(text), 0);
  }

  /** The program returns the string of its nested function if and only if it has the second register
      that its call stores to; the sample declares one register only. */
  lemma FunctionRuns(vm: Vm, fuel: nat, regc: u8, n: Number, text: CString, w: World)
    requires vm.root == FunctionProgram(regc, n, text) && fuel >= 5 && regc >= 1
    ensures var r := Exec(vm, fuel, Entry(vm.root, [], 0, []), w);
            if regc >= 2 then r == Finished(Returned(TString(text)), w, fuel - 5)
            else r == Finished(Stuck(BadRegister), w, fuel - 4)
  {
    hide StepFrame, Decode;
    FunctionWords();
    var b := vm.root;
    var f0 := Entry(b, [], 0, []);
    SelectsChild(vm, f0, w, b, 0, 0);
    assert [] + [0] == [0];
    var f1 := Stored(f0, 0, TFunction(Closure([0])));
    OneStep(vm, fuel, f0, w, f1, w);
    CallEnters(vm, f1, w, b, 1, 0, 0, [0], Answer(text));
    assert StepFrame(vm, f1, w).callee == Entry(Answer(text), [0], 0, []);
    AnswerRuns(vm, fuel - 2, [0], text, w);
    if regc >= 2 {
      var f2 := Stored(f1, 1, TString(text));
      assert Exec(vm, fuel - 1, f1, w) == Exec(vm, fuel - 4, f2, w);
      Returns(vm, f2, w, b, 1);
    }
  }

  /** With a second register the program is well formed and has no backward jump: every run of it is
      safe, and ends. */
  lemma FunctionIsWellFormed(vm: Vm, n: Number, text: CString)
    requires vm.root == FunctionProgram(2, n, text) && NativesGiveData(vm)
    ensures ProgramOk(vm) && ForwardTree(vm.root) && ReadableTree(vm.root)
  {
    hide Decode, GetOp;
    FunctionWords();
    FunctionOpcodes();
    AnswerIsWellFormed(vm, text);
    assert vm.root.children[0] == Answer(text);
    assert BlockOk(vm, vm.root);
  }

  lemma AnswerIsWellFormed(vm: Vm, text: CString)
    ensures TreeOk(vm, Answer(text)) && ForwardTree(Answer(text)) && ReadableTree(Answer(text))
  {
    hide Decode, GetOp;
    FunctionWords();
    FunctionOpcodes();
  }

  lemma FunctionOpcodes()
    ensures GetOp(26) == 26 && GetOp(89) == 25 && GetOp(4294951003) == 27 && GetOp(2) == 2 && GetOp(4294950939) == 27
  {
  }

  /** Everything that saving and loading ask of a program: of its blocks, and of its prototypes. */
  ghost predicate BlocksKept(ar: Arith, b: Block) {
    Savable(ar, b) && ChildrenCounted(b) && DistinctPools(ar, b)
  }

  predicate Writable(p: Proto) {
    Fits(p) && StringsUnescape(p) && Loadable(p)
  }

  lemma EmptyNames()
    ensures Unescapes(Text([])) && StringLoads(Text([])) && StringFits(Text([]))
  {
  }

  lemma TextLoads(text: Chars, t: Chars)
    requires Unescape(text) == Success(t) && t != [] && |text| < 0xFFFF_FFFE
    ensures Unescapes(Text(text)) && StringLoads(Text(text)) && StringFits(Text(text))
  {
    hide Unescape, AsInt;
    if text == [] {
      UnescapeNothing();
    } else {
      assert NormString(Text(text)) == Text(t);
      ShortIsNoEof(|t| + 1);
    }
  }

  lemma ShortIsNoEof(size: nat)
    requires size < 0xFFFF_FFFF
    ensures AsInt(size) != EOF
  {
  }

  lemma AnswerIsKept(ar: Arith, text: Chars)
    requires text != []
    ensures BlocksKept(ar, Answer(Text(text)))
  {
    hide Decode, NormPool;
    FunctionWords();
    var b := Answer(Text(text));
    assert |NormPool(b.k)| == 1 by { PoolSize(b.k); }
    assert b.code[0] == 2 && b.code[1] == 4294950939;
  }

  lemma PoolSize(k: seq<Const>)
    ensures |NormPool(k)| == |k|
  {
  }

  lemma AnswerIsWritable(text: CString)
    requires Unescapes(text) && StringLoads(text) && StringFits(text)
    ensures Writable(ToProto(Answer(text)))
  {
    hide Unescapes, StringLoads, StringFits;
    EmptyNames();
    var p := ToProto(Answer(text));
    assert p.k == [TString(text)] && p.p == [] && p.source == p.name == Text([]);
  }

  lemma FunctionIsKept(ar: Arith, n: Number, text: Chars)
    requires text != []
    ensures BlocksKept(ar, FunctionProgram(2, n, Text(text)))
  {
    hide Decode, Survives;
    FunctionWords();
    AnswerIsKept(ar, text);
    var b := FunctionProgram(2, n, Text(text));
    assert b.children == [Answer(Text(text))];
    assert b.code[0] == 26 && b.code[1] == 89 && b.code[2] == 4294951003;
  }

  lemma FunctionIsWritable(n: Number, text: CString)
    requires Unescapes(text) && StringLoads(text) && StringFits(text)
    ensures Writable(ToProto(FunctionProgram(2, n, text)))
  {
    hide Unescapes, StringLoads, StringFits;
    EmptyNames();
    AnswerIsWritable(text);
    var b := FunctionProgram(2, n, text);
    var p := ToProto(b);
    assert CountedChildren(b) == [Answer(text)];
    assert p.p == [ToProto(Answer(text))];
    assert p.k == [TNumber(n), TFunction(Wild)] && p.source == p.name == Text([]);
  }

  /** The program can be saved if its string unescapes to something and is not of monstrous size. */
  lemma FunctionCanBeSaved(ar: Arith, n: Number, text: Chars, t: Chars)
    requires Unescape(text) == Success(t) && t != [] && |text| < 0xFFFF_FFFE
    ensures BlocksKept(ar, FunctionProgram(2, n, Text(text)))
    ensures Writable(ToProto(FunctionProgram(2, n, Text(text))))
  {
    hide Unescape, BlocksKept, Writable;
    if text == [] {
      UnescapeNothing();
    }
    TextLoads(text, t);
    FunctionIsKept(ar, n, text);
    FunctionIsWritable(n, Text(text));
  }

  lemma FunctionUnescaped(n: Number, text: Chars, t: Chars)
    requires Unescape(text) == Success(t)
    ensures Unescaped(FunctionProgram(2, n, Text(text))) == FunctionProgram(2, n, Text(t))
  {
    hide Unescape;
    assert Unescaped(Answer(Text(text))) == Answer(Text(t));
    assert Unescaped(FunctionProgram(2, n, Text(text))).children == [Answer(Text(t))];
  }

  ghost predicate ReturnsText(ar: Arith, b: Block, t: Chars) {
    forall builtins, fuel: nat, w :: fuel >= 5 ==>
      Exec(Vm(b, builtins, ar), fuel, Entry(b, [], 0, []), w) == Finished(Returned(TString(Text(t))), w, fuel - 5)
  }

  /** The program is saved and loaded again, whatever follows it in the file: every tree built from what
      was loaded returns the string with its escapes undone. */
  lemma FunctionSurvives(ar: Arith, n: Number, text: Chars, t: Chars, junk: seq<u8>)
    requires Unescape(text) == Success(t) && t != [] && |text| < 0xFFFF_FFFE
    ensures var written := Dump(ToProto(FunctionProgram(2, n, Text(text))));
            && written.Success?
            && var read := Load(written.value + junk);
               && read.Success? && read.value.1 == junk
               && forall b' :: BuiltFrom(ar, read.value.0, b') ==> ReturnsText(ar, b', t)
  {
    hide Unescape, Dump, Load, Fits, Savable, Loadable, StringsUnescape, ToProto, NormProto, CheckProto, BuiltFrom;
    var b := FunctionProgram(2, n, Text(text));
    FunctionCanBeSaved(ar, n, text, t);
    SaveLoadPreservesMeaning(ar, b);
    DumpThenLoad(ToProto(b), Dump(ToProto(b)).value, junk);
    LoadableExactly(ToProto(b));
    forall b' | BuiltFrom(ar, NormProto(ToProto(b)), b') ensures ReturnsText(ar, b', t) {
      ReloadedReturnsText(ar, n, text, t, b');
    }
  }

  lemma ReloadedReturnsText(ar: Arith, n: Number, text: Chars, t: Chars, b': Block)
    requires Unescape(text) == Success(t) && t != [] && |text| < 0xFFFF_FFFE
    requires BuiltFrom(ar, NormProto(ToProto(FunctionProgram(2, n, Text(text)))), b')
    ensures ReturnsText(ar, b', t)
  {
    hide Unescape, Savable, Exec, Unescaped, NormProto, StringsUnescape, Loadable, Fits;
    var b := FunctionProgram(2, n, Text(text));
    FunctionCanBeSaved(ar, n, text, t);
    ReloadedRunsTheSame(ar, b, b');
    FunctionUnescaped(n, text, t);
    ReloadedEntry(ar, b, b');
    forall builtins, fuel: nat, w | fuel >= 5
      ensures Exec(Vm(b', builtins, ar), fuel, Entry(b', [], 0, []), w) ==
              Finished(Returned(TString(Text(t))), w, fuel - 5)
    {
      FunctionRuns(Vm(Unescaped(b), builtins, ar), fuel, 2, n, Text(t), w);
    }
  }

  lemma ReloadedEntry(ar: Arith, b: Block, b': Block)
    requires BuiltFrom(ar, NormProto(ToProto(b)), b')
    ensures Entry(b', [], 0, []) == Entry(Unescaped(b), [], 0, [])
  {
  }
}
