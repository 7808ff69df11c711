/** Saving a program to bytecode and loading it again: what that keeps, and exactly what it does not. */
module SaveLoad {
  import opened Words
  import opened Wrappers
  import opened Values
  import opened Opcodes
  import opened Blocks
  import opened Machine
  import opened Simulation
  import opened Strings
  import opened Bytecode
  import opened RoundTrip
  import opened Trees
  import opened Writer
  import opened Reader

  // ----- the shape of the tree -----

  /** The fields that the tree keeps at every node. */
  predicate SameNode(b: Block, b': Block) {
    && b'.code == b.code
    && b'.regc == b.regc
    && b'.argc == b.argc
    && b'.linedefined == b'.lastlinedefined == b.linedefined
    && b'.upvalc == 0
    && b'.filename == b.filename
    && b'.funcname == b.funcname
    && |b'.children| == |b.children|
  }

  /** Every path leads to the same node before and after: each closure operand selects the
      corresponding child. */
  lemma {:induction false} TreePreserved(ar: Arith, b: Block, b': Block, path: seq<nat>)
    requires ChildrenCounted(b) && BuiltFrom(ar, ToProto(b), b')
    ensures match (Lookup(b, path), Lookup(b', path))
            case (Some(c), Some(c')) => SameNode(c, c') && c'.k == PushAll(ar, [], c.k)
            case (None, None) => true
            case _ => false
  {
    AllCounted(b);
    if path != [] && path[0] < |b.children| {
      TreePreserved(ar, b.children[path[0]], b'.children[path[0]], path[1..]);
    }
  }

  ghost predicate SameShape(b: Block, b': Block) {
    forall path :: Lookup(b, path).Some? <==> Lookup(b', path).Some?
  }

  /** The shape of the tree survives exactly when no node has more children than its byte counts. */
  lemma ShapeKeptExactly(ar: Arith, b: Block, b': Block)
    requires BuiltFrom(ar, ToProto(b), b')
    ensures SameShape(b, b') <==> ChildrenCounted(b)
  {
    if ChildrenCounted(b) {
      forall path ensures Lookup(b, path).Some? <==> Lookup(b', path).Some? {
        TreePreserved(ar, b, b', path);
      }
    } else {
      var path := LostPath(ar, b, b');
    }
  }

  /** A block that is not in the rebuilt tree any more. */
  lemma {:induction false} LostPath(ar: Arith, b: Block, b': Block) returns (path: seq<nat>)
    requires BuiltFrom(ar, ToProto(b), b') && !ChildrenCounted(b)
    ensures Lookup(b, path).Some? && Lookup(b', path).None?
  {
    if |b.children| >= 256 {
      var last := |b.children| - 1;
      path := [last];
      assert path[1..] == [];
    } else {
      var i :| 0 <= i < |b.children| && !ChildrenCounted(b.children[i]);
      var below := LostPath(ar, b.children[i], b'.children[i]);
      path := [i] + below;
      assert path[1..] == below;
    }
  }

  // ----- the constants -----

  function UnescapedString(s: CString): CString {
    if s.NullPtr? then s
    else
      match Unescape(s.text)
      case Failure(_) => s
      case Success(t) => Text(t)
  }

  function UnescapedConst(v: Const): Const {
    if v.TString? then TString(UnescapedString(v.s)) else v
  }

  /** The program as its author means it: every string constant with its escapes undone. */
  function Unescaped(b: Block): Block {
    b.(k := seq(|b.k|, i requires 0 <= i < |b.k| => UnescapedConst(b.k[i])),
       children := UnescapedAll(b.children))
  }

  function UnescapedAll(bs: seq<Block>): (r: seq<Block>)
    ensures |r| == |bs| && forall i :: 0 <= i < |bs| ==> r[i] == Unescaped(bs[i])
  {
    if bs == [] then [] else [Unescaped(bs[0])] + UnescapedAll(bs[1..])
  }

  /** Constants that the file format can hold: no function, no empty string other than the null
      pointer, and no boolean but 0 and 1. */
  predicate Plain(v: Const) {
    match v
    case TFunction(_) => false
    case TString(s) => s != Text([])
    case TBoolean(b) => b == 0 || b == 1
    case _ => true
  }

  lemma PlainExactly(v: Const)
    ensures Plain(v) ==> NormConst(v) == UnescapedConst(v)
    ensures forall u: Const :: NormConst(u) == UnescapedConst(v) ==> Plain(v)
  {
  }

  lemma {:induction false} NormProtosAt(ps: seq<Proto>)
    ensures |NormProtos(ps)| == |ps|
    ensures forall i :: 0 <= i < |ps| ==> NormProtos(ps)[i] == NormProto(ps[i])
  {
    if ps != [] {
      NormProtosAt(ps[1..]);
    }
  }

  ghost predicate AllSame(b: Block, b': Block, n: nat) {
    forall x :: 0 <= x < n ==> SameConstant(Unescaped(b), b', x)
  }

  predicate AllPlain(k: seq<Const>) {
    forall x :: 0 <= x < |k| ==> Plain(k[x])
  }

  /** The first `n` constants of a reloaded block are those that were meant exactly when they are
      plain and pairwise distinct once written. */
  lemma ConstantsKeptExactly(ar: Arith, b: Block, b': Block, n: nat)
    requires BuiltFrom(ar, NormProto(ToProto(b)), b') && n <= |b.k|
    ensures AllSame(b, b', n) <==> Distinct(ar, NormPool(b.k)[..n]) && AllPlain(b.k[..n])
  {
    hide AllSame, AllPlain, Distinct, BuiltFrom;
    if Distinct(ar, NormPool(b.k)[..n]) && AllPlain(b.k[..n]) {
      PlainAreKept(ar, b, b', n);
    }
    if AllSame(b, b', n) {
      KeptArePlain(ar, b, b', n);
    }
  }

  lemma PlainAreKept(ar: Arith, b: Block, b': Block, n: nat)
    requires BuiltFrom(ar, NormProto(ToProto(b)), b') && n <= |b.k|
    requires Distinct(ar, NormPool(b.k)[..n]) && AllPlain(b.k[..n])
    ensures AllSame(b, b', n)
  {
    hide Plain, SameConstant, Distinct;
    RebuildPreservesIndices(ar, NormPool(b.k), n);
    PoolOf(ar, b, b');
    forall x | 0 <= x < n ensures SameConstant(Unescaped(b), b', x) {
      assert Plain(b.k[..n][x]);
      KeptConstant(ar, b, b', n, x);
    }
  }

  lemma KeptArePlain(ar: Arith, b: Block, b': Block, n: nat)
    requires BuiltFrom(ar, NormProto(ToProto(b)), b') && n <= |b.k|
    requires AllSame(b, b', n)
    ensures Distinct(ar, NormPool(b.k)[..n]) && AllPlain(b.k[..n])
  {
    hide Plain, SameConstant, Distinct;
    forall x | 0 <= x < n ensures Plain(b.k[x]) && x < |b'.k| && b'.k[x] == NormPool(b.k)[x] {
      assert SameConstant(Unescaped(b), b', x);
      KeptConstantIsPlain(ar, b, b', x);
    }
    if n > 0 {
      assert Plain(b.k[n - 1]);
    }
    assert NormPool(b.k)[..n] <= b'.k;
    PoolOf(ar, b, b');
    RebuildPreservesIndices(ar, NormPool(b.k), n);
  }

  lemma KeptConstant(ar: Arith, b: Block, b': Block, n: nat, x: nat)
    requires x < n <= |b.k| && NormPool(b.k)[..n] <= b'.k && Plain(b.k[x])
    ensures SameConstant(Unescaped(b), b', x)
  {
    assert NormPool(b.k)[..n][x] == b'.k[x];
    PlainExactly(b.k[x]);
  }

  lemma KeptConstantIsPlain(ar: Arith, b: Block, b': Block, x: nat)
    requires BuiltFrom(ar, NormProto(ToProto(b)), b')
    requires x < |b.k| && SameConstant(Unescaped(b), b', x)
    ensures Plain(b.k[x]) && x < |b'.k| && b'.k[x] == NormPool(b.k)[x]
  {
    hide Plain, NormConst, UnescapedConst;
    PoolOf(ar, b, b');
    PoolInvariant(ar, [], NormPool(b.k));
    assert b'.k[x] in NormPool(b.k);
    var y :| 0 <= y < |b.k| && NormPool(b.k)[y] == b'.k[x];
    assert NormConst(b.k[y]) == UnescapedConst(b.k[x]);
    PlainExactly(b.k[x]);
  }

  lemma PoolOf(ar: Arith, b: Block, b': Block)
    requires BuiltFrom(ar, NormProto(ToProto(b)), b')
    ensures b'.k == PushAll(ar, [], NormPool(b.k))
  {
  }

  // ----- whole programs -----

  /** The constants that the code names are plain and, once written, distinct from all before them. */
  ghost predicate Savable(ar: Arith, b: Block) {
    && (forall pc, x: int ::
          0 <= pc < |b.code| && Names(Decode(b.code[pc]), x) && 0 <= x < |b.k| ==> Survives(ar, b, x))
    && forall i :: 0 <= i < |b.children| ==> Savable(ar, b.children[i])
  }

  predicate Survives(ar: Arith, b: Block, x: nat)
    requires x < |b.k|
  {
    Plain(b.k[x]) && Distinct(ar, NormPool(b.k)[..x + 1])
  }

  predicate Reflexive(ar: Arith, v: Const) {
    v.TNumber? ==> ar.equal(v.n, v.n)
  }

  /** A constant that is no NaN keeps its index and value exactly when it is plain and distinct from
      all before it. */
  lemma ConstantKeptExactly(ar: Arith, b: Block, b': Block, x: nat)
    requires BuiltFrom(ar, NormProto(ToProto(b)), b') && x < |b.k| && Reflexive(ar, b.k[x])
    ensures SameConstant(Unescaped(b), b', x) <==> Survives(ar, b, x)
  {
    hide Plain, NormConst, UnescapedConst, SameConstant, BuiltFrom;
    if Survives(ar, b, x) {
      NamedConstantKept(ar, b, b', x);
    }
    if SameConstant(Unescaped(b), b', x) {
      KeptConstantIsPlain(ar, b, b', x);
      PoolOf(ar, b, b');
      var vs := NormPool(b.k);
      if !Distinct(ar, vs[..x + 1]) {
        PlainReflexive(ar, b.k[x]);
        var i := MovesForward(ar, vs, x);
        PoolInvariant(ar, [], vs);
        assert false;
      }
    }
  }

  lemma PlainReflexive(ar: Arith, v: Const)
    requires Plain(v) && Reflexive(ar, v)
    ensures Equal(ar, NormConst(v), NormConst(v))
  {
  }

  lemma NamedConstantKept(ar: Arith, b: Block, b': Block, x: int)
    requires BuiltFrom(ar, NormProto(ToProto(b)), b')
    requires 0 <= x < |b.k| ==> Survives(ar, b, x)
    ensures SameConstant(Unescaped(b), b', x)
  {
    var vs := NormPool(b.k);
    PoolOf(ar, b, b');
    PushAllLength(ar, [], vs);
    if 0 <= x < |b.k| {
      RebuildPreservesIndices(ar, vs, x + 1);
      assert vs[..x + 1][x] == b'.k[x];
      PlainExactly(b.k[x]);
    }
  }

  lemma {:induction false} ReloadedIsSimilar(ar: Arith, b: Block, b': Block)
    requires Savable(ar, b) && ChildrenCounted(b) && BuiltFrom(ar, NormProto(ToProto(b)), b')
    ensures Similar(Unescaped(b), b')
  {
    hide Decode, Names, Survives, NormPool, PushAll, SameConstant, UnescapedConst;
    AllCounted(b);
    NormProtosAt(ToProtos(b.children));
    forall pc, x: int | 0 <= pc < |b.code| && Names(Decode(b.code[pc]), x) ensures SameConstant(Unescaped(b), b', x) {
      NamedConstantKept(ar, b, b', x);
    }
    forall i | 0 <= i < |b.children| ensures Similar(Unescaped(b).children[i], b'.children[i]) {
      ReloadedIsSimilar(ar, b.children[i], b'.children[i]);
    }
  }

  /** No number constant of the tree is a NaN. */
  predicate NumbersReflexive(ar: Arith, b: Block) {
    && (forall x :: 0 <= x < |b.k| ==> Reflexive(ar, b.k[x]))
    && forall i :: 0 <= i < |b.children| ==> NumbersReflexive(ar, b.children[i])
  }

  /** The conditions ask for no more than they must: without them the reloaded tree differs in
      something that the interpreter reads. */
  lemma {:induction false} SavableExactly(ar: Arith, b: Block, b': Block)
    requires NumbersReflexive(ar, b) && BuiltFrom(ar, NormProto(ToProto(b)), b')
    ensures Similar(Unescaped(b), b') <==> Savable(ar, b) && ChildrenCounted(b)
  {
    hide Decode, Names, Survives, NormPool, PushAll, SameConstant, UnescapedConst, Reflexive;
    if Savable(ar, b) && ChildrenCounted(b) {
      ReloadedIsSimilar(ar, b, b');
    }
    if Similar(Unescaped(b), b') {
      NormProtosAt(ToProtos(CountedChildren(b)));
      assert CountedChildren(b) == b.children;
      forall pc, x: int | 0 <= pc < |b.code| && Names(Decode(b.code[pc]), x) && 0 <= x < |b.k| ensures Survives(ar, b, x) {
        ConstantKeptExactly(ar, b, b', x);
      }
      forall i | 0 <= i < |b.children| ensures Savable(ar, b.children[i]) && ChildrenCounted(b.children[i]) {
        SavableExactly(ar, b.children[i], b'.children[i]);
      }
    }
  }

  /** The program a block tree stands for runs the same, from every frame and world and with any
      fuel, whether its outermost block is `b` or `b'`. */
  ghost predicate RunTheSame(ar: Arith, b: Block, b': Block) {
    forall builtins, fuel: nat, fr, w :: Exec(Vm(b, builtins, ar), fuel, fr, w) == Exec(Vm(b', builtins, ar), fuel, fr, w)
  }

  /** The file that `b` was saved to, followed by anything, loads, leaves what followed, and gives a
      tree that runs the same as the original with its strings unescaped. */
  ghost predicate MeaningKept(ar: Arith, b: Block, bytes: seq<u8>) {
    forall junk: seq<u8> ::
      var r := Load(bytes + junk);
      r.Success? && r.value.1 == junk && forall b' :: BuiltFrom(ar, r.value.0, b') ==> RunTheSame(ar, Unescaped(b), b')
  }

  /** Saving and loading preserve meaning: what is written keeps it exactly when the reader accepts
      every integer and string of the tree. */
  lemma SaveLoadPreservesMeaning(ar: Arith, b: Block)
    requires Savable(ar, b) && ChildrenCounted(b) && Fits(ToProto(b))
    ensures Dump(ToProto(b)).Success? <==> StringsUnescape(ToProto(b))
    ensures Dump(ToProto(b)).Success? ==>
              (MeaningKept(ar, b, Dump(ToProto(b)).value) <==> Loadable(ToProto(b)))
  {
    hide Load, Dump, Fits, Loadable, StringsUnescape, Exec, BuiltFrom, Savable, Unescaped, ToProto, CheckProto;
    var p := ToProto(b);
    DumpSucceedsExactly(p);
    if Dump(p).Success? {
      var bytes := Dump(p).value;
      forall junk: seq<u8>
        ensures Load(bytes + junk) == Checked(CheckProto(p), (NormProto(p), junk))
        ensures Load(bytes + junk).Success? <==> Loadable(p)
      {
        DumpThenLoad(p, bytes, junk);
      }
      forall b' | BuiltFrom(ar, NormProto(p), b') ensures RunTheSame(ar, Unescaped(b), b') {
        ReloadedRunsTheSame(ar, b, b');
      }
      if MeaningKept(ar, b, bytes) {
        assert Load(bytes + []).Success?;
      }
    }
  }

  lemma ReloadedRunsTheSame(ar: Arith, b: Block, b': Block)
    requires Savable(ar, b) && ChildrenCounted(b) && BuiltFrom(ar, NormProto(ToProto(b)), b')
    ensures RunTheSame(ar, Unescaped(b), b')
  {
    hide Exec, BuiltFrom, Savable, Similar, Unescaped, ChildrenCounted;
    ReloadedIsSimilar(ar, b, b');
    forall builtins, fuel: nat, fr, w
      ensures Exec(Vm(Unescaped(b), builtins, ar), fuel, fr, w) == Exec(Vm(b', builtins, ar), fuel, fr, w)
    {
      RunsAlike(Vm(Unescaped(b), builtins, ar), Vm(b', builtins, ar), fuel, fr, w);
    }
  }

  /** A pool built by push_const can be pushed again after it was written and read. */
  lemma WrittenPoolDefined(ar: Arith, k: seq<Const>)
    requires Distinct(ar, k)
    ensures PoolDefined(NormPool(k))
  {
    forall i, j | 0 <= i < j < |k| ensures Comparable(NormConst(k[i]), NormConst(k[j])) {
      assert !Equal(ar, k[i], k[j]);
    }
  }

  predicate DistinctPools(ar: Arith, b: Block) {
    Distinct(ar, b.k) && forall i :: 0 <= i < |b.children| ==> DistinctPools(ar, b.children[i])
  }

  lemma {:induction false} WrittenPoolsDefined(ar: Arith, b: Block)
    requires DistinctPools(ar, b)
    ensures PoolsDefined(NormProto(ToProto(b)))
  {
    hide PoolDefined, Distinct, NormPool, NormString;
    var p := NormProto(ToProto(b));
    WrittenPoolDefined(ar, b.k);
    NormProtosAt(ToProtos(CountedChildren(b)));
    forall i | 0 <= i < |p.p| ensures PoolsDefined(p.p[i]) {
      assert p.p[i] == NormProto(ToProto(b.children[i]));
      WrittenPoolsDefined(ar, b.children[i]);
    }
  }

  /** Where the chain below can end early: in the writer or in the reader. */
  datatype Stop = Writing(dump: DumpError) | Reading(load: LoadError)

  predicate StopsWith(p: Proto, e: Stop) {
    if Dump(p).Failure? then e == Writing(Dump(p).error)
    else CheckProto(p).Failure? && e == Reading(CheckProto(p).error)
  }

  /** The whole chain as the two programs run it: to_proto, bijou_dump, bijou_load, proto_to_block,
      which also takes the number of globals from the file. */
  method SaveAndLoad(ar: Arith, b: Block) returns (r: Result<BijouBlock, Stop>, numglobals: u8)
    requires DistinctPools(ar, b) && Fits(ToProto(b))
    ensures r.Success? <==> StringsUnescape(ToProto(b)) && Loadable(ToProto(b))
    ensures r.Failure? ==> StopsWith(ToProto(b), r.error)
    ensures r.Success? ==> BuiltFrom(ar, NormProto(ToProto(b)), r.value.Contents())
    ensures r.Success? ==> numglobals == NormProto(ToProto(b)).numglobal
    ensures r.Success? && Savable(ar, b) && ChildrenCounted(b) ==> Similar(Unescaped(b), r.value.Contents())
  {
    hide Load, Dump, StringsFit, Counted, Loadable, StringsUnescape, CheckProto, BuiltFrom, DistinctPools, PoolsDefined,
      Savable, ToProto, ChildrenCounted;
    numglobals := 0;
    var p := BuildProto(b);
    var out := new DumpState();
    DumpSucceedsExactly(p);
    var written := out.BijouDump(p);
    if written.Failure? {
      r := Failure(Writing(written.error));
      return;
    }
    var inp := new LoadState(out.data);
    assert inp.Rest() == out.data + [];
    DumpThenLoad(p, out.data, []);
    var q := inp.BijouLoad();
    if q.Failure? {
      r := Failure(Reading(q.error));
      return;
    }
    WrittenPoolsDefined(ar, b);
    var block := BuildBlock(ar, q.value);
    if Savable(ar, b) && ChildrenCounted(b) {
      ReloadedIsSimilar(ar, b, block.Contents());
    }
    r, numglobals := Success(block), q.value.numglobal;
  }

  // ----- why the conditions are there -----

  /** A block with one register. The assembler makes a child for every function constant. */
  function Single(k: seq<Const>, code: seq<Word>, children: seq<Block>): Block {
    Unnamed(k, code, 1, 0, children)
  }

  /** A function that does nothing but return its register. */
  function Leaf(): Block {
    Single([], [RETURN], [])
  }

  /** `loadk 0 2`, `loadk 0 0`, `eq 0 0K` and `return 0` */
  const LOAD_THIRD: Word := 32770
  const LOAD_FIRST: Word := 2
  const COMPARE_FIRST: Word := 2147483667
  const RETURN: Word := 27

  lemma ExampleWords()
    ensures Decode(LOAD_THIRD) == LoadK(0, 2)
    ensures Decode(LOAD_FIRST) == LoadK(0, 0)
    ensures Decode(COMPARE_FIRST) == TestEqual(0, 256)
    ensures Decode(RETURN) == Return(0)
  {
  }

  lemma BuiltFromSingle(ar: Arith, b: Block, b': Block)
    requires BuiltFrom(ar, NormProto(ToProto(b)), b')
    ensures b'.code == b.code && b'.regc == b.regc && b'.k == PushAll(ar, [], NormPool(b.k))
  {
  }

  lemma SameEntry(b: Block, b': Block)
    requires b'.regc == b.regc
    ensures Entry(b', [], 0, []) == Entry(b, [], 0, [])
  {
  }

  lemma MergedPool(ar: Arith)
    ensures PushAll(ar, [], [TNull, TNull, TBoolean(1)]) == [TNull, TBoolean(1)]
  {
    var k0: seq<Const>, k1: seq<Const>, k2: seq<Const> := [], [TNull], [TNull, TBoolean(1)];
    var vs: seq<Const> := [TNull, TNull, TBoolean(1)];
    assert Pushed(ar, k0, TNull) == k1;
    assert Equal(ar, k1[0], TNull) && Pushed(ar, k1, TNull) == k1;
    assert Pushed(ar, k1, TBoolean(1)) == k2;
    assert vs[1..] == [TNull, TBoolean(1)] && vs[1..][1..] == [TBoolean(1)] && vs[1..][1..][1..] == [];
  }

  /** The first steps of both examples. */
  lemma RunLoad(vm: Vm, w: World, x: nat)
    requires vm.root.regc == 1 && |vm.root.code| > 1 && Decode(vm.root.code[0]) == LoadK(0, x)
    ensures StepFrame(vm, Entry(vm.root, [], 0, []), w) ==
            if x < |vm.root.k| then Next(Frame([], 1, [vm.root.k[x]], 0, []), w) else Fault(BadConstant)
  {
    hide Decode;
    var fr := Entry(vm.root, [], 0, []);
    assert x < |vm.root.k| ==> fr.regs[0 := vm.root.k[x]] == [vm.root.k[x]];
  }

  lemma RunReturn(vm: Vm, pc: nat, v: TValue, w: World)
    requires pc < |vm.root.code| && Decode(vm.root.code[pc]) == Return(0)
    ensures StepFrame(vm, Frame([], pc, [v], 0, []), w) == Leave(v, w)
  {
    hide Decode;
  }

  lemma RunCompare(vm: Vm, v: TValue, w: World)
    requires |vm.root.code| > 1 && Decode(vm.root.code[1]) == TestEqual(0, 256) && |vm.root.k| > 0
    ensures StepFrame(vm, Frame([], 1, [v], 0, []), w) ==
            StepTestEqual(vm.ar, Frame([], 1, [v], 0, []), w, v, vm.root.k[0])
  {
    hide Decode;
  }

  /** Two function constants become two nulls, of which the second is dropped: what stood after them
      moves, and the reloaded program reads past its pool where the original returns `true`. */
  lemma MergedFunctionsShift(vm: Vm, b': Block, w: World)
    requires vm.root == Single([TFunction(Wild), TFunction(Wild), TBoolean(1)], [LOAD_THIRD, RETURN], [Leaf(), Leaf()])
    requires BuiltFrom(vm.ar, NormProto(ToProto(vm.root)), b')
    ensures var fr := Entry(vm.root, [], 0, []);
            && Exec(vm.(root := Unescaped(vm.root)), 2, fr, w) == Finished(Returned(TBoolean(1)), w, 0)
            && Exec(vm.(root := b'), 2, fr, w) == Finished(Stuck(BadConstant), w, 1)
  {
    hide StepFrame, Decode, BuiltFrom, PushAll, NormProto, ToProto, UnescapedAll, Entry;
    ExampleWords();
    BuiltFromSingle(vm.ar, vm.root, b');
    assert NormPool(vm.root.k) == [TNull, TNull, TBoolean(1)];
    MergedPool(vm.ar);
    SameEntry(vm.root, b');
    SameEntry(vm.root, Unescaped(vm.root));
    var vm1, vm2 := vm.(root := Unescaped(vm.root)), vm.(root := b');
    RunLoad(vm1, w, 2);
    RunLoad(vm2, w, 2);
    RunReturn(vm1, 1, TBoolean(1), w);
  }

  /** An empty string comes back as the null pointer, which must not be compared: the reloaded
      program has no defined behaviour where the original returns the string. */
  lemma EmptyStringFaults(vm: Vm, b': Block, w: World)
    requires vm.root == Single([TString(Text([]))], [LOAD_FIRST, COMPARE_FIRST, RETURN, RETURN], [])
    requires BuiltFrom(vm.ar, NormProto(ToProto(vm.root)), b')
    ensures var fr := Entry(vm.root, [], 0, []);
            && Exec(vm.(root := Unescaped(vm.root)), 3, fr, w) == Finished(Returned(TString(Text([]))), w, 0)
            && Exec(vm.(root := b'), 3, fr, w) == Finished(Stuck(NullCompared), w, 1)
  {
    hide StepFrame, Decode, BuiltFrom;
    ExampleWords();
    BuiltFromSingle(vm.ar, vm.root, b');
    var vm1, vm2 := vm.(root := Unescaped(vm.root)), vm.(root := b');
    assert vm1.root.k == [TString(Text([]))];
    assert NormPool(vm.root.k) == [TString(NullPtr)];
    RunLoad(vm1, w, 0);
    RunLoad(vm2, w, 0);
    RunCompare(vm1, TString(Text([])), w);
    RunCompare(vm2, TString(NullPtr), w);
    RunReturn(vm1, 3, TString(Text([])), w);
  }
}
