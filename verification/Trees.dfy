/** From a tree of blocks to a tree of prototypes and back. */
module Trees {
  import opened Words
  import opened Values
  import opened Blocks
  import opened Bytecode

  /** The children that `numchildren` counts. */
  function CountedChildren(b: Block): seq<Block> {
    b.children[..NumChildren(b)]
  }

  /** to_proto. Children beyond those that the byte counts are lost. */
  function ToProto(b: Block): Proto {
    var n := NumChildren(b);
    assert n == |b.children| ==> b.children[..n] == b.children;
    Proto(b.filename, b.funcname, b.linedefined, b.lastlinedefined, b.regc, b.numglobal, b.upvalc % 256, b.argc,
          b.code, b.k, ToProtos(CountedChildren(b)))
  }

  function ToProtos(bs: seq<Block>): (ps: seq<Proto>)
    ensures |ps| == |bs|
    ensures forall i :: 0 <= i < |bs| ==> ps[i] == ToProto(bs[i])
  {
    if bs == [] then [] else [ToProto(bs[0])] + ToProtos(bs[1..])
  }

  lemma AllCounted(b: Block)
    requires ChildrenCounted(b)
    ensures CountedChildren(b) == b.children
  {
  }

  /** `b` is what proto_to_block2 makes of `p`. The number of globals of a block is never set, so
      nothing is said about it; lastlinedefined is set to linedefined, and there are no upvalues. */
  ghost predicate BuiltFrom(ar: Arith, p: Proto, b: Block) {
    && b.k == PushAll(ar, [], p.k)
    && b.code == p.code
    && b.regc == p.maxregisters
    && b.argc == p.numparam
    && b.upvalc == 0
    && b.linedefined == b.lastlinedefined == p.linedefined
    && b.filename == p.source
    && b.funcname == p.name
    && |b.children| == |p.p|
    && forall i :: 0 <= i < |p.p| ==> BuiltFrom(ar, p.p[i], b.children[i])
  }

  /** No pool of the tree makes push_const hand a null pointer to `strcmp`. */
  predicate PoolsDefined(p: Proto) {
    PoolDefined(p.k) && forall i :: 0 <= i < |p.p| ==> PoolsDefined(p.p[i])
  }

  /** The first loop of to_proto. */
  method CopyPool(k: seq<Const>) returns (a: array<Const>)
    ensures fresh(a) && a[..] == k
  {
    a := new Const[|k|](_ => TNull);
    var i := 0;
    while i < |k|
      invariant 0 <= i <= |k| && a[..i] == k[..i]
    {
      a[i] := k[i];
      i := i + 1;
    }
  }

  /** The second loop of to_proto. */
  method CopyCode(code: seq<Word>) returns (a: array<Word>)
    ensures fresh(a) && a[..] == code
  {
    a := new Word[|code|](_ => 0);
    var i := 0;
    while i < |code|
      invariant 0 <= i <= |code| && a[..i] == code[..i]
    {
      a[i] := code[i];
      i := i + 1;
    }
  }

  /** to_proto: the arrays are allocated and then filled entry by entry. */
  method BuildProto(b: Block) returns (p: Proto)
    ensures p == ToProto(b)
  {
    var k := CopyPool(b.k);
    var pool := k[..];
    var code := CopyCode(b.code);
    var words := code[..];
    var children := [];
    var i := 0;
    while i < NumChildren(b)
      invariant 0 <= i <= NumChildren(b) && |children| == i
      invariant forall j :: 0 <= j < i ==> children[j] == ToProto(b.children[j])
    {
      var child := BuildProto(b.children[i]);
      children := children + [child];
      i := i + 1;
    }
    assert children == ToProtos(CountedChildren(b));
    p := Proto(b.filename, b.funcname, b.linedefined, b.lastlinedefined, b.regc, b.numglobal, b.upvalc % 256, b.argc,
               words, pool, children);
  }

  /** proto_to_block2 */
  method BuildBlock(ar: Arith, p: Proto) returns (b: BijouBlock)
    requires PoolsDefined(p)
    ensures fresh(b) && BuiltFrom(ar, p, b.Contents())
    decreases p
  {
    hide Pushed, Equal, Comparable;
    b := new BijouBlock(ar);
    b.filename, b.funcname := p.source, p.name;
    b.linedefined, b.lastlinedefined := p.linedefined, p.linedefined;
    b.regc, b.argc := p.maxregisters, p.numparam;
    var i := 0;
    while i < |p.k|
      invariant 0 <= i <= |p.k| && Headed(p, b) && b.ar == ar
      invariant b.k == PushAll(ar, [], p.k[..i]) && b.code == [] && b.children == []
    {
      PoolInvariant(ar, [], p.k[..i]);
      PushAllLast(ar, [], p.k[..i], p.k[i]);
      assert p.k[..i + 1] == p.k[..i] + [p.k[i]];
      var _ := b.PushConst(p.k[i]);
      i := i + 1;
    }
    assert p.k[..i] == p.k;
    i := 0;
    while i < |p.code|
      invariant 0 <= i <= |p.code| && Headed(p, b)
      invariant b.k == PushAll(ar, [], p.k) && b.code == p.code[..i] && b.children == []
    {
      var _ := b.PushInstruction(p.code[i]);
      i := i + 1;
    }
    i := 0;
    while i < |p.p|
      invariant 0 <= i <= |p.p| && Headed(p, b)
      invariant b.k == PushAll(ar, [], p.k) && b.code == p.code && |b.children| == i
      invariant forall j :: 0 <= j < i ==> BuiltFrom(ar, p.p[j], b.children[j])
    {
      var child := BuildBlock(ar, p.p[i]);
      b.children := b.children + [child.Contents()];
      i := i + 1;
    }
  }

  /** The fields that are copied one by one. */
  ghost predicate Headed(p: Proto, b: BijouBlock)
    reads b
  {
    && b.filename == p.source && b.funcname == p.name
    && b.linedefined == b.lastlinedefined == p.linedefined
    && b.regc == p.maxregisters && b.argc == p.numparam && b.upvalc == 0
  }
}
