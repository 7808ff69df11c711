/** Blocks of code, the tree they form, and the constant pool of a block. */
module Blocks {
  import opened Words
  import opened Wrappers
  import opened Values

  /** What a constant pool holds. A function entry only carries its tag: its pointer is never set. */
  type Const = v: TValue
    | v.TNull? || v.TNumber? || v.TBoolean? || v.TString? || v == TFunction(Wild)
    witness TNull

  datatype Block = Block(
    k: seq<Const>,
    code: seq<Word>,
    regc: u8,
    numglobal: u8,
    argc: u8,
    upvalc: nat,
    linedefined: u32,
    lastlinedefined: u32,
    filename: CString,
    funcname: CString,
    children: seq<Block>)

  /** A block with no name and no globals of its own. */
  function Unnamed(k: seq<Const>, code: seq<Word>, regc: u8, argc: u8, children: seq<Block>): Block {
    Block(k, code, regc, 0, argc, 0, 0, 0, Text([]), Text([]), children)
  }

  /** `numchildren`, which is one byte wide. */
  function NumChildren(b: Block): u8 {
    |b.children| % 256
  }

  /** At every node of the tree that byte counts all children. */
  predicate ChildrenCounted(b: Block) {
    |b.children| < 256 && forall i :: 0 <= i < |b.children| ==> ChildrenCounted(b.children[i])
  }

  /** The block reached from `b` by a path of child indices. */
  function Lookup(b: Block, path: seq<nat>): Option<Block> {
    if path == [] then Some(b)
    else if path[0] < |b.children| then Lookup(b.children[path[0]], path[1..])
    else None
  }

  lemma {:induction false} LookupChild(b: Block, path: seq<nat>, i: nat)
    ensures Lookup(b, path + [i]) ==
            match Lookup(b, path)
            case None => None
            case Some(c) => if i < |c.children| then Some(c.children[i]) else None
  {
    if path == [] {
      assert [i][1..] == [];
    } else {
      assert (path + [i])[1..] == path[1..] + [i];
      if path[0] < |b.children| {
        LookupChild(b.children[path[0]], path[1..], i);
      }
    }
  }

  // ----- the constant pool -----

  predicate Occurs(ar: Arith, k: seq<Const>, v: Const) {
    exists i :: 0 <= i < |k| && Equal(ar, k[i], v)
  }

  /** The pool after BijouBlock_push_const. */
  function Pushed(ar: Arith, k: seq<Const>, v: Const): seq<Const> {
    if Occurs(ar, k, v) then k else k + [v]
  }

  function PushAll(ar: Arith, k: seq<Const>, vs: seq<Const>): seq<Const>
    decreases |vs|
  {
    if vs == [] then k else PushAll(ar, Pushed(ar, k, vs[0]), vs[1..])
  }

  predicate Distinct(ar: Arith, k: seq<Const>) {
    forall i, j :: 0 <= i < j < |k| ==> !Equal(ar, k[i], k[j])
  }

  /** No comparison made while the pool is built hands a null pointer to `strcmp`. */
  predicate PoolDefined(vs: seq<Const>) {
    forall i, j :: 0 <= i < j < |vs| ==> Comparable(vs[i], vs[j])
  }

  lemma {:induction false} PushAllLast(ar: Arith, k: seq<Const>, vs: seq<Const>, v: Const)
    ensures PushAll(ar, k, vs + [v]) == Pushed(ar, PushAll(ar, k, vs), v)
    decreases |vs|
  {
    if vs == [] {
      assert [v][1..] == [];
    } else {
      assert (vs + [v])[1..] == vs[1..] + [v];
      PushAllLast(ar, Pushed(ar, k, vs[0]), vs[1..], v);
    }
  }

  /** Over any sequence of pushes old indices never move and the entries stay pairwise unequal. */
  lemma {:induction false} PoolInvariant(ar: Arith, k: seq<Const>, vs: seq<Const>)
    requires Distinct(ar, k)
    ensures k <= PushAll(ar, k, vs)
    ensures Distinct(ar, PushAll(ar, k, vs))
    ensures forall v :: v in PushAll(ar, k, vs) ==> v in k || v in vs
    decreases |vs|
  {
    if vs != [] {
      PoolInvariant(ar, Pushed(ar, k, vs[0]), vs[1..]);
    }
  }

  /** The entries of `vs` that equal no earlier entry, in their order. */
  function FirstOccurrences(ar: Arith, vs: seq<Const>): seq<Const> {
    if vs == [] then []
    else
      var n := |vs| - 1;
      FirstOccurrences(ar, vs[..n]) + if Occurs(ar, vs[..n], vs[n]) then [] else [vs[n]]
  }

  /** A value equals an earlier entry exactly when it equals a kept one. */
  lemma {:induction false} FirstOccurrencesRepresent(ar: Arith, vs: seq<Const>, v: Const)
    requires PartialEquivalence(ar)
    ensures Occurs(ar, FirstOccurrences(ar, vs), v) <==> Occurs(ar, vs, v)
  {
    if vs != [] {
      var n := |vs| - 1;
      var kept := FirstOccurrences(ar, vs[..n]);
      FirstOccurrencesRepresent(ar, vs[..n], v);
      OccursAppend(ar, vs[..n], vs[n], v);
      OccursAppend(ar, kept, vs[n], v);
      assert vs == vs[..n] + [vs[n]];
      if Occurs(ar, vs[..n], vs[n]) {
        assert FirstOccurrences(ar, vs) == kept;
        var j :| 0 <= j < n && Equal(ar, vs[..n][j], vs[n]);
        EqualLaws(ar, vs[..n][j], vs[n], v);
      }
    }
  }

  lemma OccursAppend(ar: Arith, k: seq<Const>, u: Const, v: Const)
    ensures Occurs(ar, k + [u], v) <==> Occurs(ar, k, v) || Equal(ar, u, v)
  {
    var ku := k + [u];
    if Occurs(ar, k, v) {
      var i :| 0 <= i < |k| && Equal(ar, k[i], v);
      assert Equal(ar, ku[i], v);
    }
    if Equal(ar, u, v) {
      assert Equal(ar, ku[|k|], v);
    }
  }

  /** Rebuilding a pool by pushing its entries keeps exactly the first occurrence of each value. */
  lemma {:induction false} RebuildKeepsFirsts(ar: Arith, vs: seq<Const>)
    requires PartialEquivalence(ar)
    ensures PushAll(ar, [], vs) == FirstOccurrences(ar, vs)
  {
    if vs != [] {
      var n := |vs| - 1;
      RebuildKeepsFirsts(ar, vs[..n]);
      PushAllLast(ar, [], vs[..n], vs[n]);
      FirstOccurrencesRepresent(ar, vs[..n], vs[n]);
      assert vs == vs[..n] + [vs[n]];
    }
  }

  /** The rebuilt pool agrees with the first `n` entries, index for index, exactly when those
      entries are pairwise distinct. */
  lemma RebuildPreservesIndices(ar: Arith, vs: seq<Const>, n: nat)
    requires n <= |vs|
    ensures vs[..n] <= PushAll(ar, [], vs) <==> Distinct(ar, vs[..n])
  {
    var head, tail := vs[..n], vs[n..];
    assert vs == head + tail;
    PushAllAppend(ar, [], head, tail);
    PoolInvariant(ar, [], vs);
    if Distinct(ar, head) {
      RebuildDistinct(ar, head);
      PoolInvariant(ar, head, tail);
    }
    if head <= PushAll(ar, [], vs) {
      var all := PushAll(ar, [], vs);
      assert forall i :: 0 <= i < n ==> all[i] == head[i];
    }
  }

  lemma {:induction false} PushAllAppend(ar: Arith, k: seq<Const>, us: seq<Const>, vs: seq<Const>)
    ensures PushAll(ar, k, us + vs) == PushAll(ar, PushAll(ar, k, us), vs)
    decreases |us|
  {
    if us == [] {
      assert us + vs == vs;
    } else {
      assert (us + vs)[1..] == us[1..] + vs;
      PushAllAppend(ar, Pushed(ar, k, us[0]), us[1..], vs);
    }
  }

  /** Pushing drops nothing only when the entries are appended one by one. */
  lemma {:induction false} PushAllLength(ar: Arith, k: seq<Const>, vs: seq<Const>)
    ensures |PushAll(ar, k, vs)| <= |k| + |vs|
    ensures |PushAll(ar, k, vs)| == |k| + |vs| ==> PushAll(ar, k, vs) == k + vs
    decreases |vs|
  {
    if vs == [] {
      assert k + vs == k;
    } else {
      PushAllLength(ar, Pushed(ar, k, vs[0]), vs[1..]);
      assert k + vs == (k + [vs[0]]) + vs[1..];
    }
  }

  predicate NumbersApart(ar: Arith, ns: seq<Number>) {
    forall i, j :: 0 <= i < j < |ns| ==> !ar.equal(ns[i], ns[j])
  }

  /** Number constants pushed one after the other all get an index of their own, in order, exactly
      when the arithmetic tells them apart. */
  lemma NumbersInPool(ar: Arith, ns: seq<Number>)
    ensures var vs: seq<Const> := seq(|ns|, i requires 0 <= i < |ns| => TNumber(ns[i]));
            PushAll(ar, [], vs) == vs <==> NumbersApart(ar, ns)
  {
    var vs: seq<Const> := seq(|ns|, i requires 0 <= i < |ns| => TNumber(ns[i]));
    RebuildPreservesIndices(ar, vs, |ns|);
    PushAllLength(ar, [], vs);
    assert vs[..|ns|] == vs;
    assert Distinct(ar, vs) <==> NumbersApart(ar, ns) by {
      forall i, j | 0 <= i < j < |ns| ensures Equal(ar, vs[i], vs[j]) <==> ar.equal(ns[i], ns[j]) {
        EqualIsIdentity(ar, vs[i], vs[j]);
      }
      if Distinct(ar, vs) {
        forall i, j | 0 <= i < j < |ns| ensures !ar.equal(ns[i], ns[j]) {
          assert !Equal(ar, vs[i], vs[j]);
        }
      }
    }
  }

  lemma DuplicateShortens(ar: Arith, vs: seq<Const>)
    requires !Distinct(ar, vs)
    ensures |PushAll(ar, [], vs)| < |vs|
  {
    PushAllLength(ar, [], vs);
    PoolInvariant(ar, [], vs);
    assert [] + vs == vs;
  }

  lemma PushedOccurs(ar: Arith, vs: seq<Const>, v: Const)
    requires Equal(ar, v, v)
    ensures Occurs(ar, PushAll(ar, [], vs + [v]), v)
  {
    PushAllLast(ar, [], vs, v);
    OccursAppend(ar, PushAll(ar, [], vs), v, v);
  }

  /** After a duplicate an entry that equals itself is found further to the front than it was. */
  lemma MovesForward(ar: Arith, vs: seq<Const>, x: nat) returns (i: nat)
    requires x < |vs| && Equal(ar, vs[x], vs[x]) && !Distinct(ar, vs[..x + 1])
    ensures i < x && i < |PushAll(ar, [], vs)| && Equal(ar, PushAll(ar, [], vs)[i], vs[x])
  {
    hide PushAll, Equal;
    var head, tail := vs[..x + 1], vs[x + 1..];
    var pool := PushAll(ar, [], head);
    DuplicateShortens(ar, head);
    assert head == vs[..x] + [vs[x]];
    PushedOccurs(ar, vs[..x], vs[x]);
    i :| 0 <= i < |pool| && Equal(ar, pool[i], vs[x]);
    assert vs == head + tail;
    PushAllAppend(ar, [], head, tail);
    PoolInvariant(ar, [], head);
    PoolInvariant(ar, pool, tail);
  }

  lemma {:induction false} RebuildDistinct(ar: Arith, vs: seq<Const>)
    requires Distinct(ar, vs)
    ensures PushAll(ar, [], vs) == vs
  {
    if vs != [] {
      var n := |vs| - 1;
      RebuildDistinct(ar, vs[..n]);
      PushAllLast(ar, [], vs[..n], vs[n]);
      assert vs == vs[..n] + [vs[n]];
    }
  }

  /** Searching compares the value with each entry, pushing compares each entry with the value;
      the two agree, and a function entry is found by neither. */
  lemma FindAgreesWithPush(ar: Arith, k: seq<Const>, v: Const)
    requires PartialEquivalence(ar)
    ensures Occurs(ar, k, v) <==> exists i :: 0 <= i < |k| && Equal(ar, v, k[i])
    ensures v.TFunction? ==> Pushed(ar, k, v) == k + [v]
  {
    forall i | 0 <= i < |k| ensures Equal(ar, v, k[i]) <==> Equal(ar, k[i], v) {
      EqualLaws(ar, v, k[i], v);
      EqualLaws(ar, k[i], v, v);
    }
  }

  // ----- the block under construction -----

  /** A BijouBlock while it is being filled. Its children are attached when they are finished. */
  class BijouBlock {
    const ar: Arith
    var k: seq<Const>
    var code: seq<Word>
    var regc: u8
    var numglobal: u8
    var argc: u8
    var upvalc: nat
    var linedefined: u32
    var lastlinedefined: u32
    var filename: CString
    var funcname: CString
    var children: seq<Block>

    function Contents(): Block
      reads this
    {
      Block(k, code, regc, numglobal, argc, upvalc, linedefined, lastlinedefined, filename, funcname, children)
    }

    /** BijouBlock_new: the fields not mentioned keep whatever the allocation left in them. */
    constructor (ar: Arith)
      ensures this.ar == ar
      ensures k == [] && code == [] && children == [] && regc == 0 && upvalc == 0
      ensures filename == funcname == Text([])
    {
      this.ar := ar;
      k, code, children, regc, upvalc := [], [], [], 0, 0;
      filename, funcname := Text([]), Text([]);
    }

    /** Index of the first constant equal to `v`, or -1. */
    method FindConst(v: Const) returns (r: int)
      requires forall c :: c in k ==> Comparable(v, c)
      ensures r == -1 <==> forall i :: 0 <= i < |k| ==> !Equal(ar, v, k[i])
      ensures r != -1 ==> 0 <= r < |k| && Equal(ar, v, k[r]) && forall i :: 0 <= i < r ==> !Equal(ar, v, k[i])
    {
      var i := 0;
      while i < |k|
        invariant 0 <= i <= |k|
        invariant forall j :: 0 <= j < i ==> !Equal(ar, v, k[j])
      {
        if Equal(ar, v, k[i]) {
          return i;
        }
        i := i + 1;
      }
      return -1;
    }

    /** The index of the new constant, or -1 when an equal one is already there. */
    method PushConst(v: Const) returns (r: int)
      requires forall c :: c in k ==> Comparable(c, v)
      modifies this`k
      ensures k == Pushed(ar, old(k), v)
      ensures r == if Occurs(ar, old(k), v) then -1 else |old(k)|
    {
      var i := 0;
      while i < |k|
        invariant 0 <= i <= |k|
        invariant forall j :: 0 <= j < i ==> !Equal(ar, k[j], v)
      {
        if Equal(ar, k[i], v) {
          return -1;
        }
        i := i + 1;
      }
      k := k + [v];
      return |k| - 1;
    }

    /** The index of the new instruction. */
    method PushInstruction(inst: Word) returns (r: nat)
      modifies this`code
      ensures code == old(code) + [inst] && r == |old(code)|
    {
      code := code + [inst];
      return |code| - 1;
    }

    /** The index of the new child. With one child more the byte that counts them would wrap, and the
        array be cut down to nothing. */
    method PushChild(child: Block) returns (r: nat)
      requires |children| < 255
      modifies this`children
      ensures children == old(children) + [child] && r == |old(children)|
    {
      r := |children|;
      children := children + [child];
    }
  }
}
