/** The bytecode writer. */
module Writer {
  import opened Words
  import opened Wrappers
  import opened Values
  import opened Blocks
  import opened Strings
  import opened Bytecode

  lemma PrependNothing(r: Result<seq<u8>, DumpError>)
    ensures Prepend([], r) == r
  {
    if r.Success? {
      assert [] + r.value == r.value;
    }
  }

  lemma RegroupFields(d: seq<u8>, a: seq<u8>, b: seq<u8>, c: seq<u8>, e: seq<u8>, f: seq<u8>, g: seq<u8>, h: seq<u8>)
    ensures d + a + b + c + e + f + g + h == d + (a + b + c + e + f + g + h)
  {
  }

  class DumpState {
    /** What the writer has received so far. */
    var data: seq<u8>

    constructor ()
      ensures data == []
    {
      data := [];
    }

    /** The writer was given what `spec` describes, or the process ended with its error. */
    ghost predicate Wrote(spec: Result<seq<u8>, DumpError>, before: seq<u8>, r: Result<(), DumpError>)
      reads this
    {
      match spec
      case Failure(e) => r == Failure(e)
      case Success(bytes) => r.Success? && data == before + bytes
    }

    method DumpBlock(b: seq<u8>)
      modifies this
      ensures data == old(data) + b
    {
      data := data + b;
    }

    method DumpChar(x: int)
      modifies this
      ensures data == old(data) + [x % 256]
    {
      DumpBlock([x % 256]);
    }

    method DumpInt(x: int)
      modifies this
      ensures data == old(data) + IntBytes(x)
    {
      DumpBlock(IntBytes(x));
    }

    /** The escapes are undone in the buffer that holds the string, which is then written. */
    method DumpString(s: CString) returns (r: Result<(), DumpError>)
      modifies this
      ensures Wrote(StringBytes(s), old(data), r)
    {
      hide Unescape, SizeBytes;
      var text := s.Content();
      if |text| == 0 {
        DumpBlock(SizeBytes(0));
        return Success(());
      }
      var buf := new u8[|text| + 1](i requires 0 <= i => if i < |text| then text[i] else 0);
      assert buf[..|text|] == text;
      var size :- UnescapeInPlace(buf, |text|);
      DumpBlock(SizeBytes(size));
      DumpBlock(buf[..size]);
      return Success(());
    }

    method DumpConst(v: Const) returns (r: Result<(), DumpError>)
      modifies this
      ensures Wrote(ConstBytes(v), old(data), r)
    {
      hide StringBytes;
      match v
      case TNull =>
        DumpChar(0);
        r := Success(());
      case TNumber(n) =>
        DumpChar(1);
        DumpBlock(n);
        r := Success(());
      case TBoolean(b) =>
        DumpChar(2);
        DumpChar(b);
        r := Success(());
      case TString(s) =>
        DumpChar(3);
        r := DumpString(s);
      case TFunction(_) =>
        DumpChar(4);
        r := Success(());
    }

    method DumpPool(k: seq<Const>) returns (r: Result<(), DumpError>)
      requires Small(|k|)
      modifies this
      ensures Wrote(ConstsBytes(k), old(data), r)
    {
      hide ConstBytes;
      ghost var start, written := data, [];
      PrependNothing(ConstsBytes(k));
      assert k[0..] == k;
      var i := 0;
      while i < |k|
        invariant 0 <= i <= |k| && data == start + written
        invariant ConstsBytes(k) == Prepend(written, ConstsBytes(k[i..]))
      {
        ghost var first := ConstBytes(k[i]);
        assert k[i..][1..] == k[i + 1..];
        var _ :- DumpConst(k[i]);
        PrependTwice(written, first.value, ConstsBytes(k[i + 1..]));
        written := written + first.value;
        i := i + 1;
      }
      return Success(());
    }

    method DumpNested(p: seq<Proto>) returns (r: Result<(), DumpError>)
      requires forall i :: 0 <= i < |p| ==> Counted(p[i])
      modifies this
      ensures Wrote(ProtosBytes(p), old(data), r)
      decreases p, 0
    {
      hide ProtoBytes;
      ghost var start, written := data, [];
      PrependNothing(ProtosBytes(p));
      assert p[0..] == p;
      var i := 0;
      while i < |p|
        invariant 0 <= i <= |p| && data == start + written
        invariant ProtosBytes(p) == Prepend(written, ProtosBytes(p[i..]))
      {
        ghost var first := ProtoBytes(p[i]);
        assert p[i..][1..] == p[i + 1..];
        var _ :- DumpFunction(p[i]);
        PrependTwice(written, first.value, ProtosBytes(p[i + 1..]));
        written := written + first.value;
        i := i + 1;
      }
      return Success(());
    }

    method DumpFixed(p: Proto)
      requires Small(|p.code|)
      modifies this
      ensures data == old(data) + FixedBytes(p)
    {
      hide IntBytes, CodeBytes;
      DumpInt(p.linedefined);
      DumpInt(p.lastlinedefined);
      DumpChar(p.maxregisters);
      DumpChar(p.numglobal);
      DumpChar(p.numupval);
      DumpChar(p.numparam);
      DumpInt(|p.code|);
      DumpBlock(CodeBytes(p.code));
    }

    method DumpFunction(p: Proto) returns (r: Result<(), DumpError>)
      requires Counted(p)
      modifies this
      ensures Wrote(ProtoBytes(p), old(data), r)
      decreases p, 1
    {
      hide FixedBytes, IntBytes, StringBytes, ConstsBytes, ProtosBytes;
      var _ :- DumpString(p.source);
      var _ :- DumpString(p.name);
      DumpFixed(p);
      DumpInt(|p.k|);
      var _ :- DumpPool(p.k);
      DumpInt(|p.p|);
      var _ :- DumpNested(p.p);
      RegroupFields(old(data), StringBytes(p.source).value, StringBytes(p.name).value, FixedBytes(p), IntBytes(|p.k|),
                    ConstsBytes(p.k).value, IntBytes(|p.p|), ProtosBytes(p.p).value);
      return Success(());
    }

    /** bijou_dump */
    method BijouDump(p: Proto) returns (r: Result<(), DumpError>)
      requires Counted(p)
      modifies this
      ensures Wrote(Bytecode.Dump(p), old(data), r)
    {
      hide ProtoBytes;
      DumpBlock(HEADER);
      r := DumpFunction(p);
    }
  }
}
