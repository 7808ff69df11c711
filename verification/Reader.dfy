/** The bytecode reader. */
module Reader {
  import opened Words
  import opened Wrappers
  import opened Values
  import opened Blocks
  import opened Bytecode

  lemma ReadNone(s: seq<u8>)
    ensures Read(s, 0) == ([], s)
  {
  }

  /** Reading one byte more. */
  lemma ReadMore(s: seq<u8>, n: nat)
    ensures Read(s, n + 1) ==
            var (b, rest) := Read(s, n);
            if rest == [] then (b + [0xFF], []) else (b + [rest[0]], rest[1..])
  {
    var (b, rest) := Read(s, n);
    if n < |s| {
      assert s[..n + 1] == b + [rest[0]];
    } else {
      assert s + seq(n + 1 - |s|, _ => 0xFF as u8) == b + [0xFF];
    }
  }

  class LoadState {
    const file: seq<u8>
    var pos: nat

    constructor (file: seq<u8>)
      ensures this.file == file && pos == 0
    {
      this.file := file;
      pos := 0;
    }

    predicate Valid()
      reads this
    {
      pos <= |file|
    }

    /** What is still to be read. */
    function Rest(): seq<u8>
      requires Valid()
      reads this
    {
      file[pos..]
    }

    ghost predicate Loaded<T>(spec: Result<(T, seq<u8>), LoadError>, r: Result<T, LoadError>)
      requires Valid()
      reads this
    {
      match spec
      case Failure(e) => r == Failure(e)
      case Success((v, rest)) => r == Success(v) && Rest() == rest
    }

    /** `fgetc`, which gives -1 at the end of the file. */
    method GetByte() returns (c: int)
      requires Valid()
      modifies this
      ensures Valid()
      ensures c == (if old(Rest()) == [] then -1 else old(Rest())[0])
      ensures Rest() == if old(Rest()) == [] then [] else old(Rest())[1..]
    {
      if pos == |file| {
        return -1;
      }
      c := file[pos];
      pos := pos + 1;
    }

    /** The reader: it fills the buffer whether or not the file has that many bytes left. */
    method Fill(size: nat) returns (b: seq<u8>, count: int)
      requires Valid()
      modifies this
      ensures Valid() && (b, Rest()) == Read(old(Rest()), size) && count == AsInt(size)
    {
      hide Read;
      b := [];
      var i := 0;
      ghost var s := Rest();
      ReadNone(s);
      while i < size
        invariant 0 <= i <= size && Valid()
        invariant (b, Rest()) == Read(s, i)
      {
        ReadMore(s, i);
        var c := GetByte();
        b := b + [c % 256];
        i := i + 1;
      }
      count := AsInt(i);
    }

    /** Only a string can be of a size that reads as EOF: every other block is short, or whole words. */
    method LoadBlock(size: nat) returns (r: Result<seq<u8>, LoadError>)
      requires Valid()
      modifies this
      ensures Valid() && Loaded(Bytecode.LoadBlock(old(Rest()), size), r)
    {
      var b, count := Fill(size);
      r := if count == EOF then Failure(EndOfFile) else Success(b);
    }

    method LoadChar() returns (c: u8)
      requires Valid()
      modifies this
      ensures Valid() && (c, Rest()) == Bytecode.LoadChar(old(Rest()))
    {
      var b := LoadBlock(1);
      c := b.value[0];
    }

    method LoadInt() returns (r: Result<nat, LoadError>)
      requires Valid()
      modifies this
      ensures Valid() && Loaded(Bytecode.LoadInt(old(Rest())), r)
    {
      var b := LoadBlock(4);
      var x := IntOf(b.value);
      r := if Small(x) then Success(x) else Failure(BadInteger);
    }

    method LoadString() returns (r: Result<CString, LoadError>)
      requires Valid()
      modifies this
      ensures Valid() && Loaded(Bytecode.LoadString(old(Rest())), r)
    {
      var b := LoadBlock(8);
      var size := OfLittleEndian(b.value);
      if size == 0 {
        return Success(NullPtr);
      }
      if size >= 0x8000_0000_0000_0000 {
        return Failure(Crash);
      }
      var chars :- LoadBlock(size);
      var t :- UpToNul(chars);
      return Success(Text(t));
    }

    method LoadCode() returns (r: Result<seq<Word>, LoadError>)
      requires Valid()
      modifies this
      ensures Valid() && Loaded(Bytecode.LoadCode(old(Rest())), r)
    {
      var n :- LoadInt();
      var b := LoadBlock(4 * n);
      return Success(WordsOf(n, b.value));
    }

    method LoadConst() returns (r: Result<Const, LoadError>)
      requires Valid()
      modifies this
      ensures Valid() && Loaded(Bytecode.LoadConst(old(Rest())), r)
    {
      var tag := LoadChar();
      if tag == 0 || tag == 4 {
        return Success(TNull);
      }
      if tag == 1 {
        var n := LoadBlock(16);
        return Success(TNumber(n.value));
      }
      if tag == 2 {
        var b := LoadChar();
        return Success(TBoolean(if b != 0 then 1 else 0));
      }
      if tag == 3 {
        var s :- LoadString();
        return Success(TString(s));
      }
      return Failure(UnknownType);
    }

    method LoadPool(n: nat) returns (r: Result<seq<Const>, LoadError>)
      requires Valid()
      modifies this
      ensures Valid() && Loaded(LoadConsts(n, old(Rest())), r)
    {
      var k := [];
      var i := 0;
      ghost var s := Rest();
      AfterNothing(LoadConsts(n, s));
      while i < n
        invariant 0 <= i <= n && Valid()
        invariant LoadConsts(n, s) == After(k, LoadConsts(n - i, Rest()))
      {
        var v :- LoadConst();
        AfterAfter(k, [v], LoadConsts(n - i - 1, Rest()));
        k := k + [v];
        i := i + 1;
      }
      assert k + [] == k;
      return Success(k);
    }

    /** LoadConstants: the pool, then the nested prototypes. */
    method LoadConstants() returns (r: Result<(seq<Const>, seq<Proto>), LoadError>)
      requires Valid()
      modifies this
      ensures Valid() && Loaded(LoadTail(old(Rest())), r)
      decreases |Rest()|, 1
    {
      hide LoadConsts, LoadProto;
      var sizek :- LoadInt();
      ConstsConsume(sizek, Rest());
      var k :- LoadPool(sizek);
      var n :- LoadInt();
      var p := [];
      var i := 0;
      ghost var s := Rest();
      AfterNothing(LoadProtos(n, s));
      while i < n
        invariant 0 <= i <= n && Valid() && |Rest()| <= |s|
        invariant LoadProtos(n, s) == After(p, LoadProtos(n - i, Rest()))
      {
        var f :- LoadFunction();
        AfterAfter(p, [f], LoadProtos(n - i - 1, Rest()));
        p := p + [f];
        i := i + 1;
      }
      assert p + [] == p;
      return Success((k, p));
    }

    method LoadFunction() returns (r: Result<Proto, LoadError>)
      requires Valid()
      modifies this
      ensures Valid() && Loaded(LoadProto(old(Rest())), r)
      decreases |Rest()|, 0
    {
      FixedConsumes(Rest());
      var source :- LoadString();
      var name :- LoadString();
      var line :- LoadInt();
      var last :- LoadInt();
      var regs := LoadChar();
      var globals := LoadChar();
      var upvals := LoadChar();
      var params := LoadChar();
      var code :- LoadCode();
      var tail :- LoadConstants();
      return Success(Proto(source, name, line, last, regs, globals, upvals, params, code, tail.0, tail.1));
    }

    /** bijou_load */
    method BijouLoad() returns (r: Result<Proto, LoadError>)
      requires Valid()
      modifies this
      ensures Valid() && Loaded(Load(old(Rest())), r)
    {
      var h := LoadBlock(|HEADER|);
      if h.value != HEADER {
        return Failure(BadHeader);
      }
      r := LoadFunction();
    }
  }
}
