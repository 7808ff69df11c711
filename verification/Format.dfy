/** The file format byte by byte. Writer and reader agree on it; this says what they agree on. */
module Format {
  import opened Words
  import opened Wrappers
  import opened Values
  import opened Blocks
  import opened Strings
  import opened Bytecode
  import opened Trees

  /** The byte at place `i` of a number is its digit to the base 256. */
  lemma {:induction false} LittleEndianDigits(x: nat, n: nat, i: nat)
    requires i < n
    ensures LittleEndian(x, n)[i] == (x / Pow256(i)) % 256
  {
    if i > 0 {
      LittleEndianDigits(x / 256, n - 1, i - 1);
      DivideTwice(x, Pow256(i - 1));
    }
  }

  lemma DivideTwice(x: nat, p: nat)
    requires p > 0
    ensures (x / 256) / p == x / (256 * p)
  {
    var q, r := x / (256 * p), x % (256 * p);
    assert x == 256 * (p * q) + r;
    assert x / 256 == p * q + r / 256;
    assert r / 256 < p;
    DivideUnique(x / 256, p, q, r / 256);
  }

  lemma DivideUnique(x: nat, p: nat, q: nat, r: nat)
    requires p > 0 && x == p * q + r && r < p
    ensures x / p == q
  {
    if x / p > q {
      Steps(p, x / p, q);
    } else if x / p < q {
      Steps(p, q, x / p);
    }
  }

  lemma Steps(p: nat, a: nat, b: nat)
    requires a > b
    ensures p * a >= p * b + p
  {
    assert p * a == p * (b + 1) + p * (a - b - 1);
  }

  /** The tags of null, number, boolean, string and function are 0 to 4; null and function have no
      payload, a number is its image, a boolean one byte. */
  lemma ConstantLayout(v: Const)
    ensures match v
            case TNull => ConstBytes(v) == Success([0])
            case TNumber(n) => ConstBytes(v) == Success([1] + n)
            case TBoolean(b) => 0 <= b < 256 ==> ConstBytes(v) == Success([2, b])
            case TString(s) => ConstBytes(v).Success? ==> ConstBytes(v).value[..1] == [3]
            case _ => ConstBytes(v) == Success([4])
  {
    hide StringBytes;
  }

  /** A string is its size with the NUL, its characters and the NUL; an empty one is a size of 0. */
  lemma TextLayout(s: CString, t: seq<u8>)
    requires Unescape(s.Content()) == Success(t) && |t| < 255
    ensures StringBytes(s) ==
            Success(if t == [] then [0, 0, 0, 0, 0, 0, 0, 0] else [|t| + 1, 0, 0, 0, 0, 0, 0, 0] + t + [0])
  {
    hide SizeBytes;
    ShortSize(0);
    ShortSize(|t| + 1);
  }

  /** What the reader makes of a tag: a function reads as null, a boolean as 0 or 1, and a tag above 4
      is refused. */
  lemma TagsRead(tag: u8, s: seq<u8>)
    ensures LoadConst([tag] + s) ==
            if tag == 0 || tag == 4 then Success((TNull, s))
            else if tag == 1 then Success((TNumber(Read(s, 16).0), Read(s, 16).1))
            else if tag == 2 then Success((TBoolean(if LoadChar(s).0 == 0 then 0 else 1), LoadChar(s).1))
            else if tag != 3 then Failure(UnknownType)
            else if LoadString(s).Failure? then Failure(LoadString(s).error)
            else Success((TString(LoadString(s).value.0), LoadString(s).value.1))
  {
    hide LoadString;
    assert ([tag] + s)[1..] == s;
  }

  lemma ShortSize(x: u8)
    ensures SizeBytes(x) == [x, 0, 0, 0, 0, 0, 0, 0]
  {
    ZeroBytes(7);
    assert LittleEndian(x, 8) == [x] + LittleEndian(0, 7);
  }

  lemma ShortInt(x: u8)
    ensures IntBytes(x) == [x, 0, 0, 0]
  {
    ZeroBytes(3);
    assert LittleEndian(x, 4) == [x] + LittleEndian(0, 3);
  }

  lemma {:induction false} ZeroBytes(n: nat)
    ensures LittleEndian(0, n) == seq(n, _ => 0)
  {
    if n > 0 {
      ZeroBytes(n - 1);
    }
  }

  // ----- a whole file -----

  /** A block that does nothing. */
  function Empty(): Block {
    Block([], [], 0, 0, 0, 0, 0, 0, NullPtr, NullPtr, [])
  }

  /** A block in which all numbers differ: 2 registers, 3 globals, 4 parameters, 5 upvalues, defined in
      lines 258 to 6, from the file "a", with the name "f". Its string constant is `h` and the escape
      for a newline. */
  function Sample(n: Number): Block {
    Block([TBoolean(1), TNumber(n), TString(Text([104, 92, 110])), TNull, TFunction(Wild)],
          [27, 0x01020304], 2, 3, 4, 5, 258, 6, Text([97]), Text([102]), [Empty()])
  }

  function FileOf(n: Number): seq<u8> {
    // signature, version, endianness
    [0x10, 0x62, 0x69, 0x6A, 5, 1]
    + (// source and name, each with its size
       [2, 0, 0, 0, 0, 0, 0, 0, 97, 0]
       + [2, 0, 0, 0, 0, 0, 0, 0, 102, 0]
       // linedefined and lastlinedefined; registers, globals, upvalues and parameters; code
       + ([2, 1, 0, 0] + [6, 0, 0, 0] + [2, 3, 5, 4] + [2, 0, 0, 0] + [27, 0, 0, 0] + [4, 3, 2, 1])
       // constants
       + [5, 0, 0, 0]
       + ([2, 1] + ([1] + n + ([3, 3, 0, 0, 0, 0, 0, 0, 0, 104, 10, 0] + ([0] + ([4] + [])))))
       // nested prototypes
       + [1, 0, 0, 0]
       + EmptyBytes())
  }

  /** Two strings of size 0, two lines, four bytes, and the counts of code, constants and children. */
  function EmptyBytes(): seq<u8> {
    seq(8 + 8 + 4 + 4 + 4 + 4 + 4 + 4, _ => 0)
  }

  lemma EmptyIsWritten()
    ensures ProtoBytes(ToProto(Empty())) == Success(EmptyBytes())
  {
    hide IntBytes, SizeBytes;
    ShortInt(0);
    ShortSize(0);
    var p := ToProto(Empty());
    assert p == Proto(NullPtr, NullPtr, 0, 0, 0, 0, 0, 0, [], [], []);
    assert StringBytes(NullPtr) == Success(SizeBytes(0));
    assert FixedBytes(p) == seq(4 + 4 + 4 + 4, _ => 0);
    assert ConstsBytes(p.k) == Success([]) && ProtosBytes(p.p) == Success([]);
    assert SizeBytes(0) + SizeBytes(0) + FixedBytes(p) + IntBytes(0) + [] + IntBytes(0) + [] == EmptyBytes();
  }

  lemma SampleStrings()
    ensures StringBytes(Text([97])) == Success([2, 0, 0, 0, 0, 0, 0, 0, 97, 0])
    ensures StringBytes(Text([102])) == Success([2, 0, 0, 0, 0, 0, 0, 0, 102, 0])
    ensures Unescape([104, 92, 110]) == Success([104, 10])
  {
    hide StringBytes, Unescape;
    UnescapeFixpoint([97]);
    UnescapeFixpoint([102]);
    TextLayout(Text([97]), [97]);
    TextLayout(Text([102]), [102]);
    var size: seq<u8> := [2, 0, 0, 0, 0, 0, 0, 0];
    assert size + [97] + [0] == [2, 0, 0, 0, 0, 0, 0, 0, 97, 0];
    assert size + [102] + [0] == [2, 0, 0, 0, 0, 0, 0, 0, 102, 0];
    SampleEscape();
  }

  lemma SampleEscape()
    ensures Unescape([104, 92, 110]) == Success([104, 10])
  {
    hide Unescape;
    UnescapeEscaped([104, 10]);
    var t: seq<u8> := [104, 10];
    assert t[1..] == [10] && t[1..][1..] == [];
    assert Escaped(t) == [104] + ([92, 110] + []) == [104, 92, 110];
  }

  lemma SampleFixed(n: Number)
    ensures FixedBytes(ToProto(Sample(n))) ==
            [2, 1, 0, 0] + [6, 0, 0, 0] + [2, 3, 5, 4] + [2, 0, 0, 0] + [27, 0, 0, 0] + [4, 3, 2, 1]
  {
    hide IntBytes, ToProtos;
    var p := ToProto(Sample(n));
    ShortInt(2);
    ShortInt(6);
    ShortInt(27);
    WideInts();
    assert p.code == [27, 0x01020304];
    assert CodeBytes(p.code[1..]) == [4, 3, 2, 1];
  }

  lemma WideInts()
    ensures IntBytes(258) == [2, 1, 0, 0] && IntBytes(0x01020304) == [4, 3, 2, 1]
  {
    forall i | 0 <= i < 4
      ensures IntBytes(258)[i] == [2, 1, 0, 0][i] && IntBytes(0x01020304)[i] == [4, 3, 2, 1][i]
    {
      LittleEndianDigits(258, 4, i);
      LittleEndianDigits(0x01020304, 4, i);
      assert Pow256(0) == 1 && Pow256(1) == 256 && Pow256(2) == 65536 && Pow256(3) == 16777216;
    }
  }

  lemma SampleEachConst(n: Number)
    ensures ConstBytes(TBoolean(1)) == Success([2, 1])
    ensures ConstBytes(TNumber(n)) == Success([1] + n)
    ensures ConstBytes(TString(Text([104, 92, 110]))) == Success([3, 3, 0, 0, 0, 0, 0, 0, 0, 104, 10, 0])
    ensures ConstBytes(TNull) == Success([0])
    ensures ConstBytes(TFunction(Wild)) == Success([4])
  {
    hide StringBytes;
    SampleStrings();
    TextLayout(Text([104, 92, 110]), [104, 10]);
    var size: seq<u8> := [3, 0, 0, 0, 0, 0, 0, 0];
    assert [3] + (size + [104, 10] + [0]) == [3, 3, 0, 0, 0, 0, 0, 0, 0, 104, 10, 0];
  }

  lemma SampleConsts(n: Number)
    ensures ConstsBytes(Sample(n).k) ==
            Success([2, 1] + ([1] + n + ([3, 3, 0, 0, 0, 0, 0, 0, 0, 104, 10, 0] + ([0] + ([4] + [])))))
  {
    hide ConstBytes;
    var k := Sample(n).k;
    SampleEachConst(n);
    assert ConstsBytes(k[5..]) == Success([]);
    OneMoreConst(k, 4, [4], []);
    OneMoreConst(k, 3, [0], [4] + []);
    OneMoreConst(k, 2, [3, 3, 0, 0, 0, 0, 0, 0, 0, 104, 10, 0], [0] + ([4] + []));
    OneMoreConst(k, 1, [1] + n, [3, 3, 0, 0, 0, 0, 0, 0, 0, 104, 10, 0] + ([0] + ([4] + [])));
    OneMoreConst(k, 0, [2, 1], [1] + n + ([3, 3, 0, 0, 0, 0, 0, 0, 0, 104, 10, 0] + ([0] + ([4] + []))));
    assert k[0..] == k;
  }

  lemma OneMoreConst(k: seq<Const>, i: nat, first: seq<u8>, others: seq<u8>)
    requires i < |k| && ConstBytes(k[i]) == Success(first) && ConstsBytes(k[i + 1..]) == Success(others)
    ensures ConstsBytes(k[i..]) == Success(first + others)
  {
    assert k[i..][1..] == k[i + 1..];
  }

  /** The file that the sample is saved to. */
  lemma SampleIsWritten(n: Number)
    ensures Dump(ToProto(Sample(n))) == Success(FileOf(n))
  {
    hide ConstsBytes, FixedBytes, StringBytes, IntBytes, Unescape, ProtoBytes, EmptyBytes;
    var p := ToProto(Sample(n));
    SampleStrings();
    SampleFixed(n);
    SampleConsts(n);
    EmptyIsWritten();
    ShortInt(5);
    ShortInt(1);
    assert p.p == [ToProto(Empty())] && p.p[1..] == [];
    assert EmptyBytes() + [] == EmptyBytes();
    assert ProtosBytes(p.p) == Success(EmptyBytes());
    InOrder(p, [2, 0, 0, 0, 0, 0, 0, 0, 97, 0], [2, 0, 0, 0, 0, 0, 0, 0, 102, 0], ConstsBytes(p.k).value, EmptyBytes());
  }

  lemma InOrder(p: Proto, source: seq<u8>, name: seq<u8>, constants: seq<u8>, nested: seq<u8>)
    requires StringBytes(p.source) == Success(source) && StringBytes(p.name) == Success(name)
    requires ConstsBytes(p.k) == Success(constants) && ProtosBytes(p.p) == Success(nested)
    ensures ProtoBytes(p) ==
            Success(source + name + FixedBytes(p) + IntBytes(|p.k|) + constants + IntBytes(|p.p|) + nested)
  {
  }
}
