/** Reading undoes writing, up to an exact normal form. */
module RoundTrip {
  import opened Words
  import opened Wrappers
  import opened Values
  import opened Blocks
  import opened Strings
  import opened Bytecode

  // ----- the normal form -----

  /** An empty string comes back as the null pointer, any other one unescaped. */
  function NormString(s: CString): CString {
    if s.Content() == [] then NullPtr
    else
      match Unescape(s.Content())
      case Failure(_) => s
      case Success(t) => Text(t)
  }

  /** A boolean is written as its low byte; a function constant comes back as null. */
  function NormConst(v: Const): Const {
    match v
    case TString(s) => TString(NormString(s))
    case TBoolean(b) => TBoolean(if b % 256 == 0 then 0 else 1)
    case TFunction(_) => TNull
    case _ => v
  }

  function NormPool(k: seq<Const>): seq<Const> {
    seq(|k|, i requires 0 <= i < |k| => NormConst(k[i]))
  }

  function NormProto(p: Proto): Proto {
    p.(source := NormString(p.source),
       name := NormString(p.name),
       k := NormPool(p.k),
       p := NormProtos(p.p))
  }

  function NormProtos(ps: seq<Proto>): seq<Proto> {
    if ps == [] then [] else [NormProto(ps[0])] + NormProtos(ps[1..])
  }

  // ----- sizes -----

  /** Strings fit in memory. */
  predicate StringFits(s: CString) {
    |s.Content()| < 0x7FFF_FFFF_FFFF_FFFF
  }

  predicate ConstFits(v: Const) {
    v.TString? ==> StringFits(v.s)
  }

  predicate StringsFit(p: Proto) {
    && StringFits(p.source)
    && StringFits(p.name)
    && (forall i :: 0 <= i < |p.k| ==> ConstFits(p.k[i]))
    && forall i :: 0 <= i < |p.p| ==> StringsFit(p.p[i])
  }

  predicate Fits(p: Proto) {
    Counted(p) && StringsFit(p)
  }

  // ----- what the reader accepts -----

  /** The size that is written with a string does not read as EOF. */
  predicate StringLoads(s: CString) {
    AsInt(|NormString(s).Content()| + 1) != EOF
  }

  /** Such a string has 2^32 - 2 characters, for one. */
  lemma StringOfEofSize(s: CString)
    requires |s.Content()| == 0xFFFF_FFFE && BACKSLASH !in s.Content()
    ensures !StringLoads(s)
  {
    hide Unescape;
    UnescapeFixpoint(s.Content());
  }

  predicate ConstLoads(v: Const) {
    v.TString? ==> StringLoads(v.s)
  }

  /** No integer of the tree has the sign bit of an `int` set, and no string a size that reads as EOF. */
  predicate Loadable(p: Proto) {
    && StringLoads(p.source)
    && StringLoads(p.name)
    && Small(p.linedefined)
    && Small(p.lastlinedefined)
    && (forall i :: 0 <= i < |p.k| ==> ConstLoads(p.k[i]))
    && forall i :: 0 <= i < |p.p| ==> Loadable(p.p[i])
  }

  // The same in the order of the file, with the error that the first offender gives.

  type Check = Result<(), LoadError>

  function CheckString(s: CString): Check {
    if StringLoads(s) then Success(()) else Failure(EndOfFile)
  }

  function CheckInt(x: int): Check {
    if Small(x) then Success(()) else Failure(BadInteger)
  }

  function CheckConsts(k: seq<Const>): Check {
    if k == [] then Success(())
    else
      var _ :- if k[0].TString? then CheckString(k[0].s) else Success(());
      CheckConsts(k[1..])
  }

  function CheckFixed(p: Proto): Check {
    var _ :- CheckString(p.source);
    var _ :- CheckString(p.name);
    var _ :- CheckInt(p.linedefined);
    CheckInt(p.lastlinedefined)
  }

  function CheckProto(p: Proto): Check {
    var _ :- CheckFixed(p);
    var _ :- CheckConsts(p.k);
    CheckProtos(p.p)
  }

  function CheckProtos(ps: seq<Proto>): Check {
    if ps == [] then Success(())
    else
      var _ :- CheckProto(ps[0]);
      CheckProtos(ps[1..])
  }

  /** The value, unless the check fails. */
  function Checked<T>(c: Check, v: T): Result<T, LoadError> {
    match c
    case Failure(e) => Failure(e)
    case Success(_) => Success(v)
  }

  lemma {:induction false} ConstsLoadable(k: seq<Const>)
    ensures CheckConsts(k).Success? <==> forall i :: 0 <= i < |k| ==> ConstLoads(k[i])
  {
    if k != [] {
      ConstsLoadable(k[1..]);
      assert forall i :: 0 < i < |k| ==> k[i] == k[1..][i - 1];
    }
  }

  /** The file is accepted exactly when nothing in the tree offends. */
  lemma {:induction false} LoadableExactly(p: Proto)
    ensures CheckProto(p).Success? <==> Loadable(p)
    decreases p, 0
  {
    hide StringLoads, ConstLoads, Small;
    ConstsLoadable(p.k);
    LoadableAll(p.p);
  }

  lemma {:induction false} LoadableAll(ps: seq<Proto>)
    ensures CheckProtos(ps).Success? <==> forall i :: 0 <= i < |ps| ==> Loadable(ps[i])
    decreases ps, 1
  {
    hide CheckProto, Loadable;
    if ps != [] {
      LoadableExactly(ps[0]);
      LoadableAll(ps[1..]);
      assert forall i :: 0 < i < |ps| ==> ps[i] == ps[1..][i - 1];
    }
  }

  // ----- what can be written -----

  predicate Unescapes(s: CString) {
    Unescape(s.Content()).Success?
  }

  predicate ConstUnescapes(v: Const) {
    v.TString? ==> Unescapes(v.s)
  }

  /** Every string of the tree unescapes. */
  predicate StringsUnescape(p: Proto) {
    && Unescapes(p.source)
    && Unescapes(p.name)
    && (forall i :: 0 <= i < |p.k| ==> ConstUnescapes(p.k[i]))
    && forall i :: 0 <= i < |p.p| ==> StringsUnescape(p.p[i])
  }

  lemma StringBytesExactly(s: CString)
    ensures StringBytes(s).Success? <==> Unescapes(s)
  {
  }

  lemma {:induction false} ConstsBytesExactly(k: seq<Const>)
    ensures ConstsBytes(k).Success? <==> forall i :: 0 <= i < |k| ==> ConstUnescapes(k[i])
  {
    hide StringBytes, Unescapes;
    if k != [] {
      if k[0].TString? { StringBytesExactly(k[0].s); }
      ConstsBytesExactly(k[1..]);
      assert forall i :: 0 < i < |k| ==> k[i] == k[1..][i - 1];
    }
  }

  lemma {:induction false} ProtoBytesExactly(p: Proto)
    ensures ProtoBytes(p).Success? <==> StringsUnescape(p)
    decreases p, 0
  {
    hide StringBytes, Unescapes, ConstsBytes, ConstUnescapes, FixedBytes, IntBytes;
    StringBytesExactly(p.source);
    StringBytesExactly(p.name);
    ConstsBytesExactly(p.k);
    ProtosBytesExactly(p.p);
  }

  lemma {:induction false} ProtosBytesExactly(ps: seq<Proto>)
    ensures ProtosBytes(ps).Success? <==> forall i :: 0 <= i < |ps| ==> StringsUnescape(ps[i])
    decreases ps, 1
  {
    hide ProtoBytes, StringsUnescape;
    if ps != [] {
      ProtoBytesExactly(ps[0]);
      ProtosBytesExactly(ps[1..]);
      assert forall i :: 0 < i < |ps| ==> ps[i] == ps[1..][i - 1];
    }
  }

  /** Writing succeeds exactly when every escape of every string, at any depth, is known and finished. */
  lemma DumpSucceedsExactly(p: Proto)
    ensures Dump(p).Success? <==> StringsUnescape(p)
  {
    ProtoBytesExactly(p);
  }

  // ----- pieces -----

  lemma ReadExactly(b: seq<u8>, s: seq<u8>)
    ensures Read(b + s, |b|) == (b, s)
  {
  }

  lemma {:induction false} OfLittleEndianOf(x: nat, n: nat)
    requires x < Pow256(n)
    ensures OfLittleEndian(LittleEndian(x, n)) == x
    decreases n
  {
    if n > 0 {
      OfLittleEndianOf(x / 256, n - 1);
      assert LittleEndian(x, n)[1..] == LittleEndian(x / 256, n - 1);
    }
  }

  lemma IntOfBytes(x: u32)
    ensures IntOf(IntBytes(x)) == x
  {
    assert Pow256(4) == 0x1_0000_0000;
    OfLittleEndianOf(x, 4);
  }

  lemma IntRoundTrip(x: u32, s: seq<u8>)
    ensures LoadInt(IntBytes(x) + s) == Checked(CheckInt(x), (x, s))
  {
    hide LittleEndian, IntOf;
    ReadExactly(IntBytes(x), s);
    IntOfBytes(x);
  }

  lemma {:induction false} UpToNulOf(t: Chars)
    ensures UpToNul(t + [0]) == Success(t)
  {
    if t != [] {
      assert (t + [0])[1..] == t[1..] + [0];
      UpToNulOf(t[1..]);
      assert [t[0]] + t[1..] == t;
    }
  }

  lemma SizeOfBytes(size: nat)
    requires size < 0x1_0000_0000_0000_0000
    ensures OfLittleEndian(SizeBytes(size)) == size
  {
    assert Pow256(8) == 0x1_0000_0000_0000_0000;
    OfLittleEndianOf(size, 8);
  }

  lemma ShortReads()
    ensures AsInt(1) != EOF
  {
  }

  /** A written string comes back in normal form, unless its size reads as EOF. */
  lemma StringRoundTrip(str: CString, bytes: seq<u8>, s: seq<u8>)
    requires StringBytes(str) == Success(bytes) && StringFits(str)
    ensures LoadString(bytes + s) == Checked(CheckString(str), (NormString(str), s))
  {
    hide LittleEndian, OfLittleEndian, Unescape, UpToNul, AsInt;
    if str.Content() == [] {
      ShortReads();
      SizeOfBytes(0);
      ReadExactly(SizeBytes(0), s);
    } else {
      var t := Unescape(str.Content()).value;
      var size := |t| + 1;
      assert bytes + s == SizeBytes(size) + ((t + [0]) + s);
      ReadExactly(SizeBytes(size), (t + [0]) + s);
      ReadExactly(t + [0], s);
      SizeOfBytes(size);
      UpToNulOf(t);
    }
  }

  lemma {:induction false} CodeBytesLength(code: seq<Word>)
    ensures |CodeBytes(code)| == 4 * |code|
  {
    if code != [] {
      CodeBytesLength(code[1..]);
    }
  }

  lemma {:induction false} WordsOfCode(code: seq<Word>)
    requires |CodeBytes(code)| == 4 * |code|
    ensures WordsOf(|code|, CodeBytes(code)) == code
  {
    if code != [] {
      CodeBytesLength(code[1..]);
      WordsOfCode(code[1..]);
      var b := CodeBytes(code);
      assert b[..4] == IntBytes(code[0]) && b[4..] == CodeBytes(code[1..]);
      IntOfBytes(code[0]);
    }
  }

  lemma CodeRoundTrip(code: seq<Word>, s: seq<u8>)
    requires |code| < 0x1_0000_0000
    ensures LoadCode(IntBytes(|code|) + (CodeBytes(code) + s)) == Checked(CheckInt(|code|), (code, s))
  {
    IntRoundTrip(|code|, CodeBytes(code) + s);
    CodeBytesLength(code);
    ReadExactly(CodeBytes(code), s);
    WordsOfCode(code);
  }

  lemma ConstRoundTrip(v: Const, bytes: seq<u8>, s: seq<u8>)
    requires ConstBytes(v) == Success(bytes) && ConstFits(v)
    ensures LoadConst(bytes + s) == Checked(if v.TString? then CheckString(v.s) else Success(()), (NormConst(v), s))
  {
    hide StringBytes, LoadString, NormString, CheckString;
    assert (bytes + s)[1..] == bytes[1..] + s;
    assert [] + s == s;
    match v
    case TNumber(n) => ReadExactly(n, s);
    case TBoolean(b) => assert (bytes[1..] + s)[1..] == s;
    case TString(str) => StringRoundTrip(str, bytes[1..], s);
    case _ =>
  }

  lemma {:induction false} ConstsRoundTrip(k: seq<Const>, bytes: seq<u8>, s: seq<u8>)
    requires ConstsBytes(k) == Success(bytes) && forall i :: 0 <= i < |k| ==> ConstFits(k[i])
    ensures LoadConsts(|k|, bytes + s) == Checked(CheckConsts(k), (NormPool(k), s))
  {
    if k == [] {
      assert bytes + s == s;
    } else {
      var first, others := ConstBytes(k[0]).value, ConstsBytes(k[1..]).value;
      assert bytes + s == first + (others + s);
      ConstRoundTrip(k[0], first, others + s);
      ConstsRoundTrip(k[1..], others, s);
      assert NormPool(k) == [NormConst(k[0])] + NormPool(k[1..]);
    }
  }

  // ----- prototypes -----

  /** The part of a prototype that is written before its constants. */
  function Fixed(p: Proto): Proto {
    p.(source := NormString(p.source), name := NormString(p.name), k := [], p := [])
  }

  lemma OneChar(c: u8, s: seq<u8>)
    ensures LoadChar([c] + s) == (c, s)
  {
    assert ([c] + s)[1..] == s;
  }

  lemma FixedInOrder(p: Proto, s: seq<u8>)
    ensures FixedBytes(p) + s ==
            IntBytes(p.linedefined) + (IntBytes(p.lastlinedefined)
            + ([p.maxregisters] + ([p.numglobal] + ([p.numupval] + ([p.numparam]
            + (IntBytes(|p.code|) + (CodeBytes(p.code) + s)))))))
  {
    hide IntBytes, CodeBytes;
  }

  lemma SmallChecks(x: int)
    requires Small(x)
    ensures CheckInt(x) == Success(())
  {
  }

  lemma FixedRoundTrip(p: Proto, source: seq<u8>, name: seq<u8>, s: seq<u8>)
    requires StringBytes(p.source) == Success(source) && StringBytes(p.name) == Success(name)
    requires StringFits(p.source) && StringFits(p.name) && Small(|p.code|)
    ensures LoadFixed(source + (name + (FixedBytes(p) + s))) == Checked(CheckFixed(p), (Fixed(p), s))
  {
    hide CheckString, CheckInt, LoadString, LoadInt, LoadChar, LoadCode, IntBytes, FixedBytes;
    var s8 := IntBytes(|p.code|) + (CodeBytes(p.code) + s);
    var s7 := [p.numparam] + s8;
    var s6 := [p.numupval] + s7;
    var s5 := [p.numglobal] + s6;
    var s4 := [p.maxregisters] + s5;
    var s3 := IntBytes(p.lastlinedefined) + s4;
    var s2 := IntBytes(p.linedefined) + s3;
    FixedInOrder(p, s);
    StringRoundTrip(p.source, source, name + s2);
    StringRoundTrip(p.name, name, s2);
    IntRoundTrip(p.linedefined, s3);
    IntRoundTrip(p.lastlinedefined, s4);
    OneChar(p.maxregisters, s5);
    OneChar(p.numglobal, s6);
    OneChar(p.numupval, s7);
    OneChar(p.numparam, s8);
    SmallChecks(|p.code|);
    CodeRoundTrip(p.code, s);
  }

  /** Loading what was written for a tree, followed by anything, gives the normal form of the tree
      and leaves what followed, unless an integer of the tree is negative as an `int` or the size of a
      string reads as EOF; then it fails with the error of the first of these in the file. */
  lemma {:induction false} ProtoRoundTrip(p: Proto, bytes: seq<u8>, s: seq<u8>)
    requires ProtoBytes(p) == Success(bytes) && Fits(p)
    ensures LoadProto(bytes + s) == Checked(CheckProto(p), (NormProto(p), s))
    decreases p, 0
  {
    hide LoadFixed, CheckFixed, CheckConsts, LoadInt, LoadConsts, IntBytes, FixedBytes, StringBytes, ConstsBytes, NormPool;
    var source, name := StringBytes(p.source).value, StringBytes(p.name).value;
    var constants, nested := ConstsBytes(p.k).value, ProtosBytes(p.p).value;
    var s4 := nested + s;
    var s3 := IntBytes(|p.p|) + s4;
    var s2 := constants + s3;
    var s1 := IntBytes(|p.k|) + s2;
    assert bytes + s == source + (name + (FixedBytes(p) + s1));
    FixedRoundTrip(p, source, name, s1);
    IntRoundTrip(|p.k|, s2);
    ConstsRoundTrip(p.k, constants, s3);
    IntRoundTrip(|p.p|, s4);
    ProtosRoundTrip(p.p, nested, s);
  }

  lemma {:induction false} ProtosRoundTrip(ps: seq<Proto>, bytes: seq<u8>, s: seq<u8>)
    requires ProtosBytes(ps) == Success(bytes) && forall i :: 0 <= i < |ps| ==> Fits(ps[i])
    ensures LoadProtos(|ps|, bytes + s) == Checked(CheckProtos(ps), (NormProtos(ps), s))
    decreases ps, 1
  {
    hide LoadProto, ProtoBytes, Fits, CheckProto, NormProto;
    if ps == [] {
      assert bytes + s == s;
    } else {
      var first, others := ProtoBytes(ps[0]).value, ProtosBytes(ps[1..]).value;
      assert bytes + s == first + (others + s);
      ProtoRoundTrip(ps[0], first, others + s);
      ProtosRoundTrip(ps[1..], others, s);
    }
  }

  /** A file with another header, or none, is refused; otherwise the prototype behind it is read. */
  lemma HeaderExactly(s: seq<u8>)
    ensures Load(s) == if HEADER <= s then LoadProto(s[6..]) else Failure(BadHeader)
  {
    hide LoadProto;
    if |s| < 6 {
      assert Read(s, 6).0[5] == 0xFF;
    } else {
      assert HEADER <= s <==> s[..6] == HEADER;
    }
  }

  /** The characters of a loaded string end at its first NUL; without one the reader runs on. */
  lemma {:induction false} UpToNulExactly(b: seq<u8>, n: nat)
    requires n <= |b| && 0 !in b[..n] && (n < |b| ==> b[n] == 0)
    ensures UpToNul(b) == if n < |b| then Success(b[..n]) else Failure(Crash)
  {
    if n > 0 {
      assert b[0] == b[..n][0] && b[1..][..n - 1] == b[..n][1..];
      UpToNulExactly(b[1..], n - 1);
      assert [b[0]] + b[1..][..n - 1] == b[..n];
    }
  }

  /** The whole file: header, tree, and whatever follows. */
  lemma DumpThenLoad(p: Proto, bytes: seq<u8>, s: seq<u8>)
    requires Dump(p) == Success(bytes) && Fits(p)
    ensures Load(bytes + s) == Checked(CheckProto(p), (NormProto(p), s))
    ensures Load(bytes + s).Success? <==> Loadable(p)
  {
    hide ProtoBytes, LoadProto, NormProto, CheckProto, Loadable;
    LoadableExactly(p);
    var body := ProtoBytes(p).value;
    assert bytes + s == HEADER + (body + s);
    ReadExactly(HEADER, body + s);
    ProtoRoundTrip(p, body, s);
  }

  /** No dump is a proper prefix of another, and equal dumps come from trees with one normal form. */
  lemma UniqueDecoding(p: Proto, q: Proto, bytes: seq<u8>, bytes': seq<u8>)
    requires Dump(p) == Success(bytes) && Fits(p) && Loadable(p)
    requires Dump(q) == Success(bytes') && Fits(q) && Loadable(q)
    requires bytes <= bytes'
    ensures NormProto(p) == NormProto(q) && bytes == bytes'
  {
    hide Load, Dump;
    var rest := bytes'[|bytes|..];
    assert bytes + rest == bytes' + [];
    DumpThenLoad(p, bytes, rest);
    DumpThenLoad(q, bytes', []);
  }
}
