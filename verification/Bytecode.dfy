/**
 The bytecode format: what is written for a function prototype and what reading gives back.
 Sizes are those of x86-64: 4 bytes for an `int`, 8 for a `size_t`, 16 for a `long double`, low
 byte first.
 */
module Bytecode {
  import opened Words
  import opened Wrappers
  import opened Values
  import opened Blocks
  import opened Strings

  datatype Proto = Proto(
    source: CString,
    name: CString,
    linedefined: u32,
    lastlinedefined: u32,
    maxregisters: u8,
    numglobal: u8,
    numupval: u8,
    numparam: u8,
    code: seq<Word>,
    k: seq<Const>,
    p: seq<Proto>)

  predicate Small(x: int) {
    x < 0x8000_0000
  }

  /** The counts of the tree fit the `int` that the loops over its parts count with. */
  predicate Counted(p: Proto) {
    && Small(|p.code|)
    && Small(|p.k|)
    && Small(|p.p|)
    && forall i :: 0 <= i < |p.p| ==> Counted(p.p[i])
  }

  // ----- writing -----

  /** The `n` low bytes of a number, the lowest first. */
  function LittleEndian(x: int, n: nat): (b: seq<u8>)
    ensures |b| == n
    decreases n
  {
    if n == 0 then [] else [x % 256] + LittleEndian(x / 256, n - 1)
  }

  function IntBytes(x: int): seq<u8> {
    LittleEndian(x, 4)
  }

  function SizeBytes(x: int): seq<u8> {
    LittleEndian(x, 8)
  }

  function StringBytes(s: CString): Result<seq<u8>, DumpError> {
    if s.Content() == [] then Success(SizeBytes(0))
    else
      var t :- Unescape(s.Content());
      Success(SizeBytes(|t| + 1) + t + [0])
  }

  /** The tag of a constant and its payload; a function has none. */
  function ConstBytes(v: Const): Result<seq<u8>, DumpError> {
    match v
    case TNull => Success([0])
    case TNumber(n) => Success([1] + n)
    case TBoolean(b) => Success([2, b % 256])
    case TString(s) => Prepend([3], StringBytes(s))
    case TFunction(_) => Success([4])
  }

  function ConstsBytes(k: seq<Const>): Result<seq<u8>, DumpError> {
    if k == [] then Success([])
    else
      var first :- ConstBytes(k[0]);
      Prepend(first, ConstsBytes(k[1..]))
  }

  function CodeBytes(code: seq<Word>): seq<u8> {
    if code == [] then [] else IntBytes(code[0]) + CodeBytes(code[1..])
  }

  /** What is written after the two strings and before the constants. */
  function FixedBytes(p: Proto): seq<u8> {
    IntBytes(p.linedefined) + IntBytes(p.lastlinedefined)
    + [p.maxregisters, p.numglobal, p.numupval, p.numparam]
    + IntBytes(|p.code|) + CodeBytes(p.code)
  }

  function ProtoBytes(p: Proto): Result<seq<u8>, DumpError> {
    var source :- StringBytes(p.source);
    var name :- StringBytes(p.name);
    var constants :- ConstsBytes(p.k);
    var nested :- ProtosBytes(p.p);
    Success(source + name + FixedBytes(p) + IntBytes(|p.k|) + constants + IntBytes(|p.p|) + nested)
  }

  function ProtosBytes(ps: seq<Proto>): Result<seq<u8>, DumpError> {
    if ps == [] then Success([])
    else
      var first :- ProtoBytes(ps[0]);
      Prepend(first, ProtosBytes(ps[1..]))
  }

  /** The signature, the version, and the first byte of the integer 1, which tells endianness. */
  const HEADER: seq<u8> := [0x10, 0x62, 0x69, 0x6A, 0x05, 0x01]

  /** bijou_dump */
  function Dump(p: Proto): Result<seq<u8>, DumpError> {
    Prepend(HEADER, ProtoBytes(p))
  }

  // ----- reading -----

  /** How loading fails: with one of its messages, or by running into undefined behaviour. */
  datatype LoadError = BadInteger | BadHeader | UnknownType | EndOfFile | Crash

  /** The reader delivers as many bytes as asked for: at the end of the file `fgetc` returns EOF,
      whose low byte is 0xFF. */
  function Read(s: seq<u8>, n: nat): (seq<u8>, seq<u8>) {
    if n <= |s| then (s[..n], s[n..]) else (s + seq(n - |s|, _ => 0xFF), [])
  }

  /** An unsigned number converted to an `int`. */
  function AsInt(n: nat): int {
    var low := n % 0x1_0000_0000;
    if Small(low) then low else low - 0x1_0000_0000
  }

  const EOF := -1

  /** The reader returns how many bytes it delivered, as an `int`: a count of 2^32 - 1 reads as EOF,
      which ends the process. */
  function LoadBlock(s: seq<u8>, n: nat): Result<(seq<u8>, seq<u8>), LoadError> {
    if AsInt(n) == EOF then Failure(EndOfFile) else Success(Read(s, n))
  }

  function Pow256(n: nat): (p: nat)
    ensures p > 0
  {
    if n == 0 then 1 else 256 * Pow256(n - 1)
  }

  function OfLittleEndian(b: seq<u8>): (x: nat)
    ensures x < Pow256(|b|)
  {
    if b == [] then 0 else b[0] + 256 * OfLittleEndian(b[1..])
  }

  lemma {:induction false} TopByte(b: seq<u8>)
    requires b != []
    ensures OfLittleEndian(b) >= b[|b| - 1] * Pow256(|b| - 1)
  {
    if |b| > 1 {
      TopByte(b[1..]);
      assert b[|b| - 1] * Pow256(|b| - 1) == 256 * (b[|b| - 1] * Pow256(|b| - 2));
    }
  }

  function IntOf(b: seq<u8>): u32
    requires |b| == 4
  {
    assert Pow256(4) == 0x1_0000_0000;
    OfLittleEndian(b)
  }

  function LoadChar(s: seq<u8>): (u8, seq<u8>) {
    if s == [] then (0xFF, []) else (s[0], s[1..])
  }

  /** An `int`, rejected when its sign bit is set. */
  function LoadInt(s: seq<u8>): Result<(nat, seq<u8>), LoadError> {
    var (b, rest) := Read(s, 4);
    if Small(IntOf(b)) then Success((IntOf(b), rest)) else Failure(BadInteger)
  }

  /** The characters before the first NUL; running past the buffer is undefined. */
  function UpToNul(b: seq<u8>): Result<Chars, LoadError> {
    if b == [] then Failure(Crash)
    else if b[0] == 0 then Success([])
    else
      var t :- UpToNul(b[1..]);
      Success([b[0]] + t)
  }

  /** A size of 0 gives the null pointer. No allocation of 2^63 bytes or more succeeds. */
  function LoadString(s: seq<u8>): Result<(CString, seq<u8>), LoadError> {
    var (b, s1) := Read(s, 8);
    var size := OfLittleEndian(b);
    if size == 0 then Success((NullPtr, s1))
    else if size >= 0x8000_0000_0000_0000 then Failure(Crash)
    else
      var (chars, s2) :- LoadBlock(s1, size);
      var t :- UpToNul(chars);
      Success((Text(t), s2))
  }

  function WordsOf(n: nat, b: seq<u8>): seq<Word>
    requires |b| == 4 * n
  {
    if n == 0 then [] else [IntOf(b[..4])] + WordsOf(n - 1, b[4..])
  }

  function LoadCode(s: seq<u8>): Result<(seq<Word>, seq<u8>), LoadError> {
    var (n, s1) :- LoadInt(s);
    var (b, s2) := Read(s1, 4 * n);
    Success((WordsOf(n, b), s2))
  }

  function LoadConst(s: seq<u8>): Result<(Const, seq<u8>), LoadError> {
    var (tag, s1) := LoadChar(s);
    if tag == 0 || tag == 4 then Success((TNull, s1))
    else if tag == 1 then
      var (n, s2) := Read(s1, 16);
      Success((TNumber(n), s2))
    else if tag == 2 then
      var (b, s2) := LoadChar(s1);
      Success((TBoolean(if b != 0 then 1 else 0), s2))
    else if tag == 3 then
      var (t, s2) :- LoadString(s1);
      Success((TString(t), s2))
    else Failure(UnknownType)
  }

  function LoadConsts(n: nat, s: seq<u8>): Result<(seq<Const>, seq<u8>), LoadError> {
    if n == 0 then Success(([], s))
    else
      var (first, s1) :- LoadConst(s);
      var (others, s2) :- LoadConsts(n - 1, s1);
      Success(([first] + others, s2))
  }

  /** What precedes the constants, in a prototype that has none yet. */
  function LoadFixed(s: seq<u8>): Result<(Proto, seq<u8>), LoadError> {
    var (source, s1) :- LoadString(s);
    var (name, s2) :- LoadString(s1);
    var (line, s3) :- LoadInt(s2);
    var (last, s4) :- LoadInt(s3);
    var (regs, s5) := LoadChar(s4);
    var (globals, s6) := LoadChar(s5);
    var (upvals, s7) := LoadChar(s6);
    var (params, s8) := LoadChar(s7);
    var (code, s9) :- LoadCode(s8);
    Success((Proto(source, name, line, last, regs, globals, upvals, params, code, [], []), s9))
  }

  lemma StringConsumes(s: seq<u8>)
    ensures LoadString(s).Success? ==> |LoadString(s).value.1| + 8 <= |s|
  {
    hide UpToNul, OfLittleEndian, AsInt;
    var (b, s1) := Read(s, 8);
    if |s| < 8 {
      TopByte(b);
      assert b[7] == 0xFF && Pow256(7) == 0x100_0000_0000_0000;
    }
  }

  lemma IntConsumes(s: seq<u8>)
    ensures LoadInt(s).Success? ==> |LoadInt(s).value.1| <= |s|
    ensures LoadCode(s).Success? ==> |LoadCode(s).value.1| <= |s|
  {
    hide IntOf, WordsOf;
  }

  /** At the end of the file the size of the first string reads as 2^64 - 1 and loading stops;
      otherwise at least its 8 bytes are consumed. */
  lemma FixedConsumes(s: seq<u8>)
    ensures LoadFixed(s).Success? ==> |LoadFixed(s).value.1| + 8 <= |s|
  {
    hide LoadString, LoadInt, LoadCode;
    StringConsumes(s);
    forall s1: seq<u8> ensures LoadString(s1).Success? ==> |LoadString(s1).value.1| <= |s1| {
      StringConsumes(s1);
    }
    forall s1: seq<u8>
      ensures LoadInt(s1).Success? ==> |LoadInt(s1).value.1| <= |s1|
      ensures LoadCode(s1).Success? ==> |LoadCode(s1).value.1| <= |s1|
    {
      IntConsumes(s1);
    }
  }

  lemma {:induction false} ConstsConsume(n: nat, s: seq<u8>)
    ensures LoadConsts(n, s).Success? ==> |LoadConsts(n, s).value.1| <= |s|
  {
    if n > 0 && LoadConst(s).Success? {
      ConstsConsume(n - 1, LoadConst(s).value.1);
    }
  }

  function LoadProto(s: seq<u8>): (r: Result<(Proto, seq<u8>), LoadError>)
    ensures r.Success? ==> |r.value.1| < |s|
    decreases |s|, 0
  {
    FixedConsumes(s);
    var (p, s1) :- LoadFixed(s);
    var ((k, nested), s2) :- LoadTail(s1);
    Success((p.(k := k, p := nested), s2))
  }

  /** The constants and the nested prototypes. */
  function LoadTail(s: seq<u8>): (r: Result<((seq<Const>, seq<Proto>), seq<u8>), LoadError>)
    ensures r.Success? ==> |r.value.1| <= |s|
    decreases |s|, 2
  {
    var (sizek, s1) :- LoadInt(s);
    ConstsConsume(sizek, s1);
    var (k, s2) :- LoadConsts(sizek, s1);
    var (sizep, s3) :- LoadInt(s2);
    var (nested, s4) :- LoadProtos(sizep, s3);
    Success(((k, nested), s4))
  }

  function LoadProtos(n: nat, s: seq<u8>): (r: Result<(seq<Proto>, seq<u8>), LoadError>)
    ensures r.Success? ==> |r.value.1| <= |s|
    decreases |s|, 1
  {
    if n == 0 then Success(([], s))
    else
      var (first, s1) :- LoadProto(s);
      var (others, s2) :- LoadProtos(n - 1, s1);
      Success(([first] + others, s2))
  }

  /** bijou_load */
  function Load(s: seq<u8>): Result<(Proto, seq<u8>), LoadError> {
    var (h, rest) := Read(s, |HEADER|);
    if h != HEADER then Failure(BadHeader) else LoadProto(rest)
  }
}
