/**
 The code section of an assembly file: how the compiler reads it, and what the disassembler prints.
 A position in the file is the text from there on.
 */
module Assembly {
  import opened Words
  import opened Wrappers
  import opened Opcodes
  import opened Text

  /** How compiling stops: with an error message, or in a loop that the end of the file cannot end. */
  datatype AsmError = Unexpected | EndOfFile | Endless | UnknownOpcode | Malformed

  // ----- words -----

  /** What follows the end of the line. */
  function SkipLine(s: string): (r: Result<string, AsmError>)
    ensures r.Success? ==> |r.value| < |s|
  {
    if s == [] then Failure(Endless)
    else if s[0] == '\n' then Success(s[1..])
    else SkipLine(s[1..])
  }

  /** read_char, ignoring whitespace and comments. */
  function ReadChar(s: string): (r: Result<(char, string), AsmError>)
    ensures r.Success? ==> |r.value.1| < |s|
    decreases |s|
  {
    if s == [] then Failure(EndOfFile)
    else if IsSpace(s[0]) then ReadChar(s[1..])
    else if s[0] == ';' then
      var rest :- SkipLine(s[1..]);
      ReadChar(rest)
    else Success((s[0], s[1..]))
  }

  /** Up to and including the closing quote, which is not kept. */
  function ReadQuoted(s: string): (r: Result<(string, string), AsmError>)
    ensures r.Success? ==> |r.value.1| < |s|
  {
    if s == [] then Failure(Endless)
    else if s[0] == '"' then Success(([], s[1..]))
    else
      var (t, rest) :- ReadQuoted(s[1..]);
      Success(([s[0]] + t, rest))
  }

  /** The rest of a word and the whitespace character that ends it. */
  function ReadTail(s: string): (r: Result<(string, string), AsmError>)
    ensures r.Success? ==> |r.value.1| < |s|
    decreases |s|
  {
    if s == [] then Failure(EndOfFile)
    else if IsSpace(s[0]) then Success(([], s[1..]))
    else if s[0] == '"' then
      var (q, s1) :- ReadQuoted(s[1..]);
      var (t, rest) :- ReadTail(s1);
      Success((['"'] + q + t, rest))
    else
      var (t, rest) :- ReadTail(s[1..]);
      Success(([s[0]] + t, rest))
  }

  /** read_next */
  function ReadNext(s: string): (r: Result<(string, string), AsmError>)
    ensures r.Success? ==> |r.value.1| < |s|
  {
    var (c, s1) :- ReadChar(s);
    var (t, rest) :- ReadTail(s1);
    Success(([c] + t, rest))
  }

  // ----- operands -----

  /** One operand: a number, marked as a constant when a `K` follows its digits. */
  function ParseArg(arg: string): Result<int, AsmError> {
    ParseArgAt(arg, 0)
  }

  function ParseArgAt(arg: string, i: nat): Result<int, AsmError>
    requires i <= |arg|
    decreases |arg| - i
  {
    if i == |arg| then Success(Atoi(arg))
    else if IsDigit(arg[i]) then ParseArgAt(arg, i + 1)
    else if i != 0 && arg[i] == '-' then Failure(Malformed)
    else if arg[i] == 'K' then Success(MakeK(Atoi(arg)))
    else Success(Atoi(arg))
  }

  function SkipBlanks(s: string): (r: string)
    ensures |r| <= |s|
  {
    if s != [] && IsSpace(s[0]) && s[0] != '\n' then SkipBlanks(s[1..]) else s
  }

  /** An operand and the whitespace character that ends it; nothing when a comment starts first,
      even in the middle of the operand. */
  function ReadOperand(s: string): (r: Result<(Option<string>, string), AsmError>)
    ensures r.Success? ==> |r.value.1| < |s|
  {
    if s == [] then Failure(Endless)
    else if IsSpace(s[0]) then Success((Some([]), s[1..]))
    else if s[0] == ';' then
      var rest :- SkipLine(s[1..]);
      Success((None, rest))
    else
      var (t, rest) :- ReadOperand(s[1..]);
      Success((if t.None? then None else Some([s[0]] + t.value), rest))
  }

  /** The number an operand stands for, and the text of the next one if the line does not end first. */
  function ReadArg(arg: string, s: string): (r: Result<((int, Option<string>), string), AsmError>)
    ensures r.Success? ==> |r.value.1| < |s|
  {
    var v :- ParseArg(arg);
    var s1 := SkipBlanks(s);
    if s1 != [] && s1[0] == '\n' then Success(((v, None), s1[1..]))
    else
      var (t, rest) :- ReadOperand(s1);
      Success(((v, t), rest))
  }

  /** The loop of read_args, entered with the text of an operand. */
  function ReadMoreArgs(args: seq<int>, arg: string, s: string): (r: Result<(seq<int>, string), AsmError>)
    requires |args| < 3
    ensures r.Success? ==> |r.value.0| <= 3 && |r.value.1| < |s|
    decreases |s|
  {
    var ((v, t), rest) :- ReadArg(arg, s);
    if t.None? || |args| == 2 then Success((args + [v], rest))
    else ReadMoreArgs(args + [v], t.value, rest)
  }

  /** read_args: up to three operands. */
  function ReadArgs(s: string): (r: Result<(seq<int>, string), AsmError>)
    ensures r.Success? ==> |r.value.1| < |s|
  {
    var (arg, s1) :- ReadNext(s);
    ReadMoreArgs([], arg, s1)
  }

  /** An operand that was not written is -1. */
  function Arg(args: seq<int>, i: nat): int {
    if i < |args| then args[i] else -1
  }

  // ----- instructions -----

  function FindOpcode(name: string, from: nat): (op: nat)
    requires from <= NUM_OPS
    ensures from <= op <= NUM_OPS
    ensures op < NUM_OPS ==> LABELS[op] == name
    ensures forall j :: from <= j < op ==> LABELS[j] != name
    decreases NUM_OPS - from
  {
    if from == NUM_OPS || LABELS[from] == name then from else FindOpcode(name, from + 1)
  }

  function Build(op: nat, args: seq<int>): Word
    requires op < NUM_OPS
  {
    var i := SetOp(0, op);
    var flags := Args(op);
    if flags.bx then SetBx(SetA(i, Arg(args, 0)), Arg(args, 1))
    else if flags.sbx then
      SetSBx(SetA(i, if flags.a then Arg(args, 0) else 0), if flags.a then Arg(args, 1) else Arg(args, 0))
    else SetC(SetB(SetA(i, Arg(args, 0)), Arg(args, 1)), Arg(args, 2))
  }

  /** The instructions up to the word that closes the section. */
  function ReadCode(s: string): (r: Result<(seq<Word>, string), AsmError>)
    decreases |s|
  {
    var (name, s1) :- ReadNext(s);
    if name == "<CODE" then Success(([], s1))
    else
      var op := FindOpcode(name, 0);
      if op == NUM_OPS then Failure(UnknownOpcode)
      else
        var (args, s2) :- ReadArgs(s1);
        var (code, rest) :- ReadCode(s2);
        Success(([Build(op, args)] + code, rest))
  }

  /** `expect(file, ">CODE")` */
  function Expect(s: string): Result<string, AsmError> {
    match ReadChar(s)
    case Failure(e) => Failure(if e == EndOfFile then Unexpected else e)
    case Success((c, rest)) => if c == '>' && "CODE" <= rest then Success(rest[4..]) else Failure(Unexpected)
  }

  /** compile_code */
  function CompileCode(s: string): Result<(seq<Word>, string), AsmError> {
    var s1 :- Expect(s);
    ReadCode(s1)
  }

  // ----- printing -----

  /** The operands that print_op prints, in its order. */
  function PrintedOperands(i: Word): seq<int>
    requires GetOp(i) < NUM_OPS
  {
    Listed(GetOp(i), GetA(i), GetB(i), GetC(i), GetBx(i))
  }

  function OperandsText(xs: seq<int>): string {
    if xs == [] then [] else " " + IntText(xs[0]) + OperandsText(xs[1..])
  }

  /** print_op */
  function OpText(i: Word): string
    requires GetOp(i) < NUM_OPS
  {
    "\t" + LABELS[GetOp(i)] + OperandsText(PrintedOperands(i))
  }

  /** A line of the disassembly: indentation, the instruction, a comment, and further newlines (the
      comment of `closure` brings its own). */
  datatype CodeLine = CodeLine(indent: nat, inst: Word, comment: string, gap: nat)

  function Repeat(c: char, n: nat): string {
    seq(n, _ => c)
  }

  function LineText(line: CodeLine): string
    requires Printable(line)
  {
    Repeat('\t', line.indent) + OpText(line.inst) + "\t" + line.comment + "\n" + Repeat('\n', line.gap)
  }

  /** No comment, or a semicolon and anything but a newline. */
  predicate IsComment(s: string) {
    s == [] || (s[0] == ';' && '\n' !in s)
  }

  predicate Printable(line: CodeLine) {
    GetOp(line.inst) < NUM_OPS && IsComment(line.comment)
  }

  /** `nop` prints no operand, and reading it back takes the next word of the file for one. */
  predicate Readable(line: CodeLine) {
    Printable(line) && GetOp(line.inst) != 0
  }

  function LinesText(lines: seq<CodeLine>): string
    requires forall j :: 0 <= j < |lines| ==> Printable(lines[j])
  {
    if lines == [] then [] else LineText(lines[0]) + LinesText(lines[1..])
  }
}
