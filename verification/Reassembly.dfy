/** What the disassembler prints, the assembler reads back. */
module Reassembly {
  import opened Words
  import opened Wrappers
  import opened Opcodes
  import opened Text
  import opened Assembly
  import opened Blocks
  import opened Machine
  import opened Simulation
  import opened Compiler

  // ----- operands -----

  lemma {:induction false} ParseDigits(arg: string, i: nat, n: nat)
    requires i <= n <= |arg| && forall j :: i <= j < n ==> IsDigit(arg[j])
    ensures ParseArgAt(arg, i) == ParseArgAt(arg, n)
    decreases n - i
  {
    if i < n {
      ParseDigits(arg, i + 1, n);
    }
  }

  /** The decimal text of a number is read as that number. */
  lemma ParseNumber(x: int)
    ensures ParseArg(IntText(x)) == Success(x)
  {
    IntTextChars(x);
    AtoiOfText(x, []);
    assert IntText(x) + [] == IntText(x);
    if IsDigit(IntText(x)[0]) {
      ParseDigits(IntText(x), 0, |IntText(x)|);
    }
  }

  /** A constant index written with `K` is read with the constant bit set. */
  lemma ParseConstant(n: nat)
    ensures ParseArg(NatText(n) + "K") == Success(MakeK(n))
  {
    NatTextDigits(n);
    AtoiOfText(n, "K");
    ParseDigits(NatText(n) + "K", 0, |NatText(n)|);
  }

  /** Of a constant index below 256 the B field keeps everything: the interpreter's RK finds it
      again. The same holds of the C field, and of registers. */
  lemma OperandFields(i: Word, n: nat)
    requires n < 256
    ensures GetB(SetB(i, MakeK(n))) == n + 256 && GetC(SetC(i, MakeK(n))) == n + 256
    ensures IsK(n + 256) && IndexK(n + 256) == n
    ensures GetB(SetB(i, n)) == n && GetC(SetC(i, n)) == n && GetA(SetA(i, n)) == n && !IsK(n)
  {
    hide SetA, SetB, SetC, GetA, GetB, GetC;
    ConstantBit(n);
    GetAfterSet(i, MakeK(n));
    GetAfterSet(i, n);
  }

  // ----- words and lines -----

  /** Characters that neither end a word nor begin a comment or a quotation. */
  predicate Solid(s: string) {
    forall i :: 0 <= i < |s| ==> !IsSpace(s[i]) && s[i] != ';' && s[i] != '"'
  }

  predicate AllSpace(s: string) {
    forall i :: 0 <= i < |s| ==> IsSpace(s[i])
  }

  lemma {:induction false} SkipSpaces(ws: string, s: string)
    requires AllSpace(ws)
    ensures ReadChar(ws + s) == ReadChar(s)
  {
    if ws == [] {
      assert ws + s == s;
    } else {
      assert (ws + s)[1..] == ws[1..] + s;
      SkipSpaces(ws[1..], s);
    }
  }

  lemma {:induction false} ReadTailSolid(t: string, c: char, s: string)
    requires Solid(t) && IsSpace(c)
    ensures ReadTail(t + [c] + s) == Success((t, s))
  {
    var all := t + [c] + s;
    if t == [] {
      assert all == [c] + s;
    } else {
      assert all[1..] == t[1..] + [c] + s;
      ReadTailSolid(t[1..], c, s);
      assert [t[0]] + t[1..] == t;
    }
  }

  lemma ReadNextSolid(ws: string, t: string, c: char, s: string)
    requires AllSpace(ws) && t != [] && Solid(t) && IsSpace(c)
    ensures ReadNext(ws + t + [c] + s) == Success((t, s))
  {
    assert ws + t + [c] + s == ws + (t + [c] + s);
    SkipSpaces(ws, t + [c] + s);
    assert (t + [c] + s)[1..] == t[1..] + [c] + s;
    ReadTailSolid(t[1..], c, s);
    assert [t[0]] + t[1..] == t;
  }

  lemma {:induction false} ReadOperandSolid(t: string, c: char, s: string)
    requires Solid(t) && IsSpace(c)
    ensures ReadOperand(t + [c] + s) == Success((Some(t), s))
  {
    var all := t + [c] + s;
    if t == [] {
      assert all == [c] + s;
    } else {
      assert all[1..] == t[1..] + [c] + s;
      ReadOperandSolid(t[1..], c, s);
      assert [t[0]] + t[1..] == t;
    }
  }

  lemma {:induction false} SkipLineOf(t: string, s: string)
    requires '\n' !in t
    ensures SkipLine(t + "\n" + s) == Success(s)
  {
    var all := t + "\n" + s;
    if t != [] {
      assert all[1..] == t[1..] + "\n" + s;
      SkipLineOf(t[1..], s);
    }
  }

  lemma NumberIsSolid(x: int)
    ensures IntText(x) != [] && Solid(IntText(x))
  {
    IntTextChars(x);
  }

  lemma LabelLetters(op: nat)
    requires op < NUM_OPS
    ensures LABELS[op] != [] && forall k :: 0 <= k < |LABELS[op]| ==> 'a' <= LABELS[op][k] <= 'z'
  {
  }

  lemma LabelsDistinct()
    ensures forall i, j :: 0 <= i < j < NUM_OPS ==> LABELS[i] != LABELS[j]
  {
  }

  lemma LabelFound(op: nat)
    requires op < NUM_OPS
    ensures FindOpcode(LABELS[op], 0) == op
  {
    LabelsDistinct();
  }

  lemma LabelIsSolid(op: nat)
    requires op < NUM_OPS
    ensures LABELS[op] != [] && Solid(LABELS[op]) && 'a' <= LABELS[op][0] <= 'z'
    ensures LABELS[op] != "<CODE" && FindOpcode(LABELS[op], 0) == op
  {
    var name := LABELS[op];
    LabelLetters(op);
    LabelFound(op);
    assert "<CODE"[0] == '<';
  }

  /** What stands between the first operands and the end of the line. */
  function Remaining(xs: seq<int>, comment: string, s: string): string {
    if xs == [] then comment + "\n" + s
    else IntText(xs[0]) + [if |xs| == 1 then '\t' else ' '] + Remaining(xs[1..], comment, s)
  }

  lemma RemainingStep(number: string, operands: string, comment: string, s: string, c: char, rest: string)
    requires operands + "\t" + comment + "\n" + s == [c] + rest
    ensures " " + number + operands + "\t" + comment + "\n" + s == [' '] + (number + [c] + rest)
  {
    RegroupOperand(" " + number, operands, "\t", comment, "\n", s);
  }

  lemma RegroupOperand(a: string, b: string, c: string, d: string, e: string, f: string)
    ensures a + b + c + d + e + f == a + (b + c + d + e + f)
  {
  }

  lemma MoveOne(a: string, c: char, b: string)
    ensures a + ([c] + b) == a + [c] + b
  {
  }

  lemma RegroupLine(tabs: string, name: string, operands: string, comment: string, gap: string, s: string)
    ensures tabs + ("\t" + name + operands) + "\t" + comment + "\n" + gap + s ==
            (tabs + "\t") + name + (operands + "\t" + comment + "\n" + (gap + s))
  {
  }

  lemma {:induction false} RemainingText(xs: seq<int>, comment: string, s: string)
    ensures OperandsText(xs) + "\t" + comment + "\n" + s ==
            [if xs == [] then '\t' else ' '] + Remaining(xs, comment, s)
  {
    if xs != [] {
      RemainingText(xs[1..], comment, s);
      RemainingStep(IntText(xs[0]), OperandsText(xs[1..]), comment, s,
                    if |xs| == 1 then '\t' else ' ', Remaining(xs[1..], comment, s));
    }
  }

  /** The end of a line: nothing, or a comment. */
  lemma LastArg(args: seq<int>, x: int, comment: string, s: string)
    requires |args| < 3 && IsComment(comment)
    ensures ReadMoreArgs(args, IntText(x), comment + "\n" + s) == Success((args + [x], s))
  {
    hide ParseArg, IntText;
    ParseNumber(x);
    var rest := comment + "\n" + s;
    if comment == [] {
      assert rest == "\n" + s;
    } else {
      assert rest[1..] == comment[1..] + "\n" + s;
      SkipLineOf(comment[1..], s);
    }
  }

  lemma OneMoreArg(args: seq<int>, x: int, t: string, c: char, s: string)
    requires |args| < 2 && t != [] && Solid(t) && IsSpace(c)
    ensures ReadMoreArgs(args, IntText(x), t + [c] + s) == ReadMoreArgs(args + [x], t, s)
  {
    hide ParseArg, IntText, ReadOperand;
    ParseNumber(x);
    ReadOperandSolid(t, c, s);
    assert (t + [c] + s)[0] == t[0] && !IsSpace(t[0]);
  }

  lemma {:induction false} ReadMoreArgsOf(args: seq<int>, x: int, xs: seq<int>, comment: string, s: string)
    requires |args| + 1 + |xs| <= 3 && IsComment(comment)
    ensures ReadMoreArgs(args, IntText(x), Remaining(xs, comment, s)) == Success((args + [x] + xs, s))
    decreases |xs|
  {
    hide ReadMoreArgs, IntText, Solid, IsComment;
    if xs == [] {
      LastArg(args, x, comment, s);
      assert args + [x] + xs == args + [x];
    } else {
      var c := if |xs| == 1 then '\t' else ' ';
      NumberIsSolid(xs[0]);
      OneMoreArg(args, x, IntText(xs[0]), c, Remaining(xs[1..], comment, s));
      ReadMoreArgsOf(args + [x], xs[0], xs[1..], comment, s);
      assert args + [x] + [xs[0]] + xs[1..] == args + [x] + xs;
    }
  }

  /** Operands that print_op printed, up to the end of their line. */
  lemma ReadArgsOf(xs: seq<int>, comment: string, s: string)
    requires 1 <= |xs| <= 3 && IsComment(comment)
    ensures ReadArgs(Remaining(xs, comment, s)) == Success((xs, s))
  {
    hide ReadNext, ReadMoreArgs;
    var t, c := IntText(xs[0]), if |xs| == 1 then '\t' else ' ';
    NumberIsSolid(xs[0]);
    ReadNextSolid([], t, c, Remaining(xs[1..], comment, s));
    NothingBefore(t);
    ReadMoreArgsOf([], xs[0], xs[1..], comment, s);
    assert [] + [xs[0]] + xs[1..] == xs;
  }

  // ----- instructions -----

  lemma BuildABC(op: nat, a: int, b: int, c: int)
    requires op < 64
    ensures var i := SetC(SetB(SetA(SetOp(0, op), a), b), c);
            GetOp(i) == op && GetA(i) == a % 256 && GetB(i) == b % 512 && GetC(i) == c % 512
  {
    hide SetOp, SetA, SetB, SetC, GetOp, GetA, GetB, GetC;
    var i0 := SetOp(0, op);
    var i1 := SetA(i0, a);
    var i2 := SetB(i1, b);
    GetAfterSet(0, op);
    GetAfterSet(i0, a);
    GetAfterSet(i1, b);
    GetAfterSet(i2, c);
  }

  lemma BuildABx(op: nat, a: int, bx: int)
    requires op < 64
    ensures var i := SetBx(SetA(SetOp(0, op), a), bx);
            GetOp(i) == op && GetA(i) == a % 256 && GetBx(i) == bx % 262144
  {
    hide SetOp, SetA, SetBx, GetOp, GetA, GetB, GetC, GetBx;
    var i0 := SetOp(0, op);
    GetAfterSet(0, op);
    GetAfterSet(i0, a);
    GetAfterSetBx(SetA(i0, a), bx);
  }

  /** Clearing A leaves Bx alone. */
  lemma ClearA(i: Word)
    ensures var j := SetA(i, 0);
            GetOp(j) == GetOp(i) && GetA(j) == 0 && GetBx(j) == GetBx(i)
  {
    hide SetA, GetOp, GetA, GetB, GetC, GetBx;
    GetAfterSet(i, 0);
    CreateAfterGet(i);
    CreateAfterGet(SetA(i, 0));
  }

  /** The printed operands rebuild the instruction, its unlisted fields made canonical. */
  lemma BuildOfPrinted(i: Word)
    requires GetOp(i) < NUM_OPS
    ensures Build(GetOp(i), PrintedOperands(i)) == Canonical(i)
  {
    hide SetOp, SetA, SetB, SetC, SetBx, GetOp, GetA, GetB, GetC, GetBx, CreateABC, CreateABx;
    CreateAfterGet(i);
    var op, flags, xs := GetOp(i), Args(GetOp(i)), PrintedOperands(i);
    if flags.bx {
      assert xs == [GetA(i), GetBx(i)];
      BuildABx(op, GetA(i), GetBx(i));
      SameABx(Build(op, xs), i);
    } else if flags.sbx {
      assert xs == [GetSBx(i)];
      BuildABx(op, 0, GetBx(i));
      ClearA(i);
      SameABx(Build(op, xs), SetA(i, 0));
    } else {
      var a, b, c := Arg(xs, 0), Arg(xs, 1), Arg(xs, 2);
      assert flags.c ==> flags.b;
      assert flags.b ==> flags.a;
      BuildABC(op, a, b, c);
      GetAfterCreate(op, a % 256, b % 512, c % 512);
      SameFields(Build(op, xs), CreateABC(op, a % 256, b % 512, c % 512));
    }
  }

  lemma LineShape(line: CodeLine, s: string)
    requires Readable(line)
    ensures var xs, ws := PrintedOperands(line.inst), Repeat('\t', line.indent) + "\t";
            && 1 <= |xs| <= 3
            && AllSpace(ws)
            && LineText(line) + s ==
               ws + LABELS[GetOp(line.inst)] + [' '] + Remaining(xs, line.comment, Repeat('\n', line.gap) + s)
  {
    hide GetOp, GetA, GetB, GetC, GetBx, Remaining, OperandsText, IsComment;
    var op, xs, end := GetOp(line.inst), PrintedOperands(line.inst), Repeat('\n', line.gap) + s;
    var ws := Repeat('\t', line.indent) + "\t";
    assert 1 <= |xs| <= 3;
    RemainingText(xs, line.comment, end);
    RegroupLine(Repeat('\t', line.indent), LABELS[op], OperandsText(xs), line.comment, Repeat('\n', line.gap), s);
    MoveOne(ws + LABELS[op], ' ', Remaining(xs, line.comment, end));
  }

  /** One printed line gives back its instruction and leaves the rest of the text. */
  lemma LineReads(line: CodeLine, s: string)
    requires Readable(line)
    ensures var op := GetOp(line.inst);
            match ReadNext(LineText(line) + s)
            case Failure(_) => false
            case Success((name, rest)) =>
              name == LABELS[op] && ReadArgs(rest) == Success((PrintedOperands(line.inst), Repeat('\n', line.gap) + s))
  {
    hide GetOp, LineText, PrintedOperands, Repeat, ReadNext, ReadArgs, Remaining, Solid, AllSpace, IsComment;
    var op, xs, end := GetOp(line.inst), PrintedOperands(line.inst), Repeat('\n', line.gap) + s;
    LineShape(line, s);
    LabelIsSolid(op);
    ReadNextSolid(Repeat('\t', line.indent) + "\t", LABELS[op], ' ', Remaining(xs, line.comment, end));
    ReadArgsOf(xs, line.comment, end);
  }

  function CanonicalCode(lines: seq<CodeLine>): seq<Word>
    requires forall j :: 0 <= j < |lines| ==> Printable(lines[j])
  {
    seq(|lines|, j requires 0 <= j < |lines| => CanonicalInst(lines[j]))
  }

  function CanonicalInst(line: CodeLine): Word
    requires Printable(line)
  {
    Canonical(line.inst)
  }

  lemma {:induction false} ReadCodeAfterSpace(ws: string, s: string)
    requires AllSpace(ws)
    ensures ReadCode(ws + s) == ReadCode(s)
  {
    SkipSpaces(ws, s);
    assert ReadNext(ws + s) == ReadNext(s);
  }

  lemma LineThenCode(line: CodeLine, more: string)
    requires Readable(line)
    ensures ReadCode(LineText(line) + more) ==
            match ReadCode(more)
            case Failure(e) => Failure(e)
            case Success((code, s)) => Success(([CanonicalInst(line)] + code, s))
  {
    hide Canonical, Build, PrintedOperands, LineText, ReadNext, ReadArgs, FindOpcode;
    LineReads(line, more);
    LabelIsSolid(GetOp(line.inst));
    BuildOfPrinted(line.inst);
    ReadCodeAfterSpace(Repeat('\n', line.gap), more);
  }

  lemma CloseReads(s: string)
    ensures ReadNext("<CODE\n" + s) == Success(("<CODE", s))
    ensures ReadCode("<CODE\n" + s) == Success(([], s))
  {
    ReadNextSolid([], "<CODE", '\n', s);
    assert "<CODE\n" + s == [] + "<CODE" + ['\n'] + s;
  }

  lemma SplitLines(lines: seq<CodeLine>, end: string)
    requires lines != [] && forall j :: 0 <= j < |lines| ==> Printable(lines[j])
    ensures LinesText(lines) + end == LineText(lines[0]) + (LinesText(lines[1..]) + end)
    ensures CanonicalCode(lines) == [CanonicalInst(lines[0])] + CanonicalCode(lines[1..])
  {
    hide LineText, Printable, CanonicalCode;
    Associate(LineText(lines[0]), LinesText(lines[1..]), end);
    SplitCode(lines);
  }

  lemma Associate(a: string, b: string, c: string)
    ensures (a + b) + c == a + (b + c)
  {
  }

  lemma SplitCode(lines: seq<CodeLine>)
    requires lines != [] && forall j :: 0 <= j < |lines| ==> Printable(lines[j])
    ensures CanonicalCode(lines) == [CanonicalInst(lines[0])] + CanonicalCode(lines[1..])
  {
    hide Printable, CanonicalInst;
  }

  lemma {:induction false} LinesRead(lines: seq<CodeLine>, s: string)
    requires forall j :: 0 <= j < |lines| ==> Printable(lines[j])
    ensures ReadCode(LinesText(lines) + ("<CODE\n" + s)) == Success((CanonicalCode(lines), s)) <==>
            forall j :: 0 <= j < |lines| ==> GetOp(lines[j].inst) != 0
  {
    hide Canonical, LineText, ReadCode, GetOp, IsComment;
    var end := "<CODE\n" + s;
    CloseReads(s);
    if lines == [] {
      assert LinesText(lines) + end == end && CanonicalCode(lines) == [];
    } else {
      SplitLines(lines, end);
      if GetOp(lines[0].inst) == 0 {
        NopReads(lines, s);
      } else {
        LineThenCode(lines[0], LinesText(lines[1..]) + end);
        LinesRead(lines[1..], s);
        PrependInst(CanonicalInst(lines[0]), ReadCode(LinesText(lines[1..]) + end), CanonicalCode(lines[1..]), s);
        assert forall j :: 0 <= j < |lines[1..]| ==> lines[1..][j] == lines[j + 1];
        if forall j :: 0 <= j < |lines[1..]| ==> GetOp(lines[1..][j].inst) != 0 {
          forall j | 0 <= j < |lines| ensures GetOp(lines[j].inst) != 0 {
            assert j > 0 ==> lines[1..][j - 1] == lines[j];
          }
        }
      }
    }
  }

  lemma PrependInst(w: Word, r: Result<(seq<Word>, string), AsmError>, code: seq<Word>, s: string)
    ensures r == Success((code, s)) <==>
            r.Success? && ([w] + r.value.0, r.value.1) == ([w] + code, s)
  {
    if r.Success? && ([w] + r.value.0, r.value.1) == ([w] + code, s) {
      assert ([w] + r.value.0)[1..] == r.value.0 && ([w] + code)[1..] == code;
    }
  }

  // ----- nop -----

  /** A word that begins like no number is read as the operand 0. */
  lemma LetterIsZero(t: string)
    requires t != [] && ('a' <= t[0] <= 'z' || t[0] == '<')
    ensures ParseArg(t) == Success(0)
  {
  }

  lemma {:induction false} FirstArgStays(args: seq<int>, arg: string, s: string)
    requires |args| < 3 && ReadMoreArgs(args, arg, s).Success?
    ensures args + [ParseArg(arg).value] <= ReadMoreArgs(args, arg, s).value.0
    decreases |s|
  {
    hide ParseArg;
    var ((v, t), rest) := ReadArg(arg, s).value;
    if t.Some? && |args| < 2 {
      FirstArgStays(args + [v], t.value, rest);
    }
  }

  lemma CloseIsZero(s: string)
    ensures var r := ReadNext("<CODE\n" + s);
            r.Success? && ParseArg(r.value.0) == Success(0)
  {
    hide ParseArg, ReadNext;
    CloseReads(s);
    LetterIsZero("<CODE");
  }

  /** The first word of what is left of a code section: a name, or the closing word. */
  lemma FirstWord(lines: seq<CodeLine>, s: string)
    requires forall j :: 0 <= j < |lines| ==> Printable(lines[j])
    ensures var r := ReadNext(LinesText(lines) + ("<CODE\n" + s));
            r.Success? && ParseArg(r.value.0) == Success(0)
  {
    hide ParseArg, ReadNext, LineText, LinesText, Printable;
    var end := "<CODE\n" + s;
    if lines == [] {
      NoLines(end);
      CloseIsZero(s);
    } else {
      SplitLines(lines, end);
      NameIsZero(lines[0], LinesText(lines[1..]) + end);
    }
  }

  lemma NoLines(end: string)
    ensures LinesText([]) + end == end
  {
  }

  lemma NameIsZero(line: CodeLine, s: string)
    requires Printable(line)
    ensures var r := ReadNext(LineText(line) + s);
            r.Success? && ParseArg(r.value.0) == Success(0)
  {
    hide ParseArg, ReadNext, LineText, Solid, GetOp, FindOpcode, IsComment;
    NameReads(line, s);
    LabelIsSolid(GetOp(line.inst));
    LetterIsZero(LABELS[GetOp(line.inst)]);
  }

  /** The name on a printed line, whatever the operands. */
  lemma NameReads(line: CodeLine, s: string)
    requires Printable(line)
    ensures var r := ReadNext(LineText(line) + s);
            && r.Success? && r.value.0 == LABELS[GetOp(line.inst)]
            && (GetOp(line.inst) == 0 ==> r.value.1 == line.comment + "\n" + (Repeat('\n', line.gap) + s))
  {
    hide LineText, ReadNext;
    if GetOp(line.inst) != 0 {
      LineReads(line, s);
    } else {
      NopShape(line, s);
      ReadNextSolid(Repeat('\t', line.indent) + "\t", "nop", '\t', line.comment + "\n" + (Repeat('\n', line.gap) + s));
    }
  }

  lemma NopShape(line: CodeLine, s: string)
    requires Printable(line) && GetOp(line.inst) == 0
    ensures LineText(line) + s == (Repeat('\t', line.indent) + "\t") + "nop" + ['\t']
                                  + (line.comment + "\n" + (Repeat('\n', line.gap) + s))
  {
    hide GetOp, IsComment, Repeat;
    assert PrintedOperands(line.inst) == [];
    RegroupLine(Repeat('\t', line.indent), "nop", [], line.comment, Repeat('\n', line.gap), s);
    NopRegroup(line.comment, Repeat('\n', line.gap) + s);
    MoveOne((Repeat('\t', line.indent) + "\t") + "nop", '\t', line.comment + "\n" + (Repeat('\n', line.gap) + s));
  }

  lemma NopRegroup(comment: string, s: string)
    ensures [] + "\t" + comment + "\n" + s == ['\t'] + (comment + "\n" + s)
  {
  }

  /** Reading goes on after a comment. */
  lemma CommentSkipped(comment: string, gap: nat, s: string)
    requires IsComment(comment)
    ensures ReadNext(comment + "\n" + (Repeat('\n', gap) + s)) == ReadNext(s)
  {
    var rest := Repeat('\n', gap) + s;
    SkipSpaces(Repeat('\n', gap), s);
    if comment == [] {
      assert comment + "\n" + rest == "\n" + rest;
      SkipSpaces("\n", rest);
    } else {
      assert (comment + "\n" + rest)[1..] == comment[1..] + "\n" + rest;
      SkipLineOf(comment[1..], rest);
    }
  }

  /** A `nop` takes the name on the next line for its first operand, which it reads as 0, so it
      does not come back as it should. */
  lemma NopReads(lines: seq<CodeLine>, s: string)
    requires lines != [] && forall j :: 0 <= j < |lines| ==> Printable(lines[j])
    requires GetOp(lines[0].inst) == 0
    ensures ReadCode(LinesText(lines) + ("<CODE\n" + s)) != Success((CanonicalCode(lines), s))
  {
    hide LineText, LinesText, ReadNext, ReadMoreArgs, ParseArg, FindOpcode, GetA;
    var end, line := "<CODE\n" + s, lines[0];
    var more := LinesText(lines[1..]) + end;
    SplitLines(lines, end);
    NameReads(line, more);
    LabelIsSolid(0);
    CommentSkipped(line.comment, line.gap, more);
    FirstWord(lines[1..], s);
    var r := ReadCode(LineText(line) + more);
    if r.Success? {
      var (word, s1) := ReadNext(more).value;
      FirstArgStays([], word, s1);
      var args := ReadMoreArgs([], word, s1).value.0;
      assert args[0] == 0;
      assert r.value.0[0] == Build(0, args);
      NopIsNotCanonical(args, line);
    }
  }

  lemma NopIsNotCanonical(args: seq<int>, line: CodeLine)
    requires args != [] && args[0] == 0 && Printable(line) && GetOp(line.inst) == 0
    ensures Build(0, args) != CanonicalInst(line)
  {
    hide SetOp, SetA, SetB, SetC, GetOp, GetA, GetB, GetC, CreateABC, IsComment;
    BuildABC(0, 0, Arg(args, 1), Arg(args, 2));
    GetAfterCreate(0, 255, 511, 511);
  }

  // ----- sections -----

  /** Assembling a disassembled code section gives the same instructions, with the operand fields
      that they do not list made canonical, and stops right after the section: exactly when the
      section holds no `nop`. */
  lemma ReassemblesExactly(lines: seq<CodeLine>, ws: string, s: string)
    requires AllSpace(ws) && forall j :: 0 <= j < |lines| ==> Printable(lines[j])
    ensures CompileCode(">CODE" + ws + LinesText(lines) + "<CODE\n" + s) == Success((CanonicalCode(lines), s)) <==>
            forall j :: 0 <= j < |lines| ==> GetOp(lines[j].inst) != 0
  {
    hide ReadCode, LinesText, CanonicalCode, CompileCode, GetOp;
    OpenReads(ws + (LinesText(lines) + ("<CODE\n" + s)));
    ReadCodeAfterSpace(ws, LinesText(lines) + ("<CODE\n" + s));
    LinesRead(lines, s);
    RegroupSection(">CODE", ws, LinesText(lines), "<CODE\n", s);
  }

  lemma RegroupSection(a: string, b: string, c: string, d: string, e: string)
    ensures a + b + c + d + e == a + (b + (c + (d + e)))
  {
  }

  lemma OpenReads(s: string)
    ensures CompileCode(">CODE" + s) == ReadCode(s)
  {
    hide ReadCode;
    assert ">CODE" + s == ['>'] + ("CODE" + s);
    assert (">CODE" + s)[1..] == "CODE" + s;
    assert ("CODE" + s)[4..] == s;
  }

  /** Code that can be printed: every opcode has a name, and comments are comments. */
  predicate PrintableCode(code: seq<Word>, comments: seq<(string, nat)>) {
    && |comments| == |code|
    && forall j :: 0 <= j < |code| ==> GetOp(code[j]) < NUM_OPS && IsComment(comments[j].0)
  }

  predicate NopFree(code: seq<Word>) {
    forall j :: 0 <= j < |code| ==> GetOp(code[j]) != 0
  }

  function CanonicalAll(code: seq<Word>): seq<Word>
    requires forall j :: 0 <= j < |code| ==> GetOp(code[j]) < NUM_OPS
  {
    seq(|code|, j requires 0 <= j < |code| => Canonical(code[j]))
  }

  /** The code section that the disassembler prints for `code`, between its marks. */
  function SectionText(level: nat, code: seq<Word>, comments: seq<(string, nat)>, ws: string): string
    requires PrintableCode(code, comments)
  {
    ">CODE" + ws + LinesText(LinesOf(level, code, comments)) + "<CODE\n"
  }

  /** Disassembling code and assembling what was printed gives its instructions in their order, each
      in canonical form, exactly when none of them is `nop`. */
  lemma CodeReassemblesExactly(level: nat, code: seq<Word>, comments: seq<(string, nat)>, ws: string, s: string)
    requires PrintableCode(code, comments) && AllSpace(ws)
    ensures CompileCode(SectionText(level, code, comments, ws) + s) == Success((CanonicalAll(code), s)) <==> NopFree(code)
  {
    hide CompileCode, LinesText, Canonical, GetOp;
    var lines := LinesOf(level, code, comments);
    ReassemblesExactly(lines, ws, s);
    assert CanonicalCode(lines) == CanonicalAll(code);
    assert forall j :: 0 <= j < |code| ==> lines[j].inst == code[j];
  }

  /** One more pass, at whatever level and with whatever comments, changes nothing. */
  lemma SecondPass(level: nat, code: seq<Word>, comments: seq<(string, nat)>, ws: string, s: string)
    requires PrintableCode(code, comments) && AllSpace(ws) && NopFree(code)
    ensures PrintableCode(CanonicalAll(code), comments)
    ensures CompileCode(SectionText(level, CanonicalAll(code), comments, ws) + s) == Success((CanonicalAll(code), s))
  {
    hide CompileCode, SectionText, Canonical, GetOp, IsComment;
    var again := CanonicalAll(code);
    forall j | 0 <= j < |code| ensures GetOp(again[j]) == GetOp(code[j]) && Canonical(again[j]) == again[j] {
      CanonicalAgrees(code[j]);
    }
    assert CanonicalAll(again) == again;
    CodeReassemblesExactly(level, again, comments, ws, s);
  }

  /** The two programs one after the other: the code is printed, and what was printed is compiled. */
  method DumpThenCompile(level: nat, code: seq<Word>, comments: seq<(string, nat)>, ws: string, after: string, b: BijouBlock)
    returns (r: Result<(), AsmError>)
    requires PrintableCode(code, comments) && AllSpace(ws) && NopFree(code)
    modifies b`code
    ensures r.Success? && b.code == old(b.code) + CanonicalAll(code)
  {
    hide Assembly.CompileCode, Canonical, GetOp, LinesText, IsComment;
    var printer := new Printer();
    printer.DumpCode(level, code, comments);
    var text := ">CODE" + ws + printer.out + "<CODE\n" + after;
    var file := new SourceFile(text);
    assert [] + LinesText(LinesOf(level, code, comments)) == printer.out;
    assert file.Rest() == SectionText(level, code, comments, ws) + after;
    CodeReassemblesExactly(level, code, comments, ws, after);
    r := file.CompileCode(b);
  }

  // ----- whole programs -----

  predicate ReadableTree(b: Block) {
    && (forall pc :: 0 <= pc < |b.code| ==> 0 < GetOp(b.code[pc]) < NUM_OPS)
    && forall i :: 0 <= i < |b.children| ==> ReadableTree(b.children[i])
  }

  /** The tree after its code was disassembled and assembled again. */
  function Reassembled(b: Block): Block
    requires ReadableTree(b)
  {
    b.(code := CanonicalAll(b.code),
       children := seq(|b.children|, i requires 0 <= i < |b.children| => Reassembled(b.children[i])))
  }

  lemma {:induction false} ReassembledAgrees(b: Block)
    requires ReadableTree(b)
    ensures AgreeOnListedTree(b, Reassembled(b))
  {
    hide Canonical, AgreeOnListed, GetOp;
    forall pc | 0 <= pc < |b.code| ensures AgreeOnListed(b.code[pc], Reassembled(b).code[pc]) {
      CanonicalAgrees(b.code[pc]);
    }
    forall i | 0 <= i < |b.children| ensures AgreeOnListedTree(b.children[i], Reassembled(b).children[i]) {
      ReassembledAgrees(b.children[i]);
    }
  }

  /** Reassembled code runs the same, in nested blocks too. */
  lemma ReassembledRunsAlike(vm: Vm, fuel: nat, fr: Frame, w: World)
    requires ReadableTree(vm.root)
    ensures Exec(vm, fuel, fr, w) == Exec(vm.(root := Reassembled(vm.root)), fuel, fr, w)
  {
    hide Exec;
    ReassembledAgrees(vm.root);
    UnlistedFieldsAreNotRead(vm, Reassembled(vm.root), fuel, fr, w);
  }
}
