/** The assembler's readers, which consume a file character by character, and the printer of code lines. */
module Compiler {
  import opened Words
  import opened Wrappers
  import opened Opcodes
  import opened Blocks
  import opened Text
  import opened Assembly

  class SourceFile {
    const text: string
    var pos: nat

    constructor (text: string)
      ensures this.text == text && pos == 0
    {
      this.text := text;
      pos := 0;
    }

    predicate Valid()
      reads this
    {
      pos <= |text|
    }

    function Rest(): string
      requires Valid()
      reads this
    {
      text[pos..]
    }

    /** A reader did what `spec` says: it gave the value and stands before the rest, or it failed. */
    ghost predicate Took<T>(spec: Result<(T, string), AsmError>, r: Result<T, AsmError>)
      requires Valid()
      reads this
    {
      match spec
      case Failure(e) => r == Failure(e)
      case Success((v, rest)) => r == Success(v) && Rest() == rest
    }

    /** `fgetc`; nothing at the end of the file. */
    method GetC() returns (c: Option<char>)
      requires Valid()
      modifies this
      ensures Valid()
      ensures old(Rest()) == [] ==> c == None && Rest() == []
      ensures old(Rest()) != [] ==> c == Some(old(Rest())[0]) && Rest() == old(Rest())[1..]
    {
      if pos == |text| {
        return None;
      }
      c := Some(text[pos]);
      pos := pos + 1;
    }

    /** Skips to the end of the line. */
    method SkipToNewline() returns (r: Result<(), AsmError>)
      requires Valid()
      modifies this
      ensures Valid()
      ensures match SkipLine(old(Rest()))
              case Failure(e) => r == Failure(e)
              case Success(rest) => r.Success? && Rest() == rest
    {
      ghost var s := Rest();
      while true
        invariant Valid() && SkipLine(s) == SkipLine(Rest())
        decreases |Rest()|
      {
        var c := GetC();
        if c == None {
          return Failure(Endless);
        }
        if c == Some('\n') {
          return Success(());
        }
      }
    }

    /** read_char, ignoring whitespace. */
    method ReadChar() returns (r: Result<char, AsmError>)
      requires Valid()
      modifies this
      ensures Valid() && Took(Assembly.ReadChar(old(Rest())), r)
    {
      ghost var s := Rest();
      while true
        invariant Valid() && Assembly.ReadChar(s) == Assembly.ReadChar(Rest())
        decreases |Rest()|
      {
        var c := GetC();
        if c == None {
          return Failure(EndOfFile);
        }
        if !IsSpace(c.value) {
          if c.value == ';' {
            var _ :- SkipToNewline();
          } else {
            return Success(c.value);
          }
        }
      }
    }

    /** The inner loop of read_next, after an opening quote. */
    method ReadQuotation() returns (r: Result<string, AsmError>)
      requires Valid()
      modifies this
      ensures Valid() && Took(ReadQuoted(old(Rest())), r)
    {
      ghost var s := Rest();
      var word := [];
      AfterNothing(ReadQuoted(s));
      while true
        invariant Valid() && ReadQuoted(s) == After(word, ReadQuoted(Rest()))
        decreases |Rest()|
      {
        var c := GetC();
        if c == None {
          return Failure(Endless);
        }
        if c.value == '"' {
          assert word + [] == word;
          return Success(word);
        }
        AfterAfter(word, [c.value], ReadQuoted(Rest()));
        word := word + [c.value];
      }
    }

    /** read_next */
    method ReadNext() returns (r: Result<string, AsmError>)
      requires Valid()
      modifies this
      ensures Valid() && Took(Assembly.ReadNext(old(Rest())), r)
    {
      hide Assembly.ReadChar, ReadQuoted;
      ghost var s := Rest();
      var first :- ReadChar();
      var word := [first];
      while true
        invariant Valid() && Assembly.ReadNext(s) == After(word, ReadTail(Rest()))
        decreases |Rest()|
      {
        var c := GetC();
        if c == None {
          return Failure(EndOfFile);
        }
        if IsSpace(c.value) {
          assert word + [] == word;
          return Success(word);
        }
        if c.value == '"' {
          var q :- ReadQuotation();
          AfterAfter(word, ['"'] + q, ReadTail(Rest()));
          word := word + (['"'] + q);
        } else {
          AfterAfter(word, [c.value], ReadTail(Rest()));
          word := word + [c.value];
        }
      }
    }

    /** The characters of an operand are examined up to the first that is no digit. */
    static method ConvertArg(arg: string) returns (r: Result<int, AsmError>)
      ensures r == ParseArg(arg)
    {
      var i := 0;
      while i < |arg|
        invariant 0 <= i <= |arg| && ParseArg(arg) == ParseArgAt(arg, i)
      {
        if !IsDigit(arg[i]) {
          if i != 0 && arg[i] == '-' {
            return Failure(Malformed);
          }
          if arg[i] == 'K' {
            return Success(MakeK(Atoi(arg)));
          }
          return Success(Atoi(arg));
        }
        i := i + 1;
      }
      return Success(Atoi(arg));
    }

    static function OperandAfter(done: string, r: Result<(Option<string>, string), AsmError>):
      Result<(Option<string>, string), AsmError>
    {
      match r
      case Failure(e) => Failure(e)
      case Success((None, rest)) => Success((None, rest))
      case Success((Some(t), rest)) => Success((Some(done + t), rest))
    }

    static lemma OperandAfterOne(done: string, c: char, r: Result<(Option<string>, string), AsmError>)
      ensures OperandAfter(done, OperandAfter([c], r)) == OperandAfter(done + [c], r)
      ensures OperandAfter([], r) == r
    {
      if r.Success? && r.value.0.Some? {
        var t := r.value.0.value;
        assert done + ([c] + t) == (done + [c]) + t && [] + t == t;
      }
    }

    /** The loop of read_args that collects an operand; nothing when a comment cuts it off. */
    method ReadOperand() returns (r: Result<Option<string>, AsmError>)
      requires Valid()
      modifies this
      ensures Valid() && Took(Assembly.ReadOperand(old(Rest())), r)
    {
      ghost var s := Rest();
      var arg := [];
      OperandAfterOne([], ' ', Assembly.ReadOperand(s));
      while true
        invariant Valid() && Assembly.ReadOperand(s) == OperandAfter(arg, Assembly.ReadOperand(Rest()))
        decreases |Rest()|
      {
        var c := GetC();
        if c == None {
          return Failure(Endless);
        }
        if IsSpace(c.value) {
          assert arg + [] == arg;
          return Success(Some(arg));
        }
        if c.value == ';' {
          var _ :- SkipToNewline();
          return Success(None);
        }
        OperandAfterOne(arg, c.value, Assembly.ReadOperand(Rest()));
        arg := arg + [c.value];
      }
    }

    /** Skips blanks; true when they end in a newline, which is consumed. The first other character
        is put back. */
    method SkipBlanksToNewline() returns (newline: bool)
      requires Valid()
      modifies this
      ensures Valid()
      ensures var s := SkipBlanks(old(Rest()));
              && newline == (s != [] && s[0] == '\n')
              && Rest() == if newline then s[1..] else s
    {
      ghost var s := Rest();
      while true
        invariant Valid() && SkipBlanks(s) == SkipBlanks(Rest())
        decreases |Rest()|
      {
        var c := GetC();
        if c == None {
          return false;
        }
        if c.value == '\n' {
          return true;
        }
        if !IsSpace(c.value) {
          pos := pos - 1;
          return false;
        }
      }
    }

    /** The body of the loop of read_args: an operand is converted and the next one read. */
    method ReadArg(arg: string) returns (r: Result<(int, Option<string>), AsmError>)
      requires Valid()
      modifies this
      ensures Valid() && Took(Assembly.ReadArg(arg, old(Rest())), r)
    {
      hide Assembly.ReadOperand, ParseArg, SkipBlanks;
      var v :- ConvertArg(arg);
      var newline := SkipBlanksToNewline();
      if newline {
        return Success((v, None));
      }
      var next :- ReadOperand();
      return Success((v, next));
    }

    /** read_args: the array holds -1 where no operand was written. */
    method ReadArgs() returns (r: Result<array<int>, AsmError>)
      requires Valid()
      modifies this
      ensures Valid()
      ensures match Assembly.ReadArgs(old(Rest()))
              case Failure(e) => r == Failure(e)
              case Success((args, rest)) =>
                && r.Success? && fresh(r.value) && r.value.Length == 3 && Rest() == rest
                && forall j :: 0 <= j < 3 ==> r.value[j] == Arg(args, j)
    {
      hide Assembly.ReadNext, Assembly.ReadArg;
      ghost var s := Rest();
      var args := new int[3](_ => -1);
      var arg :- ReadNext();
      var index := 0;
      ghost var done: seq<int> := [];
      while index < 3
        invariant 0 <= index <= 3 && Valid() && fresh(args) && |done| == index
        invariant forall j :: 0 <= j < 3 ==> args[j] == Arg(done, j)
        invariant if index < 3 then Assembly.ReadArgs(s) == ReadMoreArgs(done, arg, Rest())
                  else Assembly.ReadArgs(s) == Success((done, Rest()))
      {
        var next :- ReadArg(arg);
        args[index] := next.0;
        done := done + [next.0];
        if next.1.None? {
          return Success(args);
        }
        arg := next.1.value;
        index := index + 1;
      }
      return Success(args);
    }

    /** `expect(file, ">CODE")` */
    method ExpectCode() returns (r: Result<(), AsmError>)
      requires Valid()
      modifies this
      ensures Valid()
      ensures match Expect(old(Rest()))
              case Failure(e) => r == Failure(e)
              case Success(rest) => r.Success? && Rest() == rest
    {
      var c := ReadChar();
      if c.Failure? {
        return Failure(if c.error == EndOfFile then Unexpected else c.error);
      }
      var word := [c.value];
      ghost var s := Rest();
      var i := 1;
      while i < 5
        invariant 1 <= i <= 5 && Valid() && 1 <= |word| <= i
        invariant if i - 1 <= |s| then word == [c.value] + s[..i - 1] && Rest() == s[i - 1..]
                  else word == [c.value] + s && Rest() == []
      {
        var next := GetC();
        if next.Some? {
          word := word + [next.value];
        }
        i := i + 1;
      }
      if word == ">CODE" {
        assert word[0] == '>' && word[1..] == "CODE";
        return Success(());
      }
      assert c.value == '>' && "CODE" <= s ==> word == ">CODE";
      return Failure(Unexpected);
    }

    /** compile_code: the instructions of the section are pushed to the block. */
    method CompileCode(b: BijouBlock) returns (r: Result<(), AsmError>)
      requires Valid()
      modifies this, b`code
      ensures Valid()
      ensures match Assembly.CompileCode(old(Rest()))
              case Failure(e) => r == Failure(e)
              case Success((code, rest)) => r.Success? && b.code == old(b.code) + code && Rest() == rest
    {
      hide Assembly.ReadNext, Assembly.ReadArgs, Expect, Build, ReadCode;
      var _ :- ExpectCode();
      ghost var s, done := Rest(), [];
      ReadCodeStarts(s);
      AfterNothing(ReadCode(s));
      var name :- ReadNext();
      while name != "<CODE"
        invariant Valid() && b.code == old(b.code) + done
        invariant ReadCode(s) == After(done, ReadCodeFrom(name, Rest()))
        decreases |Rest()|
      {
        var op := 0;
        while op < NUM_OPS && LABELS[op] != name
          invariant 0 <= op <= NUM_OPS && FindOpcode(name, 0) == FindOpcode(name, op)
        {
          op := op + 1;
        }
        if op == NUM_OPS {
          return Failure(UnknownOpcode);
        }
        var args :- ReadArgs();
        var inst := BuildInst(op, args);
        ReadCodeStarts(Rest());
        AfterAfter(done, [inst], ReadCode(Rest()));
        done := done + [inst];
        var _ := b.PushInstruction(inst);
        name :- ReadNext();
      }
      assert done + [] == done;
      return Success(());
    }

    /** The fields are set one after the other, from a word of zeros. */
    static method BuildInst(op: nat, args: array<int>) returns (inst: Word)
      requires op < NUM_OPS && args.Length == 3
      ensures forall xs: seq<int> :: (forall j :: 0 <= j < 3 ==> args[j] == Arg(xs, j)) ==> inst == Build(op, xs)
    {
      var flags := Args(op);
      inst := SetOp(0, op);
      if flags.bx {
        inst := SetA(inst, args[0]);
        inst := SetBx(inst, args[1]);
      } else if flags.sbx {
        var a := if flags.a then args[0] else 0;
        var sbx := if flags.a then args[1] else args[0];
        inst := SetA(inst, a);
        inst := SetSBx(inst, sbx);
      } else {
        inst := SetA(inst, args[0]);
        inst := SetB(inst, args[1]);
        inst := SetC(inst, args[2]);
      }
    }
  }

  type CodeResult = Result<(seq<Word>, string), AsmError>

  /** ReadCode, once the first word has been read. */
  function ReadCodeFrom(name: string, s: string): CodeResult {
    if name == "<CODE" then Success(([], s))
    else
      var op := FindOpcode(name, 0);
      if op == NUM_OPS then Failure(UnknownOpcode)
      else
        var (args, rest) :- Assembly.ReadArgs(s);
        After([Build(op, args)], ReadCode(rest))
  }

  lemma ReadCodeStarts(s: string)
    ensures ReadCode(s) ==
            match Assembly.ReadNext(s)
            case Failure(e) => Failure(e)
            case Success((name, rest)) => ReadCodeFrom(name, rest)
  {
    hide Assembly.ReadNext, Assembly.ReadArgs, Build, FindOpcode;
  }

  // ----- printing -----

  lemma RegroupOp(before: string, name: string, operands: string)
    ensures before + "\t" + name + operands == before + ("\t" + name + operands)
  {
  }

  class Printer {
    /** What has been printed. */
    var out: string

    constructor ()
      ensures out == []
    {
      out := [];
    }

    /** One of the conditional prints of print_op, after those of the operands `xs`. */
    method PrintOperand(flag: bool, x: int, ghost start: string, ghost xs: seq<int>)
      requires out == start + OperandsText(xs)
      modifies this
      ensures out == start + OperandsText(xs + if flag then [x] else [])
    {
      hide IntText, OperandsText;
      if flag {
        OperandsTextLast(xs, x);
        out := out + " " + IntText(x);
      } else {
        assert xs + [] == xs;
      }
    }

    /** print_op */
    method PrintOp(i: Word)
      requires GetOp(i) < NUM_OPS
      modifies this
      ensures out == old(out) + OpText(i)
    {
      hide GetOp, GetA, GetB, GetC, GetBx, OperandsText;
      var flags := Args(GetOp(i));
      out := out + "\t" + LABELS[GetOp(i)];
      ghost var start := out;
      OperandsTextNone();
      ghost var a := if flags.a then [GetA(i)] else [];
      ghost var b := if flags.b then [GetB(i)] else [];
      ghost var c := if flags.c then [GetC(i)] else [];
      ghost var bx := if flags.bx then [GetBx(i)] else [];
      PrintOperand(flags.a, GetA(i), start, []);
      NothingBefore(a);
      PrintOperand(flags.b, GetB(i), start, a);
      PrintOperand(flags.c, GetC(i), start, a + b);
      PrintOperand(flags.bx, GetBx(i), start, a + b + c);
      PrintOperand(flags.sbx, GetSBx(i), start, a + b + c + bx);
      RegroupOp(old(out), LABELS[GetOp(i)], OperandsText(PrintedOperands(i)));
    }

    method PrintLine(line: CodeLine)
      requires Printable(line)
      modifies this
      ensures out == old(out) + LineText(line)
    {
      hide GetOp, OpText;
      out := out + Repeat('\t', line.indent);
      PrintOp(line.inst);
      out := out + "\t" + line.comment + "\n" + Repeat('\n', line.gap);
    }

    /** The loop of BijouBlock_dump2 over the code, at a given level and with given comments. */
    method DumpCode(level: nat, code: seq<Word>, comments: seq<(string, nat)>)
      requires |comments| == |code|
      requires forall j :: 0 <= j < |code| ==> Printable(LineOf(level, code, comments, j))
      modifies this
      ensures out == old(out) + LinesText(LinesOf(level, code, comments))
    {
      hide LineText, Printable;
      var x := 0;
      ghost var lines := LinesOf(level, code, comments);
      while x < |code|
        invariant 0 <= x <= |code|
        invariant out == old(out) + LinesText(lines[..x])
      {
        var line := LineOf(level, code, comments, x);
        PrintLine(line);
        assert lines[..x + 1] == lines[..x] + [line];
        LinesTextLast(lines[..x], line);
        x := x + 1;
      }
      assert lines[..x] == lines;
    }
  }

  function LineOf(level: nat, code: seq<Word>, comments: seq<(string, nat)>, x: nat): CodeLine
    requires x < |code| == |comments|
  {
    CodeLine(level, code[x], comments[x].0, comments[x].1)
  }

  function LinesOf(level: nat, code: seq<Word>, comments: seq<(string, nat)>): (lines: seq<CodeLine>)
    requires |comments| == |code|
    requires forall j :: 0 <= j < |code| ==> Printable(LineOf(level, code, comments, j))
    ensures |lines| == |code| && forall j :: 0 <= j < |lines| ==> Printable(lines[j])
  {
    seq(|code|, x requires 0 <= x < |code| => LineOf(level, code, comments, x))
  }

  lemma OperandsTextNone()
    ensures OperandsText([]) == []
  {
  }

  lemma {:induction false} OperandsTextLast(xs: seq<int>, x: int)
    ensures OperandsText(xs + [x]) == OperandsText(xs) + " " + IntText(x)
  {
    if xs == [] {
      assert [x][1..] == [];
    } else {
      assert (xs + [x])[1..] == xs[1..] + [x];
      OperandsTextLast(xs[1..], x);
    }
  }

  lemma {:induction false} LinesTextLast(lines: seq<CodeLine>, line: CodeLine)
    requires Printable(line) && forall j :: 0 <= j < |lines| ==> Printable(lines[j])
    ensures LinesText(lines + [line]) == LinesText(lines) + LineText(line)
  {
    hide LineText, Printable;
    if lines == [] {
      assert [line][1..] == [];
    } else {
      assert (lines + [line])[1..] == lines[1..] + [line];
      LinesTextLast(lines[1..], line);
    }
  }
}
