/** What the assembler's readers make of text that no printer wrote: comments, quotations, malformed
    operands, unknown names, and sections that do not open. */
module Syntax {
  import opened Words
  import opened Wrappers
  import opened Opcodes
  import opened Text
  import opened Assembly
  import opened Reassembly

  /** Position `i` of an operand holds its first character that is no digit. */
  predicate FirstNonDigit(arg: string, i: int) {
    0 <= i < |arg| && !IsDigit(arg[i]) && AllDigits(arg[..i])
  }

  /** An operand is malformed exactly when a minus sign follows its leading digits. A `K` there marks a
      constant; anything else ends the number. */
  lemma ParseArgExactly(arg: string, i: int)
    requires FirstNonDigit(arg, i) || (i == |arg| && AllDigits(arg))
    ensures ParseArg(arg) ==
            if 0 < i < |arg| && arg[i] == '-' then Failure(Malformed)
            else if i < |arg| && arg[i] == 'K' then Success(MakeK(Atoi(arg)))
            else Success(Atoi(arg))
  {
    assert forall j :: 0 <= j < i ==> arg[j] == arg[..i][j];
    ParseDigits(arg, 0, i);
  }

  /** A plus sign is allowed. */
  lemma PlusIsRead(n: nat)
    ensures ParseArg("+" + NatText(n)) == Success(n)
  {
    var arg := "+" + NatText(n);
    ParseArgExactly(arg, 0);
    DigitsValueOfNat(n, []);
    assert arg[1..] == NatText(n) + [];
  }

  /** Whitespace is the blank, and the tab, the newline, the vertical tab, the form feed and the
      carriage return, which follow each other. */
  lemma SpacesExactly(c: char)
    ensures IsSpace(c) <==> c in " \t\n\r" || c as int == 11 || c as int == 12
  {
  }

  /** A semicolon in an operand drops it, and the rest of the line with it. */
  lemma {:induction false} CommentDropsOperand(t: string, comment: string, s: string)
    requires Solid(t) && '\n' !in comment
    ensures ReadOperand(t + ";" + comment + "\n" + s) == Success((None, s))
  {
    var all := t + ";" + comment + "\n" + s;
    if t == [] {
      assert all == [';'] + (comment + "\n" + s);
      SkipLineOf(comment, s);
    } else {
      assert all[1..] == t[1..] + ";" + comment + "\n" + s;
      CommentDropsOperand(t[1..], comment, s);
    }
  }

  /** A comment must end in a newline and a quotation in a quote: at the end of the file the loops
      that look for them go on for ever. */
  lemma {:induction false} EndlessExactly(s: string)
    ensures if '\n' in s then SkipLine(s).Success? else SkipLine(s) == Failure(Endless)
    ensures if '"' in s then ReadQuoted(s).Success? else ReadQuoted(s) == Failure(Endless)
  {
    if s != [] {
      EndlessExactly(s[1..]);
      assert s == [s[0]] + s[1..];
    }
  }

  lemma {:induction false} ReadQuotedOf(q: string, s: string)
    requires '"' !in q
    ensures ReadQuoted(q + "\"" + s) == Success((q, s))
  {
    var all := q + "\"" + s;
    if q == [] {
      assert all == ['"'] + s;
    } else {
      assert all[1..] == q[1..] + "\"" + s;
      ReadQuotedOf(q[1..], s);
      assert [q[0]] + q[1..] == q;
    }
  }

  lemma {:induction false} QuotedTail(t: string, q: string, c: char, s: string)
    requires Solid(t) && '"' !in q && IsSpace(c)
    ensures ReadTail(t + "\"" + q + "\"" + [c] + s) == Success((t + "\"" + q, s))
  {
    var all := t + "\"" + q + "\"" + [c] + s;
    if t == [] {
      assert all[1..] == q + "\"" + ([c] + s);
      ReadQuotedOf(q, [c] + s);
      assert ReadTail([c] + s) == Success(([], s));
      assert ['"'] + q + [] == t + "\"" + q;
    } else {
      assert all[1..] == t[1..] + "\"" + q + "\"" + [c] + s;
      QuotedTail(t[1..], q, c, s);
      assert [t[0]] + (t[1..] + "\"" + q) == t + "\"" + q;
    }
  }

  /** A quotation in a word may hold spaces, and the word keeps all of it but the closing quote. */
  lemma QuotationKept(ws: string, t: string, q: string, c: char, s: string)
    requires AllSpace(ws) && t != [] && Solid(t) && '"' !in q && IsSpace(c)
    ensures ReadNext(ws + (t + "\"" + q + "\"" + [c] + s)) == Success((t + "\"" + q, s))
  {
    var all := t + "\"" + q + "\"" + [c] + s;
    SkipSpaces(ws, all);
    assert all[1..] == t[1..] + "\"" + q + "\"" + [c] + s;
    QuotedTail(t[1..], q, c, s);
    assert [t[0]] + (t[1..] + "\"" + q) == t + "\"" + q;
  }

  /** A name that is no opcode ends the process, whatever follows it. */
  lemma UnknownNameFails(ws: string, name: string, c: char, s: string)
    requires AllSpace(ws) && name != [] && Solid(name) && IsSpace(c)
    requires name != "<CODE" && name !in LABELS
    ensures ReadCode(ws + name + [c] + s) == Failure(UnknownOpcode)
  {
    hide ReadNext, FindOpcode;
    ReadNextSolid(ws, name, c, s);
    assert FindOpcode(name, 0) == NUM_OPS;
  }

  /** A code section opens with its mark, and with nothing else. */
  lemma SectionOpensExactly(ws: string, t: string)
    requires AllSpace(ws) && t != [] && !IsSpace(t[0]) && t[0] != ';'
    ensures Expect(ws + t) == if ">CODE" <= t then Success(t[5..]) else Failure(Unexpected)
  {
    SkipSpaces(ws, t);
    assert ">CODE" == ['>'] + "CODE";
    if t[0] == '>' && "CODE" <= t[1..] {
      assert t == ['>'] + t[1..] && t[1..][..4] == "CODE";
      assert t[..5] == ">CODE" && t[1..][4..] == t[5..];
    }
    if ">CODE" <= t {
      assert t[..5] == ">CODE" && t[1..][..4] == ">CODE"[1..];
    }
  }
}
