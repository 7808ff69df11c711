/**
 The machine integers of the virtual machine and its 32-bit instruction word.

 An instruction holds, from the low end, a 6-bit opcode, an 8-bit A, a 9-bit C and a 9-bit B;
 Bx is C and B read as one 18-bit number, and sBx is Bx with excess 131071. Fields are read and
 written by position, that is by division and remainder with the powers of two of their place.
 */
module Words {
  type u8 = x: int | 0 <= x < 0x100
  type u32 = x: int | 0 <= x < 0x1_0000_0000
  type Word = u32

  /** The value of MAXARG_sBx, the excess of the signed field. */
  const EXCESS := 131071
  /** The value of BITRK, the bit of a B, C or Bx operand that selects the constants. */
  const BITRK := 256

  function GetOp(i: Word): nat { i % 64 }

  function GetA(i: Word): u8 { (i / 64) % 256 }

  function GetC(i: Word): nat { (i / 16384) % 512 }

  function GetB(i: Word): nat { i / 8388608 }

  function GetBx(i: Word): nat { i / 16384 }

  function GetSBx(i: Word): int { GetBx(i) - EXCESS }

  // A value stored into a field is first cast to an unsigned 32-bit number and then cut to the
  // width of the field; both are the remainder below, for negative values too.

  function SetOp(i: Word, o: int): Word { i - i % 64 + o % 64 }

  function SetA(i: Word, a: int): Word { i - GetA(i) * 64 + (a % 256) * 64 }

  function SetC(i: Word, c: int): Word { i - GetC(i) * 16384 + (c % 512) * 16384 }

  function SetB(i: Word, b: int): Word { i - GetB(i) * 8388608 + (b % 512) * 8388608 }

  function SetBx(i: Word, bx: int): Word { i - GetBx(i) * 16384 + (bx % 262144) * 16384 }

  function SetSBx(i: Word, s: int): Word { SetBx(i, s + EXCESS) }

  predicate InFields(op: int, a: int, b: int, c: int) {
    0 <= op < 64 && 0 <= a < 256 && 0 <= b < 512 && 0 <= c < 512
  }

  function CreateABC(op: int, a: int, b: int, c: int): Word
    requires InFields(op, a, b, c)
  {
    op + a * 64 + b * 8388608 + c * 16384
  }

  function CreateABx(op: int, a: int, bx: int): Word
    requires 0 <= op < 64 && 0 <= a < 256 && 0 <= bx < 262144
  {
    op + a * 64 + bx * 16384
  }

  /** Packing in-range fields and reading them back is the identity: CREATE_ABC is injective. */
  lemma GetAfterCreate(op: int, a: int, b: int, c: int)
    requires InFields(op, a, b, c)
    ensures var i := CreateABC(op, a, b, c);
            GetOp(i) == op && GetA(i) == a && GetB(i) == b && GetC(i) == c
  {
    var i := CreateABC(op, a, b, c);
    assert i / 64 == a + c * 256 + b * 131072;
    assert i / 16384 == c + b * 512;
  }

  /** Every word is packed from its own fields: CREATE_ABC is onto. */
  lemma CreateAfterGet(i: Word)
    ensures InFields(GetOp(i), GetA(i), GetB(i), GetC(i))
    ensures CreateABC(GetOp(i), GetA(i), GetB(i), GetC(i)) == i
    ensures GetBx(i) == GetB(i) * 512 + GetC(i)
    ensures CreateABx(GetOp(i), GetA(i), GetBx(i)) == i
  {
    assert i / 16384 == (i / 64) / 256;
    assert i / 8388608 == (i / 16384) / 512;
  }

  /** Two words with the same four fields are the same word. */
  lemma SameFields(i: Word, j: Word)
    requires GetOp(i) == GetOp(j) && GetA(i) == GetA(j) && GetB(i) == GetB(j) && GetC(i) == GetC(j)
    ensures i == j
  {
    CreateAfterGet(i);
    CreateAfterGet(j);
  }

  /** The same with the two low operands read as one. */
  lemma SameABx(i: Word, j: Word)
    requires GetOp(i) == GetOp(j) && GetA(i) == GetA(j) && GetBx(i) == GetBx(j)
    ensures i == j
  {
    CreateAfterGet(i);
    CreateAfterGet(j);
  }

  /** Every setter replaces its own field by the stored value cut to the field's width and keeps
      the three others. This gives get-after-set, set-after-set and independence at once. */
  lemma Setters(i: Word, v: int)
    ensures SetOp(i, v) == CreateABC(v % 64, GetA(i), GetB(i), GetC(i))
    ensures SetA(i, v) == CreateABC(GetOp(i), v % 256, GetB(i), GetC(i))
    ensures SetB(i, v) == CreateABC(GetOp(i), GetA(i), v % 512, GetC(i))
    ensures SetC(i, v) == CreateABC(GetOp(i), GetA(i), GetB(i), v % 512)
    ensures SetBx(i, v) == CreateABx(GetOp(i), GetA(i), v % 262144)
  {
    CreateAfterGet(i);
  }

  /** What each getter reads after each setter, for every stored value, negative or too wide. */
  lemma GetAfterSet(i: Word, v: int)
    ensures var j := SetOp(i, v);
            GetOp(j) == v % 64 && GetA(j) == GetA(i) && GetB(j) == GetB(i) && GetC(j) == GetC(i)
    ensures var j := SetA(i, v);
            GetOp(j) == GetOp(i) && GetA(j) == v % 256 && GetB(j) == GetB(i) && GetC(j) == GetC(i)
    ensures var j := SetB(i, v);
            GetOp(j) == GetOp(i) && GetA(j) == GetA(i) && GetB(j) == v % 512 && GetC(j) == GetC(i)
    ensures var j := SetC(i, v);
            GetOp(j) == GetOp(i) && GetA(j) == GetA(i) && GetB(j) == GetB(i) && GetC(j) == v % 512
  {
    CreateAfterGet(i);
    FieldsOf(SetOp(i, v), v % 64, GetA(i), GetB(i), GetC(i)) by { Setters(i, v); }
    FieldsOf(SetA(i, v), GetOp(i), v % 256, GetB(i), GetC(i)) by { Setters(i, v); }
    FieldsOf(SetB(i, v), GetOp(i), GetA(i), v % 512, GetC(i)) by { Setters(i, v); }
    FieldsOf(SetC(i, v), GetOp(i), GetA(i), GetB(i), v % 512) by { Setters(i, v); }
  }

  /** Storing Bx stores its high half into B and its low half into C. */
  lemma GetAfterSetBx(i: Word, v: int)
    ensures var j := SetBx(i, v);
            && GetOp(j) == GetOp(i) && GetA(j) == GetA(i) && GetBx(j) == v % 262144
            && GetB(j) == (v / 512) % 512 && GetC(j) == v % 512
  {
    CreateAfterGet(i);
    assert v % 262144 == (v / 512) % 512 * 512 + v % 512;
    FieldsOf(SetBx(i, v), GetOp(i), GetA(i), (v / 512) % 512, v % 512) by { Setters(i, v); }
    CreateAfterGet(SetBx(i, v));
  }

  /** A second store into a field overwrites the first. */
  lemma SetAfterSet(i: Word, v: int, w: int)
    ensures SetOp(SetOp(i, v), w) == SetOp(i, w)
    ensures SetA(SetA(i, v), w) == SetA(i, w)
    ensures SetB(SetB(i, v), w) == SetB(i, w)
    ensures SetC(SetC(i, v), w) == SetC(i, w)
    ensures SetBx(SetBx(i, v), w) == SetBx(i, w)
  {
    GetAfterSet(i, v);
    GetAfterSetBx(i, v);
  }

  lemma FieldsOf(i: Word, op: int, a: int, b: int, c: int)
    requires InFields(op, a, b, c) && i == CreateABC(op, a, b, c)
    ensures GetOp(i) == op && GetA(i) == a && GetB(i) == b && GetC(i) == c
  {
    GetAfterCreate(op, a, b, c);
  }

  /** The signed field returns what was stored exactly on its range, and only there. */
  lemma SignedRoundTrip(i: Word, s: int)
    ensures GetSBx(SetSBx(i, s)) == s <==> -EXCESS <= s <= EXCESS + 1
  {
    GetAfterSetBx(i, s + EXCESS);
  }

  /** `MAKEK(x)` and `RKASK(x)`: the operand with the constant bit set. */
  function MakeK(x: int): int {
    if (x / BITRK) % 2 == 1 then x else x + BITRK
  }

  /** `ISK(x)` on a nonnegative operand. */
  predicate IsK(x: int) { (x / BITRK) % 2 == 1 }

  /** `x & ~0x100`, the operand with the constant bit cleared. */
  function IndexK(x: int): int {
    if IsK(x) then x - BITRK else x
  }

  /** Marking an operand as a constant can be undone, and a 9-bit field holds the mark. */
  lemma ConstantBit(x: nat)
    ensures IsK(MakeK(x)) && IndexK(MakeK(x)) == IndexK(x) && MakeK(MakeK(x)) == MakeK(x)
    ensures x < BITRK ==> MakeK(x) == x + BITRK && MakeK(x) < 512 && IndexK(MakeK(x)) == x && !IsK(x)
  {
  }
}
