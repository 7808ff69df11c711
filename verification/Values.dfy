/** Tagged values, their equality, and the arithmetic they rest on. */
module Values {
  import opened Words
  import opened Wrappers

  /** The memory image of a `long double` on x86-64, which is what bytecode stores. */
  type Number = b: seq<u8> | |b| == 16 witness seq(16, _ => 0)

  /** The characters of a C string, up to but not including its NUL. */
  type Chars = s: seq<u8> | 0 !in s

  /** A BijouString: either the null pointer, with length 0, or characters and their length. */
  datatype CString = NullPtr | Text(text: Chars) {
    function Content(): Chars {
      if NullPtr? then [] else text
    }
  }

  /** What a BijouFunction pointer denotes: a built-in function by its index, the code of a block by
      the child indices that lead to it from the outermost block, or an address never set. */
  datatype FuncRef = Builtin(index: nat) | Closure(path: seq<nat>) | Wild

  /** `Junk` is an indeterminate value: memory that was allocated and never written. */
  datatype TValue =
    | TNone
    | TNull
    | TNumber(n: Number)
    | TBoolean(b: int)
    | TString(s: CString)
    | TFunction(func: FuncRef)
    | TPointer(address: int)
    | Junk

  datatype BinOp = Add | Sub | Mul | Div | Pow | Rem

  datatype CmpOp = Lt | Le | Gt | Ge

  /** Floating-point arithmetic is a parameter of the model. A binary operation yields nothing when
      the processor traps, as the integer remainder does on a zero divisor. */
  datatype Arith = Arith(
    binary: (BinOp, Number, Number) -> Option<Number>,
    negate: Number -> Number,
    compare: (CmpOp, Number, Number) -> bool,
    equal: (Number, Number) -> bool,
    truncate: Number -> int)

  /** Comparing two empty strings, one of them a null pointer, hands that pointer to `strcmp`. */
  predicate Comparable(f: TValue, s: TValue) {
    f.TString? && s.TString? && f.s.Content() == [] && s.s.Content() == [] ==>
      f.s.Text? && s.s.Text?
  }

  /** TValue_equal. Functions and pointers compare the addresses of two parameters, so they never
      are equal, not even to themselves. */
  predicate Equal(ar: Arith, f: TValue, s: TValue) {
    match (f, s)
    case (TNull, TNull) => true
    case (TNumber(m), TNumber(n)) => ar.equal(m, n)
    case (TBoolean(b), TBoolean(c)) => b == c
    case (TString(t), TString(u)) => t.Content() == u.Content()
    case _ => false
  }

  /** A number equals the numbers that the arithmetic calls equal, and nothing else. Apart from
      numbers, TValue_equal decides identity: values that are equal, and may be compared, are the
      same, and a value equals itself unless it is a function, a pointer or TNONE. */
  lemma EqualIsIdentity(ar: Arith, f: TValue, s: TValue)
    ensures f.TNumber? ==> (Equal(ar, f, s) <==> s.TNumber? && ar.equal(f.n, s.n))
    ensures s.TNumber? && !f.TNumber? ==> !Equal(ar, f, s)
    ensures !f.TNumber? && Equal(ar, f, s) && Comparable(f, s) ==> f == s
    ensures !f.TNumber? ==> (Equal(ar, f, f) <==> f.TNull? || f.TBoolean? || f.TString?)
    ensures !Comparable(f, s) <==> f.TString? && s.TString? && f.s.Content() == s.s.Content() == [] && (f.s.NullPtr? || s.s.NullPtr?)
  {
  }

  /** `bvalue`, which reads the integer member of the union whatever the tag. It is defined for a
      boolean and for a number, where it reads the four low bytes of the image. */
  function BooleanMember(v: TValue): Option<int> {
    match v
    case TBoolean(b) => Some(b)
    case TNumber(n) => Some(n[0] as int + 256 * n[1] as int + 65536 * n[2] as int + 16777216 * n[3] as int)
    case _ => None
  }

  /** Floating-point equality is symmetric and transitive; it is not reflexive (NaN). */
  ghost predicate PartialEquivalence(ar: Arith) {
    && (forall m: Number, n: Number :: ar.equal(m, n) ==> ar.equal(n, m))
    && (forall l: Number, m: Number, n: Number :: ar.equal(l, m) && ar.equal(m, n) ==> ar.equal(l, n))
  }

  /** TValue_equal inherits both laws, and is irreflexive on functions and pointers. */
  lemma EqualLaws(ar: Arith, f: TValue, s: TValue, t: TValue)
    requires PartialEquivalence(ar)
    ensures Equal(ar, f, s) ==> Equal(ar, s, f)
    ensures Equal(ar, f, s) && Equal(ar, s, t) ==> Equal(ar, f, t)
    ensures f.TFunction? || f.TPointer? || f.TNone? ==> !Equal(ar, f, s) && !Equal(ar, s, f)
  {
  }
}
