/** Typed values with their schema: the same tree holds the type and, where known, the value. */
module Schema {
  import opened Results
  import opened Numerals
  import SignedMagnitude

  datatype Kind =
    | I8 | I16 | I32 | I64 | I128
    | U8 | U16 | U32 | U64 | U128 | U256
    | Felt252 | ClassHash | ContractAddress | EthAddress

  const FELT_PRIME: nat := 0x800_0000_0000_0011_0000_0000_0000_0000_0000_0000_0000_0000_0000_0000_0000_0001

  function Bits(k: Kind): nat {
    match k
    case I8 => 8 case I16 => 16 case I32 => 32 case I64 => 64 case I128 => 128
    case U8 => 8 case U16 => 16 case U32 => 32 case U64 => 64 case U128 => 128 case U256 => 256
    case Felt252 => 252 case ClassHash => 252 case ContractAddress => 252 case EthAddress => 252
  }

  predicate IsSigned(k: Kind) {
    k == I8 || k == I16 || k == I32 || k == I64 || k == I128
  }

  predicate IsFelt(k: Kind) {
    k == Felt252 || k == ClassHash || k == ContractAddress || k == EthAddress
  }

  function TwoTo(bits: nat): nat {
    match bits
    case 7 => 0x80 case 8 => 0x100 case 15 => 0x8000 case 16 => 0x1_0000
    case 31 => 0x8000_0000 case 32 => 0x1_0000_0000
    case 63 => 0x8000_0000_0000_0000 case 64 => 0x1_0000_0000_0000_0000
    case 127 => 0x8000_0000_0000_0000_0000_0000_0000_0000
    case 128 => 0x1_0000_0000_0000_0000_0000_0000_0000_0000
    case 256 => SignedMagnitude.LIMIT
    case _ => 0
  }

  /** The range of a kind is `Low(k) <= v < High(k)`. */
  function Low(k: Kind): int {
    if IsSigned(k) then -(TwoTo(Bits(k) - 1) as int) else 0
  }

  function High(k: Kind): int {
    if IsFelt(k) then FELT_PRIME else if IsSigned(k) then TwoTo(Bits(k) - 1) else TwoTo(Bits(k))
  }

  predicate InRange(k: Kind, v: int) {
    Low(k) <= v < High(k)
  }

  /** Truncation to the width of the kind; field elements have none. */
  function Truncate(k: Kind, n: int): int {
    if TwoTo(Bits(k)) == 0 then n else (n - Low(k)) % TwoTo(Bits(k)) + Low(k)
  }

  /** Truncation leaves a number in range alone. */
  lemma TruncateInRange(k: Kind, n: int)
    requires InRange(k, n)
    ensures Truncate(k, n) == n
  {
  }

  datatype Primitive = Bool(flag: Option<bool>) | Int(kind: Kind, value: Option<int>)

  datatype Member = Member(name: string, ty: Ty, key: bool)

  datatype EnumOption = EnumOption(name: string, ty: Ty)

  datatype Ty =
    | Prim(primitive: Primitive)
    | Struct(name: string, children: seq<Member>)
    | Enum(name: string, option: Option<nat>, options: seq<EnumOption>)
    | Tuple(elems: seq<Ty>)
    | Array(elems: seq<Ty>)
    | FixedSizeArray(elems: seq<Ty>, size: nat)
    | ByteArray(text: string)

  /** A primitive with an absent value replaced by zero or false. */
  function FilledPrimitive(p: Primitive): Primitive {
    match p
    case Bool(b) => Bool(Some(b.Some? && b.value))
    case Int(k, v) => Int(k, Some(if v.Some? then v.value else 0))
  }

  ghost predicate ValidPrimitive(p: Primitive) {
    p.Int? && p.value.Some? ==> InRange(p.kind, p.value.value)
  }

  ghost predicate DiffersBy(n: int, v: int, q: int, size: int) {
    n == v + q * size
  }

  /** The numbers differ by a multiple of `size`. */
  ghost predicate Congruent(n: int, v: int, size: int) {
    exists q :: DiffersBy(n, v, q, size)
  }

  /** `v` is in the range of the kind and differs from `n` by a multiple of its width. */
  ghost predicate IsRemainder(k: Kind, n: int, v: int) {
    InRange(k, v) && Congruent(n, v, High(k) - Low(k)) && (InRange(k, n) ==> v == n)
  }

  lemma DivideBack(x: int, size: nat)
    requires size > 0
    ensures x == x / size * size + x % size && 0 <= x % size < size
  {
  }

  /** Truncation keeps the number modulo the width and brings it into range. */
  lemma TruncateIsRemainder(k: Kind, n: int)
    requires !IsFelt(k)
    ensures IsRemainder(k, n, Truncate(k, n))
  {
    var size := TwoTo(Bits(k));
    assert size > 0 && High(k) - Low(k) == size;
    var q := (n - Low(k)) / size;
    DivideBack(n - Low(k), size);
    assert DiffersBy(n, Truncate(k, n), q, size);
    if InRange(k, n) {
      TruncateInRange(k, n);
    }
  }

  /** A field element is reduced modulo the prime. */
  lemma PrimeIsRemainder(k: Kind, n: nat)
    requires IsFelt(k)
    ensures IsRemainder(k, n, n % FELT_PRIME)
  {
    DivideBack(n, FELT_PRIME);
    assert DiffersBy(n, n % FELT_PRIME, n / FELT_PRIME, High(k) - Low(k));
  }

  /** The unsigned kinds have the ranges of integers of one, two, four and eight bytes. */
  lemma UnsignedRanges()
    ensures High(U8) == Power256(1) && High(U16) == Power256(2) && High(U32) == Power256(4) && High(U64) == Power256(8)
  {
    assert Power256(2) == 0x1_0000 && Power256(4) == 0x1_0000_0000;
    assert Power256(6) == 0x1_0000_0000_0000;
  }

  /** And of sixteen and thirty-two bytes. */
  lemma WideRanges()
    ensures High(U128) == Power256(16) && High(U256) == Power256(32)
  {
    PowersAgree();
  }

  /** A signed kind splits the range of the unsigned kind of its width around zero. */
  lemma SignedRanges()
    ensures 2 * High(I8) == High(U8) && 2 * High(I16) == High(U16) && 2 * High(I32) == High(U32)
    ensures 2 * High(I64) == High(U64) && 2 * High(I128) == High(U128)
    ensures forall k :: Low(k) == if k == I8 || k == I16 || k == I32 || k == I64 || k == I128 then -High(k) else 0
  {
  }

  lemma PowersAgree()
    ensures Power256(16) == TwoTo(128) && Power256(32) == TwoTo(256) && FELT_PRIME < Power256(32)
  {
    assert Power256(4) == 0x1_0000_0000;
    assert Power256(8) == 0x1_0000_0000_0000_0000;
    assert Power256(12) == 0x1_0000_0000_0000_0000_0000_0000;
    assert Power256(16) == TwoTo(128);
    assert Power256(20) == 0x1_0000_0000_0000_0000_0000_0000_0000_0000_0000_0000;
    assert Power256(24) == 0x1_0000_0000_0000_0000_0000_0000_0000_0000_0000_0000_0000_0000;
    assert Power256(28) == 0x1_0000_0000_0000_0000_0000_0000_0000_0000_0000_0000_0000_0000_0000_0000;
  }
}
