/** The protobuf form of typed values and its decoder. */
module ProtoCodec {
  import opened Results
  import opened Schema
  import opened Numerals

  datatype WirePrimitive = WireBool(flag: bool) | WireInt(kind: Kind, number: int) | WireBytes(kind: Kind, bytes: seq<nat>)

  datatype WireMember = WireMember(name: string, ty: Option<WireTy>, key: bool)

  datatype WireOption = WireOption(name: string, ty: Option<WireTy>)

  datatype WireType =
    | WirePrim(primitive: Option<WirePrimitive>)
    | WireStruct(name: string, children: seq<WireMember>)
    | WireEnum(name: string, option: nat, options: seq<WireOption>)
    | WireTuple(elems: seq<WireTy>)
    | WireArray(elems: seq<WireTy>)
    | WireFixedSizeArray(elems: seq<WireTy>, size: nat)
    | WireByteArray(text: string)

  /** A message; an unset oneof has no type. */
  datatype WireTy = WireTy(tyType: Option<WireType>)

  datatype ProtoError = MissingExpectedData | FromSlice

  /** Kinds that travel as bytes, and how many. */
  function ByteLength(k: Kind): nat {
    match k
    case I128 | U128 => 16
    case U256 | Felt252 | ClassHash | ContractAddress | EthAddress => 32
    case _ => 0
  }

  // ----- Encoding -----

  /** Two's complement for negative numbers. */
  function Unsigned(k: Kind, n: int): nat
    requires Schema.InRange(k, n)
  {
    if n < 0 then n + TwoTo(Bits(k)) else n
  }

  function EncodePrimitive(p: Primitive): WirePrimitive
    requires ValidPrimitive(p)
  {
    match p
    case Bool(b) => WireBool(b.Some? && b.value)
    case Int(k, v) =>
      var n := if v.Some? then v.value else 0;
      if ByteLength(k) == 0 then WireInt(k, n) else WireBytes(k, ToBytes(Unsigned(k, n), ByteLength(k)))
  }

  ghost predicate Valid(ty: Ty)
    decreases ty
  {
    match ty
    case Prim(p) => ValidPrimitive(p)
    case Struct(_, c) => forall i :: 0 <= i < |c| ==> Valid(c[i].ty)
    case Enum(_, o, c) => (o.Some? ==> o.value < 256) && forall i :: 0 <= i < |c| ==> Valid(c[i].ty)
    case Tuple(c) => forall i :: 0 <= i < |c| ==> Valid(c[i])
    case Array(c) => forall i :: 0 <= i < |c| ==> Valid(c[i])
    case FixedSizeArray(c, _) => forall i :: 0 <= i < |c| ==> Valid(c[i])
    case ByteArray(_) => true
  }

  /** `None` is the panic on fixed-size arrays. */
  ghost function Encode(ty: Ty): Option<WireTy>
    requires Valid(ty)
    decreases ty, 1
  {
    match ty
    case Prim(p) => Some(WireTy(Some(WirePrim(Some(EncodePrimitive(p))))))
    case Struct(n, c) =>
      (match EncodeMembers(c) case None => None case Some(ms) => Some(WireTy(Some(WireStruct(n, ms)))))
    case Enum(n, o, c) =>
      (match EncodeOptions(c)
       case None => None
       case Some(os) => Some(WireTy(Some(WireEnum(n, if o.Some? then o.value else 0, os)))))
    case Tuple(c) => (match EncodeAll(c) case None => None case Some(es) => Some(WireTy(Some(WireTuple(es)))))
    case Array(c) => (match EncodeAll(c) case None => None case Some(es) => Some(WireTy(Some(WireArray(es)))))
    case FixedSizeArray(_, _) => None
    case ByteArray(s) => Some(WireTy(Some(WireByteArray(s))))
  }

  ghost function EncodeMembers(c: seq<Member>): Option<seq<WireMember>>
    requires forall i :: 0 <= i < |c| ==> Valid(c[i].ty)
    decreases c, 0
  {
    if c == [] then Some([])
    else
      match (Encode(c[0].ty), EncodeMembers(c[1..]))
      case (Some(w), Some(rest)) => Some([WireMember(c[0].name, Some(w), c[0].key)] + rest)
      case _ => None
  }

  ghost function EncodeOptions(c: seq<EnumOption>): Option<seq<WireOption>>
    requires forall i :: 0 <= i < |c| ==> Valid(c[i].ty)
    decreases c, 0
  {
    if c == [] then Some([])
    else
      match (Encode(c[0].ty), EncodeOptions(c[1..]))
      case (Some(w), Some(rest)) => Some([WireOption(c[0].name, Some(w))] + rest)
      case _ => None
  }

  ghost function EncodeAll(c: seq<Ty>): Option<seq<WireTy>>
    requires forall i :: 0 <= i < |c| ==> Valid(c[i])
    decreases c, 0
  {
    if c == [] then Some([])
    else
      match (Encode(c[0]), EncodeAll(c[1..]))
      case (Some(w), Some(rest)) => Some([w] + rest)
      case _ => None
  }

  // ----- Decoding -----

  function DecodePrimitive(w: WirePrimitive): Result<Primitive, ProtoError> {
    match w
    case WireBool(b) => Ok(Bool(Some(b)))
    case WireInt(k, n) => Ok(Int(k, Some(Truncate(k, n))))
    case WireBytes(k, bytes) =>
      if IsFelt(k) then Ok(Int(k, Some(FromBytes(bytes) % FELT_PRIME)))
      else if |bytes| != ByteLength(k) then Err(FromSlice)
      else Ok(Int(k, Some(Truncate(k, FromBytes(bytes)))))
  }

  function Decode(w: WireTy): Result<Ty, ProtoError>
    decreases w, 1
  {
    match w.tyType
    case None => Err(MissingExpectedData)
    case Some(WirePrim(None)) => Err(MissingExpectedData)
    case Some(WirePrim(Some(p))) => (match DecodePrimitive(p) case Err(e) => Err(e) case Ok(q) => Ok(Prim(q)))
    case Some(WireStruct(n, ms)) => (match DecodeMembers(ms) case Err(e) => Err(e) case Ok(c) => Ok(Struct(n, c)))
    case Some(WireEnum(n, o, os)) =>
      (match DecodeOptions(os) case Err(e) => Err(e) case Ok(c) => Ok(Enum(n, Some(o % 256), c)))
    case Some(WireTuple(es)) => (match DecodeAll(es) case Err(e) => Err(e) case Ok(c) => Ok(Tuple(c)))
    case Some(WireArray(es)) => (match DecodeAll(es) case Err(e) => Err(e) case Ok(c) => Ok(Array(c)))
    case Some(WireFixedSizeArray(es, size)) => (match DecodeAll(es) case Err(e) => Err(e) case Ok(c) => Ok(FixedSizeArray(c, size)))
    case Some(WireByteArray(s)) => Ok(ByteArray(s))
  }

  function DecodeMembers(ms: seq<WireMember>): Result<seq<Member>, ProtoError>
    decreases ms, 0
  {
    if ms == [] then Ok([])
    else if ms[0].ty.None? then Err(MissingExpectedData)
    else
      match Decode(ms[0].ty.value)
      case Err(e) => Err(e)
      case Ok(ty) =>
        match DecodeMembers(ms[1..])
        case Err(e) => Err(e)
        case Ok(rest) => Ok([Member(ms[0].name, ty, ms[0].key)] + rest)
  }

  function DecodeOptions(os: seq<WireOption>): Result<seq<EnumOption>, ProtoError>
    decreases os, 0
  {
    if os == [] then Ok([])
    else if os[0].ty.None? then Err(MissingExpectedData)
    else
      match Decode(os[0].ty.value)
      case Err(e) => Err(e)
      case Ok(ty) =>
        match DecodeOptions(os[1..])
        case Err(e) => Err(e)
        case Ok(rest) => Ok([EnumOption(os[0].name, ty)] + rest)
  }

  function DecodeAll(es: seq<WireTy>): Result<seq<Ty>, ProtoError>
    decreases es, 0
  {
    if es == [] then Ok([])
    else
      match Decode(es[0])
      case Err(e) => Err(e)
      case Ok(ty) => match DecodeAll(es[1..]) case Err(e) => Err(e) case Ok(rest) => Ok([ty] + rest)
  }

  // ----- Round trip -----

  ghost predicate HasNoFixedSizeArray(ty: Ty)
    decreases ty
  {
    match ty
    case Struct(_, c) => forall i :: 0 <= i < |c| ==> HasNoFixedSizeArray(c[i].ty)
    case Enum(_, _, c) => forall i :: 0 <= i < |c| ==> HasNoFixedSizeArray(c[i].ty)
    case Tuple(c) => forall i :: 0 <= i < |c| ==> HasNoFixedSizeArray(c[i])
    case Array(c) => forall i :: 0 <= i < |c| ==> HasNoFixedSizeArray(c[i])
    case FixedSizeArray(_, _) => false
    case _ => true
  }

  /** Absent primitives become their default and absent enum options become 0. */
  ghost function Normal(ty: Ty): Ty
    decreases ty
  {
    match ty
    case Prim(p) => Prim(FilledPrimitive(p))
    case Struct(n, c) => Struct(n, seq(|c|, i requires 0 <= i < |c| => c[i].(ty := Normal(c[i].ty))))
    case Enum(n, o, c) =>
      Enum(n, Some(if o.Some? then o.value else 0), seq(|c|, i requires 0 <= i < |c| => c[i].(ty := Normal(c[i].ty))))
    case Tuple(c) => Tuple(seq(|c|, i requires 0 <= i < |c| => Normal(c[i])))
    case Array(c) => Array(seq(|c|, i requires 0 <= i < |c| => Normal(c[i])))
    case FixedSizeArray(c, size) => FixedSizeArray(seq(|c|, i requires 0 <= i < |c| => Normal(c[i])), size)
    case ByteArray(_) => ty
  }

  ghost function NormalMembers(c: seq<Member>): seq<Member> {
    seq(|c|, i requires 0 <= i < |c| => c[i].(ty := Normal(c[i].ty)))
  }

  ghost function NormalOptions(c: seq<EnumOption>): seq<EnumOption> {
    seq(|c|, i requires 0 <= i < |c| => c[i].(ty := Normal(c[i].ty)))
  }

  ghost function NormalAll(c: seq<Ty>): seq<Ty> {
    seq(|c|, i requires 0 <= i < |c| => Normal(c[i]))
  }

  lemma UnsignedFits(k: Kind, n: int)
    requires ByteLength(k) > 0 && Schema.InRange(k, n)
    ensures Unsigned(k, n) < Power256(ByteLength(k))
  {
    PowersAgree();
  }

  lemma TruncateUnsigned(k: Kind, n: int)
    requires (k == I128 || k == U128 || k == U256) && Schema.InRange(k, n)
    ensures Truncate(k, Unsigned(k, n)) == n
  {
    var size := TwoTo(Bits(k));
    assert size == High(k) - Low(k);
    if n < 0 {
      assert n + size - Low(k) == (n - Low(k)) + size;
      assert (n + size - Low(k)) % size == n - Low(k);
    }
  }

  lemma BytesRoundTrip(k: Kind, n: int)
    requires ByteLength(k) > 0 && Schema.InRange(k, n)
    ensures DecodePrimitive(WireBytes(k, ToBytes(Unsigned(k, n), ByteLength(k)))) == Ok(Int(k, Some(n)))
  {
    var u, length := Unsigned(k, n), ByteLength(k);
    UnsignedFits(k, n);
    BytesInvert(u, length);
    DecodeBytes(k, ToBytes(u, length), n);
  }

  lemma DecodeBytes(k: Kind, bytes: seq<nat>, n: int)
    requires ByteLength(k) > 0 && Schema.InRange(k, n)
    requires |bytes| == ByteLength(k) && FromBytes(bytes) == Unsigned(k, n)
    ensures DecodePrimitive(WireBytes(k, bytes)) == Ok(Int(k, Some(n)))
  {
    if !IsFelt(k) {
      TruncateUnsigned(k, n);
    }
  }

  lemma PrimitiveRoundTrip(p: Primitive)
    requires ValidPrimitive(p)
    ensures DecodePrimitive(EncodePrimitive(p)) == Ok(FilledPrimitive(p))
  {
    if p.Int? {
      var n := if p.value.Some? then p.value.value else 0;
      assert Schema.InRange(p.kind, 0);
      if ByteLength(p.kind) == 0 {
        TruncateInRange(p.kind, n);
      } else {
        BytesRoundTrip(p.kind, n);
      }
    }
  }

  /** 128-bit numbers travel as 16 bytes, 256-bit numbers and field elements as 32, all others as numbers. */
  lemma WireForm(p: Primitive)
    requires ValidPrimitive(p) && p.Int?
    ensures var w := EncodePrimitive(p);
            match p.kind
            case I128 | U128 => w.WireBytes? && w.kind == p.kind && IsByteString(w.bytes, 16)
            case U256 | Felt252 | ClassHash | ContractAddress | EthAddress =>
              w.WireBytes? && w.kind == p.kind && IsByteString(w.bytes, 32)
            case _ => w == WireInt(p.kind, if p.value.Some? then p.value.value else 0)
  {
    assert Schema.InRange(p.kind, 0);
    if ByteLength(p.kind) > 0 {
      BytesForm(p.kind, if p.value.Some? then p.value.value else 0);
    }
  }

  lemma BytesForm(k: Kind, n: int)
    requires ByteLength(k) > 0 && Schema.InRange(k, n)
    ensures IsByteString(ToBytes(Unsigned(k, n), ByteLength(k)), ByteLength(k))
  {
    UnsignedFits(k, n);
    BytesInvert(Unsigned(k, n), ByteLength(k));
  }

  ghost predicate IsByteString(bytes: seq<nat>, length: nat) {
    |bytes| == length && forall b :: b in bytes ==> b < 256
  }

  /** Decoding gives a number in the range of its kind that agrees with the sent one modulo the width or the prime. */
  lemma DecodedNumber(w: WirePrimitive)
    requires !w.WireBool? && (w.WireInt? ==> !IsFelt(w.kind)) && DecodePrimitive(w).Ok?
    ensures exists v :: DecodePrimitive(w) == Ok(Int(w.kind, Some(v))) &&
                        IsRemainder(w.kind, if w.WireInt? then w.number else FromBytes(w.bytes), v)
  {
    if IsFelt(w.kind) {
      PrimeIsRemainder(w.kind, FromBytes(w.bytes));
      assert DecodePrimitive(w) == Ok(Int(w.kind, Some(FromBytes(w.bytes) % FELT_PRIME)));
    } else {
      var n := if w.WireInt? then w.number else FromBytes(w.bytes);
      TruncateIsRemainder(w.kind, n);
      assert DecodePrimitive(w) == Ok(Int(w.kind, Some(Truncate(w.kind, n))));
    }
  }

  /** A decoded enum has an option that fits a byte and agrees with the sent one modulo 256. */
  lemma DecodedOption(n: string, o: nat, os: seq<WireOption>)
    requires Decode(WireTy(Some(WireEnum(n, o, os)))).Ok?
    ensures var ty := Decode(WireTy(Some(WireEnum(n, o, os)))).value;
            ty.Enum? && ty.option.Some? && ty.option.value < 256 && Congruent(o, ty.option.value, 256)
  {
    DivideBack(o, 256);
    assert DiffersBy(o, o % 256, o / 256, 256);
  }

  // ----- What can be decoded -----

  /** Every type is set, every primitive has a value, and byte strings of numbers have the length of their kind. */
  ghost predicate IsComplete(w: WireTy)
    decreases w
  {
    match w.tyType
    case None => false
    case Some(WirePrim(None)) => false
    case Some(WirePrim(Some(p))) => p.WireBytes? && !IsFelt(p.kind) ==> |p.bytes| == ByteLength(p.kind)
    case Some(WireStruct(_, ms)) => forall i :: 0 <= i < |ms| ==> ms[i].ty.Some? && IsComplete(ms[i].ty.value)
    case Some(WireEnum(_, _, os)) => forall i :: 0 <= i < |os| ==> os[i].ty.Some? && IsComplete(os[i].ty.value)
    case Some(WireTuple(es)) => forall i :: 0 <= i < |es| ==> IsComplete(es[i])
    case Some(WireArray(es)) => forall i :: 0 <= i < |es| ==> IsComplete(es[i])
    case Some(WireFixedSizeArray(es, _)) => forall i :: 0 <= i < |es| ==> IsComplete(es[i])
    case Some(WireByteArray(_)) => true
  }

  /** A message decodes exactly when it is complete. */
  lemma {:induction false} DecodesIff(w: WireTy)
    ensures Decode(w).Ok? <==> IsComplete(w)
    decreases w, 1
  {
    match w.tyType {
      case Some(WireStruct(_, ms)) => MembersDecodeIff(ms);
      case Some(WireEnum(_, _, os)) => OptionsDecodeIff(os);
      case Some(WireTuple(es)) => AllDecodeIff(es);
      case Some(WireArray(es)) => AllDecodeIff(es);
      case Some(WireFixedSizeArray(es, _)) => AllDecodeIff(es);
      case _ =>
    }
  }

  lemma {:induction false} MembersDecodeIff(ms: seq<WireMember>)
    ensures DecodeMembers(ms).Ok? <==> forall i :: 0 <= i < |ms| ==> ms[i].ty.Some? && IsComplete(ms[i].ty.value)
    decreases ms, 0
  {
    if ms != [] {
      if ms[0].ty.Some? {
        DecodesIff(ms[0].ty.value);
      }
      MembersDecodeIff(ms[1..]);
      assert forall i :: 0 < i < |ms| ==> ms[i] == ms[1..][i - 1];
    }
  }

  lemma {:induction false} OptionsDecodeIff(os: seq<WireOption>)
    ensures DecodeOptions(os).Ok? <==> forall i :: 0 <= i < |os| ==> os[i].ty.Some? && IsComplete(os[i].ty.value)
    decreases os, 0
  {
    if os != [] {
      if os[0].ty.Some? {
        DecodesIff(os[0].ty.value);
      }
      OptionsDecodeIff(os[1..]);
      assert forall i :: 0 < i < |os| ==> os[i] == os[1..][i - 1];
    }
  }

  lemma {:induction false} AllDecodeIff(es: seq<WireTy>)
    ensures DecodeAll(es).Ok? <==> forall i :: 0 <= i < |es| ==> IsComplete(es[i])
    decreases es, 0
  {
    if es != [] {
      DecodesIff(es[0]);
      AllDecodeIff(es[1..]);
      assert forall i :: 0 < i < |es| ==> es[i] == es[1..][i - 1];
    }
  }

  // ----- Encoding and decoding back -----

  /**
   Encoding succeeds exactly when the tree has no fixed-size array, and decoding the result gives the tree
   with absent parts set to their defaults.
   */
  lemma {:induction false} DecodeInvertsEncode(ty: Ty)
    requires Valid(ty)
    ensures Encode(ty).Some? <==> HasNoFixedSizeArray(ty)
    ensures Encode(ty).Some? ==> Decode(Encode(ty).value) == Ok(Normal(ty))
    decreases ty, 1
  {
    match ty {
      case Prim(p) => PrimitiveRoundTrip(p);
      case Struct(n, c) =>
        MembersRoundTrip(c);
        StructCase(n, c);
      case Enum(n, o, c) =>
        OptionsRoundTrip(c);
        EnumCase(n, o, c);
      case Tuple(c) =>
        AllRoundTrip(c);
        assert Normal(ty) == Tuple(NormalAll(c));
      case Array(c) =>
        AllRoundTrip(c);
        assert Normal(ty) == Array(NormalAll(c));
      case _ =>
    }
  }

  lemma StructCase(n: string, c: seq<Member>)
    requires Valid(Struct(n, c))
    requires EncodeMembers(c).Some? ==> DecodeMembers(EncodeMembers(c).value) == Ok(NormalMembers(c))
    ensures Encode(Struct(n, c)).Some? <==> EncodeMembers(c).Some?
    ensures Encode(Struct(n, c)).Some? ==> Decode(Encode(Struct(n, c)).value) == Ok(Normal(Struct(n, c)))
  {
    assert Normal(Struct(n, c)) == Struct(n, NormalMembers(c));
  }

  lemma EnumCase(n: string, o: Option<nat>, c: seq<EnumOption>)
    requires Valid(Enum(n, o, c))
    requires EncodeOptions(c).Some? ==> DecodeOptions(EncodeOptions(c).value) == Ok(NormalOptions(c))
    ensures Encode(Enum(n, o, c)).Some? <==> EncodeOptions(c).Some?
    ensures Encode(Enum(n, o, c)).Some? ==> Decode(Encode(Enum(n, o, c)).value) == Ok(Normal(Enum(n, o, c)))
  {
    NormalEnum(n, o, c);
    DecodedEnum(n, if o.Some? then o.value else 0, c);
  }

  lemma NormalEnum(n: string, o: Option<nat>, c: seq<EnumOption>)
    ensures Normal(Enum(n, o, c)) == Enum(n, Some(if o.Some? then o.value else 0), NormalOptions(c))
  {
  }

  lemma DecodedEnum(n: string, o: nat, c: seq<EnumOption>)
    requires o < 256 && forall i :: 0 <= i < |c| ==> Valid(c[i].ty)
    requires EncodeOptions(c).Some? ==> DecodeOptions(EncodeOptions(c).value) == Ok(NormalOptions(c))
    ensures EncodeOptions(c).Some? ==>
              Decode(WireTy(Some(WireEnum(n, o, EncodeOptions(c).value)))) == Ok(Enum(n, Some(o), NormalOptions(c)))
  {
  }

  lemma {:induction false} MembersRoundTrip(c: seq<Member>)
    requires forall i :: 0 <= i < |c| ==> Valid(c[i].ty)
    ensures EncodeMembers(c).Some? <==> forall i :: 0 <= i < |c| ==> HasNoFixedSizeArray(c[i].ty)
    ensures EncodeMembers(c).Some? ==> DecodeMembers(EncodeMembers(c).value) == Ok(NormalMembers(c))
    decreases c, 0
  {
    if c == [] {
      assert NormalMembers(c) == [];
    } else {
      DecodeInvertsEncode(c[0].ty);
      MembersRoundTrip(c[1..]);
      assert forall i :: 0 < i < |c| ==> c[i] == c[1..][i - 1];
      assert NormalMembers(c) == [c[0].(ty := Normal(c[0].ty))] + NormalMembers(c[1..]);
      if EncodeMembers(c).Some? {
        assert EncodeMembers(c).value[1..] == EncodeMembers(c[1..]).value;
      }
    }
  }

  lemma {:induction false} OptionsRoundTrip(c: seq<EnumOption>)
    requires forall i :: 0 <= i < |c| ==> Valid(c[i].ty)
    ensures EncodeOptions(c).Some? <==> forall i :: 0 <= i < |c| ==> HasNoFixedSizeArray(c[i].ty)
    ensures EncodeOptions(c).Some? ==> DecodeOptions(EncodeOptions(c).value) == Ok(NormalOptions(c))
    decreases c, 0
  {
    if c == [] {
      assert NormalOptions(c) == [];
    } else {
      DecodeInvertsEncode(c[0].ty);
      OptionsRoundTrip(c[1..]);
      assert forall i :: 0 < i < |c| ==> c[i] == c[1..][i - 1];
      assert NormalOptions(c) == [c[0].(ty := Normal(c[0].ty))] + NormalOptions(c[1..]);
      if EncodeOptions(c).Some? {
        assert EncodeOptions(c).value[1..] == EncodeOptions(c[1..]).value;
      }
    }
  }

  lemma {:induction false} AllRoundTrip(c: seq<Ty>)
    requires forall i :: 0 <= i < |c| ==> Valid(c[i])
    ensures EncodeAll(c).Some? <==> forall i :: 0 <= i < |c| ==> HasNoFixedSizeArray(c[i])
    ensures EncodeAll(c).Some? ==> DecodeAll(EncodeAll(c).value) == Ok(NormalAll(c))
    decreases c, 0
  {
    if c == [] {
      assert NormalAll(c) == [];
    } else {
      DecodeInvertsEncode(c[0]);
      AllRoundTrip(c[1..]);
      assert forall i :: 0 < i < |c| ==> c[i] == c[1..][i - 1];
      assert NormalAll(c) == [Normal(c[0])] + NormalAll(c[1..]);
      if EncodeAll(c).Some? {
        assert EncodeAll(c).value[1..] == EncodeAll(c[1..]).value;
      }
    }
  }

  /** Setting absent parts to their defaults twice changes nothing more. */
  lemma {:induction false} NormalIdempotent(ty: Ty)
    ensures Normal(Normal(ty)) == Normal(ty)
    decreases ty
  {
    match ty {
      case Struct(n, c) =>
        forall i | 0 <= i < |c|
          ensures Normal(Normal(c[i].ty)) == Normal(c[i].ty)
        {
          NormalIdempotent(c[i].ty);
        }
      case Enum(n, o, c) =>
        forall i | 0 <= i < |c|
          ensures Normal(Normal(c[i].ty)) == Normal(c[i].ty)
        {
          NormalIdempotent(c[i].ty);
        }
      case Tuple(c) =>
        forall i | 0 <= i < |c|
          ensures Normal(Normal(c[i])) == Normal(c[i])
        {
          NormalIdempotent(c[i]);
        }
      case Array(c) =>
        forall i | 0 <= i < |c|
          ensures Normal(Normal(c[i])) == Normal(c[i])
        {
          NormalIdempotent(c[i]);
        }
      case FixedSizeArray(c, _) =>
        forall i | 0 <= i < |c|
          ensures Normal(Normal(c[i])) == Normal(c[i])
        {
          NormalIdempotent(c[i]);
        }
      case _ =>
    }
  }
}
