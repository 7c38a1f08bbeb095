/**
 Typed data: printing a schema value as a JSON-like value and parsing such a value back into a schema.
 */
module TypedData {
  import opened Results
  import opened Schema
  import opened Numerals
  import opened Sequences

  datatype Field = Field(key: string, value: Value)

  datatype Value =
    | Object(fields: seq<Field>)
    | List(elems: seq<Value>)
    | Flag(flag: bool)
    | Text(text: string)
    | Number(number: int)

  datatype Error = InvalidEnum | FieldNotFound | InvalidType | InvalidValue | ParseError | Panic

  /** Insertion into an insertion-ordered map: an existing key keeps its place. */
  function Insert(fields: seq<Field>, f: Field): seq<Field> {
    if fields == [] then [f]
    else if fields[0].key == f.key then [f] + fields[1..]
    else [fields[0]] + Insert(fields[1..], f)
  }

  function Lookup(fields: seq<Field>, key: string): Option<Value> {
    if fields == [] then None else if fields[0].key == key then Some(fields[0].value) else Lookup(fields[1..], key)
  }

  /** Inserting sets one key and leaves the others alone. */
  lemma {:induction false} InsertSets(fields: seq<Field>, f: Field, key: string)
    ensures Lookup(Insert(fields, f), key) == if key == f.key then Some(f.value) else Lookup(fields, key)
  {
    if fields != [] {
      InsertSets(fields[1..], f, key);
      assert Insert(fields, f)[1..] == if fields[0].key == f.key then fields[1..] else Insert(fields[1..], f);
    }
  }

  ghost function KeysOf(fields: seq<Field>): seq<string> {
    if fields == [] then [] else [fields[0].key] + KeysOf(fields[1..])
  }

  /** The keys keep their order, and a new one goes to the back. */
  lemma {:induction false} InsertKeepsOrder(fields: seq<Field>, f: Field)
    ensures KeysOf(Insert(fields, f)) == if f.key in KeysOf(fields) then KeysOf(fields) else KeysOf(fields) + [f.key]
  {
    if fields == [] {
      assert [f][1..] == [];
    } else {
      InsertKeepsOrder(fields[1..], f);
      assert Insert(fields, f)[1..] == if fields[0].key == f.key then fields[1..] else Insert(fields[1..], f);
      ConcatAssociative([fields[0].key], KeysOf(fields[1..]), [f.key]);
    }
  }

  const HALF: nat := TwoTo(128)

  // ----- Printing -----

  function PrintPrimitive(p: Primitive): Value {
    match p
    case Bool(b) => Flag(b.Some? && b.value)
    case Int(k, v) =>
      var n := if v.Some? then v.value else 0;
      match k
      case I8 | I16 | I32 | U8 | U16 | U32 => Number(n)
      case U256 => Object([Field("high", Text(ToText(n / HALF))), Field("low", Text(ToText(n % HALF)))])
      case _ => Text(ToText(n))
  }

  function Print(ty: Ty): Result<Value, Error>
    decreases ty, 1
  {
    match ty
    case Prim(p) => Ok(PrintPrimitive(p))
    case Struct(_, children) =>
      (match PrintMembers(children)
       case Err(e) => Err(e)
       case Ok(fields) => Ok(Object(fields)))
    case Enum(_, option, options) =>
      if option.None? || option.value >= |options| then Err(InvalidEnum)
      else
        (match Print(options[option.value].ty)
         case Err(e) => Err(e)
         case Ok(v) => Ok(Object([Field(options[option.value].name, v)])))
    case Tuple(elems) => (match PrintAll(elems) case Err(e) => Err(e) case Ok(vs) => Ok(List(vs)))
    case Array(elems) => (match PrintAll(elems) case Err(e) => Err(e) case Ok(vs) => Ok(List(vs)))
    case FixedSizeArray(elems, _) => (match PrintAll(elems) case Err(e) => Err(e) case Ok(vs) => Ok(List(vs)))
    case ByteArray(s) => Ok(Text(s))
  }

  function PrintMembers(members: seq<Member>): Result<seq<Field>, Error>
    decreases members, 0
  {
    if members == [] then Ok([])
    else
      var last := |members| - 1;
      match PrintMembers(members[..last])
      case Err(e) => Err(e)
      case Ok(fields) =>
        match Print(members[last].ty)
        case Err(e) => Err(e)
        case Ok(v) => Ok(Insert(fields, Field(members[last].name, v)))
  }

  function PrintAll(tys: seq<Ty>): Result<seq<Value>, Error>
    decreases tys, 0
  {
    if tys == [] then Ok([])
    else
      var last := |tys| - 1;
      match PrintAll(tys[..last])
      case Err(e) => Err(e)
      case Ok(vs) =>
        match Print(tys[last])
        case Err(e) => Err(e)
        case Ok(v) => Ok(vs + [v])
  }

  // ----- Parsing -----

  function ParseJsonNumber(n: int, p: Primitive): Result<Primitive, Error> {
    if p.Bool? then Err(InvalidType)
    else
      match p.kind
      case I8 | I16 | I32 | I64 => if Schema.InRange(I64, n) then Ok(Int(p.kind, Some(Truncate(p.kind, n)))) else Err(ParseError)
      case U8 | U16 | U32 | U64 => if Schema.InRange(U64, n) then Ok(Int(p.kind, Some(Truncate(p.kind, n)))) else Err(ParseError)
      case _ => Err(InvalidType)
  }

  function ParseText(s: string, p: Primitive): Result<Primitive, Error> {
    match p
    case Bool(_) => if s == "true" then Ok(Bool(Some(true))) else if s == "false" then Ok(Bool(Some(false))) else Err(ParseError)
    case Int(k, _) =>
      if k == U256 then Err(InvalidType)
      else
        match ParseNumber(s, Low(k), High(k))
        case None => Err(ParseError)
        case Some(n) => Ok(Int(k, Some(n)))
  }

  /** The texts `true` and `false`, and no others, are booleans. */
  lemma BoolText(s: string, was: Option<bool>, b: bool)
    ensures ParseText(s, Bool(was)) == Ok(Bool(Some(b))) <==> s == (if b then "true" else "false")
    ensures ParseText(s, Bool(was)).Err? <==> s != "true" && s != "false"
  {
    assert "true"[0] != "false"[0];
  }

  ghost predicate FitsNumber(k: Kind, n: int) {
    if IsSigned(k) then -0x8000_0000_0000_0000 <= n < 0x8000_0000_0000_0000 else 0 <= n < 0x1_0000_0000_0000_0000
  }

  /**
   A JSON number that fits 64 bits is taken into any kind of up to 64 bits, exactly if it is in range and
   modulo the width otherwise; any other number is refused.
   */
  lemma JsonNumber(n: int, k: Kind, was: Option<int>)
    requires Bits(k) <= 64
    ensures ParseJsonNumber(n, Int(k, was)).Ok? <==> FitsNumber(k, n)
    ensures ParseJsonNumber(n, Int(k, was)).Ok? ==>
              exists v :: ParseJsonNumber(n, Int(k, was)) == Ok(Int(k, Some(v))) && IsRemainder(k, n, v)
  {
    if FitsNumber(k, n) {
      TruncateIsRemainder(k, n);
      assert ParseJsonNumber(n, Int(k, was)) == Ok(Int(k, Some(Truncate(k, n))));
    }
  }

  /** A boolean replaces the 128-bit half it is parsed into, which panics later. */
  function ParseHalf(fields: seq<Field>, key: string): Result<Option<nat>, Error> {
    match Lookup(fields, key)
    case None => Err(Panic)
    case Some(Flag(_)) => Ok(None)
    case Some(Text(s)) => (match ParseNumber(s, 0, HALF) case None => Err(ParseError) case Some(n) => Ok(Some(n)))
    case Some(_) => Err(InvalidType)
  }

  /** A 256-bit number from its two 128-bit halves; a missing half panics. */
  function ParseHalves(fields: seq<Field>): Result<Primitive, Error> {
    match ParseHalf(fields, "low")
    case Err(e) => Err(e)
    case Ok(low) =>
      match ParseHalf(fields, "high")
      case Err(e) => Err(e)
      case Ok(high) =>
        if low.None? || high.None? then Err(Panic) else Ok(Int(U256, Some(high.value * HALF + low.value)))
  }

  /** The schema after the value has been parsed into it. */
  function Parse(v: Value, ty: Ty): Result<Ty, Error>
    decreases v, 1
  {
    match v
    case Object(fields) =>
      (match ty
       case Struct(name, children) =>
         (match ParseFields(fields, children) case Err(e) => Err(e) case Ok(c) => Ok(Struct(name, c)))
       case Prim(Int(U256, _)) => (match ParseHalves(fields) case Err(e) => Err(e) case Ok(p) => Ok(Prim(p)))
       case Enum(name, _, options) => ParseEnum(fields, name, options)
       case _ => Err(InvalidType))
    case List(values) =>
      (match ty
       case Array(elems) =>
         if elems == [] then Err(Panic)
         else (match ParseAll(values, elems[0]) case Err(e) => Err(e) case Ok(es) => Ok(Array(es)))
       case Tuple(elems) =>
         if |elems| != |values| then Err(InvalidValue)
         else (match ParseEach(values, elems) case Err(e) => Err(e) case Ok(es) => Ok(Tuple(es)))
       case _ => Err(InvalidType))
    case Number(n) =>
      (match ty
       case Prim(p) => (match ParseJsonNumber(n, p) case Err(e) => Err(e) case Ok(q) => Ok(Prim(q)))
       case _ => Err(InvalidType))
    case Flag(b) => Ok(Prim(Bool(Some(b))))
    case Text(s) =>
      (match ty
       case Prim(p) => (match ParseText(s, p) case Err(e) => Err(e) case Ok(q) => Ok(Prim(q)))
       case ByteArray(_) => Ok(ByteArray(s))
       case _ => Err(InvalidType))
  }

  /** The first field names the option, its value is parsed into it; any failure is an invalid enum. */
  function ParseEnum(fields: seq<Field>, name: string, options: seq<EnumOption>): Result<Ty, Error>
    decreases fields, 1
  {
    if fields == [] then Err(InvalidEnum)
    else
      match ParseOptions(fields[0].value, fields[0].key, options)
      case Err(_) => Err(InvalidEnum)
      case Ok(parsed) =>
        match OptionIndex(parsed, fields[0].key)
        case None => Err(InvalidEnum)
        case Some(i) => Ok(Enum(name, Some(i % 256), parsed))
  }

  function MemberIndex(members: seq<Member>, name: string): (r: Option<nat>)
    ensures r.Some? ==> r.value < |members| && members[r.value].name == name
  {
    if members == [] then None
    else if members[0].name == name then Some(0)
    else match MemberIndex(members[1..], name) case None => None case Some(i) => Some(i + 1)
  }

  function OptionIndex(options: seq<EnumOption>, name: string): (r: Option<nat>)
    ensures r.Some? ==> r.value < |options| && options[r.value].name == name
  {
    if options == [] then None
    else if options[0].name == name then Some(0)
    else match OptionIndex(options[1..], name) case None => None case Some(i) => Some(i + 1)
  }

  /** A field goes to the first member of its name, if there is one. */
  lemma {:induction false} MemberIndexIsFirst(members: seq<Member>, name: string, j: nat)
    requires j < |members|
    requires match MemberIndex(members, name) case None => true case Some(i) => j < i
    ensures members[j].name != name
  {
    if j > 0 {
      MemberIndexIsFirst(members[1..], name, j - 1);
    }
  }

  /** Each field is parsed into the first member of its name. */
  function ParseFields(fields: seq<Field>, members: seq<Member>): Result<seq<Member>, Error>
    decreases fields, 0
  {
    if fields == [] then Ok(members)
    else
      match MemberIndex(members, fields[0].key)
      case None => Err(FieldNotFound)
      case Some(i) =>
        match Parse(fields[0].value, members[i].ty)
        case Err(e) => Err(e)
        case Ok(ty) => ParseFields(fields[1..], members[i := members[i].(ty := ty)])
  }

  /** The value is parsed into every option of the chosen name. */
  function ParseOptions(v: Value, name: string, options: seq<EnumOption>): Result<seq<EnumOption>, Error>
    decreases v, 2, |options|
  {
    if options == [] then Ok([])
    else
      match if options[0].name == name then Parse(v, options[0].ty) else Ok(options[0].ty)
      case Err(e) => Err(e)
      case Ok(ty) =>
        match ParseOptions(v, name, options[1..])
        case Err(e) => Err(e)
        case Ok(rest) => Ok([options[0].(ty := ty)] + rest)
  }

  function ParseAll(values: seq<Value>, inner: Ty): Result<seq<Ty>, Error>
    decreases values, 0
  {
    if values == [] then Ok([])
    else
      match Parse(values[0], inner)
      case Err(e) => Err(e)
      case Ok(ty) => match ParseAll(values[1..], inner) case Err(e) => Err(e) case Ok(rest) => Ok([ty] + rest)
  }

  function ParseEach(values: seq<Value>, tys: seq<Ty>): Result<seq<Ty>, Error>
    requires |values| == |tys|
    decreases values, 0
  {
    if values == [] then Ok([])
    else
      match Parse(values[0], tys[0])
      case Err(e) => Err(e)
      case Ok(ty) => match ParseEach(values[1..], tys[1..]) case Err(e) => Err(e) case Ok(rest) => Ok([ty] + rest)
  }

  // ----- What can be printed -----

  /** Every enum that gets printed has selected one of its options. */
  ghost predicate Printable(ty: Ty)
    decreases ty
  {
    match ty
    case Prim(_) => true
    case ByteArray(_) => true
    case Struct(_, c) => forall i :: 0 <= i < |c| ==> Printable(c[i].ty)
    case Enum(_, o, c) => o.Some? && o.value < |c| && Printable(c[o.value].ty)
    case Tuple(c) => forall i :: 0 <= i < |c| ==> Printable(c[i])
    case Array(c) => forall i :: 0 <= i < |c| ==> Printable(c[i])
    case FixedSizeArray(c, _) => forall i :: 0 <= i < |c| ==> Printable(c[i])
  }

  /** Printing fails, as an invalid enum, exactly on a value that is not printable. */
  lemma {:induction false} PrintsIff(ty: Ty)
    ensures Print(ty).Ok? <==> Printable(ty)
    ensures Print(ty).Err? ==> Print(ty).error == InvalidEnum
    decreases ty, 1
  {
    match ty {
      case Struct(_, c) => MembersPrintIff(c);
      case Enum(_, o, c) =>
        if o.Some? && o.value < |c| {
          PrintsIff(c[o.value].ty);
        }
      case Tuple(c) => AllPrintIff(c);
      case Array(c) => AllPrintIff(c);
      case FixedSizeArray(c, _) => AllPrintIff(c);
      case _ =>
    }
  }

  lemma {:induction false} MembersPrintIff(c: seq<Member>)
    ensures PrintMembers(c).Ok? <==> forall i :: 0 <= i < |c| ==> Printable(c[i].ty)
    ensures PrintMembers(c).Err? ==> PrintMembers(c).error == InvalidEnum
    decreases c, 0
  {
    if c != [] {
      var last := |c| - 1;
      MembersPrintIff(c[..last]);
      PrintsIff(c[last].ty);
      assert forall i :: 0 <= i < last ==> c[..last][i] == c[i];
    }
  }

  lemma {:induction false} AllPrintIff(c: seq<Ty>)
    ensures PrintAll(c).Ok? <==> forall i :: 0 <= i < |c| ==> Printable(c[i])
    ensures PrintAll(c).Err? ==> PrintAll(c).error == InvalidEnum
    decreases c, 0
  {
    if c != [] {
      var last := |c| - 1;
      AllPrintIff(c[..last]);
      PrintsIff(c[last]);
      assert forall i :: 0 <= i < last ==> c[..last][i] == c[i];
    }
  }

  /** A fixed-size array prints like an array, but nothing but a boolean can be parsed into it. */
  lemma FixedSizeIsNotParsed(c: seq<Ty>, size: nat, v: Value)
    ensures Print(FixedSizeArray(c, size)) == Print(Array(c))
    ensures Parse(v, FixedSizeArray(c, size)) == if v.Flag? then Ok(Prim(Bool(Some(v.flag)))) else Err(InvalidType)
  {
  }

  // ----- Round trip -----

  ghost predicate SameKind(p: Primitive, q: Primitive) {
    (p.Bool? && q.Bool?) || (p.Int? && q.Int? && p.kind == q.kind)
  }

  ghost predicate DistinctMembers(c: seq<Member>) {
    forall i, j :: 0 <= i < j < |c| ==> c[i].name != c[j].name
  }

  ghost predicate DistinctOptions(c: seq<EnumOption>) {
    forall i, j :: 0 <= i < j < |c| ==> c[i].name != c[j].name
  }

  /**
   `v` is a value of schema `s`: same shape and names, names distinct, values in range, an enum with a valid
   option whose other variants are those of the schema, and a schema element for every array.
   */
  ghost predicate Conforms(v: Ty, s: Ty)
    decreases v
  {
    match (v, s)
    case (Prim(p), Prim(q)) => SameKind(p, q) && ValidPrimitive(p)
    case (ByteArray(_), ByteArray(_)) => true
    case (Struct(n, c), Struct(m, d)) =>
      && n == m && |c| == |d| && DistinctMembers(c)
      && forall i :: 0 <= i < |c| ==> c[i].name == d[i].name && c[i].key == d[i].key && Conforms(c[i].ty, d[i].ty)
    case (Enum(n, o, c), Enum(m, _, d)) =>
      && n == m && |c| == |d| && DistinctOptions(c) && o.Some? && o.value < |c| && o.value < 256
      && c[o.value].name == d[o.value].name && Conforms(c[o.value].ty, d[o.value].ty)
      && forall i :: 0 <= i < |c| && i != o.value ==> c[i] == d[i]
    case (Tuple(c), Tuple(d)) => |c| == |d| && forall i :: 0 <= i < |c| ==> Conforms(c[i], d[i])
    case (Array(c), Array(d)) => d != [] && forall i :: 0 <= i < |c| ==> Conforms(c[i], d[0])
    case _ => false
  }

  /** Absent primitives become zero or false; variants that are not selected stay as they are. */
  ghost function Filled(v: Ty): Ty
    decreases v
  {
    match v
    case Prim(p) => Prim(FilledPrimitive(p))
    case Struct(n, c) => Struct(n, seq(|c|, i requires 0 <= i < |c| => c[i].(ty := Filled(c[i].ty))))
    case Enum(n, o, c) =>
      if o.Some? && o.value < |c| then Enum(n, o, c[o.value := c[o.value].(ty := Filled(c[o.value].ty))]) else v
    case Tuple(c) => Tuple(seq(|c|, i requires 0 <= i < |c| => Filled(c[i])))
    case Array(c) => Array(seq(|c|, i requires 0 <= i < |c| => Filled(c[i])))
    case FixedSizeArray(_, _) => v
    case ByteArray(_) => v
  }

  ghost predicate RoundTrips(v: Ty, s: Ty) {
    Print(v).Ok? && Parse(Print(v).value, s) == Ok(Filled(v))
  }

  /** Division and remainder by 2^128 are the first and the last sixteen big-endian bytes. */
  lemma HalvesAreBytes(n: nat)
    requires n < TwoTo(256)
    ensures |ToBytes(n, 32)| == 32
    ensures FromBytes(ToBytes(n, 32)[..16]) == n / HALF && FromBytes(ToBytes(n, 32)[16..]) == n % HALF
  {
    PowersAgree();
    var k, i := 32, 16;
    CutBytes(n, k, i);
    Quotient(n, FromBytes(ToBytes(n, k)[..i]), FromBytes(ToBytes(n, k)[i..]));
  }

  lemma Quotient(n: nat, high: nat, low: nat)
    requires n == high * HALF + low && low < HALF
    ensures n / HALF == high && n % HALF == low
  {
  }

  lemma HalvesParse(h: string, l: string, high: nat, low: nat)
    requires ParseNumber(h, 0, HALF) == Some(high) && ParseNumber(l, 0, HALF) == Some(low)
    ensures ParseHalves([Field("high", Text(h)), Field("low", Text(l))]) == Ok(Int(U256, Some(high * HALF + low)))
  {
    var fields := [Field("high", Text(h)), Field("low", Text(l))];
    assert fields[1..] == [Field("low", Text(l))];
    assert Lookup(fields, "low") == Some(Text(l)) && Lookup(fields, "high") == Some(Text(h));
  }

  lemma HalvesInRange(n: nat)
    requires n < TwoTo(256)
    ensures n / HALF < HALF && n % HALF < HALF && n == n / HALF * HALF + n % HALF
  {
  }

  lemma HalvesRoundTrip(n: nat)
    requires n < TwoTo(256)
    ensures ParseHalves([Field("high", Text(ToText(n / HALF))), Field("low", Text(ToText(n % HALF)))]) ==
            Ok(Int(U256, Some(n)))
  {
    HalvesInRange(n);
    var high, low := n / HALF, n % HALF;
    TextRoundTrip(high, 0, HALF);
    TextRoundTrip(low, 0, HALF);
    HalvesParse(ToText(high), ToText(low), high, low);
  }

  ghost predicate IsSmall(k: Kind) {
    k == I8 || k == I16 || k == I32 || k == U8 || k == U16 || k == U32
  }

  lemma PrintedInt(k: Kind, v: Option<int>, n: int)
    requires n == if v.Some? then v.value else 0
    ensures IsSmall(k) ==> Print(Prim(Int(k, v))) == Ok(Number(n))
    ensures !IsSmall(k) && k != U256 ==> Print(Prim(Int(k, v))) == Ok(Text(ToText(n)))
    ensures k == U256 ==>
      Print(Prim(Int(k, v))) == Ok(Object([Field("high", Text(ToText(n / HALF))), Field("low", Text(ToText(n % HALF)))]))
  {
  }

  lemma SmallRoundTrips(k: Kind, v: Option<int>, w: Option<int>, n: int)
    requires IsSmall(k) && Schema.InRange(k, n) && n == if v.Some? then v.value else 0
    ensures RoundTrips(Prim(Int(k, v)), Prim(Int(k, w)))
  {
    PrintedInt(k, v, n);
    TruncateInRange(k, n);
  }

  lemma LargeRoundTrips(k: Kind, v: Option<int>, w: Option<int>, n: int)
    requires !IsSmall(k) && k != U256 && Schema.InRange(k, n) && n == if v.Some? then v.value else 0
    ensures RoundTrips(Prim(Int(k, v)), Prim(Int(k, w)))
  {
    PrintedInt(k, v, n);
    TextRoundTrip(n, Low(k), High(k));
  }

  lemma IntRoundTrips(k: Kind, v: Option<int>, w: Option<int>)
    requires v.Some? ==> Schema.InRange(k, v.value)
    ensures RoundTrips(Prim(Int(k, v)), Prim(Int(k, w)))
  {
    var n := if v.Some? then v.value else 0;
    assert Schema.InRange(k, 0);
    if k == U256 {
      PrintedInt(k, v, n);
      HalvesRoundTrip(n);
    } else if IsSmall(k) {
      SmallRoundTrips(k, v, w, n);
    } else {
      LargeRoundTrips(k, v, w, n);
    }
  }

  lemma {:induction false} InsertNew(fields: seq<Field>, f: Field)
    requires forall i :: 0 <= i < |fields| ==> fields[i].key != f.key
    ensures Insert(fields, f) == fields + [f]
  {
    if fields != [] {
      InsertNew(fields[1..], f);
    }
  }

  ghost predicate PrintsAs(c: seq<Member>, fields: seq<Field>) {
    |fields| == |c| && forall i :: 0 <= i < |c| ==> Print(c[i].ty) == Ok(fields[i].value) && fields[i].key == c[i].name
  }

  lemma {:induction false} MembersPrint(c: seq<Member>)
    requires DistinctMembers(c) && forall i :: 0 <= i < |c| ==> Print(c[i].ty).Ok?
    ensures PrintMembers(c).Ok? && PrintsAs(c, PrintMembers(c).value)
  {
    if c != [] {
      var last := |c| - 1;
      MembersPrint(c[..last]);
      var fields := PrintMembers(c[..last]).value;
      InsertNew(fields, Field(c[last].name, Print(c[last].ty).value));
    }
  }

  lemma {:induction false} MemberIndexDistinct(c: seq<Member>, i: nat)
    requires DistinctMembers(c) && i < |c|
    ensures MemberIndex(c, c[i].name) == Some(i)
  {
    if i > 0 {
      assert c[0].name != c[i].name;
      MemberIndexDistinct(c[1..], i - 1);
    }
  }

  ghost predicate Matches(c: seq<Member>, d: seq<Member>) {
    |c| == |d| && forall i :: 0 <= i < |c| ==>
      c[i].name == d[i].name && c[i].key == d[i].key && RoundTrips(c[i].ty, d[i].ty)
  }

  ghost function FilledMembers(c: seq<Member>): seq<Member> {
    seq(|c|, i requires 0 <= i < |c| => c[i].(ty := Filled(c[i].ty)))
  }

  lemma FieldStep(fields: seq<Field>, members: seq<Member>, i: nat, ty: Ty)
    requires fields != [] && MemberIndex(members, fields[0].key) == Some(i) && i < |members|
    requires Parse(fields[0].value, members[i].ty) == Ok(ty)
    ensures ParseFields(fields, members) == ParseFields(fields[1..], members[i := members[i].(ty := ty)])
  {
  }

  lemma PartlyFilled(c: seq<Member>, d: seq<Member>, i: nat)
    requires DistinctMembers(c) && Matches(c, d) && i < |c|
    ensures var members := FilledMembers(c)[..i] + d[i..];
            && members[i] == d[i] && MemberIndex(members, c[i].name) == Some(i)
            && members[i := d[i].(ty := Filled(c[i].ty))] == FilledMembers(c)[..i + 1] + d[i + 1..]
  {
    var members := FilledMembers(c)[..i] + d[i..];
    forall j | 0 <= j < |c|
      ensures members[j].name == c[j].name
    {
    }
    assert DistinctMembers(members);
    MemberIndexDistinct(members, i);
    FillNext(FilledMembers(c), d, i);
  }

  lemma FillNext(filled: seq<Member>, d: seq<Member>, i: nat)
    requires |filled| == |d| && i < |d|
    ensures (filled[..i] + d[i..])[i := filled[i]] == filled[..i + 1] + d[i + 1..]
  {
  }

  lemma {:induction false} FieldsParse(c: seq<Member>, d: seq<Member>, fields: seq<Field>, i: nat)
    requires DistinctMembers(c) && Matches(c, d) && PrintsAs(c, fields) && i <= |c|
    ensures ParseFields(fields[i..], FilledMembers(c)[..i] + d[i..]) == Ok(FilledMembers(c))
    decreases |c| - i
  {
    var members := FilledMembers(c)[..i] + d[i..];
    if i == |c| {
      assert members == FilledMembers(c);
    } else {
      PartlyFilled(c, d, i);
      assert RoundTrips(c[i].ty, d[i].ty);
      FieldStep(fields[i..], members, i, Filled(c[i].ty));
      assert fields[i..][1..] == fields[i + 1..];
      FieldsParse(c, d, fields, i + 1);
    }
  }

  lemma StructRoundTrips(n: string, c: seq<Member>, d: seq<Member>)
    requires DistinctMembers(c) && Matches(c, d)
    ensures RoundTrips(Struct(n, c), Struct(n, d))
  {
    forall i | 0 <= i < |c|
      ensures Print(c[i].ty).Ok?
    {
      assert RoundTrips(c[i].ty, d[i].ty);
    }
    MembersPrint(c);
    var fields := PrintMembers(c).value;
    FieldsParse(c, d, fields, 0);
    assert fields[0..] == fields && FilledMembers(c)[..0] + d[0..] == d;
    assert Filled(Struct(n, c)) == Struct(n, FilledMembers(c));
  }

  lemma {:induction false} OptionsParse(v: Value, name: string, d: seq<EnumOption>, o: nat, ty: Ty)
    requires DistinctOptions(d) && o < |d| && d[o].name == name && Parse(v, d[o].ty) == Ok(ty)
    ensures ParseOptions(v, name, d) == Ok(d[o := d[o].(ty := ty)])
    ensures OptionIndex(d[o := d[o].(ty := ty)], name) == Some(o)
    decreases |d|
  {
    var parsed := d[o := d[o].(ty := ty)];
    assert d == [d[0]] + d[1..] && parsed == [parsed[0]] + parsed[1..];
    if o == 0 {
      OthersUntouched(v, name, d[1..]);
    } else {
      assert d[0].name != d[o].name;
      OptionsParse(v, name, d[1..], o - 1, ty);
      assert parsed[1..] == d[1..][o - 1 := d[o].(ty := ty)];
    }
  }

  lemma {:induction false} OthersUntouched(v: Value, name: string, d: seq<EnumOption>)
    requires forall i :: 0 <= i < |d| ==> d[i].name != name
    ensures ParseOptions(v, name, d) == Ok(d)
    decreases |d|
  {
    if d != [] {
      OthersUntouched(v, name, d[1..]);
      assert d == [d[0]] + d[1..];
    }
  }

  lemma EnumRoundTrips(n: string, o: nat, c: seq<EnumOption>, was: Option<nat>, d: seq<EnumOption>)
    requires |c| == |d| && DistinctOptions(c) && o < |c| && o < 256 && c[o].name == d[o].name
    requires forall i :: 0 <= i < |c| && i != o ==> c[i] == d[i]
    requires RoundTrips(c[o].ty, d[o].ty)
    ensures RoundTrips(Enum(n, Some(o), c), Enum(n, was, d))
  {
    SameOptions(o, c, d, Filled(c[o].ty));
    OptionsParse(Print(c[o].ty).value, c[o].name, d, o, Filled(c[o].ty));
    EnumParse(n, d, [Field(c[o].name, Print(c[o].ty).value)], o, c[o := c[o].(ty := Filled(c[o].ty))]);
  }

  lemma SameOptions(o: nat, c: seq<EnumOption>, d: seq<EnumOption>, ty: Ty)
    requires |c| == |d| && DistinctOptions(c) && o < |c| && c[o].name == d[o].name
    requires forall i :: 0 <= i < |c| && i != o ==> c[i] == d[i]
    ensures DistinctOptions(d) && d[o := d[o].(ty := ty)] == c[o := c[o].(ty := ty)]
  {
    assert forall i :: 0 <= i < |c| ==> c[i].name == d[i].name;
  }

  lemma EnumParse(n: string, d: seq<EnumOption>, fields: seq<Field>, o: nat, parsed: seq<EnumOption>)
    requires fields != [] && ParseOptions(fields[0].value, fields[0].key, d) == Ok(parsed)
    requires OptionIndex(parsed, fields[0].key) == Some(o) && o < 256
    ensures ParseEnum(fields, n, d) == Ok(Enum(n, Some(o), parsed))
  {
  }

  ghost predicate PrintAllAs(c: seq<Ty>, vs: seq<Value>) {
    |vs| == |c| && forall i :: 0 <= i < |c| ==> Print(c[i]) == Ok(vs[i])
  }

  lemma {:induction false} AllPrint(c: seq<Ty>)
    requires forall i :: 0 <= i < |c| ==> Print(c[i]).Ok?
    ensures PrintAll(c).Ok? && PrintAllAs(c, PrintAll(c).value)
  {
    if c != [] {
      AllPrint(c[..|c| - 1]);
    }
  }

  ghost function FilledAll(c: seq<Ty>): seq<Ty> {
    seq(|c|, i requires 0 <= i < |c| => Filled(c[i]))
  }

  lemma {:induction false} EachParses(c: seq<Ty>, d: seq<Ty>, vs: seq<Value>)
    requires |c| == |d| && PrintAllAs(c, vs) && forall i :: 0 <= i < |c| ==> RoundTrips(c[i], d[i])
    ensures ParseEach(vs, d) == Ok(FilledAll(c))
  {
    if c != [] {
      assert RoundTrips(c[0], d[0]);
      EachParses(c[1..], d[1..], vs[1..]);
      assert FilledAll(c) == [Filled(c[0])] + FilledAll(c[1..]);
    } else {
      assert FilledAll(c) == [];
    }
  }

  lemma {:induction false} AllParse(c: seq<Ty>, inner: Ty, vs: seq<Value>)
    requires PrintAllAs(c, vs) && forall i :: 0 <= i < |c| ==> RoundTrips(c[i], inner)
    ensures ParseAll(vs, inner) == Ok(FilledAll(c))
  {
    if c != [] {
      assert RoundTrips(c[0], inner);
      AllParse(c[1..], inner, vs[1..]);
      assert FilledAll(c) == [Filled(c[0])] + FilledAll(c[1..]);
    } else {
      assert FilledAll(c) == [];
    }
  }

  lemma TupleRoundTrips(c: seq<Ty>, d: seq<Ty>)
    requires |c| == |d| && forall i :: 0 <= i < |c| ==> RoundTrips(c[i], d[i])
    ensures RoundTrips(Tuple(c), Tuple(d))
  {
    forall i | 0 <= i < |c|
      ensures Print(c[i]).Ok?
    {
      assert RoundTrips(c[i], d[i]);
    }
    AllPrint(c);
    EachParses(c, d, PrintAll(c).value);
    assert Filled(Tuple(c)) == Tuple(FilledAll(c));
  }

  lemma ArrayRoundTrips(c: seq<Ty>, d: seq<Ty>)
    requires d != [] && forall i :: 0 <= i < |c| ==> RoundTrips(c[i], d[0])
    ensures RoundTrips(Array(c), Array(d))
  {
    forall i | 0 <= i < |c|
      ensures Print(c[i]).Ok?
    {
      assert RoundTrips(c[i], d[0]);
    }
    AllPrint(c);
    AllParse(c, d[0], PrintAll(c).value);
    assert Filled(Array(c)) == Array(FilledAll(c));
  }

  /** Parsing the printed form of a value back into its schema gives the value with absent primitives filled in. */
  lemma {:induction false} ParseInvertsPrint(v: Ty, s: Ty)
    requires Conforms(v, s)
    ensures Print(v).Ok? && Parse(Print(v).value, s) == Ok(Filled(v))
    decreases v
  {
    match (v, s) {
      case (Prim(Int(k, v)), Prim(Int(_, w))) => IntRoundTrips(k, v, w);
      case (Struct(n, c), Struct(_, d)) =>
        forall i | 0 <= i < |c|
          ensures RoundTrips(c[i].ty, d[i].ty)
        {
          ParseInvertsPrint(c[i].ty, d[i].ty);
        }
        StructRoundTrips(n, c, d);
      case (Enum(n, o, c), Enum(_, was, d)) =>
        ParseInvertsPrint(c[o.value].ty, d[o.value].ty);
        EnumRoundTrips(n, o.value, c, was, d);
      case (Tuple(c), Tuple(d)) =>
        forall i | 0 <= i < |c|
          ensures RoundTrips(c[i], d[i])
        {
          ParseInvertsPrint(c[i], d[i]);
        }
        TupleRoundTrips(c, d);
      case (Array(c), Array(d)) =>
        forall i | 0 <= i < |c|
          ensures RoundTrips(c[i], d[0])
        {
          ParseInvertsPrint(c[i], d[0]);
        }
        ArrayRoundTrips(c, d);
      case _ =>
    }
  }
}
