/**
 Which values a schema accepts, and what becomes of the members of a struct, for every value and every schema:
 unknown fields, wrong lengths, wrong types and numbers out of range are refused.
 */
module TypedDataAcceptance {
  import opened Results
  import opened Schema
  import opened Numerals
  import opened TypedData

  ghost predicate DistinctKeys(fields: seq<Field>) {
    forall i, j :: 0 <= i < j < |fields| ==> fields[i].key != fields[j].key
  }

  /** The keys of every object are distinct, as those of a map are. */
  ghost predicate IsValue(v: Value)
    decreases v
  {
    match v
    case Object(fields) => DistinctKeys(fields) && forall i :: 0 <= i < |fields| ==> IsValue(fields[i].value)
    case List(vs) => forall i :: 0 <= i < |vs| ==> IsValue(vs[i])
    case _ => true
  }

  /** A half of a 256-bit number is the text of a 128-bit number. */
  ghost predicate IsHalf(fields: seq<Field>, key: string) {
    match Lookup(fields, key)
    case Some(Text(s)) => ParseNumber(s, 0, HALF).Some?
    case _ => false
  }

  ghost predicate AcceptsNumber(n: int, ty: Ty) {
    ty.Prim? && ty.primitive.Int? && Bits(ty.primitive.kind) <= 64 && FitsNumber(ty.primitive.kind, n)
  }

  ghost predicate AcceptsText(s: string, ty: Ty) {
    match ty
    case Prim(Bool(_)) => s == "true" || s == "false"
    case Prim(Int(k, _)) => k != U256 && ParseNumber(s, Low(k), High(k)).Some?
    case ByteArray(_) => true
    case _ => false
  }

  /** The schema accepts the value. A boolean is accepted anywhere. */
  ghost predicate Accepts(v: Value, ty: Ty)
    decreases v
  {
    match v
    case Flag(_) => true
    case Number(n) => AcceptsNumber(n, ty)
    case Text(s) => AcceptsText(s, ty)
    case List(vs) =>
      (match ty
       case Array(c) => c != [] && forall i :: 0 <= i < |vs| ==> Accepts(vs[i], c[0])
       case Tuple(c) => |vs| == |c| && forall i :: 0 <= i < |vs| ==> Accepts(vs[i], c[i])
       case _ => false)
    case Object(fields) =>
      (match ty
       case Struct(_, c) =>
         forall i :: 0 <= i < |fields| ==>
           MemberIndex(c, fields[i].key).Some? && Accepts(fields[i].value, c[MemberIndex(c, fields[i].key).value].ty)
       case Enum(_, _, c) =>
         && fields != [] && (exists j :: 0 <= j < |c| && c[j].name == fields[0].key)
         && forall j :: 0 <= j < |c| && c[j].name == fields[0].key ==> Accepts(fields[0].value, c[j].ty)
       case Prim(Int(U256, _)) => IsHalf(fields, "low") && IsHalf(fields, "high")
       case _ => false)
  }

  /** Parsing succeeds exactly when the schema accepts the value. */
  lemma {:induction false} ParsesIff(v: Value, ty: Ty)
    requires IsValue(v)
    ensures Parse(v, ty).Ok? <==> Accepts(v, ty)
    decreases v, 1
  {
    match v {
      case Flag(_) =>
      case Number(n) => NumberParsesIff(n, ty);
      case Text(s) =>
      case List(vs) => ListParsesIff(vs, ty);
      case Object(fields) => ObjectParsesIff(fields, ty);
    }
  }

  lemma NumberParsesIff(n: int, ty: Ty)
    ensures Parse(Number(n), ty).Ok? <==> AcceptsNumber(n, ty)
  {
    if ty.Prim? && ty.primitive.Int? && Bits(ty.primitive.kind) <= 64 {
      JsonNumber(n, ty.primitive.kind, ty.primitive.value);
    }
  }

  lemma {:induction false} ListParsesIff(vs: seq<Value>, ty: Ty)
    requires IsValue(List(vs))
    ensures Parse(List(vs), ty).Ok? <==> Accepts(List(vs), ty)
    decreases vs, 3
  {
    match ty {
      case Array(c) =>
        if c != [] {
          AllParseIff(vs, c[0]);
        }
      case Tuple(c) =>
        if |vs| == |c| {
          EachParsesIff(vs, c);
        }
      case _ =>
    }
  }

  lemma {:induction false} AllParseIff(vs: seq<Value>, inner: Ty)
    requires forall i :: 0 <= i < |vs| ==> IsValue(vs[i])
    ensures ParseAll(vs, inner).Ok? <==> forall i :: 0 <= i < |vs| ==> Accepts(vs[i], inner)
    decreases vs, 2
  {
    if vs != [] {
      ParsesIff(vs[0], inner);
      AllParseIff(vs[1..], inner);
      assert forall i :: 0 < i < |vs| ==> vs[i] == vs[1..][i - 1];
    }
  }

  lemma {:induction false} EachParsesIff(vs: seq<Value>, c: seq<Ty>)
    requires |vs| == |c| && forall i :: 0 <= i < |vs| ==> IsValue(vs[i])
    ensures ParseEach(vs, c).Ok? <==> forall i :: 0 <= i < |vs| ==> Accepts(vs[i], c[i])
    decreases vs, 2
  {
    if vs != [] {
      ParsesIff(vs[0], c[0]);
      EachParsesIff(vs[1..], c[1..]);
      assert forall i :: 0 < i < |vs| ==> vs[i] == vs[1..][i - 1] && c[i] == c[1..][i - 1];
    }
  }

  lemma {:induction false} ObjectParsesIff(fields: seq<Field>, ty: Ty)
    requires IsValue(Object(fields))
    ensures Parse(Object(fields), ty).Ok? <==> Accepts(Object(fields), ty)
    decreases fields, 3
  {
    match ty {
      case Struct(_, c) => FieldsParseIff(fields, c, c);
      case Enum(n, _, c) =>
        if fields != [] {
          OptionsParseIff(fields[0].value, fields[0].key, c);
          EnumParsesIff(fields, n, c);
        }
      case _ =>
    }
  }

  lemma {:induction false} OptionsParseIff(v: Value, name: string, c: seq<EnumOption>)
    requires IsValue(v)
    ensures ParseOptions(v, name, c).Ok? <==> forall j :: 0 <= j < |c| && c[j].name == name ==> Accepts(v, c[j].ty)
    decreases v, 2, |c|
  {
    if c != [] {
      ParsesIff(v, c[0].ty);
      OptionsParseIff(v, name, c[1..]);
      assert forall j :: 0 < j < |c| ==> c[j] == c[1..][j - 1];
    }
  }

  lemma EnumParsesIff(fields: seq<Field>, n: string, c: seq<EnumOption>)
    requires fields != []
    ensures ParseEnum(fields, n, c).Ok? <==>
            ParseOptions(fields[0].value, fields[0].key, c).Ok? && exists j :: 0 <= j < |c| && c[j].name == fields[0].key
  {
    var r := ParseOptions(fields[0].value, fields[0].key, c);
    if r.Ok? {
      OptionNamesKept(fields[0].value, fields[0].key, c);
      OptionFoundIff(r.value, fields[0].key);
    }
  }

  lemma {:induction false} OptionNamesKept(v: Value, name: string, c: seq<EnumOption>)
    requires ParseOptions(v, name, c).Ok?
    ensures var parsed := ParseOptions(v, name, c).value;
            |parsed| == |c| && forall j :: 0 <= j < |c| ==> parsed[j].name == c[j].name
    decreases |c|
  {
    if c != [] {
      OptionNamesKept(v, name, c[1..]);
    }
  }

  lemma {:induction false} OptionFoundIff(c: seq<EnumOption>, name: string)
    ensures OptionIndex(c, name).Some? <==> exists j :: 0 <= j < |c| && c[j].name == name
  {
    if c != [] {
      OptionFoundIff(c[1..], name);
      if j :| 0 < j < |c| && c[j].name == name {
        assert c[1..][j - 1].name == name;
      }
    }
  }

  // ----- The members of a struct -----

  /** The names are those of the original, and members still to be parsed are untouched. */
  ghost predicate Untouched(members: seq<Member>, original: seq<Member>, fields: seq<Field>) {
    && |members| == |original|
    && (forall j :: 0 <= j < |members| ==> members[j].name == original[j].name)
    && forall i, j :: 0 <= i < |fields| && 0 <= j < |members| && members[j].name == fields[i].key ==> members[j] == original[j]
  }

  lemma {:induction false} SameIndex(members: seq<Member>, original: seq<Member>, name: string)
    requires |members| == |original| && forall j :: 0 <= j < |members| ==> members[j].name == original[j].name
    ensures MemberIndex(members, name) == MemberIndex(original, name)
  {
    if members != [] {
      SameIndex(members[1..], original[1..], name);
    }
  }

  /** Each field goes to the member of its name as the schema has it, whatever was parsed before. */
  lemma FirstField(fields: seq<Field>, members: seq<Member>, original: seq<Member>)
    requires fields != [] && DistinctKeys(fields) && Untouched(members, original, fields)
    ensures var i := MemberIndex(original, fields[0].key);
            && MemberIndex(members, fields[0].key) == i
            && (i.Some? ==> members[i.value] == original[i.value])
            && forall ty :: i.Some? ==> Untouched(members[i.value := members[i.value].(ty := ty)], original, fields[1..])
  {
    SameIndex(members, original, fields[0].key);
  }

  lemma {:induction false} FieldsParseIff(fields: seq<Field>, members: seq<Member>, original: seq<Member>)
    requires DistinctKeys(fields) && Untouched(members, original, fields)
    requires forall i :: 0 <= i < |fields| ==> IsValue(fields[i].value)
    ensures ParseFields(fields, members).Ok? <==>
            forall i :: 0 <= i < |fields| ==> FieldAccepted(fields[i], original)
    decreases fields, 2
  {
    if fields != [] {
      FirstField(fields, members, original);
      var at := MemberIndex(original, fields[0].key);
      if at.Some? {
        ParsesIff(fields[0].value, original[at.value].ty);
        var r := Parse(fields[0].value, original[at.value].ty);
        if r.Ok? {
          FieldsParseIff(fields[1..], members[at.value := members[at.value].(ty := r.value)], original);
          assert forall i :: 0 < i < |fields| ==> fields[i] == fields[1..][i - 1];
        }
      }
    }
  }

  ghost predicate FieldAccepted(f: Field, c: seq<Member>) {
    MemberIndex(c, f.key).Some? && Accepts(f.value, c[MemberIndex(c, f.key).value].ty)
  }

  /** A member is parsed from the field of its name if it is the first of that name, and kept otherwise. */
  ghost predicate ParsedMember(fields: seq<Field>, original: seq<Member>, before: Member, after: Member, j: nat)
    requires j < |original|
  {
    && (forall i :: 0 <= i < |fields| && MemberIndex(original, fields[i].key) == Some(j) ==>
          Parse(fields[i].value, original[j].ty).Ok? && after == original[j].(ty := Parse(fields[i].value, original[j].ty).value))
    && ((forall i :: 0 <= i < |fields| ==> MemberIndex(original, fields[i].key) != Some(j)) ==> after == before)
  }

  lemma {:induction false} FieldsParsed(fields: seq<Field>, members: seq<Member>, original: seq<Member>, j: nat)
    requires DistinctKeys(fields) && Untouched(members, original, fields) && j < |original|
    requires ParseFields(fields, members).Ok?
    ensures |ParseFields(fields, members).value| == |original|
    ensures ParsedMember(fields, original, members[j], ParseFields(fields, members).value[j], j)
    decreases fields
  {
    if fields != [] {
      FirstField(fields, members, original);
      var at := MemberIndex(original, fields[0].key).value;
      var next := members[at := members[at].(ty := Parse(fields[0].value, original[at].ty).value)];
      FieldsParsed(fields[1..], next, original, j);
      LaterFields(fields, original, j);
    }
  }

  /** The rest of the fields is about other members than the first one. */
  lemma LaterFields(fields: seq<Field>, original: seq<Member>, j: nat)
    requires fields != [] && DistinctKeys(fields) && j < |original|
    ensures MemberIndex(original, fields[0].key) == Some(j) ==>
            forall i :: 0 <= i < |fields[1..]| ==> MemberIndex(original, fields[1..][i].key) != Some(j)
    ensures forall i :: 0 < i < |fields| ==> fields[i] == fields[1..][i - 1]
  {
  }

  /**
   Parsing an object into a struct sets exactly the members its fields name, each from the value of its field
   and its own type, and leaves the others and the name of the struct alone.
   */
  lemma StructParsed(fields: seq<Field>, name: string, c: seq<Member>, j: nat)
    requires DistinctKeys(fields) && j < |c| && Parse(Object(fields), Struct(name, c)).Ok?
    ensures var ty := Parse(Object(fields), Struct(name, c)).value;
            ty.Struct? && ty.name == name && |ty.children| == |c| && ParsedMember(fields, c, c[j], ty.children[j], j)
  {
    FieldsParsed(fields, c, c, j);
  }
}
