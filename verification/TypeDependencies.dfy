/**
 The type traversal behind the SNIP-12 type encoding: the types a root type refers to, directly or through
 its fields, in the order of a depth-first search. The type table may be mutually recursive.
 */
module TypeDependencies {
  import opened Results
  import opened Sequences

  datatype Field = SimpleType(name: string, ty: string) | ParentType(name: string, ty: string, contains: string)

  type Types = map<string, seq<Field>>

  /** Strips trailing `*`, the array marker. */
  function TrimStars(s: string): (r: string)
    ensures r == [] || r[|r| - 1] != '*'
    ensures r <= s && forall i :: |r| <= i < |s| ==> s[i] == '*'
  {
    if s != [] && s[|s| - 1] == '*' then TrimStars(s[..|s| - 1]) else s
  }

  function Target(f: Field): string {
    TrimStars(match f case SimpleType(_, ty) => ty case ParentType(_, _, contains) => contains)
  }

  /** The text is the type `b` followed by array markers only. */
  ghost predicate Denotes(text: string, b: string) {
    b <= text && (forall i :: |b| <= i < |text| ==> text[i] == '*') && (b == [] || b[|b| - 1] != '*')
  }

  /** A simple field refers to its type, a parent field to the type it contains. */
  ghost predicate FieldRefers(f: Field, b: string) {
    match f
    case SimpleType(_, ty) => Denotes(ty, b)
    case ParentType(_, _, contains) => Denotes(contains, b)
  }

  lemma TargetIff(f: Field, b: string)
    ensures FieldRefers(f, b) <==> Target(f) == b
  {
    var text := match f case SimpleType(_, ty) => ty case ParentType(_, _, contains) => contains;
    if Denotes(text, b) {
      DenotesOne(text, b, Target(f));
    }
  }

  lemma DenotesOne(text: string, b: string, c: string)
    requires Denotes(text, b) && Denotes(text, c)
    ensures b == c
  {
    assert b == text[..|b|] && c == text[..|c|];
  }

  /** Type `a` has a field of type `b`, or of arrays of it, and `b` is in the table. */
  ghost predicate Refers(types: Types, a: string, b: string) {
    a in types && b in types && exists f :: f in types[a] && FieldRefers(f, b)
  }

  ghost predicate Link(types: Types, p: seq<string>, i: nat) {
    i + 1 < |p| && Refers(types, p[i], p[i + 1])
  }

  ghost predicate IsChain(types: Types, p: seq<string>) {
    p != [] && forall i: nat :: i < |p| - 1 ==> Link(types, p, i)
  }

  ghost predicate Reachable(types: Types, a: string, b: string) {
    exists p :: IsChain(types, p) && p[0] == a && p[|p| - 1] == b
  }

  lemma ChainTail(types: Types, p: seq<string>)
    requires IsChain(types, p) && |p| > 1
    ensures Refers(types, p[0], p[1]) && IsChain(types, p[1..])
  {
    assert Link(types, p, 0);
    forall i: nat | i < |p[1..]| - 1
      ensures Link(types, p[1..], i)
    {
      assert Link(types, p, i + 1);
    }
  }

  lemma ChainCons(types: Types, a: string, p: seq<string>)
    requires IsChain(types, p) && Refers(types, a, p[0])
    ensures IsChain(types, [a] + p)
  {
    forall i: nat | i < |p|
      ensures Link(types, [a] + p, i)
    {
      assert i > 0 ==> Link(types, p, i - 1);
    }
  }

  lemma ReachableSelf(types: Types, a: string)
    ensures Reachable(types, a, a)
  {
    assert IsChain(types, [a]);
  }

  lemma ReachableStep(types: Types, a: string, b: string, c: string)
    requires Refers(types, a, b) && Reachable(types, b, c)
    ensures Reachable(types, a, c)
  {
    var p :| IsChain(types, p) && p[0] == b && p[|p| - 1] == c;
    ChainCons(types, a, p);
  }

  ghost predicate Closed(types: Types, a: string, found: seq<string>) {
    forall b :: Refers(types, a, b) ==> b in found
  }

  lemma {:induction false} ClosedHoldsChain(types: Types, found: seq<string>, p: seq<string>)
    requires forall a :: a in found ==> Closed(types, a, found)
    requires IsChain(types, p) && p[0] in found
    ensures p[|p| - 1] in found
  {
    if |p| > 1 {
      ChainTail(types, p);
      assert Closed(types, p[0], found);
      ClosedHoldsChain(types, found, p[1..]);
    }
  }

  ghost function Unvisited(types: Types, found: seq<string>): set<string> {
    set t | t in types && t !in found
  }

  lemma PrefixMembers(s: seq<string>, t: seq<string>)
    requires s <= t
    ensures forall x :: x in s ==> x in t
  {
    assert t == s + t[|s|..];
  }

  /** What one traversal adds: only types reachable from `name`, each with everything it refers to. */
  ghost predicate Explored(types: Types, name: string, before: seq<string>, after: seq<string>) {
    && before <= after
    && (NoDuplicates(before) ==> NoDuplicates(after))
    && (forall t :: t in after && t !in before ==> Reachable(types, name, t) && Closed(types, t, after))
  }

  /** The state while the fields of `name` are visited: only `name` may still lack types it refers to. */
  ghost predicate Visiting(types: Types, name: string, before: seq<string>, found: seq<string>) {
    && before <= found && name in found && before + [name] <= found
    && (NoDuplicates(before) ==> NoDuplicates(found))
    && (forall t :: t in found && t !in before ==> Reachable(types, name, t))
    && (forall t :: t in found && t !in before && t != name ==> Closed(types, t, found))
  }

  ghost predicate CoversFields(types: Types, fields: seq<Field>, found: seq<string>, n: nat) {
    forall i :: 0 <= i < n && i < |fields| && Target(fields[i]) in types ==> Target(fields[i]) in found
  }

  lemma EnterType(types: Types, name: string, before: seq<string>)
    requires name !in before
    ensures Visiting(types, name, before, before + [name])
  {
    AppendNoDuplicatesIfNew(before, name);
    ReachableSelf(types, name);
  }

  lemma DeeperVisit(types: Types, name: string, field: string, before: seq<string>, found: seq<string>, deeper: seq<string>)
    requires Visiting(types, name, before, found) && Refers(types, name, field) && Explored(types, field, found, deeper)
    ensures Visiting(types, name, before, deeper) && forall t :: t in found ==> t in deeper
  {
    PrefixMembers(found, deeper);
    PrefixMembers(before, found);
    forall t | t in deeper && t !in before
      ensures Reachable(types, name, t)
      ensures t != name ==> Closed(types, t, deeper)
    {
      if t in found {
        assert t != name ==> Closed(types, t, found);
      } else {
        ReachableStep(types, name, field, t);
      }
    }
  }

  lemma LeaveType(types: Types, name: string, before: seq<string>, found: seq<string>)
    requires name in types && Visiting(types, name, before, found)
    requires CoversFields(types, types[name], found, |types[name]|)
    ensures Explored(types, name, before, found)
  {
    forall t | Refers(types, name, t)
      ensures t in found
    {
      var f :| f in types[name] && FieldRefers(f, t);
      TargetIff(f, t);
    }
  }

  lemma UnvisitedShrinks(types: Types, name: string, before: seq<string>, found: seq<string>)
    requires name in types && name !in before && before <= found && name in found
    ensures Unvisited(types, found) < Unvisited(types, before)
  {
    PrefixMembers(before, found);
    assert name in Unvisited(types, before) && name !in Unvisited(types, found);
  }

  /** One more field is covered, and what was covered stays so. */
  lemma CoversNext(types: Types, fields: seq<Field>, found: seq<string>, deeper: seq<string>, i: nat)
    requires CoversFields(types, fields, found, i) && i < |fields|
    requires forall t :: t in found ==> t in deeper
    requires Target(fields[i]) in types ==> Target(fields[i]) in deeper
    ensures CoversFields(types, fields, deeper, i + 1)
  {
  }

  method GetDependencies(name: string, types: Types, dependencies: seq<string>)
    returns (r: Result<(), string>, found: seq<string>)
    ensures r == if name in types || name in dependencies then Ok(()) else Err(name)
    ensures name in found && (name !in dependencies ==> dependencies + [name] <= found)
    ensures r.Ok? ==> Explored(types, name, dependencies, found)
    ensures r.Err? ==> found == dependencies + [name]
    decreases Unvisited(types, dependencies)
  {
    if name in dependencies {
      return Ok(()), dependencies;
    }
    found := dependencies + [name];
    if name !in types {
      return Err(name), found;
    }
    EnterType(types, name, dependencies);
    var fields := types[name];
    for i := 0 to |fields|
      invariant Visiting(types, name, dependencies, found)
      invariant CoversFields(types, fields, found, i)
    {
      var fieldType := Target(fields[i]);
      if fieldType in types && fieldType !in found {
        UnvisitedShrinks(types, name, dependencies, found);
        TargetIff(fields[i], fieldType);
        assert Refers(types, name, fieldType);
        var deeper;
        r, deeper := GetDependencies(fieldType, types, found);
        DeeperVisit(types, name, fieldType, dependencies, found, deeper);
        CoversNext(types, fields, found, deeper, i);
        found := deeper;
      } else {
        CoversNext(types, fields, found, found, i);
      }
    }
    LeaveType(types, name, dependencies, found);
    r := Ok(());
  }

  /** The dependencies of a root type: every type reachable from it, each exactly once. */
  method DependenciesOf(name: string, types: Types) returns (r: Result<seq<string>, string>)
    ensures r.Ok? <==> name in types
    ensures r.Ok? ==> NoDuplicates(r.value) && forall t :: t in r.value <==> Reachable(types, name, t)
    ensures r.Ok? ==> r.value != [] && r.value[0] == name
    ensures r.Err? ==> r.error == name
  {
    var s, found := GetDependencies(name, types, []);
    if s.Err? {
      return Err(s.error);
    }
    forall t | Reachable(types, name, t)
      ensures t in found
    {
      var p :| IsChain(types, p) && p[0] == name && p[|p| - 1] == t;
      ClosedHoldsChain(types, found, p);
    }
    r := Ok(found);
  }
}
