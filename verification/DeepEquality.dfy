/** Deep comparison of values, breadth-first on large shallow slices and depth-first
    elsewhere. */
module DeepEquality {
  import opened Common

  /** A floating-point number; NaN equals itself here. */
  datatype Float = NaN | Number(r: real)

  datatype Scalar = Bool(b: bool) | Int(i: int) | Uint(u: nat) | Real(f: Float) | Complex(re: Float, im: Float) | String(s: string)

  datatype Key = StringKey(s: string) | IntKey(i: int)

  /** A value with its type. Slices, maps, pointers and interfaces may be nil. */
  datatype Value = Value(typ: nat, body: Body)

  datatype Body =
    | Simple(scalar: Scalar)
    | Slice(isNil: bool, elems: seq<Value>)
    | Array(items: seq<Value>)
    | Map(isNil: bool, entries: map<Key, Value>)
    | Struct(fields: seq<Value>)
    | Pointer(target: Option<Value>)
    | Interface(held: Option<Value>)

  /** What a type says about its values: the kind, an array's length, which fields of a
      struct are exported. */
  datatype Shape = SimpleShape | SliceShape | ArrayShape(length: nat) | MapShape | StructShape(exported: seq<bool>)
                 | PointerShape | InterfaceShape

  type Types = nat -> Shape

  predicate Fits(types: Types, v: Value) {
    match types(v.typ)
    case SimpleShape => v.body.Simple?
    case SliceShape => v.body.Slice? && (v.body.isNil ==> v.body.elems == [])
    case ArrayShape(n) => v.body.Array? && |v.body.items| == n
    case MapShape => v.body.Map? && (v.body.isNil ==> v.body.entries == map[])
    case StructShape(exported) => v.body.Struct? && |v.body.fields| == |exported|
    case PointerShape => v.body.Pointer?
    case InterfaceShape => v.body.Interface?
  }

  /** The value and everything in it have their types. Values are finite trees. */
  ghost predicate Typed(types: Types, v: Value)
    decreases v
  {
    && Fits(types, v)
    && match v.body
       case Simple(_) => true
       case Slice(_, elems) => forall i :: 0 <= i < |elems| ==> Typed(types, elems[i])
       case Array(items) => forall i :: 0 <= i < |items| ==> Typed(types, items[i])
       case Map(_, entries) => forall k :: k in entries ==> Typed(types, entries[k])
       case Struct(fields) => forall i :: 0 <= i < |fields| ==> Typed(types, fields[i])
       case Pointer(target) => target.Some? ==> Typed(types, target.value)
       case Interface(held) => held.Some? ==> Typed(types, held.value)
  }

  predicate Exported(types: Types, typ: nat, i: nat) {
    types(typ).StructShape? && i < |types(typ).exported| && types(typ).exported[i]
  }

  /** What deep equality means: same type and, part by part, the same contents. Fields
      that are not exported do not count. */
  ghost predicate Equal(types: Types, a: Value, b: Value)
    decreases a
  {
    && a.typ == b.typ
    && match (a.body, b.body)
       case (Simple(x), Simple(y)) => x == y
       case (Slice(nx, x), Slice(ny, y)) => nx == ny && AllEqual(types, x, y)
       case (Array(x), Array(y)) => AllEqual(types, x, y)
       case (Map(nx, x), Map(ny, y)) =>
         && nx == ny && x.Keys == y.Keys
         && forall k :: k in x && k in y ==> Equal(types, x[k], y[k])
       case (Struct(x), Struct(y)) =>
         && |x| == |y|
         && forall i :: 0 <= i < |x| && Exported(types, a.typ, i) ==> Equal(types, x[i], y[i])
       case (Pointer(x), Pointer(y)) => x.Some? == y.Some? && (x.Some? ==> Equal(types, x.value, y.value))
       case (Interface(x), Interface(y)) => x.Some? == y.Some? && (x.Some? ==> Equal(types, x.value, y.value))
       case _ => false
  }

  ghost predicate AllEqual(types: Types, x: seq<Value>, y: seq<Value>)
    decreases x
  {
    |x| == |y| && forall i :: 0 <= i < |x| ==> Equal(types, x[i], y[i])
  }

  // ---------------------------------------------------------------- an equivalence

  lemma {:induction false} Reflexive(types: Types, a: Value)
    ensures Equal(types, a, a)
    decreases a
  {
    match a.body
    case Simple(_) =>
    case Slice(_, x) => forall i | 0 <= i < |x| { Reflexive(types, x[i]); }
    case Array(x) => forall i | 0 <= i < |x| { Reflexive(types, x[i]); }
    case Map(_, x) => forall k | k in x { Reflexive(types, x[k]); }
    case Struct(x) => forall i | 0 <= i < |x| { Reflexive(types, x[i]); }
    case Pointer(x) => if x.Some? { Reflexive(types, x.value); }
    case Interface(x) => if x.Some? { Reflexive(types, x.value); }
  }

  lemma {:induction false} Symmetric(types: Types, a: Value, b: Value)
    requires Equal(types, a, b)
    ensures Equal(types, b, a)
    decreases a
  {
    match (a.body, b.body)
    case (Simple(_), _) =>
    case (Slice(_, x), Slice(_, y)) => forall i | 0 <= i < |x| { Symmetric(types, x[i], y[i]); }
    case (Array(x), Array(y)) => forall i | 0 <= i < |x| { Symmetric(types, x[i], y[i]); }
    case (Map(_, x), Map(_, y)) => forall k | k in x { Symmetric(types, x[k], y[k]); }
    case (Struct(x), Struct(y)) =>
      forall i | 0 <= i < |x| && Exported(types, a.typ, i) { Symmetric(types, x[i], y[i]); }
    case (Pointer(x), Pointer(y)) => if x.Some? { Symmetric(types, x.value, y.value); }
    case (Interface(x), Interface(y)) => if x.Some? { Symmetric(types, x.value, y.value); }
  }

  lemma {:induction false} Transitive(types: Types, a: Value, b: Value, c: Value)
    requires Equal(types, a, b) && Equal(types, b, c)
    ensures Equal(types, a, c)
    decreases a
  {
    match a.body
    case Simple(_) =>
    case Slice(_, x) => forall i | 0 <= i < |x| { Transitive(types, x[i], b.body.elems[i], c.body.elems[i]); }
    case Array(x) => forall i | 0 <= i < |x| { Transitive(types, x[i], b.body.items[i], c.body.items[i]); }
    case Map(_, x) => forall k | k in x { Transitive(types, x[k], b.body.entries[k], c.body.entries[k]); }
    case Struct(x) =>
      forall i | 0 <= i < |x| && Exported(types, a.typ, i) { Transitive(types, x[i], b.body.fields[i], c.body.fields[i]); }
    case Pointer(x) => if x.Some? { Transitive(types, x.value, b.body.target.value, c.body.target.value); }
    case Interface(x) => if x.Some? { Transitive(types, x.value, b.body.held.value, c.body.held.value); }
  }

  /** Every struct type exports all of its fields. */
  ghost predicate AllExported(types: Types) {
    forall t, i :: types(t).StructShape? && 0 <= i < |types(t).exported| ==> types(t).exported[i]
  }

  /** Where nothing is hidden, values are deeply equal if and only if they are the same. */
  lemma {:induction false} EqualIsSame(types: Types, a: Value, b: Value)
    requires AllExported(types) && Typed(types, a) && Typed(types, b)
    ensures Equal(types, a, b) <==> a == b
    decreases a
  {
    if a == b {
      Reflexive(types, a);
    } else if Equal(types, a, b) {
      EqualHasSameParts(types, a, b);
    }
  }

  lemma {:induction false} EqualHasSameParts(types: Types, a: Value, b: Value)
    requires AllExported(types) && Typed(types, a) && Typed(types, b) && Equal(types, a, b)
    ensures a == b
    decreases a
  {
    match (a.body, b.body)
    case (Simple(_), _) =>
    case (Slice(_, x), Slice(_, y)) => forall i | 0 <= i < |x| { EqualHasSameParts(types, x[i], y[i]); }
    case (Array(x), Array(y)) => forall i | 0 <= i < |x| { EqualHasSameParts(types, x[i], y[i]); }
    case (Map(_, x), Map(_, y)) => forall k | k in x { EqualHasSameParts(types, x[k], y[k]); }
    case (Struct(x), Struct(y)) =>
      forall i | 0 <= i < |x|
        ensures x[i] == y[i]
      {
        assert Exported(types, a.typ, i);
        EqualHasSameParts(types, x[i], y[i]);
      }
    case (Pointer(x), Pointer(y)) => if x.Some? { EqualHasSameParts(types, x.value, y.value); }
    case (Interface(x), Interface(y)) => if x.Some? { EqualHasSameParts(types, x.value, y.value); }
  }

  /** Hidden fields do not count: changing one changes nothing. */
  lemma {:induction false} HiddenFieldsDoNotCount(types: Types, a: Value, i: nat, v: Value)
    requires a.body.Struct? && i < |a.body.fields| && !Exported(types, a.typ, i)
    ensures Equal(types, a, a.(body := Struct(a.body.fields[i := v])))
  {
    forall j | 0 <= j < |a.body.fields| && Exported(types, a.typ, j)
      ensures Equal(types, a.body.fields[j], a.body.fields[i := v][j])
    {
      Reflexive(types, a.body.fields[j]);
    }
  }

  // ---------------------------------------------------------------- the comparison

  predicate FloatEqual(x: Float, y: Float) {
    (x.NaN? && y.NaN?) || (x.Number? && y.Number? && x.r == y.r)
  }

  predicate ScalarEqual(x: Scalar, y: Scalar) {
    match (x, y)
    case (Real(f), Real(g)) => FloatEqual(f, g)
    case (Complex(r1, i1), Complex(r2, i2)) => FloatEqual(r1, r2) && FloatEqual(i1, i2)
    case _ => x == y
  }

  predicate ShouldUseBFS(length: nat, depth: nat) {
    length > 100 && depth < 3
  }

  predicate IsSimple(v: Value) {
    v.body.Simple?
  }

  /** The comparison decides deep equality at every depth, so the traversal it chooses
      does not matter. */
  method DeepEqual(types: Types, a: Value, b: Value, depth: nat) returns (r: bool)
    requires Typed(types, a) && Typed(types, b)
    ensures r == Equal(types, a, b)
    decreases a, 2
  {
    if a.typ != b.typ {
      return false;
    }
    match a.body {
      case Simple(x) => return ScalarEqual(x, b.body.scalar);
      case Slice(_, _) => r := DeepEqualSlice(types, a, b, depth);
      case Array(x) => r := DeepEqualElements(types, a, x, b.body.items, depth);
      case Map(_, _) => r := DeepEqualMap(types, a, b, depth);
      case Struct(_) => r := DeepEqualStruct(types, a, b, depth);
      case Pointer(x) =>
        var y := b.body.target;
        if x.None? || y.None? {
          return x.None? && y.None?;
        }
        r := DeepEqual(types, x.value, y.value, depth + 1);
      case Interface(x) =>
        var y := b.body.held;
        if x.None? || y.None? {
          return x.None? && y.None?;
        }
        r := DeepEqual(types, x.value, y.value, depth + 1);
    }
  }

  method DeepEqualSlice(types: Types, a: Value, b: Value, depth: nat) returns (r: bool)
    requires Typed(types, a) && Typed(types, b) && a.typ == b.typ && a.body.Slice?
    ensures r == Equal(types, a, b)
    decreases a, 1
  {
    var x, y := a.body.elems, b.body.elems;
    if a.body.isNil != b.body.isNil {
      return false;
    }
    if |x| != |y| {
      return false;
    }
    if a.body.isNil {
      return true;
    }
    if ShouldUseBFS(|x|, depth) {
      r := DeepEqualSliceBFS(types, a, x, y, depth);
    } else {
      r := DeepEqualElements(types, a, x, y, depth);
    }
  }

  /** The elements of arrays and, depth-first, of slices; they are parts of `a`. */
  method DeepEqualElements(types: Types, a: Value, x: seq<Value>, y: seq<Value>, depth: nat) returns (r: bool)
    requires |x| == |y|
    requires forall i :: 0 <= i < |x| ==> x[i] < a && Typed(types, x[i]) && Typed(types, y[i])
    ensures r == AllEqual(types, x, y)
    decreases a, 0
  {
    for i := 0 to |x|
      invariant forall j :: 0 <= j < i ==> Equal(types, x[j], y[j])
    {
      var same := DeepEqual(types, x[i], y[i], depth + 1);
      if !same {
        return false;
      }
    }
    return true;
  }

  /** First the simple elements, then the others. */
  method DeepEqualSliceBFS(types: Types, a: Value, x: seq<Value>, y: seq<Value>, depth: nat) returns (r: bool)
    requires |x| == |y|
    requires forall i :: 0 <= i < |x| ==> x[i] < a && Typed(types, x[i]) && Typed(types, y[i])
    ensures r == AllEqual(types, x, y)
    decreases a, 0
  {
    for i := 0 to |x|
      invariant forall j :: 0 <= j < i && IsSimple(x[j]) ==> Equal(types, x[j], y[j])
    {
      if IsSimple(x[i]) {
        var same := DeepEqual(types, x[i], y[i], depth + 1);
        if !same {
          return false;
        }
      }
    }
    for i := 0 to |x|
      invariant forall j :: 0 <= j < i ==> Equal(types, x[j], y[j])
    {
      if !IsSimple(x[i]) {
        var same := DeepEqual(types, x[i], y[i], depth + 1);
        if !same {
          return false;
        }
      }
    }
    return true;
  }

  /** Equal sizes and every key of one in the other: that makes the keys the same. */
  lemma {:induction false} SameSizeSubset<K, V>(x: map<K, V>, y: map<K, V>)
    requires |x| == |y| && x.Keys <= y.Keys
    ensures x.Keys == y.Keys
  {
    SubsetOfSameSize(x.Keys, y.Keys);
  }

  lemma {:induction false} SizeDiffers<K, V>(x: map<K, V>, y: map<K, V>)
    requires |x| != |y|
    ensures x.Keys != y.Keys
  {
    assert |x| == |x.Keys| && |y| == |y.Keys|;
  }

  lemma {:induction false} SubsetOfSameSize<K>(x: set<K>, y: set<K>)
    requires x <= y && |x| == |y|
    ensures x == y
  {
    assert y == x + (y - x);
    assert |y| == |x| + |y - x|;
  }

  method DeepEqualMap(types: Types, a: Value, b: Value, depth: nat) returns (r: bool)
    requires Typed(types, a) && Typed(types, b) && a.typ == b.typ && a.body.Map?
    ensures r == Equal(types, a, b)
    decreases a, 1
  {
    var m1, m2 := a.body.entries, b.body.entries;
    if a.body.isNil != b.body.isNil {
      return false;
    }
    if |m1| != |m2| {
      SizeDiffers(m1, m2);
      return false;
    }
    if a.body.isNil {
      return true;
    }
    var left := m1.Keys;
    while left != {}
      invariant left <= m1.Keys
      invariant forall k :: k in m1 && k !in left ==> k in m2 && Equal(types, m1[k], m2[k])
      decreases left
    {
      var k :| k in left;
      if k !in m2 {
        return false;
      }
      var same := DeepEqual(types, m1[k], m2[k], depth + 1);
      if !same {
        return false;
      }
      left := left - {k};
    }
    SameSizeSubset(m1, m2);
    return true;
  }

  method DeepEqualStruct(types: Types, a: Value, b: Value, depth: nat) returns (r: bool)
    requires Typed(types, a) && Typed(types, b) && a.typ == b.typ && a.body.Struct?
    ensures r == Equal(types, a, b)
    decreases a, 1
  {
    var x, y := a.body.fields, b.body.fields;
    for i := 0 to |x|
      invariant forall j :: 0 <= j < i && Exported(types, a.typ, j) ==> Equal(types, x[j], y[j])
    {
      if Exported(types, a.typ, i) {
        var same := DeepEqual(types, x[i], y[i], depth + 1);
        if !same {
          return false;
        }
      }
    }
    return true;
  }
}
