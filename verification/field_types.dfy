/**
  The structural type algebra of the modelling language: the closed set of
  primitive type values with their textual names, the recursive field type,
  its canonical printed form, and the three structural predicates used by
  code generation (`is_primitive`, `is_optional`, `is_null`).
 */
module FieldTypes {
  import opened Wrappers
  import opened Strings

  datatype MediaType = Image | Audio

  datatype TypeValue = String | Int | Float | Bool | Null | Media(media: MediaType)

  /** The type of a class field or of a function argument. */
  datatype FieldType =
    | Primitive(prim: TypeValue)
    | Enum(name: string)
    | Class(name: string)
    | List(item: FieldType)
    | Map(key: FieldType, value: FieldType)
    | Union(members: seq<FieldType>)
    | Tuple(members: seq<FieldType>)
    | Optional(inner: FieldType)

  /** The seven names accepted for a primitive type. */
  const PrimitiveNames: seq<string> := ["string", "int", "float", "bool", "null", "image", "audio"]

  /** The printed name of a primitive type value. */
  function TypeValueName(v: TypeValue): (r: string)
    ensures r in PrimitiveNames
  {
    match v
    case String => "string"
    case Int => "int"
    case Float => "float"
    case Bool => "bool"
    case Null => "null"
    case Media(Image) => "image"
    case Media(Audio) => "audio"
  }

  /** Parses a primitive type name; any other text yields None. */
  function FromStr(s: string): (r: Option<TypeValue>)
    ensures r.Some? <==> s in PrimitiveNames
    ensures r.Some? ==> TypeValueName(r.value) == s
  {
    match s
    case "string" => Some(String)
    case "int" => Some(Int)
    case "float" => Some(Float)
    case "bool" => Some(Bool)
    case "null" => Some(Null)
    case "image" => Some(Media(Image))
    case "audio" => Some(Media(Audio))
    case _ => None
  }

  /** Parsing the printed name of a type value gives that value back. */
  lemma TypeValueRoundTrip(v: TypeValue)
    ensures FromStr(TypeValueName(v)) == Some(v)
  {
  }

  /** Two type values print alike only when they are the same value. */
  lemma TypeValueNameInjective(v: TypeValue, w: TypeValue)
    ensures TypeValueName(v) == TypeValueName(w) ==> v == w
  {
    TypeValueRoundTrip(v);
    TypeValueRoundTrip(w);
  }

  // ---------------------------------------------------------------------
  // Canonical printed form
  // ---------------------------------------------------------------------

  /** The canonical text of a field type (the `Display` implementation). */
  function Display(t: FieldType): string
  {
    match t
    case Enum(n) => n
    case Class(n) => n
    case Primitive(v) => TypeValueName(v)
    case Union(ts) => "(" + Join(DisplayEach(t, ts), " | ") + ")"
    case Tuple(ts) => "(" + Join(DisplayEach(t, ts), ", ") + ")"
    case Map(k, v) => "map<" + (Display(k) + ", " + Display(v)) + ">"
    case List(u) => Display(u) + "[]"
    case Optional(u) => Display(u) + "?"
  }

  /** The printed form of each member of a union or tuple `t`, in order. */
  function DisplayEach(t: FieldType, ts: seq<FieldType>): (r: seq<string>)
    requires (t.Union? || t.Tuple?) && ts == t.members
    ensures |r| == |ts|
  {
    seq(|ts|, i requires 0 <= i < |ts| => Display(ts[i]))
  }

  /** Characters that may appear in a class or enum name. */
  predicate IdentChar(c: char)
  {
    ('a' <= c <= 'z') || ('A' <= c <= 'Z') || ('0' <= c <= '9') || c == '_'
  }

  predicate ValidName(n: string)
  {
    |n| > 0 && forall i :: 0 <= i < |n| ==> IdentChar(n[i])
  }

  /** Every class and enum name inside `t` is an identifier. */
  predicate NamesValid(t: FieldType)
  {
    match t
    case Enum(n) => ValidName(n)
    case Class(n) => ValidName(n)
    case Primitive(_) => true
    case Union(ts) => forall i :: 0 <= i < |ts| ==> NamesValid(ts[i])
    case Tuple(ts) => forall i :: 0 <= i < |ts| ==> NamesValid(ts[i])
    case Map(k, v) => NamesValid(k) && NamesValid(v)
    case List(u) => NamesValid(u)
    case Optional(u) => NamesValid(u)
  }

  lemma ValidNameBracketFree(n: string)
    requires ValidName(n)
    ensures BracketFree(n)
  {
  }

  lemma TypeValueNameBracketFree(v: TypeValue)
    ensures BracketFree(TypeValueName(v))
  {
  }

  /** Printing never produces an unmatched bracket of any kind. */
  lemma {:induction false} DisplayBalanced(t: FieldType)
    requires NamesValid(t)
    ensures Balanced(Display(t))
  {
    match t
    case Enum(n) =>
      BracketFreeIsBalanced(n);
    case Class(n) =>
      BracketFreeIsBalanced(n);
    case Primitive(v) =>
      TypeValueNameBracketFree(v);
      BracketFreeIsBalanced(TypeValueName(v));
    case Union(ts) =>
      DisplayEachBalanced(t, ts);
      DisplayMembersBalanced(t);
    case Tuple(ts) =>
      DisplayEachBalanced(t, ts);
      DisplayMembersBalanced(t);
    case Map(k, v) =>
      DisplayBalanced(k);
      DisplayBalanced(v);
      DisplayMapBalanced(k, v);
    case List(u) =>
      DisplayBalanced(u);
      BalancedAppend(Display(u), "[]");
    case Optional(u) =>
      DisplayBalanced(u);
      BracketFreeIsBalanced("?");
      BalancedAppend(Display(u), "?");
  }

  lemma {:induction false} DisplayEachBalanced(t: FieldType, ts: seq<FieldType>)
    requires (t.Union? || t.Tuple?) && ts == t.members
    requires NamesValid(t)
    ensures forall i :: 0 <= i < |ts| ==> Balanced(DisplayEach(t, ts)[i])
  {
    forall i | 0 <= i < |ts|
      ensures Balanced(DisplayEach(t, ts)[i])
    {
      DisplayBalanced(ts[i]);
    }
  }

  lemma DisplayMembersBalanced(t: FieldType)
    requires t.Union? || t.Tuple?
    requires forall i :: 0 <= i < |t.members| ==> Balanced(DisplayEach(t, t.members)[i])
    ensures Balanced(Display(t))
  {
    var sep := if t.Union? then " | " else ", ";
    var body := Join(DisplayEach(t, t.members), sep);
    JoinBalanced(DisplayEach(t, t.members), sep);
    Enclose("", '(', body, ')');
    assert Display(t) == "" + ['('] + body + [')'];
  }

  lemma DisplayMapBalanced(k: FieldType, v: FieldType)
    requires Balanced(Display(k)) && Balanced(Display(v))
    ensures Balanced(Display(Map(k, v)))
  {
    var body := Display(k) + ", " + Display(v);
    MapLiteralsBracketFree();
    BalancedAround(Display(k), ", ", Display(v));
    Enclose("map", '<', body, '>');
    DisplayMapShape(k, v);
  }

  lemma MapLiteralsBracketFree()
    ensures BracketFree(", ") && BracketFree("map")
  {
  }

  lemma DisplayMapShape(k: FieldType, v: FieldType)
    ensures Display(Map(k, v)) == "map" + ['<'] + (Display(k) + ", " + Display(v)) + ['>']
  {
    assert "map<" == "map" + ['<'];
  }

  /** The outermost constructor can be read back from the last printed character. */
  lemma DisplayLastChar(t: FieldType)
    requires NamesValid(t)
    ensures |Display(t)| > 0
    ensures var c := Display(t)[|Display(t)| - 1];
      && (c == '?' <==> t.Optional?)
      && (c == ']' <==> t.List?)
      && (c == '>' <==> t.Map?)
      && (c == ')' <==> (t.Union? || t.Tuple?))
      && (IdentChar(c) <==> (t.Primitive? || t.Class? || t.Enum?))
  {
    match t
    case Primitive(v) =>
      match v {
        case String =>
        case Int =>
        case Float =>
        case Bool =>
        case Null =>
        case Media(m) =>
      }
    case Class(n) =>
    case Enum(n) =>
    case Union(ts) =>
    case Tuple(ts) =>
    case Map(k, v) =>
    case List(u) =>
    case Optional(u) =>
  }

  /** A one-member union and a one-member tuple print identically. */
  lemma SingletonUnionTupleAlias(t: FieldType)
    ensures Display(Union([t])) == Display(Tuple([t])) == "(" + Display(t) + ")"
  {
    assert DisplayEach(Union([t]), [t]) == [Display(t)];
    assert DisplayEach(Tuple([t]), [t]) == [Display(t)];
  }

  // ---------------------------------------------------------------------
  // Structural predicates
  // ---------------------------------------------------------------------

  /** A primitive under any number of list or optional layers. */
  predicate IsPrimitive(t: FieldType)
  {
    match t
    case Primitive(_) => true
    case Optional(u) => IsPrimitive(u)
    case List(u) => IsPrimitive(u)
    case _ => false
  }

  /** Optional, the null primitive, or a union with an optional member. */
  predicate IsOptional(t: FieldType)
    decreases t, 1
  {
    match t
    case Optional(_) => true
    case Primitive(Null) => true
    case Union(ts) => AnyOptional(t, ts, 0)
    case _ => false
  }

  /** Some member of the union `t` from position `i` on is optional. */
  predicate AnyOptional(t: FieldType, ts: seq<FieldType>, i: nat)
    requires t.Union? && ts == t.members && i <= |ts|
    decreases t, 0, |ts| - i
  {
    i < |ts| && (IsOptional(ts[i]) || AnyOptional(t, ts, i + 1))
  }

  /** Null, possibly under optional layers; union members are not inspected. */
  predicate IsNull(t: FieldType)
  {
    match t
    case Primitive(Null) => true
    case Optional(u) => IsNull(u)
    case _ => false
  }

  /** One wrapping layer of the list/optional spine of a type. */
  datatype Layer = ListLayer | OptionalLayer

  /** Applies `ls` around `t`, the first layer outermost. */
  function Wrap(ls: seq<Layer>, t: FieldType): FieldType
  {
    if |ls| == 0 then t
    else if ls[0] == ListLayer then List(Wrap(ls[1..], t))
    else Optional(Wrap(ls[1..], t))
  }

  /** The list/optional layers at the top of `t`, outermost first. */
  function Layers(t: FieldType): seq<Layer>
  {
    match t
    case List(u) => [ListLayer] + Layers(u)
    case Optional(u) => [OptionalLayer] + Layers(u)
    case _ => []
  }

  /** What is left of `t` once its list/optional layers are removed. */
  function Core(t: FieldType): FieldType
  {
    match t
    case List(u) => Core(u)
    case Optional(u) => Core(u)
    case _ => t
  }

  /** Every type is its core under its layers, and the core has no further layer. */
  lemma {:induction false} SpineDecomposition(t: FieldType)
    ensures Wrap(Layers(t), Core(t)) == t
    ensures !Core(t).List? && !Core(t).Optional?
  {
    match t
    case List(u) =>
      SpineDecomposition(u);
      assert Layers(t)[1..] == Layers(u);
    case Optional(u) =>
      SpineDecomposition(u);
      assert Layers(t)[1..] == Layers(u);
    case _ =>
  }

  lemma {:induction false} IsPrimitiveWrap(ls: seq<Layer>, u: FieldType)
    ensures IsPrimitive(Wrap(ls, u)) == IsPrimitive(u)
  {
    if |ls| > 0 {
      IsPrimitiveWrap(ls[1..], u);
    }
  }

  /** `is_primitive` holds exactly when the core under the list/optional spine
      is a primitive: a map, union, tuple, class or enum there makes it false. */
  lemma IsPrimitiveIffPrimitiveCore(t: FieldType)
    ensures IsPrimitive(t) <==> Core(t).Primitive?
  {
    SpineDecomposition(t);
    IsPrimitiveWrap(Layers(t), Core(t));
  }

  /** Any stack of list and optional layers over a primitive is primitive. */
  lemma IsPrimitiveWrapped(ls: seq<Layer>, v: TypeValue)
    ensures IsPrimitive(Wrap(ls, Primitive(v)))
  {
    IsPrimitiveWrap(ls, Primitive(v));
  }

  lemma {:induction false} AnyOptionalExists(t: FieldType, ts: seq<FieldType>, i: nat)
    requires t.Union? && ts == t.members && i <= |ts|
    ensures AnyOptional(t, ts, i) <==> exists j :: i <= j < |ts| && IsOptional(ts[j])
    decreases |ts| - i
  {
    if i < |ts| {
      AnyOptionalExists(t, ts, i + 1);
    }
  }

  /** A union is optional exactly when one of its members is. */
  lemma IsOptionalUnion(ts: seq<FieldType>)
    ensures IsOptional(Union(ts)) <==> exists j :: 0 <= j < |ts| && IsOptional(ts[j])
  {
    AnyOptionalExists(Union(ts), ts, 0);
  }

  /** Optionality of a union is the disjunction over a split of its members. */
  lemma IsOptionalUnionAppend(ts: seq<FieldType>, us: seq<FieldType>)
    ensures IsOptional(Union(ts + us)) <==> IsOptional(Union(ts)) || IsOptional(Union(us))
  {
    IsOptionalUnion(ts);
    IsOptionalUnion(us);
    IsOptionalUnion(ts + us);
    if IsOptional(Union(ts)) {
      var j :| 0 <= j < |ts| && IsOptional(ts[j]);
      assert (ts + us)[j] == ts[j];
    }
    if IsOptional(Union(us)) {
      var j :| 0 <= j < |us| && IsOptional(us[j]);
      assert (ts + us)[|ts| + j] == us[j];
    }
  }

  /** `is_optional` does not look through lists, maps, tuples, classes or enums. */
  lemma IsOptionalShallow(t: FieldType)
    requires t.List? || t.Map? || t.Tuple? || t.Class? || t.Enum?
    ensures !IsOptional(t)
  {
  }

  /** Every layer of `ls` is an optional layer. */
  predicate OnlyOptional(ls: seq<Layer>)
  {
    forall i :: 0 <= i < |ls| ==> ls[i] == OptionalLayer
  }

  lemma OnlyOptionalCons(l: Layer, ls: seq<Layer>)
    ensures OnlyOptional([l] + ls) <==> l == OptionalLayer && OnlyOptional(ls)
  {
    var c := [l] + ls;
    assert c[0] == l;
    assert forall k :: 0 <= k < |ls| ==> c[k + 1] == ls[k];
  }

  /** `is_null` holds exactly for null under a spine of optional layers only. */
  lemma {:induction false} IsNullIffOptionalSpineOverNull(t: FieldType)
    ensures IsNull(t) <==> Core(t) == Primitive(Null) && OnlyOptional(Layers(t))
  {
    match t
    case List(u) =>
      OnlyOptionalCons(ListLayer, Layers(u));
    case Optional(u) =>
      IsNullIffOptionalSpineOverNull(u);
      OnlyOptionalCons(OptionalLayer, Layers(u));
    case _ =>
  }

  /** Every null type is optional. */
  lemma IsNullImpliesIsOptional(t: FieldType)
    ensures IsNull(t) ==> IsOptional(t)
  {
  }

  /** The asymmetry between the two predicates: a union holding null is optional
      but is not null, and a list of primitives counts as primitive. */
  lemma PredicateAsymmetry()
    ensures IsOptional(Union([Primitive(Null)])) && !IsNull(Union([Primitive(Null)]))
    ensures IsPrimitive(List(List(Primitive(Int)))) && IsPrimitive(Optional(Primitive(Int)))
    ensures !IsPrimitive(List(Map(Primitive(String), Primitive(Int))))
  {
    IsOptionalUnion([Primitive(Null)]);
  }

  /** Printed forms of a few representative types. */
  lemma DisplayExamples()
    ensures Display(Optional(Class("Foo"))) == "Foo?"
    ensures Display(Map(Primitive(String), Primitive(Int))) == "map<string, int>"
    ensures Display(List(Primitive(Bool))) == "bool[]"
  {
  }

  lemma DisplayUnionExample()
    ensures Display(Union([Primitive(String), Primitive(Int)])) == "(string | int)"
  {
    var u := Union([Primitive(String), Primitive(Int)]);
    assert DisplayEach(u, u.members) == ["string", "int"];
    assert Join(["string", "int"], " | ") == "string | int" by {
      assert ["string", "int"][1..] == ["int"];
    }
  }

  lemma DisplayTupleExample()
    ensures Display(Tuple([Primitive(String), Primitive(Int)])) == "(string, int)"
  {
    var p := Tuple([Primitive(String), Primitive(Int)]);
    assert DisplayEach(p, p.members) == ["string", "int"];
    assert Join(["string", "int"], ", ") == "string, int" by {
      assert ["string", "int"][1..] == ["int"];
    }
  }
}
