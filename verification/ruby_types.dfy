/**
  The Ruby code generator's translation of a field type into a Sorbet type
  annotation (`ToRuby for FieldType`).
 */
module RubyTypes {
  import opened Strings
  import opened FieldTypes

  /** The Sorbet class that stands for each primitive. */
  function PrimitiveToRuby(v: TypeValue): string
  {
    match v
    case Bool => "T::Boolean"
    case Float => "Float"
    case Int => "Integer"
    case String => "String"
    case Null => "NilClass"
    case Media(Image) => "Baml::Image"
    case Media(Audio) => "Baml::Audio"
  }

  /** The generated Ruby class of a BAML class or enum. */
  function ClassPath(n: string): string
  {
    "Baml::Types::" + n
  }

  /** The Sorbet annotation of a field type; never empty. */
  function ToRuby(t: FieldType): (r: string)
    ensures |r| > 0
  {
    match t
    case Class(n) => ClassPath(n)
    case Enum(n) => "T.any(" + (ClassPath(n) + ", String") + ")"
    case List(u) => "T::Array[" + ToRuby(u) + "]"
    case Map(k, v) => "T::Hash[" + (ToRuby(k) + ", " + ToRuby(v)) + "]"
    case Primitive(v) => PrimitiveToRuby(v)
    case Union(ts) => "T.any(" + Join(ToRubyEach(t, ts), ", ") + ")"
    case Tuple(ts) => "[" + Join(ToRubyEach(t, ts), ", ") + "]"
    case Optional(u) => "T.nilable(" + ToRuby(u) + ")"
  }

  /** The translation of each member of a union or tuple `t`, in order. */
  function ToRubyEach(t: FieldType, ts: seq<FieldType>): (r: seq<string>)
    requires (t.Union? || t.Tuple?) && ts == t.members
    ensures |r| == |ts|
  {
    seq(|ts|, i requires 0 <= i < |ts| => ToRuby(ts[i]))
  }

  /** Distinct primitives become distinct Ruby classes. */
  lemma PrimitiveToRubyInjective(v: TypeValue, w: TypeValue)
    ensures PrimitiveToRuby(v) == PrimitiveToRuby(w) ==> v == w
  {
  }

  /** An enum is annotated exactly like the union of its generated class and `String`. */
  lemma EnumIsUnionWithString(n: string)
    ensures ToRuby(Enum(n)) == ToRuby(Union([Class(n), Primitive(String)]))
  {
    var u := Union([Class(n), Primitive(String)]);
    assert ToRubyEach(u, u.members) == ["Baml::Types::" + n, "String"];
    assert Join(["Baml::Types::" + n, "String"], ", ") == "Baml::Types::" + n + ", " + "String" by {
      assert ["Baml::Types::" + n, "String"][1..] == ["String"];
    }
  }

  const Nilable := "T.nilable("

  /** A text that differs from `T.nilable(` at some position, or is too
      short, does not start with it. */
  lemma NotNilableAt(r: string, i: nat)
    requires i < |Nilable|
    requires |r| < |Nilable| || r[i] != Nilable[i]
    ensures !StartsWith(r, Nilable)
  {
    if |r| >= |Nilable| {
      assert r[..|Nilable|][i] == r[i];
    }
  }

  lemma PrimitiveNotNilable(v: TypeValue)
    ensures !StartsWith(PrimitiveToRuby(v), Nilable)
  {
    var r := PrimitiveToRuby(v);
    match v
    case Bool => NotNilableAt(r, 1);
    case Float => NotNilableAt(r, 0);
    case Int => NotNilableAt(r, 0);
    case String => NotNilableAt(r, 0);
    case Null => NotNilableAt(r, 0);
    case Media(Image) => NotNilableAt(r, 0);
    case Media(Audio) => NotNilableAt(r, 0);
  }

  /** Only optional types are annotated as nilable. */
  lemma NilableIffOptional(t: FieldType)
    ensures StartsWith(ToRuby(t), Nilable) <==> t.Optional?
  {
    var r := ToRuby(t);
    match t
    case Class(n) =>
      NotNilableAt(r, 0);
    case Enum(n) =>
      NotNilableAt(r, 2);
    case List(u) =>
      NotNilableAt(r, 1);
    case Map(k, v) =>
      NotNilableAt(r, 1);
    case Primitive(v) =>
      PrimitiveNotNilable(v);
    case Union(ts) =>
      NotNilableAt(r, 2);
    case Tuple(ts) =>
      NotNilableAt(r, 0);
    case Optional(u) =>
      assert r[..|Nilable|] == Nilable;
  }

  /** The Ruby annotation and the canonical text agree on which types are optional. */
  lemma PrintersAgreeOnOptional(t: FieldType)
    requires NamesValid(t)
    ensures StartsWith(ToRuby(t), Nilable) <==> Display(t)[|Display(t)| - 1] == '?'
  {
    NilableIffOptional(t);
    DisplayLastChar(t);
  }

  /** The annotation never has an unmatched bracket of any kind. */
  lemma {:induction false} ToRubyBalanced(t: FieldType)
    requires NamesValid(t)
    ensures Balanced(ToRuby(t))
  {
    match t
    case Class(n) =>
      ToRubyNameBalanced(t);
    case Enum(n) =>
      ToRubyNameBalanced(t);
    case List(u) =>
      ToRubyBalanced(u);
      ToRubyWrapperBalanced(t);
    case Map(k, v) =>
      ToRubyBalanced(k);
      ToRubyBalanced(v);
      ToRubyMapBalanced(k, v);
    case Primitive(v) =>
      ToRubyPrimitiveBalanced(v);
    case Union(ts) =>
      ToRubyEachBalanced(t, ts);
      ToRubyMembersBalanced(t);
    case Tuple(ts) =>
      ToRubyEachBalanced(t, ts);
      ToRubyMembersBalanced(t);
    case Optional(u) =>
      ToRubyBalanced(u);
      ToRubyWrapperBalanced(t);
  }

  lemma {:induction false} ToRubyEachBalanced(t: FieldType, ts: seq<FieldType>)
    requires (t.Union? || t.Tuple?) && ts == t.members
    requires NamesValid(t)
    ensures forall i :: 0 <= i < |ts| ==> Balanced(ToRubyEach(t, ts)[i])
  {
    forall i | 0 <= i < |ts|
      ensures Balanced(ToRubyEach(t, ts)[i])
    {
      ToRubyBalanced(ts[i]);
    }
  }

  lemma PrimitiveToRubyBracketFree(v: TypeValue)
    ensures BracketFree(PrimitiveToRuby(v))
  {
    match v
    case Bool => assert BracketFree("T::Boolean");
    case Float => assert BracketFree("Float");
    case Int => assert BracketFree("Integer");
    case String => assert BracketFree("String");
    case Null => assert BracketFree("NilClass");
    case Media(Image) => assert BracketFree("Baml::Image");
    case Media(Audio) => assert BracketFree("Baml::Audio");
  }

  lemma ToRubyPrimitiveBalanced(v: TypeValue)
    ensures Balanced(ToRuby(Primitive(v)))
  {
    PrimitiveToRubyBracketFree(v);
    BracketFreeIsBalanced(PrimitiveToRuby(v));
  }

  lemma ToRubyNameBalanced(t: FieldType)
    requires t.Class? || t.Enum?
    requires ValidName(t.name)
    ensures Balanced(ToRuby(t))
  {
    var body := ClassPath(t.name);
    ValidNameBracketFree(t.name);
    assert BracketFree("Baml::Types::");
    BracketFreeAppend("Baml::Types::", t.name);
    if t.Class? {
      BracketFreeIsBalanced(body);
    } else {
      assert BracketFree(", String");
      BracketFreeAppend(body, ", String");
      BracketFreeIsBalanced(body + ", String");
      assert BracketFree("T.any");
      Enclose("T.any", '(', body + ", String", ')');
      assert "T.any(" == "T.any" + ['('];
    }
  }

  lemma ToRubyWrapperBalanced(t: FieldType)
    requires t.List? || t.Optional?
    requires Balanced(ToRuby(if t.List? then t.item else t.inner))
    ensures Balanced(ToRuby(t))
  {
    RubyHeadsBracketFree();
    if t.List? {
      Enclose("T::Array", '[', ToRuby(t.item), ']');
      ToRubyListShape(t.item);
    } else {
      Enclose("T.nilable", '(', ToRuby(t.inner), ')');
      ToRubyOptionalShape(t.inner);
    }
  }

  lemma ToRubyMapBalanced(k: FieldType, v: FieldType)
    requires Balanced(ToRuby(k)) && Balanced(ToRuby(v))
    ensures Balanced(ToRuby(Map(k, v)))
  {
    RubyHeadsBracketFree();
    BalancedAround(ToRuby(k), ", ", ToRuby(v));
    Enclose("T::Hash", '[', ToRuby(k) + ", " + ToRuby(v), ']');
    ToRubyMapShape(k, v);
  }

  /** The text in front of each opening bracket the translation writes. */
  lemma RubyHeadsBracketFree()
    ensures BracketFree("T::Array") && BracketFree("T.nilable")
    ensures BracketFree("T::Hash") && BracketFree(", ")
  {
  }

  lemma ToRubyListShape(u: FieldType)
    ensures ToRuby(List(u)) == "T::Array" + ['['] + ToRuby(u) + [']']
  {
    assert "T::Array[" == "T::Array" + ['['];
  }

  lemma ToRubyOptionalShape(u: FieldType)
    ensures ToRuby(Optional(u)) == "T.nilable" + ['('] + ToRuby(u) + [')']
  {
    assert "T.nilable(" == "T.nilable" + ['('];
  }

  lemma ToRubyMapShape(k: FieldType, v: FieldType)
    ensures ToRuby(Map(k, v)) == "T::Hash" + ['['] + (ToRuby(k) + ", " + ToRuby(v)) + [']']
  {
    assert "T::Hash[" == "T::Hash" + ['['];
  }

  lemma ToRubyMembersBalanced(t: FieldType)
    requires t.Union? || t.Tuple?
    requires forall i :: 0 <= i < |t.members| ==> Balanced(ToRubyEach(t, t.members)[i])
    ensures Balanced(ToRuby(t))
  {
    var body := Join(ToRubyEach(t, t.members), ", ");
    JoinBalanced(ToRubyEach(t, t.members), ", ");
    if t.Union? {
      Enclose("T.any", '(', body, ')');
      assert ToRuby(t) == "T.any" + ['('] + body + [')'];
    } else {
      Enclose("", '[', body, ']');
      assert ToRuby(t) == "" + ['['] + body + [']'];
    }
  }

  /** Translation of a class. */
  lemma ToRubyClassExample()
    ensures ToRuby(Class("Resume")) == "Baml::Types::Resume"
  {
  }

  /** Translation of an enum: its constant class or a plain string. */
  lemma ToRubyEnumExample()
    ensures ToRuby(Enum("Color")) == "T.any(Baml::Types::Color, String)"
  {
    EnumExampleParts();
    EnumExampleText();
  }

  lemma EnumExampleParts()
    ensures ToRuby(Enum("Color")) == "T.any(" + ("Baml::Types::Color" + ", String") + ")"
  {
    assert ClassPath("Color") == "Baml::Types::Color";
  }

  lemma EnumExampleText()
    ensures "T.any(Baml::Types::Color, String)" == "T.any(" + ("Baml::Types::Color" + ", String") + ")"
  {
  }

  /** Translation of a list. */
  lemma ToRubyListExample()
    ensures ToRuby(List(Primitive(Int))) == "T::Array[Integer]"
  {
  }

  /** Translation of an optional. */
  lemma ToRubyOptionalExample()
    ensures ToRuby(Optional(Primitive(Media(Image)))) == "T.nilable(Baml::Image)"
  {
  }

  /** Translation of a map. */
  lemma ToRubyMapExample()
    ensures ToRuby(Map(Primitive(String), Primitive(Float))) == "T::Hash[String, Float]"
  {
  }

  /** The fixed primitive table. */
  lemma ToRubyPrimitiveTable()
    ensures ToRuby(Primitive(Bool)) == "T::Boolean" && ToRuby(Primitive(Float)) == "Float"
    ensures ToRuby(Primitive(Int)) == "Integer" && ToRuby(Primitive(String)) == "String"
    ensures ToRuby(Primitive(Null)) == "NilClass"
    ensures ToRuby(Primitive(Media(Image))) == "Baml::Image" && ToRuby(Primitive(Media(Audio))) == "Baml::Audio"
  {
  }

  /** Union members are translated in order and joined by ", ". */
  lemma ToRubyUnionExample(n: string)
    ensures ToRuby(Union([Primitive(Int), Class(n)])) == "T.any(" + "Integer" + ", " + "Baml::Types::" + n + ")"
  {
    var u := Union([Primitive(Int), Class(n)]);
    assert ToRubyEach(u, u.members) == ["Integer", "Baml::Types::" + n];
    assert Join(["Integer", "Baml::Types::" + n], ", ") == "Integer" + ", " + "Baml::Types::" + n by {
      assert ["Integer", "Baml::Types::" + n][1..] == ["Baml::Types::" + n];
    }
  }

  /** Tuple members likewise, inside square brackets. */
  lemma ToRubyTupleExample(n: string)
    ensures ToRuby(Tuple([Primitive(Int), Class(n)])) == "[" + "Integer" + ", " + "Baml::Types::" + n + "]"
  {
    var p := Tuple([Primitive(Int), Class(n)]);
    assert ToRubyEach(p, p.members) == ["Integer", "Baml::Types::" + n];
    assert Join(["Integer", "Baml::Types::" + n], ", ") == "Integer" + ", " + "Baml::Types::" + n by {
      assert ["Integer", "Baml::Types::" + n][1..] == ["Baml::Types::" + n];
    }
  }
}
