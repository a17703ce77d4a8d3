/**
  The type environment template checking runs against: a global registry of
  class shapes and template signatures, built once before any declaration is
  checked, a stack of lexical scopes binding variable names to types, and a
  transient buffer of checker errors.
 */
module TypeEnv {
  import opened Wrappers
  import opened Strings
  import opened FieldTypes
  import opened Declarations

  /** What the registry holds about one declaration. */
  datatype TypeEntry = ClassEntry(cls: ClassDecl) | TemplateEntry(template: TemplateDecl)

  datatype Env = Env(
    registry: seq<TypeEntry>,
    scopes: seq<map<string, FieldType>>,
    errors: seq<string>)

  /** The registry: every class, then every template, in declaration order. */
  function BuildRegistry(db: Db): (r: seq<TypeEntry>)
    ensures |r| == |db.classes| + |db.templates|
    ensures forall i :: 0 <= i < |db.classes| ==> r[i] == ClassEntry(db.classes[i])
    ensures forall j :: 0 <= j < |db.templates| ==> r[|db.classes| + j] == TemplateEntry(db.templates[j])
  {
    seq(|db.classes|, i requires 0 <= i < |db.classes| => ClassEntry(db.classes[i]))
      + seq(|db.templates|, j requires 0 <= j < |db.templates| => TemplateEntry(db.templates[j]))
  }

  /** Every declared class and template has its entry, wherever it is declared. */
  lemma RegistryHoldsEveryDeclaration(db: Db, c: ClassDecl, t: TemplateDecl)
    ensures c in db.classes ==> ClassEntry(c) in BuildRegistry(db)
    ensures t in db.templates ==> TemplateEntry(t) in BuildRegistry(db)
  {
    var r := BuildRegistry(db);
    if c in db.classes {
      var i :| 0 <= i < |db.classes| && db.classes[i] == c;
      assert r[i] == ClassEntry(c);
    }
    if t in db.templates {
      var j :| 0 <= j < |db.templates| && db.templates[j] == t;
      assert r[|db.classes| + j] == TemplateEntry(t);
    }
  }

  /** Nothing else is registered: every entry is a declared class or template. */
  lemma RegistryHoldsOnlyDeclarations(db: Db, x: TypeEntry)
    ensures x in BuildRegistry(db) ==>
      (x.ClassEntry? && x.cls in db.classes) || (x.TemplateEntry? && x.template in db.templates)
  {
    var r := BuildRegistry(db);
    if x in r {
      var k :| 0 <= k < |r| && r[k] == x;
      if k < |db.classes| {
        assert db.classes[k] == x.cls;
      } else {
        assert r[|db.classes| + (k - |db.classes|)] == x;
        assert db.templates[k - |db.classes|] == x.template;
      }
    }
  }

  /** The environment a pass starts from. */
  function InitialEnv(db: Db): Env
  {
    Env(BuildRegistry(db), [], [])
  }

  /** Opens an empty innermost scope. */
  function StartScope(e: Env): (r: Env)
    ensures |r.scopes| == |e.scopes| + 1 && r.scopes[..|e.scopes|] == e.scopes
    ensures r.scopes[|e.scopes|] == map[]
    ensures r.registry == e.registry && r.errors == e.errors
  {
    e.(scopes := e.scopes + [map[]])
  }

  /** Binds `name` in the innermost scope, replacing an earlier binding there. */
  function AddVariable(e: Env, name: string, t: FieldType): (r: Env)
    requires |e.scopes| > 0
    ensures |r.scopes| == |e.scopes| && r.scopes[..|e.scopes| - 1] == e.scopes[..|e.scopes| - 1]
    ensures r.scopes[|e.scopes| - 1] == e.scopes[|e.scopes| - 1][name := t]
    ensures r.registry == e.registry && r.errors == e.errors
  {
    var top := |e.scopes| - 1;
    e.(scopes := e.scopes[..top] + [e.scopes[top][name := t]])
  }

  /** Closes the innermost scope. */
  function EndScope(e: Env): (r: Env)
    requires |e.scopes| > 0
    ensures r.scopes == e.scopes[..|e.scopes| - 1]
    ensures r.registry == e.registry && r.errors == e.errors
  {
    e.(scopes := e.scopes[..|e.scopes| - 1])
  }

  /** Empties the transient error buffer. */
  function ClearErrors(e: Env): (r: Env)
    ensures r.errors == []
    ensures r.registry == e.registry && r.scopes == e.scopes
  {
    e.(errors := [])
  }

  /** The type a variable has, looked up from the innermost scope outwards. */
  function Resolve(e: Env, name: string): (r: Option<FieldType>)
    ensures r.Some? <==> exists i :: 0 <= i < |e.scopes| && name in e.scopes[i]
    decreases |e.scopes|
  {
    if |e.scopes| == 0 then None
    else if name in e.scopes[|e.scopes| - 1] then Some(e.scopes[|e.scopes| - 1][name])
    else
      var outer := e.(scopes := e.scopes[..|e.scopes| - 1]);
      var r := Resolve(outer, name);
      assert forall i :: 0 <= i < |outer.scopes| ==> outer.scopes[i] == e.scopes[i];
      r
  }

  /** Opening then closing a scope, whatever was bound in it, restores the
      environment. */
  lemma ScopeRoundTrip(e: Env, name: string, t: FieldType)
    ensures EndScope(StartScope(e)) == e
    ensures EndScope(AddVariable(StartScope(e), name, t)) == e
  {
    assert (e.scopes + [map[]])[..|e.scopes|] == e.scopes;
  }

  /** Opening a scope hides nothing: every name resolves as before. */
  lemma ResolveStartScope(e: Env, x: string)
    ensures Resolve(StartScope(e), x) == Resolve(e, x)
  {
    var s := StartScope(e);
    assert s.(scopes := s.scopes[..|s.scopes| - 1]) == e;
  }

  /** After a binding, its name resolves to the bound type, shadowing every
      outer binding, and every other name resolves as before. */
  lemma ResolveAddVariable(e: Env, name: string, t: FieldType, x: string)
    requires |e.scopes| > 0
    ensures Resolve(AddVariable(e, name, t), x) == if x == name then Some(t) else Resolve(e, x)
  {
    var a := AddVariable(e, name, t);
    var top := |e.scopes| - 1;
    assert a.(scopes := a.scopes[..top]) == e.(scopes := e.scopes[..top]);
  }
}
