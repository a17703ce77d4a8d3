/**
  The read-only view of the parsed declarations that validation walks:
  classes, clients, functions and template strings, each in declaration
  order and each carrying the spans diagnostics point at.
 */
module Declarations {
  import opened Wrappers
  import opened Strings
  import opened Diagnostics
  import opened FieldTypes

  /** A type as written at an argument or field, with its span. */
  datatype TypeExpr = TypeExpr(shape: FieldType, span: Span)

  /** A function argument; the parser may leave its name out. */
  datatype Arg = Arg(name: Option<string>, ty: TypeExpr)

  /** A raw prompt literal and the span of its text. */
  datatype Prompt = Prompt(raw: string, span: Span)

  datatype ClassDecl = ClassDecl(name: string, fields: seq<(string, TypeExpr)>)

  datatype ClientDecl = ClientDecl(name: string)

  /** A template string: its body is absent when it is not a raw string literal. */
  datatype TemplateDecl = TemplateDecl(
    name: string,
    identSpan: Span,
    args: seq<(string, TypeExpr)>,
    body: Option<Prompt>)

  /** The client a function names, with the span of the reference. */
  datatype ClientRef = ClientRef(name: string, span: Span)

  /** A function. `clientSpecResolves` is whether the database could resolve
      its client, inline or by name; `client` and `prompt` are the metadata
      written on it. */
  datatype FunctionDecl = FunctionDecl(
    name: string,
    span: Span,
    inputs: seq<Arg>,
    outputs: seq<Arg>,
    clientSpecResolves: bool,
    client: Option<ClientRef>,
    prompt: Option<Prompt>)

  datatype Db = Db(
    classes: seq<ClassDecl>,
    clients: seq<ClientDecl>,
    functions: seq<FunctionDecl>,
    templates: seq<TemplateDecl>)

  /** Every declared client name, in declaration order. */
  function ClientNames(db: Db): (r: seq<string>)
    ensures |r| == |db.clients|
    ensures forall i :: 0 <= i < |r| ==> r[i] == db.clients[i].name
  {
    seq(|db.clients|, i requires 0 <= i < |db.clients| => db.clients[i].name)
  }

  /** The candidates are exactly the declared clients' names. */
  lemma ClientNamesAreDeclared(db: Db, x: string)
    ensures x in ClientNames(db) <==> exists c :: c in db.clients && c.name == x
  {
    var r := ClientNames(db);
    if x in r {
      var k :| 0 <= k < |r| && r[k] == x;
      assert db.clients[k] in db.clients;
    }
    if exists c :: c in db.clients && c.name == x {
      var c :| c in db.clients && c.name == x;
      var k :| 0 <= k < |db.clients| && db.clients[k] == c;
      assert r[k] == x;
    }
  }

  /** A template's arguments, which always carry a name, as function arguments. */
  function TemplateArgs(t: TemplateDecl): (r: seq<Arg>)
    ensures |r| == |t.args|
    ensures forall i :: 0 <= i < |r| ==> r[i] == Arg(Some(t.args[i].0), t.args[i].1)
  {
    seq(|t.args|, i requires 0 <= i < |t.args| => Arg(Some(t.args[i].0), t.args[i].1))
  }
}
