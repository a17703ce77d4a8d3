/**
  The function and template-string validation pass. In one sequential walk it
  builds the type registry, checks every template string's body and then every
  function (argument types, client, prompt metadata, prompt body), and records
  errors and warnings without ever stopping early.

  The embedded template checker, argument-type validation and the projection
  of an argument's written type to a field type live elsewhere; they are the
  parameters bundled in `Hooks`.
 */
module Validation {
  import opened Wrappers
  import opened Strings
  import opened FieldTypes
  import opened Diagnostics
  import opened Declarations
  import opened TypeEnv

  const TemplateNotRawMessage :=
    "Template string must be a raw string literal like `template_string MyTemplate(myArg: string) #\"\n\n\"#`"
  const ClientMissingMessage := "Client metadata is missing."
  const PromptMissingMessage := "Prompt metadata is missing."
  const ArgNameMissingMessage := "Argument name is missing."
  const ClientKind := "Client"

  /** A semantic finding of the template checker, with a byte range relative
      to the start of the template text. */
  datatype Finding = Finding(message: string, start: nat, end: nat)

  /** The checker's verdict: parse-level failures (if any) and semantic findings. */
  datatype CheckOutcome =
    | Valid
    | Invalid(parsingErrors: Option<string>, errors: seq<Finding>)

  /** The verdict and what the checker left in the environment's error buffer. */
  datatype CheckResult = CheckResult(outcome: CheckOutcome, buffered: seq<string>)

  datatype Hooks = Hooks(
    /** Type-checks a template body (given the declaration's name) against an environment. */
    validateTemplate: (string, string, Env) -> CheckResult,
    /** Diagnostics for one argument type (unresolved class or enum names). */
    validateType: TypeExpr -> seq<Diagnostic>,
    /** The field type an argument's written type stands for. */
    toJinjaType: TypeExpr -> FieldType)

  /** One invocation of the template checker, with the environment it saw. */
  datatype CheckerCall = CheckerCall(declName: string, body: string, env: Env)

  /** Everything the pass has produced so far. */
  datatype PassState = PassState(diags: seq<Diagnostic>, env: Env, calls: seq<CheckerCall>)

  // ---------------------------------------------------------------------
  // Reporting template findings
  // ---------------------------------------------------------------------

  /** A finding's range moved from template-relative to file offsets. */
  function Rebase(prompt: Span, f: Finding): (r: Span)
    ensures r.file == prompt.file
    ensures r.start - prompt.start == f.start && r.end - prompt.start == f.end
  {
    Span(prompt.file, prompt.start + f.start, prompt.start + f.end)
  }

  /** The diagnostics a checker verdict turns into: nothing for a valid body or
      for one with parse-level failures (deliberately suppressed), otherwise one
      warning per finding, in order, spanned inside the prompt's file. */
  function Report(outcome: CheckOutcome, prompt: Span): (r: seq<Diagnostic>)
    ensures Succeeds(r)
    ensures outcome.Valid? || outcome.parsingErrors.Some? ==> r == []
    ensures outcome.Invalid? && outcome.parsingErrors.None? ==>
      && |r| == |outcome.errors|
      && forall i :: 0 <= i < |r| ==>
           && r[i].ValidationWarning?
           && r[i].message == outcome.errors[i].message
           && r[i].span == Rebase(prompt, outcome.errors[i])
  {
    match outcome
    case Valid => []
    case Invalid(Some(_), _) => []
    case Invalid(None, errs) =>
      seq(|errs|, i requires 0 <= i < |errs| => ValidationWarning(errs[i].message, Rebase(prompt, errs[i])))
  }

  /** A finding whose range lies within the prompt's length yields a warning
      that lies inside the prompt's span, at the same distance from its start. */
  lemma ReportWithinPrompt(outcome: CheckOutcome, prompt: Span)
    requires prompt.start <= prompt.end
    requires outcome.Invalid?
    requires forall i :: 0 <= i < |outcome.errors| ==>
      outcome.errors[i].start <= outcome.errors[i].end <= prompt.end - prompt.start
    ensures forall d :: d in Report(outcome, prompt) ==>
      d.span.file == prompt.file && prompt.start <= d.span.start <= d.span.end <= prompt.end
    ensures outcome.parsingErrors.None? ==>
      forall i :: 0 <= i < |outcome.errors| ==>
        Report(outcome, prompt)[i].span.start - prompt.start == outcome.errors[i].start
        && Report(outcome, prompt)[i].span.end - prompt.start == outcome.errors[i].end
  {
  }

  // ---------------------------------------------------------------------
  // Binding arguments in a fresh scope
  // ---------------------------------------------------------------------

  /** The argument-name errors of `args`: one per unnamed argument, at its
      type's span, in argument order. */
  function UnnamedArgErrors(args: seq<Arg>): seq<Diagnostic>
  {
    if |args| == 0 then []
    else
      (if args[0].name.None? then [ValidationError(ArgNameMissingMessage, args[0].ty.span)] else [])
        + UnnamedArgErrors(args[1..])
  }

  lemma {:induction false} UnnamedArgErrorsSnoc(args: seq<Arg>, a: Arg)
    ensures UnnamedArgErrors(args + [a])
      == UnnamedArgErrors(args) + (if a.name.None? then [ValidationError(ArgNameMissingMessage, a.ty.span)] else [])
    decreases |args|
  {
    if |args| > 0 {
      assert (args + [a])[1..] == args[1..] + [a];
      UnnamedArgErrorsSnoc(args[1..], a);
      AppendAssoc(if args[0].name.None? then [ValidationError(ArgNameMissingMessage, args[0].ty.span)] else [],
        UnnamedArgErrors(args[1..]),
        if a.name.None? then [ValidationError(ArgNameMissingMessage, a.ty.span)] else []);
    } else {
      assert args + [a] == [a];
    }
  }

  /** Every argument-name error is one, and every unnamed argument has its error. */
  lemma {:induction false} UnnamedArgErrorsMembers(args: seq<Arg>)
    ensures forall d :: d in UnnamedArgErrors(args) ==> d.ValidationError? && d.message == ArgNameMissingMessage
    ensures forall i :: 0 <= i < |args| && args[i].name.None? ==>
      ValidationError(ArgNameMissingMessage, args[i].ty.span) in UnnamedArgErrors(args)
    ensures UnnamedArgErrors(args) == [] <==> forall i :: 0 <= i < |args| ==> args[i].name.Some?
    decreases |args|
  {
    if |args| > 0 {
      UnnamedArgErrorsMembers(args[1..]);
      assert forall i :: 1 <= i < |args| ==> args[i] == args[1..][i - 1];
    }
  }

  /** No later argument of `args` carries the name of argument `i`. */
  predicate LastWithName(args: seq<Arg>, i: nat)
    requires i < |args|
  {
    forall j :: i < j < |args| ==> args[j].name != args[i].name
  }

  /** Binds each named argument in the innermost scope, in order; an argument
      without a name is reported and skipped while the others are still bound. */
  function BindArgs(e: Env, args: seq<Arg>, toJinja: TypeExpr -> FieldType): (r: (Env, seq<Diagnostic>))
    requires |e.scopes| > 0
    ensures |r.0.scopes| == |e.scopes| && r.0.scopes[..|e.scopes| - 1] == e.scopes[..|e.scopes| - 1]
    ensures r.0.registry == e.registry && r.0.errors == e.errors
    ensures forall i :: 0 <= i < |args| && args[i].name.Some? ==>
      args[i].name.value in r.0.scopes[|e.scopes| - 1]
    ensures forall i :: 0 <= i < |args| && args[i].name.Some? && LastWithName(args, i) ==>
      r.0.scopes[|e.scopes| - 1][args[i].name.value] == toJinja(args[i].ty)
    ensures forall k :: k in r.0.scopes[|e.scopes| - 1] ==>
      k in e.scopes[|e.scopes| - 1] || exists i :: 0 <= i < |args| && args[i].name == Some(k)
    ensures r.1 == UnnamedArgErrors(args)
    decreases |args|
  {
    if |args| == 0 then (e, [])
    else
      var init := args[..|args| - 1];
      var a := args[|args| - 1];
      var (e1, ds) := BindArgs(e, init, toJinja);
      assert args == init + [a];
      UnnamedArgErrorsSnoc(init, a);
      assert forall i :: 0 <= i < |init| ==> init[i] == args[i];
      assert forall i :: 0 <= i < |init| && LastWithName(args, i) ==> LastWithName(init, i);
      match a.name
      case None => (e1, ds + [ValidationError(ArgNameMissingMessage, a.ty.span)])
      case Some(n) => (AddVariable(e1, n, toJinja(a.ty)), ds)
  }

  /** Two unnamed arguments and a named one: two errors, in order, and the
      name bound to its mapped type. */
  lemma BindArgsExample(e: Env, ty: TypeExpr, toJinja: TypeExpr -> FieldType)
    requires |e.scopes| > 0
    ensures var r := BindArgs(e, [Arg(None, ty), Arg(None, ty), Arg(Some("x"), ty)], toJinja);
      && r.1 == [ValidationError(ArgNameMissingMessage, ty.span), ValidationError(ArgNameMissingMessage, ty.span)]
      && r.0.scopes[|e.scopes| - 1]["x"] == toJinja(ty)
  {
    var args := [Arg(None, ty), Arg(None, ty), Arg(Some("x"), ty)];
    assert args[1..] == [Arg(None, ty), Arg(Some("x"), ty)];
    assert args[1..][1..] == [Arg(Some("x"), ty)];
    assert args[1..][1..][1..] == [];
    var err := ValidationError(ArgNameMissingMessage, ty.span);
    assert UnnamedArgErrors(args[1..][1..]) == [];
    assert UnnamedArgErrors(args[1..]) == [err];
    assert UnnamedArgErrors(args) == [err] + [err];
    assert LastWithName(args, 2);
  }

  /** `seen` is `base` with one more, innermost scope. */
  predicate ScopedOver(seen: Env, base: Env)
  {
    && seen.registry == base.registry
    && |seen.scopes| == |base.scopes| + 1 && seen.scopes[..|base.scopes|] == base.scopes
    && seen.errors == base.errors
  }

  /** What checking one prompt body produces: its diagnostics, the checker
      call it made, and the errors the checker left in the buffer. */
  datatype BodyResult = BodyResult(diags: seq<Diagnostic>, call: CheckerCall, buffered: seq<string>)

  /** Checks one prompt body against `env`: opens a scope, binds the
      arguments, runs the checker on the body and reports its findings. */
  function BodyCheck(name: string, prompt: Prompt, args: seq<Arg>, hooks: Hooks, env: Env): (r: BodyResult)
    ensures r.call.declName == name && r.call.body == prompt.raw
    ensures ScopedOver(r.call.env, env)
    ensures var top := r.call.env.scopes[|env.scopes|];
      && (forall i :: 0 <= i < |args| && args[i].name.Some? ==> args[i].name.value in top)
      && (forall i :: 0 <= i < |args| && args[i].name.Some? && LastWithName(args, i) ==>
            top[args[i].name.value] == hooks.toJinjaType(args[i].ty))
      && (forall k :: k in top ==> exists i :: 0 <= i < |args| && args[i].name == Some(k))
    ensures var u := UnnamedArgErrors(args);
      && |r.diags| >= |u| && r.diags[..|u|] == u
      && forall j :: |u| <= j < |r.diags| ==> r.diags[j].ValidationWarning?
    ensures var res := hooks.validateTemplate(name, prompt.raw, r.call.env);
      && r.diags == UnnamedArgErrors(args) + Report(res.outcome, prompt.span)
      && r.buffered == res.buffered
  {
    var bound := BindArgs(StartScope(env), args, hooks.toJinjaType);
    var res := hooks.validateTemplate(name, prompt.raw, bound.0);
    var rep := Report(res.outcome, prompt.span);
    BindFreshScope(env, args, hooks.toJinjaType);
    ReportAfter(bound.1, res.outcome, prompt.span);
    BodyResult(bound.1 + rep, CheckerCall(name, prompt.raw, bound.0), res.buffered)
  }

  /** Binding into a freshly opened scope: the outer environment is kept and
      the new scope holds exactly the named arguments, each bound to the type
      of its last occurrence. */
  lemma BindFreshScope(env: Env, args: seq<Arg>, toJinja: TypeExpr -> FieldType)
    ensures var b := BindArgs(StartScope(env), args, toJinja).0;
      && ScopedOver(b, env)
      && var top := b.scopes[|env.scopes|];
      && (forall i :: 0 <= i < |args| && args[i].name.Some? ==> args[i].name.value in top)
      && (forall i :: 0 <= i < |args| && args[i].name.Some? && LastWithName(args, i) ==>
            top[args[i].name.value] == toJinja(args[i].ty))
      && (forall k :: k in top ==> exists i :: 0 <= i < |args| && args[i].name == Some(k))
  {
    var b := BindArgs(StartScope(env), args, toJinja).0;
    assert b.scopes[..|env.scopes|] == StartScope(env).scopes[..|env.scopes|];
  }

  /** Reported findings appended after `u` keep `u` as the prefix and add
      only warnings. */
  lemma ReportAfter(u: seq<Diagnostic>, outcome: CheckOutcome, prompt: Span)
    ensures var ds := u + Report(outcome, prompt);
      && |ds| >= |u| && ds[..|u|] == u
      && forall j :: |u| <= j < |ds| ==> ds[j].ValidationWarning?
  {
    var rep := Report(outcome, prompt);
    var ds := u + rep;
    assert ds[..|u|] == u;
    forall j | |u| <= j < |ds| ensures ds[j].ValidationWarning? {
      assert ds[j] == rep[j - |u|];
    }
  }

  /** A prompt body yields only warnings and argument-name errors, and no
      error at all exactly when every argument is named. */
  lemma BodyDiagsKinds(name: string, prompt: Prompt, args: seq<Arg>, hooks: Hooks, env: Env)
    ensures var ds := BodyCheck(name, prompt, args, hooks, env).diags;
      && (forall d :: d in ds ==> d.ValidationWarning? || (d.ValidationError? && d.message == ArgNameMissingMessage))
      && (Succeeds(ds) <==> forall i :: 0 <= i < |args| ==> args[i].name.Some?)
  {
    var ds := BodyCheck(name, prompt, args, hooks, env).diags;
    var u := UnnamedArgErrors(args);
    UnnamedArgErrorsMembers(args);
    assert ds == u + ds[|u|..];
    forall d | d in ds
      ensures d.ValidationWarning? || (d.ValidationError? && d.message == ArgNameMissingMessage)
    {
      var j :| 0 <= j < |ds| && ds[j] == d;
      if j < |u| { assert ds[j] == u[j]; assert u[j] in u; }
    }
    SucceedsAppend(u, ds[|u|..]);
    if |u| > 0 {
      assert u[0] in u;
      assert IsError(u[0]);
    }
  }

  /** Runs a prompt body check within the pass: after it the scope is closed
      again and the checker's error buffer emptied. */
  function CheckBody(name: string, prompt: Prompt, args: seq<Arg>, hooks: Hooks, st: PassState): (r: PassState)
    ensures r.env == st.env.(errors := [])
    ensures var b := BodyCheck(name, prompt, args, hooks, st.env);
      r.diags == st.diags + b.diags && r.calls == st.calls + [b.call]
  {
    var b := BodyCheck(name, prompt, args, hooks, st.env);
    var scoped := b.call.env.(errors := b.call.env.errors + b.buffered);
    var after := ClearErrors(EndScope(scoped));
    assert scoped.scopes[..|st.env.scopes|] == st.env.scopes;
    PassState(st.diags + b.diags, after, st.calls + [b.call])
  }

  // ---------------------------------------------------------------------
  // Template strings
  // ---------------------------------------------------------------------

  /** What checking one template string against `env` reports: an error at its
      name when it is not a raw string literal, otherwise exactly the checker's
      findings on the body, as warnings inside the body's span. */
  function TemplateDiags(t: TemplateDecl, hooks: Hooks, env: Env): (r: seq<Diagnostic>)
    ensures t.body.None? ==> r == [ValidationError(TemplateNotRawMessage, t.identSpan)]
    ensures t.body.Some? ==> forall d :: d in r ==> d.ValidationWarning?
    ensures t.body.Some? ==>
      var seen := BodyCheck(t.name, t.body.value, TemplateArgs(t), hooks, env).call.env;
      r == Report(hooks.validateTemplate(t.name, t.body.value.raw, seen).outcome, t.body.value.span)
  {
    match t.body
    case None => [ValidationError(TemplateNotRawMessage, t.identSpan)]
    case Some(p) =>
      TemplateArgsNamed(t);
      UnnamedArgErrorsMembers(TemplateArgs(t));
      BodyDiagsKinds(t.name, p, TemplateArgs(t), hooks, env);
      BodyCheck(t.name, p, TemplateArgs(t), hooks, env).diags
  }

  lemma TemplateArgsNamed(t: TemplateDecl)
    ensures forall i :: 0 <= i < |TemplateArgs(t)| ==> TemplateArgs(t)[i].name.Some?
  {
  }

  /** Checks one template string within the pass. */
  function CheckTemplate(t: TemplateDecl, hooks: Hooks, st: PassState): (r: PassState)
    ensures r.diags == st.diags + TemplateDiags(t, hooks, st.env)
    ensures r.env.registry == st.env.registry && r.env.scopes == st.env.scopes
    ensures st.env.errors == [] ==> r.env == st.env
    ensures |r.calls| == |st.calls| + (if t.body.Some? then 1 else 0) && r.calls[..|st.calls|] == st.calls
    ensures CallsScopedOver(r.calls, |st.calls|, st.env)
    ensures t.body.Some? ==>
      && r.calls[|st.calls|].declName == t.name && r.calls[|st.calls|].body == t.body.value.raw
      && ScopedOver(r.calls[|st.calls|].env, st.env)
    ensures t.body.Some? ==>
      var res := hooks.validateTemplate(t.name, t.body.value.raw, r.calls[|st.calls|].env);
      r.diags == st.diags + Report(res.outcome, t.body.value.span)
  {
    match t.body
    case None => st.(diags := st.diags + [ValidationError(TemplateNotRawMessage, t.identSpan)])
    case Some(p) => CheckBody(t.name, p, TemplateArgs(t), hooks, st)
  }

  /** Checks every template string in turn. */
  function TemplatesPass(ts: seq<TemplateDecl>, hooks: Hooks, st: PassState): (r: PassState)
    decreases |ts|
  {
    if |ts| == 0 then st else TemplatesPass(ts[1..], hooks, CheckTemplate(ts[0], hooks, st))
  }

  // ---------------------------------------------------------------------
  // Functions
  // ---------------------------------------------------------------------

  /** Diagnostics of every input and then every output argument type. */
  function ArgTypeDiags(f: FunctionDecl, hooks: Hooks): seq<Diagnostic>
  {
    var all := f.inputs + f.outputs;
    Flatten(seq(|all|, i requires 0 <= i < |all| => hooks.validateType(all[i].ty)))
  }

  /** The client check failed and no client is written on the function. */
  predicate ClientMissing(f: FunctionDecl)
  {
    !f.clientSpecResolves && f.client.None?
  }

  /** The function's prompt body reaches the checker. */
  predicate ReachesChecker(f: FunctionDecl)
  {
    !ClientMissing(f) && f.prompt.Some?
  }

  /** What checking one function against `env` reports: argument-type
      diagnostics first; then either a missing-client error and nothing more,
      or the client check followed by the prompt check. */
  function FunctionDiags(f: FunctionDecl, clients: seq<string>, hooks: Hooks, env: Env): seq<Diagnostic>
  {
    var pre := ArgTypeDiags(f, hooks);
    if ClientMissing(f) then pre + [ValidationError(ClientMissingMessage, f.span)]
    else pre + ClientDiags(f, clients) + PromptDiags(f, hooks, env)
  }

  /** The client check of a function that names a client: nothing when it
      resolves, otherwise a not-found error listing every declared client. */
  function ClientDiags(f: FunctionDecl, clients: seq<string>): seq<Diagnostic>
    requires !ClientMissing(f)
  {
    if f.clientSpecResolves then []
    else [NotFoundError(ClientKind, f.client.value.name, f.client.value.span, clients)]
  }

  /** The prompt check: a missing-prompt error, or the prompt body's
      diagnostics, which never hold a not-found error. */
  function PromptDiags(f: FunctionDecl, hooks: Hooks, env: Env): (r: seq<Diagnostic>)
    ensures forall j :: 0 <= j < |r| ==> !r[j].NotFoundError?
  {
    match f.prompt
    case None => [ValidationError(PromptMissingMessage, f.span)]
    case Some(p) =>
      var body := BodyCheck(f.name, p, f.inputs, hooks, env).diags;
      BodyDiagsKinds(f.name, p, f.inputs, hooks, env);
      NoNotFoundIn(body);
      body
  }

  /** Argument-type diagnostics come first; a function with no client at all
      gets the missing-client error after them and nothing else. */
  lemma FunctionDiagsPrefix(f: FunctionDecl, clients: seq<string>, hooks: Hooks, env: Env)
    ensures var r := FunctionDiags(f, clients, hooks, env); var pre := ArgTypeDiags(f, hooks);
      && |r| >= |pre| && r[..|pre|] == pre
      && (ClientMissing(f) ==> r == pre + [ValidationError(ClientMissingMessage, f.span)])
  {
    var r := FunctionDiags(f, clients, hooks, env);
    var pre := ArgTypeDiags(f, hooks);
    var rest := if ClientMissing(f) then [ValidationError(ClientMissingMessage, f.span)]
      else ClientDiags(f, clients) + PromptDiags(f, hooks, env);
    if !ClientMissing(f) {
      AppendAssoc(pre, ClientDiags(f, clients), PromptDiags(f, hooks, env));
    }
    assert r == pre + rest;
    assert (pre + rest)[..|pre|] == pre;
  }

  /** Right after the argument-type diagnostics: one not-found error for a
      named client that does not resolve, and no other not-found error
      anywhere after that point; none at all once the client resolves. */
  lemma FunctionDiagsClient(f: FunctionDecl, clients: seq<string>, hooks: Hooks, env: Env)
    ensures var r := FunctionDiags(f, clients, hooks, env); var at := |ArgTypeDiags(f, hooks)|;
      && (!f.clientSpecResolves && f.client.Some? ==>
            && at < |r|
            && r[at] == NotFoundError(ClientKind, f.client.value.name, f.client.value.span, clients)
            && forall j :: at < j < |r| ==> !r[j].NotFoundError?)
      && (f.clientSpecResolves ==> forall j :: at <= j < |r| ==> !r[j].NotFoundError?)
  {
    var r := FunctionDiags(f, clients, hooks, env);
    var pre := ArgTypeDiags(f, hooks);
    if !ClientMissing(f) {
      var c := ClientDiags(f, clients);
      var p := PromptDiags(f, hooks, env);
      assert r == pre + c + p;
      forall j | |pre| + |c| <= j < |r| ensures !r[j].NotFoundError? {
        assert r[j] == p[j - |pre| - |c|];
      }
      if !f.clientSpecResolves {
        assert r[|pre|] == c[0];
      }
    }
  }

  /** A function that names a client but has no prompt ends with the
      missing-prompt error. */
  lemma FunctionDiagsPrompt(f: FunctionDecl, clients: seq<string>, hooks: Hooks, env: Env)
    ensures var r := FunctionDiags(f, clients, hooks, env);
      !ClientMissing(f) && f.prompt.None? ==>
        |r| > 0 && r[|r| - 1] == ValidationError(PromptMissingMessage, f.span)
  {
  }

  lemma NoNotFoundIn(ds: seq<Diagnostic>)
    requires forall d :: d in ds ==> d.ValidationWarning? || d.ValidationError?
    ensures forall j :: 0 <= j < |ds| ==> !ds[j].NotFoundError?
  {
    forall j | 0 <= j < |ds| ensures !ds[j].NotFoundError? {
      assert ds[j] in ds;
    }
  }

  /** Checks one function within the pass. */
  function CheckFunction(f: FunctionDecl, clients: seq<string>, hooks: Hooks, st: PassState): (r: PassState)
    ensures r.diags == st.diags + FunctionDiags(f, clients, hooks, st.env)
    ensures r.env.registry == st.env.registry && r.env.scopes == st.env.scopes
    ensures st.env.errors == [] ==> r.env == st.env
    ensures |r.calls| == |st.calls| + (if ReachesChecker(f) then 1 else 0) && r.calls[..|st.calls|] == st.calls
    ensures CallsScopedOver(r.calls, |st.calls|, st.env)
    ensures ReachesChecker(f) ==>
      && r.calls[|st.calls|].declName == f.name && r.calls[|st.calls|].body == f.prompt.value.raw
      && ScopedOver(r.calls[|st.calls|].env, st.env)
    ensures ReachesChecker(f) ==>
      var res := hooks.validateTemplate(f.name, f.prompt.value.raw, r.calls[|st.calls|].env);
      r.diags == st.diags + (ArgTypeDiags(f, hooks) + ClientDiags(f, clients)
                             + (UnnamedArgErrors(f.inputs) + Report(res.outcome, f.prompt.value.span)))
  {
    var ds := st.diags + FunctionDiags(f, clients, hooks, st.env);
    if ReachesChecker(f) then
      CheckBody(f.name, f.prompt.value, f.inputs, hooks, st).(diags := ds)
    else
      st.(diags := ds)
  }

  /** Checks every function in turn. */
  function FunctionsPass(fs: seq<FunctionDecl>, clients: seq<string>, hooks: Hooks, st: PassState): (r: PassState)
    decreases |fs|
  {
    if |fs| == 0 then st else FunctionsPass(fs[1..], clients, hooks, CheckFunction(fs[0], clients, hooks, st))
  }

  // ---------------------------------------------------------------------
  // The whole pass
  // ---------------------------------------------------------------------

  /** Validates every template string, then every function, against a registry
      built from all classes and templates beforehand. */
  function Validate(db: Db, hooks: Hooks): PassState
  {
    var st := TemplatesPass(db.templates, hooks, PassState([], InitialEnv(db), []));
    FunctionsPass(db.functions, ClientNames(db), hooks, st)
  }

  function PerTemplate(ts: seq<TemplateDecl>, hooks: Hooks, env: Env): (r: seq<seq<Diagnostic>>)
    ensures |r| == |ts|
    ensures forall i :: 0 <= i < |ts| ==> r[i] == TemplateDiags(ts[i], hooks, env)
  {
    seq(|ts|, i requires 0 <= i < |ts| => TemplateDiags(ts[i], hooks, env))
  }

  function PerFunction(fs: seq<FunctionDecl>, clients: seq<string>, hooks: Hooks, env: Env): (r: seq<seq<Diagnostic>>)
    ensures |r| == |fs|
    ensures forall i :: 0 <= i < |fs| ==> r[i] == FunctionDiags(fs[i], clients, hooks, env)
  {
    seq(|fs|, i requires 0 <= i < |fs| => FunctionDiags(fs[i], clients, hooks, env))
  }

  /** Every checker call from `from` onwards saw `base` plus one scope. */
  predicate CallsScopedOver(calls: seq<CheckerCall>, from: nat, base: Env)
  {
    forall j :: from <= j < |calls| ==> ScopedOver(calls[j].env, base)
  }

  lemma CallsScopedThrough(mid: seq<CheckerCall>, r: seq<CheckerCall>, from: nat, base: Env)
    requires |mid| <= |r| && r[..|mid|] == mid
    requires CallsScopedOver(mid, from, base) && CallsScopedOver(r, |mid|, base)
    ensures CallsScopedOver(r, from, base)
  {
    forall j | from <= j < |mid| ensures ScopedOver(r[j].env, base) {
      assert r[j] == mid[j];
    }
  }

  /** Started with an empty error buffer, the template pass leaves the
      environment as it found it, reports each
      template's own diagnostics in order, and runs every checker call in a
      single fresh scope over that environment. */
  lemma TemplatesPassCompose(ts: seq<TemplateDecl>, hooks: Hooks, st: PassState)
    requires st.env.errors == []
    ensures var r := TemplatesPass(ts, hooks, st);
      && r.env == st.env
      && r.diags == st.diags + Flatten(PerTemplate(ts, hooks, st.env))
      && |r.calls| >= |st.calls| && r.calls[..|st.calls|] == st.calls
      && CallsScopedOver(r.calls, |st.calls|, st.env)
  {
    TemplatesPassEnv(ts, hooks, st);
    TemplatesPassDiags(ts, hooks, st);
    TemplatesPassCalls(ts, hooks, st);
  }

  lemma {:induction false} TemplatesPassEnv(ts: seq<TemplateDecl>, hooks: Hooks, st: PassState)
    requires st.env.errors == []
    ensures TemplatesPass(ts, hooks, st).env == st.env
    decreases |ts|
  {
    if |ts| > 0 {
      TemplatesPassEnv(ts[1..], hooks, CheckTemplate(ts[0], hooks, st));
    }
  }

  lemma {:induction false} TemplatesPassDiags(ts: seq<TemplateDecl>, hooks: Hooks, st: PassState)
    requires st.env.errors == []
    ensures TemplatesPass(ts, hooks, st).diags == st.diags + Flatten(PerTemplate(ts, hooks, st.env))
    decreases |ts|
  {
    if |ts| > 0 {
      var st1 := CheckTemplate(ts[0], hooks, st);
      var per := PerTemplate(ts, hooks, st.env);
      assert st1.env == st.env;
      assert st1.diags == st.diags + per[0];
      TemplatesPassDiags(ts[1..], hooks, st1);
      assert per[1..] == PerTemplate(ts[1..], hooks, st.env);
      assert Flatten(per) == per[0] + Flatten(per[1..]);
      AppendAssoc(st.diags, per[0], Flatten(per[1..]));
    }
  }

  lemma {:induction false} TemplatesPassCalls(ts: seq<TemplateDecl>, hooks: Hooks, st: PassState)
    requires st.env.errors == []
    ensures var r := TemplatesPass(ts, hooks, st);
      && |r.calls| >= |st.calls| && r.calls[..|st.calls|] == st.calls
      && CallsScopedOver(r.calls, |st.calls|, st.env)
    decreases |ts|
  {
    if |ts| > 0 {
      var st1 := CheckTemplate(ts[0], hooks, st);
      assert st1.env == st.env;
      TemplatesPassCalls(ts[1..], hooks, st1);
      var r := TemplatesPass(ts[1..], hooks, st1);
      assert r.calls[..|st.calls|] == r.calls[..|st1.calls|][..|st.calls|];
      CallsScopedThrough(st1.calls, r.calls, |st.calls|, st.env);
    }
  }

  /** The function pass, likewise, when started with an empty error buffer. */
  lemma FunctionsPassCompose(fs: seq<FunctionDecl>, clients: seq<string>, hooks: Hooks, st: PassState)
    requires st.env.errors == []
    ensures var r := FunctionsPass(fs, clients, hooks, st);
      && r.env == st.env
      && r.diags == st.diags + Flatten(PerFunction(fs, clients, hooks, st.env))
      && |r.calls| >= |st.calls| && r.calls[..|st.calls|] == st.calls
      && CallsScopedOver(r.calls, |st.calls|, st.env)
  {
    FunctionsPassEnv(fs, clients, hooks, st);
    FunctionsPassDiags(fs, clients, hooks, st);
    FunctionsPassCalls(fs, clients, hooks, st);
  }

  lemma {:induction false} FunctionsPassEnv(fs: seq<FunctionDecl>, clients: seq<string>, hooks: Hooks, st: PassState)
    requires st.env.errors == []
    ensures FunctionsPass(fs, clients, hooks, st).env == st.env
    decreases |fs|
  {
    if |fs| > 0 {
      FunctionsPassEnv(fs[1..], clients, hooks, CheckFunction(fs[0], clients, hooks, st));
    }
  }

  lemma {:induction false} FunctionsPassDiags(fs: seq<FunctionDecl>, clients: seq<string>, hooks: Hooks, st: PassState)
    requires st.env.errors == []
    ensures FunctionsPass(fs, clients, hooks, st).diags == st.diags + Flatten(PerFunction(fs, clients, hooks, st.env))
    decreases |fs|
  {
    if |fs| > 0 {
      var st1 := CheckFunction(fs[0], clients, hooks, st);
      var per := PerFunction(fs, clients, hooks, st.env);
      assert st1.env == st.env;
      assert st1.diags == st.diags + per[0];
      FunctionsPassDiags(fs[1..], clients, hooks, st1);
      assert per[1..] == PerFunction(fs[1..], clients, hooks, st.env);
      assert Flatten(per) == per[0] + Flatten(per[1..]);
      AppendAssoc(st.diags, per[0], Flatten(per[1..]));
    }
  }

  lemma {:induction false} FunctionsPassCalls(fs: seq<FunctionDecl>, clients: seq<string>, hooks: Hooks, st: PassState)
    requires st.env.errors == []
    ensures var r := FunctionsPass(fs, clients, hooks, st);
      && |r.calls| >= |st.calls| && r.calls[..|st.calls|] == st.calls
      && CallsScopedOver(r.calls, |st.calls|, st.env)
    decreases |fs|
  {
    if |fs| > 0 {
      var st1 := CheckFunction(fs[0], clients, hooks, st);
      assert st1.env == st.env;
      FunctionsPassCalls(fs[1..], clients, hooks, st1);
      var r := FunctionsPass(fs[1..], clients, hooks, st1);
      assert r.calls[..|st.calls|] == r.calls[..|st1.calls|][..|st.calls|];
      CallsScopedThrough(st1.calls, r.calls, |st.calls|, st.env);
    }
  }

  /** The whole pass: all template diagnostics, then all function diagnostics,
      each computed as if its declaration were alone; and the checker always
      sees the full registry, exactly one scope and an empty error buffer. */
  lemma ValidateCompose(db: Db, hooks: Hooks)
    ensures var r := Validate(db, hooks);
      && r.diags == Flatten(PerTemplate(db.templates, hooks, InitialEnv(db)))
                    + Flatten(PerFunction(db.functions, ClientNames(db), hooks, InitialEnv(db)))
      && forall j :: 0 <= j < |r.calls| ==>
           && r.calls[j].env.registry == BuildRegistry(db)
           && |r.calls[j].env.scopes| == 1
           && r.calls[j].env.errors == []
  {
    ValidateDiags(db, hooks);
    ValidateCalls(db, hooks);
  }

  lemma ValidateDiags(db: Db, hooks: Hooks)
    ensures Validate(db, hooks).diags
      == Flatten(PerTemplate(db.templates, hooks, InitialEnv(db)))
         + Flatten(PerFunction(db.functions, ClientNames(db), hooks, InitialEnv(db)))
  {
    PassesDiags(db.templates, db.functions, ClientNames(db), hooks, InitialEnv(db));
  }

  lemma ValidateCalls(db: Db, hooks: Hooks)
    ensures var r := Validate(db, hooks);
      forall j :: 0 <= j < |r.calls| ==>
        && r.calls[j].env.registry == BuildRegistry(db)
        && |r.calls[j].env.scopes| == 1
        && r.calls[j].env.errors == []
  {
    var env := InitialEnv(db);
    PassesCalls(db.templates, db.functions, ClientNames(db), hooks, env);
    var r := Validate(db, hooks);
    forall j | 0 <= j < |r.calls|
      ensures r.calls[j].env.registry == BuildRegistry(db) && |r.calls[j].env.scopes| == 1 && r.calls[j].env.errors == []
    {
      assert ScopedOver(r.calls[j].env, env);
    }
  }

  /** Both passes from an empty state over `env`: their diagnostics. */
  lemma PassesDiags(ts: seq<TemplateDecl>, fs: seq<FunctionDecl>, clients: seq<string>, hooks: Hooks, env: Env)
    requires env.errors == []
    ensures FunctionsPass(fs, clients, hooks, TemplatesPass(ts, hooks, PassState([], env, []))).diags
      == Flatten(PerTemplate(ts, hooks, env)) + Flatten(PerFunction(fs, clients, hooks, env))
  {
    var st0 := PassState([], env, []);
    TemplatesPassEnv(ts, hooks, st0);
    TemplatesPassDiags(ts, hooks, st0);
    var st1 := TemplatesPass(ts, hooks, st0);
    FunctionsPassDiags(fs, clients, hooks, st1);
    assert st1.diags == Flatten(PerTemplate(ts, hooks, env));
  }

  /** Both passes from an empty state over `env`: every checker call saw `env`
      plus one scope. */
  lemma PassesCalls(ts: seq<TemplateDecl>, fs: seq<FunctionDecl>, clients: seq<string>, hooks: Hooks, env: Env)
    requires env.errors == []
    ensures CallsScopedOver(FunctionsPass(fs, clients, hooks, TemplatesPass(ts, hooks, PassState([], env, []))).calls, 0, env)
  {
    var st0 := PassState([], env, []);
    TemplatesPassEnv(ts, hooks, st0);
    TemplatesPassCalls(ts, hooks, st0);
    var st1 := TemplatesPass(ts, hooks, st0);
    FunctionsPassCalls(fs, clients, hooks, st1);
    var r := FunctionsPass(fs, clients, hooks, st1);
    CallsScopedThrough(st1.calls, r.calls, 0, env);
  }

  // ---------------------------------------------------------------------
  // When the pass succeeds
  // ---------------------------------------------------------------------

  /** A function passes when its argument types do, its client resolves, it
      has a prompt and every input has a name. Template findings never count. */
  predicate FunctionClean(f: FunctionDecl, hooks: Hooks)
  {
    && Succeeds(ArgTypeDiags(f, hooks))
    && f.clientSpecResolves
    && f.prompt.Some?
    && forall i :: 0 <= i < |f.inputs| ==> f.inputs[i].name.Some?
  }

  lemma SingleError(d: Diagnostic)
    ensures Succeeds([d]) <==> !IsError(d)
  {
    assert [d][0] == d;
  }

  /** A template string passes exactly when it is a raw string literal. */
  lemma TemplateDiagsSucceed(t: TemplateDecl, hooks: Hooks, env: Env)
    ensures Succeeds(TemplateDiags(t, hooks, env)) <==> t.body.Some?
  {
    var r := TemplateDiags(t, hooks, env);
    if t.body.None? {
      SingleError(ValidationError(TemplateNotRawMessage, t.identSpan));
    } else {
      forall i | 0 <= i < |r| ensures !IsError(r[i]) {
        assert r[i] in r;
      }
    }
  }

  /** A function passes exactly when it is clean. */
  lemma FunctionDiagsSucceed(f: FunctionDecl, clients: seq<string>, hooks: Hooks, env: Env)
    ensures Succeeds(FunctionDiags(f, clients, hooks, env)) <==> FunctionClean(f, hooks)
  {
    var pre := ArgTypeDiags(f, hooks);
    if ClientMissing(f) {
      SucceedsAppend(pre, [ValidationError(ClientMissingMessage, f.span)]);
      SingleError(ValidationError(ClientMissingMessage, f.span));
    } else {
      var c := ClientDiags(f, clients);
      var p := PromptDiags(f, hooks, env);
      SucceedsAppend(pre + c, p);
      SucceedsAppend(pre, c);
      if !f.clientSpecResolves {
        SingleError(c[0]);
      }
      match f.prompt
      case None =>
        SingleError(ValidationError(PromptMissingMessage, f.span));
      case Some(pr) =>
        assert p == BodyCheck(f.name, pr, f.inputs, hooks, env).diags;
        BodyDiagsKinds(f.name, pr, f.inputs, hooks, env);
    }
  }

  /** The pass succeeds exactly when every template string is a raw literal and
      every function is clean: findings of the template checker are warnings
      and never make it fail. */
  lemma ValidateSucceedsIff(db: Db, hooks: Hooks)
    ensures Succeeds(Validate(db, hooks).diags) <==>
      && (forall i :: 0 <= i < |db.templates| ==> db.templates[i].body.Some?)
      && (forall i :: 0 <= i < |db.functions| ==> FunctionClean(db.functions[i], hooks))
  {
    ValidateDiags(db, hooks);
    var env := InitialEnv(db);
    TemplatesSucceedIff(db.templates, hooks, env);
    FunctionsSucceedIff(db.functions, ClientNames(db), hooks, env);
    SucceedsAppend(Flatten(PerTemplate(db.templates, hooks, env)),
                   Flatten(PerFunction(db.functions, ClientNames(db), hooks, env)));
  }

  lemma TemplatesSucceedIff(ts: seq<TemplateDecl>, hooks: Hooks, env: Env)
    ensures Succeeds(Flatten(PerTemplate(ts, hooks, env))) <==>
      forall i :: 0 <= i < |ts| ==> ts[i].body.Some?
  {
    var pt := PerTemplate(ts, hooks, env);
    FlattenSucceeds(pt);
    forall i | 0 <= i < |ts| ensures Succeeds(pt[i]) <==> ts[i].body.Some? {
      TemplateDiagsSucceed(ts[i], hooks, env);
    }
  }

  lemma FunctionsSucceedIff(fs: seq<FunctionDecl>, clients: seq<string>, hooks: Hooks, env: Env)
    ensures Succeeds(Flatten(PerFunction(fs, clients, hooks, env))) <==>
      forall i :: 0 <= i < |fs| ==> FunctionClean(fs[i], hooks)
  {
    var pf := PerFunction(fs, clients, hooks, env);
    FlattenSucceeds(pf);
    forall i | 0 <= i < |fs| ensures Succeeds(pf[i]) <==> FunctionClean(fs[i], hooks) {
      FunctionDiagsSucceed(fs[i], clients, hooks, env);
    }
  }

  // ---------------------------------------------------------------------
  // Examples
  // ---------------------------------------------------------------------

  /** A function with neither a client nor a prompt gets the missing-client
      error only: the prompt is never looked at. */
  lemma NoClientNoPromptExample(hooks: Hooks, span: Span)
    ensures var f := FunctionDecl("Extract", span, [], [], false, None, None);
      var r := Validate(Db([], [], [f], []), hooks);
      r.diags == [ValidationError(ClientMissingMessage, span)] && r.calls == []
  {
    var f := FunctionDecl("Extract", span, [], [], false, None, None);
    var db := Db([], [], [f], []);
    ValidateCompose(db, hooks);
    assert ArgTypeDiags(f, hooks) == [];
    var per := PerFunction(db.functions, ClientNames(db), hooks, InitialEnv(db));
    assert per[1..] == [];
    assert Flatten(per) == per[0];
    var st0 := PassState([], InitialEnv(db), []);
    assert TemplatesPass(db.templates, hooks, st0) == st0;
    assert Validate(db, hooks) == FunctionsPass([f][1..], [], hooks, CheckFunction(f, [], hooks, st0));
  }

  /** A client name that resolves to nothing is reported with every declared
      client as a candidate, and the pass fails. */
  lemma UndeclaredClientExample(hooks: Hooks, fnSpan: Span, refSpan: Span, prompt: Prompt)
    ensures var f := FunctionDecl("Extract", fnSpan, [], [], false, Some(ClientRef("Gpt4", refSpan)), Some(prompt));
      var r := Validate(Db([], [ClientDecl("GPT3"), ClientDecl("Claude")], [f], []), hooks);
      && |r.diags| > 0
      && r.diags[0] == NotFoundError("Client", "Gpt4", refSpan, ["GPT3", "Claude"])
      && !Succeeds(r.diags)
  {
    var f := FunctionDecl("Extract", fnSpan, [], [], false, Some(ClientRef("Gpt4", refSpan)), Some(prompt));
    var db := Db([], [ClientDecl("GPT3"), ClientDecl("Claude")], [f], []);
    ValidateCompose(db, hooks);
    assert ArgTypeDiags(f, hooks) == [];
    assert ClientNames(db) == ["GPT3", "Claude"];
    var per := PerFunction(db.functions, ClientNames(db), hooks, InitialEnv(db));
    assert per[1..] == [];
    assert Flatten(per) == per[0];
    assert Validate(db, hooks).diags == per[0];
    FunctionDiagsClient(f, ClientNames(db), hooks, InitialEnv(db));
  }
}
