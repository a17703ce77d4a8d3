/**
  The diagnostics context of one validation pass: errors and warnings, each
  attributed to a byte range of a source file. A diagnostic never stops the
  pass; the pass succeeds when no error (warnings do not count) was recorded.
 */
module Diagnostics {

  /** A byte range `[start, end)` of one source file. */
  datatype Span = Span(file: string, start: nat, end: nat)

  datatype Diagnostic =
    | ValidationError(message: string, span: Span)
      /** A name that resolves to nothing, with every name it could have been. */
    | NotFoundError(kind: string, name: string, span: Span, candidates: seq<string>)
    | ValidationWarning(message: string, span: Span)

  predicate IsError(d: Diagnostic)
  {
    d.ValidationError? || d.NotFoundError?
  }

  /** A pass may produce its output exactly when it recorded no error. */
  predicate Succeeds(ds: seq<Diagnostic>)
  {
    forall i :: 0 <= i < |ds| ==> !IsError(ds[i])
  }

  /** Concatenation of per-item diagnostic lists, in order. */
  function Flatten(dss: seq<seq<Diagnostic>>): (r: seq<Diagnostic>)
    ensures |dss| == 0 ==> r == []
  {
    if |dss| == 0 then [] else dss[0] + Flatten(dss[1..])
  }

  /** A concatenation succeeds exactly when every part does. */
  lemma {:induction false} FlattenSucceeds(dss: seq<seq<Diagnostic>>)
    ensures Succeeds(Flatten(dss)) <==> forall i :: 0 <= i < |dss| ==> Succeeds(dss[i])
  {
    if |dss| > 0 {
      FlattenSucceeds(dss[1..]);
      SucceedsAppend(dss[0], Flatten(dss[1..]));
      assert forall i :: 1 <= i < |dss| ==> dss[i] == dss[1..][i - 1];
    }
  }

  lemma AppendAssoc(a: seq<Diagnostic>, b: seq<Diagnostic>, c: seq<Diagnostic>)
    ensures (a + b) + c == a + (b + c)
  {
  }

  lemma SucceedsAppend(a: seq<Diagnostic>, b: seq<Diagnostic>)
    ensures Succeeds(a + b) <==> Succeeds(a) && Succeeds(b)
  {
    if Succeeds(a) && Succeeds(b) {
      forall i | 0 <= i < |a + b| ensures !IsError((a + b)[i]) {
        if i < |a| {
          assert (a + b)[i] == a[i];
        } else {
          assert (a + b)[i] == b[i - |a|];
        }
      }
    }
    if Succeeds(a + b) {
      forall i | 0 <= i < |a| ensures !IsError(a[i]) {
        assert (a + b)[i] == a[i];
      }
      forall i | 0 <= i < |b| ensures !IsError(b[i]) {
        assert (a + b)[|a| + i] == b[i];
      }
    }
  }
}
