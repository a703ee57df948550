/**
 `CleanResponse for WorkspaceEdit`: the `changes` map is drained and rebuilt
 under cleaned keys, and every URI inside `document_changes` is cleaned in
 place. A hash map is represented by its entries in iteration order; its
 meaning as a key-to-value map is `AsMap`.
 */
module Rename {
  import opened Base
  import opened Lsp
  import opened Harness

  datatype Entry = Entry(uri: Uri, edits: seq<TextEdit>)

  /** Map view of an entry list; a later entry overrides an earlier one with
      the same key, as repeated `insert`s do. */
  function AsMap(m: seq<Entry>): map<Uri, seq<TextEdit>>
    decreases |m|
  {
    if m == [] then map[] else AsMap(m[..|m| - 1])[m[|m| - 1].uri := m[|m| - 1].edits]
  }

  predicate DistinctKeys(m: seq<Entry>) {
    forall i, j :: 0 <= i < j < |m| ==> m[i].uri != m[j].uri
  }

  function UriSet(m: seq<Entry>): set<Uri> {
    set i | 0 <= i < |m| :: m[i].uri
  }

  lemma UriSetAppend(a: seq<Entry>, b: seq<Entry>)
    ensures UriSet(a + b) == UriSet(a) + UriSet(b)
  {
    forall u | u in UriSet(a + b) ensures u in UriSet(a) + UriSet(b) {
      var i :| 0 <= i < |a + b| && (a + b)[i].uri == u;
      if i < |a| { assert a[i] == (a + b)[i]; } else { assert b[i - |a|] == (a + b)[i]; }
    }
    forall u | u in UriSet(a) + UriSet(b) ensures u in UriSet(a + b) {
      if u in UriSet(a) {
        var i :| 0 <= i < |a| && a[i].uri == u;
        assert (a + b)[i] == a[i];
      } else {
        var i :| 0 <= i < |b| && b[i].uri == u;
        assert (a + b)[|a| + i] == b[i];
      }
    }
  }

  /** Removes every entry with key `k`, keeping the others in order. */
  function Remove(m: seq<Entry>, k: Uri): (r: seq<Entry>)
    ensures UriSet(r) == UriSet(m) - {k}
    decreases |m|
  {
    if m == [] then []
    else
      var last := m[|m| - 1];
      var rest := Remove(m[..|m| - 1], k);
      assert UriSet(m) == UriSet(m[..|m| - 1]) + {last.uri} by {
        assert m == m[..|m| - 1] + [last];
        UriSetAppend(m[..|m| - 1], [last]);
        assert UriSet([last]) == {last.uri};
      }
      if last.uri == k then rest
      else
        assert UriSet(rest + [last]) == UriSet(rest) + {last.uri} by {
          UriSetAppend(rest, [last]);
          assert UriSet([last]) == {last.uri};
        }
        rest + [last]
  }

  lemma {:induction false} RemoveAsMap(m: seq<Entry>, k: Uri)
    ensures AsMap(Remove(m, k)) == AsMap(m) - {k}
    decreases |m|
  {
    if m != [] {
      var last := m[|m| - 1];
      var rest := Remove(m[..|m| - 1], k);
      RemoveAsMap(m[..|m| - 1], k);
      if last.uri != k {
        assert (rest + [last])[..|rest|] == rest;
      }
    }
  }

  lemma {:induction false} RemoveDistinct(m: seq<Entry>, k: Uri)
    requires DistinctKeys(m)
    ensures DistinctKeys(Remove(m, k))
    decreases |m|
  {
    if m != [] {
      var pre := m[..|m| - 1];
      var last := m[|m| - 1];
      var rest := Remove(pre, k);
      RemoveDistinct(pre, k);
      if last.uri != k {
        assert last.uri !in UriSet(pre);
        assert last.uri !in UriSet(rest);
        var r := rest + [last];
        forall i, j | 0 <= i < j < |r| ensures r[i].uri != r[j].uri {
          if j == |rest| {
            assert r[i] == rest[i];
            assert rest[i].uri in UriSet(rest);
          } else {
            assert r[i] == rest[i] && r[j] == rest[j];
          }
        }
      }
    }
  }

  /** `HashMap::insert`: the key now maps to the new value, nothing else moves. */
  function Insert(m: seq<Entry>, e: Entry): (r: seq<Entry>)
    ensures AsMap(r) == AsMap(m)[e.uri := e.edits]
    ensures DistinctKeys(m) ==> DistinctKeys(r)
  {
    var rest := Remove(m, e.uri);
    RemoveAsMap(m, e.uri);
    assert (rest + [e])[..|rest|] == rest;
    InsertDistinct(m, e);
    rest + [e]
  }

  lemma InsertDistinct(m: seq<Entry>, e: Entry)
    ensures DistinctKeys(m) ==> DistinctKeys(Remove(m, e.uri) + [e])
  {
    var rest := Remove(m, e.uri);
    if DistinctKeys(m) {
      RemoveDistinct(m, e.uri);
      forall i | 0 <= i < |rest| ensures rest[i].uri != e.uri {
        assert rest[i].uri in UriSet(rest);
      }
      var r := rest + [e];
      forall i, j | 0 <= i < j < |r| ensures r[i].uri != r[j].uri {
        assert r[i] == rest[i];
        if j < |rest| { assert r[j] == rest[j]; }
      }
    }
  }

  /** Inserting the entries one after another, starting from an empty map. */
  function InsertAll(es: seq<Entry>): (r: seq<Entry>)
    ensures DistinctKeys(r)
    ensures AsMap(r) == AsMap(es)
    decreases |es|
  {
    if es == [] then [] else Insert(InsertAll(es[..|es| - 1]), es[|es| - 1])
  }

  lemma {:induction false} AsMapKeys(m: seq<Entry>, k: Uri)
    ensures k in AsMap(m) <==> exists i :: 0 <= i < |m| && m[i].uri == k
    decreases |m|
  {
    if m != [] {
      var pre := m[..|m| - 1];
      AsMapKeys(pre, k);
      assert forall i :: 0 <= i < |pre| ==> pre[i] == m[i];
    }
  }

  /** Every key maps to the value of the last entry carrying it. */
  lemma {:induction false} AsMapLastWins(m: seq<Entry>, k: Uri)
    requires k in AsMap(m)
    ensures exists i ::
      && 0 <= i < |m| && m[i].uri == k && AsMap(m)[k] == m[i].edits
      && forall j :: i < j < |m| ==> m[j].uri != k
    decreases |m|
  {
    var n := |m| - 1;
    var pre := m[..n];
    assert AsMap(m) == AsMap(pre)[m[n].uri := m[n].edits];
    if m[n].uri == k {
      assert AsMap(m)[k] == m[n].edits;
    } else {
      assert k in AsMap(pre) && AsMap(m)[k] == AsMap(pre)[k];
      AsMapLastWins(pre, k);
      var i :| 0 <= i < |pre| && pre[i].uri == k && AsMap(pre)[k] == pre[i].edits
        && forall j :: i < j < |pre| ==> pre[j].uri != k;
      assert m[i] == pre[i];
      assert forall j :: i < j < n ==> m[j] == pre[j];
      assert forall j :: i < j < |m| ==> m[j].uri != k;
    }
  }

  /** With distinct keys, every entry is found under its own key. */
  lemma AsMapDistinct(m: seq<Entry>, i: nat)
    requires DistinctKeys(m) && i < |m|
    ensures m[i].uri in AsMap(m) && AsMap(m)[m[i].uri] == m[i].edits
  {
    AsMapKeys(m, m[i].uri);
    AsMapLastWins(m, m[i].uri);
  }

  // ---------------------------------------------------------------------------
  // changes
  // ---------------------------------------------------------------------------

  function EntryUris(e: Entry): seq<Uri> {
    [e.uri]
  }

  function CleanEntry(env: CleanEnv, e: Entry): (r: Result<Entry, ExecError>)
    ensures ItemCleans(env, r, EntryUris(e))
    ensures r.Success? ==> CleanUri(env, e.uri) == Success(r.value.uri) && r.value.edits == e.edits
  {
    var r := match CleanUri(env, e.uri)
      case Failure(e') => Failure(e')
      case Success(u) => Success(Entry(u, e.edits));
    ItemCleansSingle(env, r, e.uri);
    r
  }

  /** Draining `changes` and inserting each edit list under its cleaned key.
      Cleaning every key first and inserting afterwards gives the same map
      and the same first error, because inserting never fails. */
  function CleanChanges(env: CleanEnv, es: seq<Entry>): (r: Result<seq<Entry>, ExecError>)
    ensures ItemCleans(env, r, UrisOf(es, EntryUris))
    ensures r.Success? ==> DistinctKeys(r.value)
    ensures r.Success? ==> forall k :: k in AsMap(r.value) <==>
      exists i :: 0 <= i < |es| && CleanUri(env, es[i].uri) == Success(k)
    ensures r.Success? ==> forall k :: k in AsMap(r.value) ==>
      exists i :: 0 <= i < |es| && CleanUri(env, es[i].uri) == Success(k) && AsMap(r.value)[k] == es[i].edits
  {
    var step := e => CleanEntry(env, e);
    TraverseCleansUris(env, es, step, EntryUris);
    match Traverse(es, step)
    case Failure(e) => Failure(e)
    case Success(cs) =>
      InsertAllOfCleaned(env, es, cs);
      Success(InsertAll(cs))
  }

  lemma InsertAllOfCleaned(env: CleanEnv, es: seq<Entry>, cs: seq<Entry>)
    requires |cs| == |es|
    requires forall i :: 0 <= i < |es| ==> CleanUri(env, es[i].uri) == Success(cs[i].uri) && cs[i].edits == es[i].edits
    ensures forall k :: k in AsMap(InsertAll(cs)) <==> exists i :: 0 <= i < |es| && CleanUri(env, es[i].uri) == Success(k)
    ensures forall k :: k in AsMap(InsertAll(cs)) ==>
      exists i :: 0 <= i < |es| && CleanUri(env, es[i].uri) == Success(k) && AsMap(InsertAll(cs))[k] == es[i].edits
  {
    forall k ensures k in AsMap(cs) <==> exists i :: 0 <= i < |es| && CleanUri(env, es[i].uri) == Success(k) {
      AsMapKeys(cs, k);
    }
    forall k | k in AsMap(cs)
      ensures exists i :: 0 <= i < |es| && CleanUri(env, es[i].uri) == Success(k) && AsMap(cs)[k] == es[i].edits
    {
      AsMapLastWins(cs, k);
    }
  }

  /** When no two keys clean to the same URI, every edit list survives under
      its key's cleaned form, whatever the iteration order. */
  lemma CleanChangesInjective(env: CleanEnv, es: seq<Entry>, i: nat)
    requires CleanChanges(env, es).Success?
    requires forall a, b :: 0 <= a < b < |es| ==> CleanUri(env, es[a].uri) != CleanUri(env, es[b].uri)
    requires i < |es|
    ensures CleanUri(env, es[i].uri).Success?
    ensures AsMap(CleanChanges(env, es).value)[CleanUri(env, es[i].uri).value] == es[i].edits
  {
    var cs := Traverse(es, e => CleanEntry(env, e)).value;
    assert CleanUri(env, es[i].uri) == Success(cs[i].uri);
    assert DistinctKeys(cs) by {
      forall a, b | 0 <= a < b < |cs| ensures cs[a].uri != cs[b].uri {
        assert CleanUri(env, es[a].uri) == Success(cs[a].uri);
        assert CleanUri(env, es[b].uri) == Success(cs[b].uri);
      }
    }
    AsMapDistinct(cs, i);
  }

  // ---------------------------------------------------------------------------
  // document_changes
  // ---------------------------------------------------------------------------

  datatype TextDocumentEdit = TextDocumentEdit(uri: Uri, version: Option<int>, edits: seq<AnyEdit>)

  datatype ResourceOp =
    | Create(uri: Uri, options: Option<Payload>)
    | RenameFile(oldUri: Uri, newUri: Uri, options: Option<Payload>)
    | Delete(uri: Uri, options: Option<Payload>)

  datatype DocumentChangeOperation = Op(op: ResourceOp) | Edit(edit: TextDocumentEdit)

  datatype DocumentChanges = Edits(edits: seq<TextDocumentEdit>) | Operations(ops: seq<DocumentChangeOperation>)

  datatype WorkspaceEdit = WorkspaceEdit(
    changes: Option<seq<Entry>>,
    documentChanges: Option<DocumentChanges>,
    changeAnnotations: Option<Payload>)

  function DocEditUris(e: TextDocumentEdit): seq<Uri> {
    [e.uri]
  }

  function OperationUris(o: DocumentChangeOperation): seq<Uri> {
    match o
    case Op(Create(u, _)) => [u]
    case Op(RenameFile(from, to, _)) => [from, to]
    case Op(Delete(u, _)) => [u]
    case Edit(e) => [e.uri]
  }

  function CleanDocEdit(env: CleanEnv, e: TextDocumentEdit): (r: Result<TextDocumentEdit, ExecError>)
    ensures ItemCleans(env, r, DocEditUris(e))
    ensures r.Success? ==> CleanUri(env, e.uri) == Success(r.value.uri) && r.value == e.(uri := r.value.uri)
  {
    var r := match CleanUri(env, e.uri)
      case Failure(err) => Failure(err)
      case Success(u) => Success(e.(uri := u));
    ItemCleansSingle(env, r, e.uri);
    r
  }

  /** Cleans both URIs of a rename, the old one first. */
  function CleanRename(env: CleanEnv, from: Uri, to: Uri, options: Option<Payload>): (r: Result<ResourceOp, ExecError>)
    ensures ItemCleans(env, r, [from, to])
    ensures r.Success? ==>
      r.value.RenameFile? && r.value.options == options
      && CleanUri(env, from) == Success(r.value.oldUri) && CleanUri(env, to) == Success(r.value.newUri)
  {
    match CleanUri(env, from)
    case Failure(e) =>
      assert [from, to][0] == from;
      Failure(e)
    case Success(o) =>
      match CleanUri(env, to)
      case Failure(e) =>
        assert [from, to][1] == to;
        Failure(e)
      case Success(n) => Success(RenameFile(o, n, options))
  }

  function CleanOperation(env: CleanEnv, o: DocumentChangeOperation): (r: Result<DocumentChangeOperation, ExecError>)
    ensures ItemCleans(env, r, OperationUris(o))
    ensures r.Success? ==>
      && (o.Edit? <==> r.value.Edit?)
      && (o.Edit? ==> CleanDocEdit(env, o.edit) == Success(r.value.edit))
      && (o.Op? ==> r.value.op.Create? == o.op.Create? && r.value.op.Delete? == o.op.Delete?
                    && r.value.op.options == o.op.options)
      && (o.Op? && !o.op.RenameFile? ==> CleanUri(env, o.op.uri) == Success(r.value.op.uri))
      && (o.Op? && o.op.RenameFile? ==>
            CleanUri(env, o.op.oldUri) == Success(r.value.op.oldUri)
            && CleanUri(env, o.op.newUri) == Success(r.value.op.newUri))
  {
    match o
    case Edit(e) =>
      (match CleanDocEdit(env, e)
       case Failure(err) => Failure(err)
       case Success(e') => Success(Edit(e')))
    case Op(Create(u, opts)) =>
      var r := match CleanUri(env, u)
        case Failure(err) => Failure(err)
        case Success(v) => Success(Op(Create(v, opts)));
      ItemCleansSingle(env, r, u);
      r
    case Op(Delete(u, opts)) =>
      var r := match CleanUri(env, u)
        case Failure(err) => Failure(err)
        case Success(v) => Success(Op(Delete(v, opts)));
      ItemCleansSingle(env, r, u);
      r
    case Op(RenameFile(from, to, opts)) =>
      (match CleanRename(env, from, to, opts)
       case Failure(err) => Failure(err)
       case Success(op) => Success(Op(op)))
  }

  function DocumentChangesUris(d: DocumentChanges): seq<Uri> {
    match d
    case Edits(edits) => UrisOf(edits, DocEditUris)
    case Operations(ops) => UrisOf(ops, OperationUris)
  }

  function CleanDocumentChanges(env: CleanEnv, d: DocumentChanges): (r: Result<DocumentChanges, ExecError>)
    ensures ItemCleans(env, r, DocumentChangesUris(d))
    ensures r.Success? ==> (r.value.Edits? <==> d.Edits?)
    ensures r.Success? && d.Edits? ==>
      |r.value.edits| == |d.edits|
      && forall i :: 0 <= i < |d.edits| ==> CleanDocEdit(env, d.edits[i]) == Success(r.value.edits[i])
    ensures r.Success? && d.Operations? ==>
      |r.value.ops| == |d.ops|
      && forall i :: 0 <= i < |d.ops| ==> CleanOperation(env, d.ops[i]) == Success(r.value.ops[i])
  {
    match d
    case Edits(edits) =>
      var step := e => CleanDocEdit(env, e);
      TraverseCleansUris(env, edits, step, DocEditUris);
      (match Traverse(edits, step)
       case Failure(e) => Failure(e)
       case Success(ys) => Success(Edits(ys)))
    case Operations(ops) =>
      var step := o => CleanOperation(env, o);
      TraverseCleansUris(env, ops, step, OperationUris);
      (match Traverse(ops, step)
       case Failure(e) => Failure(e)
       case Success(ys) => Success(Operations(ys)))
  }

  // ---------------------------------------------------------------------------
  // WorkspaceEdit
  // ---------------------------------------------------------------------------

  /** Every URI the cleaner visits: the keys of `changes` in iteration order,
      then those of `document_changes`. */
  function WorkspaceEditUris(w: WorkspaceEdit): seq<Uri> {
    (if w.changes.Some? then UrisOf(w.changes.value, EntryUris) else [])
    + (if w.documentChanges.Some? then DocumentChangesUris(w.documentChanges.value) else [])
  }

  function CleanWorkspaceEdit(env: CleanEnv, w: WorkspaceEdit): (r: Result<WorkspaceEdit, ExecError>)
    ensures ItemCleans(env, r, WorkspaceEditUris(w))
    ensures r.Success? ==>
      && r.value.changeAnnotations == w.changeAnnotations
      && (r.value.changes.Some? <==> w.changes.Some?)
      && (r.value.documentChanges.Some? <==> w.documentChanges.Some?)
      && (w.changes.Some? ==> CleanChanges(env, w.changes.value) == Success(r.value.changes.value))
      && (w.documentChanges.Some? ==>
            CleanDocumentChanges(env, w.documentChanges.value) == Success(r.value.documentChanges.value))
  {
    var first := if w.changes.Some? then UrisOf(w.changes.value, EntryUris) else [];
    var second := if w.documentChanges.Some? then DocumentChangesUris(w.documentChanges.value) else [];
    AllCleanAppend(env, first, second);
    var changes: Result<Option<seq<Entry>>, ExecError> :=
      match w.changes
      case None => Success(None)
      case Some(es) =>
        (match CleanChanges(env, es)
         case Failure(e) => Failure(e)
         case Success(m) => Success(Some(m)));
    match changes
    case Failure(e) =>
      FailsFirstAtAppend(env, first, second, e);
      Failure(e)
    case Success(c) =>
      var docs: Result<Option<DocumentChanges>, ExecError> :=
        match w.documentChanges
        case None => Success(None)
        case Some(d) =>
          (match CleanDocumentChanges(env, d)
           case Failure(e) => Failure(e)
           case Success(d') => Success(Some(d')));
      match docs
      case Failure(e) =>
        FailsFirstAtAppend(env, first, second, e);
        Failure(e)
      case Success(d) => Success(w.(changes := c, documentChanges := d))
  }

  /** An edit with neither `changes` nor `document_changes` is returned as it is. */
  lemma CleanEmptyEdit(env: CleanEnv, annotations: Option<Payload>)
    ensures CleanWorkspaceEdit(env, WorkspaceEdit(None, None, annotations)) == Success(WorkspaceEdit(None, None, annotations))
  {
  }
}
