/**
 `CleanResponse for CodeActionResponse`: commands pass through; a code action
 with an edit has that edit cleaned as a `WorkspaceEdit`.
 */
module CodeAction {
  import opened Base
  import opened Lsp
  import opened Harness
  import opened Rename

  /** A code action; `kind`, `diagnostics`, `is_preferred`, `disabled` and
      `data` are folded into `rest`. */
  datatype CodeAction = CodeAction(title: string, edit: Option<WorkspaceEdit>, command: Option<Command>, rest: Payload)

  datatype CodeActionOrCommand = CommandItem(command: Command) | Action(action: CodeAction)

  function ItemUris(item: CodeActionOrCommand): seq<Uri> {
    if item.Action? && item.action.edit.Some? then WorkspaceEditUris(item.action.edit.value) else []
  }

  function CleanItem(env: CleanEnv, item: CodeActionOrCommand): (r: Result<CodeActionOrCommand, ExecError>)
    ensures ItemCleans(env, r, ItemUris(item))
    ensures item.CommandItem? ==> r == Success(item)
    ensures item.Action? && item.action.edit.None? ==> r == Success(item)
    ensures r.Success? && item.Action? && item.action.edit.Some? ==>
      && r.value.Action? && r.value.action.edit.Some?
      && CleanWorkspaceEdit(env, item.action.edit.value) == Success(r.value.action.edit.value)
      && r.value.action == item.action.(edit := r.value.action.edit)
  {
    match item
    case CommandItem(_) => Success(item)
    case Action(a) =>
      match a.edit
      case None => Success(item)
      case Some(w) =>
        match CleanWorkspaceEdit(env, w)
        case Failure(e) => Failure(e)
        case Success(w') => Success(Action(a.(edit := Some(w'))))
  }

  function CleanResponse(env: CleanEnv, items: seq<CodeActionOrCommand>): (r: Result<seq<CodeActionOrCommand>, ExecError>)
    ensures ItemCleans(env, r, UrisOf(items, ItemUris))
    ensures r.Success? ==>
      |r.value| == |items|
      && forall i :: 0 <= i < |items| ==> CleanItem(env, items[i]) == Success(r.value[i])
  {
    var step := item => CleanItem(env, item);
    TraverseCleansUris(env, items, step, ItemUris);
    Traverse(items, step)
  }

  /** A response of commands and edit-less actions is untouched and cannot
      fail, whatever the state of the test root. */
  lemma {:induction false} NoEditsUntouched(env: CleanEnv, items: seq<CodeActionOrCommand>)
    requires forall i :: 0 <= i < |items| ==> items[i].CommandItem? || items[i].action.edit.None?
    ensures CleanResponse(env, items) == Success(items)
  {
    TraverseIdentity(items, item => CleanItem(env, item));
  }
}
