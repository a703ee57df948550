/**
 Type and call hierarchy responses (`Vec<TypeHierarchyItem>`,
 `Vec<CallHierarchyItem>`, incoming and outgoing calls): each item has one URI,
 cleaned in list order, the first failure aborting the whole response.
 */
module Hierarchy {
  import opened Base
  import opened Lsp
  import opened Harness

  /** `TypeHierarchyItem` and `CallHierarchyItem` have the same fields. */
  datatype HierarchyItem = HierarchyItem(
    name: string,
    kind: nat,
    tags: Option<seq<nat>>,
    detail: Option<string>,
    uri: Uri,
    range: Range,
    selectionRange: Range,
    data: Option<Payload>)

  /** An incoming call names its caller in `from`, an outgoing one its callee
      in `to`; `item` is whichever of the two the call carries. */
  datatype Call = Call(item: HierarchyItem, fromRanges: seq<Range>)

  function ItemUris(item: HierarchyItem): seq<Uri> {
    [item.uri]
  }

  function CallUris(call: Call): seq<Uri> {
    [call.item.uri]
  }

  function CleanItem(env: CleanEnv, item: HierarchyItem): (r: Result<HierarchyItem, ExecError>)
    ensures ItemCleans(env, r, ItemUris(item))
    ensures r.Success? ==> CleanUri(env, item.uri) == Success(r.value.uri) && r.value == item.(uri := r.value.uri)
  {
    var r := match CleanUri(env, item.uri)
      case Failure(e) => Failure(e)
      case Success(u) => Success(item.(uri := u));
    ItemCleansSingle(env, r, item.uri);
    r
  }

  function CleanCall(env: CleanEnv, call: Call): (r: Result<Call, ExecError>)
    ensures ItemCleans(env, r, CallUris(call))
    ensures r.Success? ==> CleanItem(env, call.item) == Success(r.value.item) && r.value.fromRanges == call.fromRanges
  {
    match CleanItem(env, call.item)
    case Failure(e) => Failure(e)
    case Success(item) => Success(call.(item := item))
  }

  /** `clean_response` for `Vec<TypeHierarchyItem>` and `Vec<CallHierarchyItem>`. */
  function CleanItems(env: CleanEnv, items: seq<HierarchyItem>): (r: Result<seq<HierarchyItem>, ExecError>)
    ensures ItemCleans(env, r, UrisOf(items, ItemUris))
    ensures r.Success? ==>
      |r.value| == |items|
      && forall i :: 0 <= i < |items| ==>
        CleanUri(env, items[i].uri) == Success(r.value[i].uri) && r.value[i] == items[i].(uri := r.value[i].uri)
  {
    var step := item => CleanItem(env, item);
    TraverseCleansUris(env, items, step, ItemUris);
    Traverse(items, step)
  }

  /** `clean_response` for incoming and outgoing calls. */
  function CleanCalls(env: CleanEnv, calls: seq<Call>): (r: Result<seq<Call>, ExecError>)
    ensures ItemCleans(env, r, UrisOf(calls, CallUris))
    ensures r.Success? ==>
      |r.value| == |calls|
      && forall i :: 0 <= i < |calls| ==>
        CleanUri(env, calls[i].item.uri) == Success(r.value[i].item.uri)
        && r.value[i] == calls[i].(item := calls[i].item.(uri := r.value[i].item.uri))
  {
    var step := call => CleanCall(env, call);
    TraverseCleansUris(env, calls, step, CallUris);
    Traverse(calls, step)
  }

  /** Items whose URIs already lie outside the root come back unchanged. */
  lemma CleanItemsOutsideRoot(env: CleanEnv, items: seq<HierarchyItem>)
    requires RootText(env).Some?
    requires forall i :: 0 <= i < |items| ==>
      !Text.StartsWith(items[i].uri.path, RootText(env).value) && env.parses(items[i].uri.path)
    ensures CleanItems(env, items) == Success(items)
  {
    var r := CleanItems(env, items);
    assert r.Success?;
    assert r.value == items;
  }
}
