/**
 `CleanResponse for Vec<Location>` (`textDocument/references`).
 */
module References {
  import opened Base
  import opened Lsp
  import opened Harness

  function CleanResponse(env: CleanEnv, locs: seq<Location>): (r: Result<seq<Location>, ExecError>)
    ensures r.Success? <==> AllClean(env, LocationUris(locs))
    ensures r.Success? ==> CleanedLocations(env, locs, r.value)
    ensures r.Failure? ==> FailsFirstAt(env, LocationUris(locs), r.error)
  {
    CleanLocations(env, locs)
  }

  /** Locations that already lie outside the root come back unchanged. */
  lemma CleanResponseOutsideRoot(env: CleanEnv, locs: seq<Location>)
    requires RootText(env).Some?
    requires forall i :: 0 <= i < |locs| ==>
      !Text.StartsWith(locs[i].uri.path, RootText(env).value) && env.parses(locs[i].uri.path)
    ensures CleanResponse(env, locs) == Success(locs)
  {
    var r := CleanResponse(env, locs);
    assert r.Success?;
    assert r.value == locs;
  }
}
