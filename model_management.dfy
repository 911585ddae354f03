/**
 * The model-management route: `GET` projects the LM Studio model list into a record of states
 * keyed by model key, and `POST` validates an action and chooses the LM Studio call to make.
 * The model list that `GET` fetches and the results of the calls `POST` makes are inputs.
 */
module ModelManagement {
  import opened Wrappers

  /** One entry of LM Studio's model list, reduced to the fields the route reads. `quantization` is
      `None` when the quantization object or its name is missing; `loadedInstances` holds instance ids. */
  datatype LMStudioModel = LMStudioModel(
    key: string,
    displayName: string,
    paramsString: string,
    sizeBytes: nat,
    quantization: Option<string>,
    loadedInstances: seq<string>)

  datatype ModelState = ModelState(
    loaded: bool,
    instanceId: Option<string>,
    displayName: string,
    params: string,
    quantization: string,
    sizeMb: nat)

  const BytesPerMb: nat := 1024 * 1024

  /** `Math.round(bytes / 1024 / 1024)`: both divisions by powers of two are exact in binary floating
      point, and a half rounds up. */
  function RoundToMb(bytes: nat): (mb: nat)
    ensures mb * BytesPerMb <= bytes + BytesPerMb / 2 < (mb + 1) * BytesPerMb
  {
    (bytes + BytesPerMb / 2) / BytesPerMb
  }

  /** The result is the whole number of mebibytes nearest to `bytes`, a half rounding up. */
  lemma RoundToMbNearest(bytes: nat)
    ensures 2 * bytes < (2 * RoundToMb(bytes) + 1) * BytesPerMb
    ensures (2 * RoundToMb(bytes) - 1) * BytesPerMb <= 2 * bytes
  {
  }

  /** The state one model projects to. */
  function StateOf(m: LMStudioModel): (s: ModelState)
    ensures s.loaded <==> |m.loadedInstances| > 0
    ensures s.instanceId == (if s.loaded then Some(m.loadedInstances[0]) else None)
    ensures s.quantization == m.quantization.GetOr("")
    ensures s.displayName == m.displayName && s.params == m.paramsString && s.sizeMb == RoundToMb(m.sizeBytes)
  {
    var loaded := |m.loadedInstances| > 0;
    ModelState(loaded, if loaded then Some(m.loadedInstances[0]) else None,
               m.displayName, m.paramsString, m.quantization.GetOr(""), RoundToMb(m.sizeBytes))
  }

  /** The `states` record after the loop over `models`. */
  function States(models: seq<LMStudioModel>): map<string, ModelState>
    decreases |models|
  {
    if models == [] then map[]
    else
      var n := |models| - 1;
      States(models[..n])[models[n].key := StateOf(models[n])]
  }

  /** The loop of `GET` that fills `states`, one model at a time. */
  method ProjectStates(models: seq<LMStudioModel>) returns (states: map<string, ModelState>)
    ensures states == States(models)
  {
    states := map[];
    for i := 0 to |models|
      invariant states == States(models[..i])
    {
      var m := models[i];
      assert models[..i + 1][..i] == models[..i];
      states := states[m.key := StateOf(m)];
    }
    assert models[..|models|] == models;
  }

  /** The record has a key exactly when some model has it. */
  lemma {:induction false} StatesKeys(models: seq<LMStudioModel>, k: string)
    ensures k in States(models) <==> exists i :: 0 <= i < |models| && models[i].key == k
    decreases |models|
  {
    if models != [] {
      var n := |models| - 1;
      StatesKeys(models[..n], k);
      if exists i :: 0 <= i < n && models[..n][i].key == k {
        var i :| 0 <= i < n && models[..n][i].key == k;
        assert models[i].key == k;
      }
      if exists i :: 0 <= i < |models| && models[i].key == k {
        var i :| 0 <= i < |models| && models[i].key == k;
        if i < n { assert models[..n][i].key == k; }
      }
    }
  }

  /** Each key holds the state of the LAST model with that key. */
  lemma {:induction false} StatesLastWins(models: seq<LMStudioModel>, i: nat)
    requires i < |models| && forall j :: i < j < |models| ==> models[j].key != models[i].key
    ensures models[i].key in States(models) && States(models)[models[i].key] == StateOf(models[i])
    decreases |models|
  {
    var n := |models| - 1;
    if i < n {
      assert models[..n][i] == models[i];
      StatesLastWins(models[..n], i);
    }
  }

  /** A later model with the same key overwrites the earlier one, whatever came before. */
  lemma LaterKeyOverwrites(models: seq<LMStudioModel>, m: LMStudioModel, k: string)
    ensures States(models + [m])[m.key] == StateOf(m)
    ensures k != m.key ==> (k in States(models + [m]) <==> k in States(models))
    ensures k != m.key && k in States(models) ==> States(models + [m])[k] == States(models)[k]
  {
    assert (models + [m])[..|models|] == models;
  }

  datatype GetResponse =
    | GetBadRequest(error: string)
    | StatesRecord(states: map<string, ModelState>)

  /** `GET`: without a (non-empty) `baseUrl` query parameter the answer is a 400; otherwise the
      record projected from the model list LM Studio returned. */
  method Get(baseUrl: Option<string>, models: seq<LMStudioModel>) returns (resp: GetResponse)
    ensures (baseUrl.None? || baseUrl.value == "") <==> resp == GetBadRequest("baseUrl query param required")
    ensures baseUrl.Some? && baseUrl.value != "" ==> resp == StatesRecord(States(models))
  {
    if baseUrl.None? || baseUrl.value == "" {
      return GetBadRequest("baseUrl query param required");
    }
    var states := ProjectStates(models);
    resp := StatesRecord(states);
  }

  // ---------------------------------------------------------------------------------------------
  // POST

  /** The JSON body's fields; `None` is a missing field. */
  datatype PostRequest = PostRequest(action: Option<string>, modelId: Option<string>, baseUrl: Option<string>)

  /** The LM Studio call a valid request makes. */
  datatype Call =
    | Load(baseUrl: string, modelId: string)
    | Unload(baseUrl: string, instanceId: string)
    | UnloadAll(baseUrl: string)

  datatype PostResponse =
    | PostBadRequest(error: string)
    | PostServerError(error: string)
    | Dispatch(call: Call)

  predicate Truthy(s: Option<string>) {
    s.Some? && s.value != ""
  }

  /** `${action}` in the error message: a missing action renders as `undefined`. */
  function ActionText(action: Option<string>): string {
    match action
    case None => "undefined"
    case Some(a) => a
  }

  /** `POST`: an unreadable body is a 500 carrying what was thrown; the `baseUrl` check comes before
      the action is looked at; `load` and `unload` need a model id; any action other than the three
      known ones is a 400 naming it. */
  function Post(body: Body<PostRequest>): (resp: PostResponse)
    ensures body.Unreadable? <==> resp.PostServerError?
    ensures body.Unreadable? ==> resp.error == ThrownMessage(body.thrown)
    ensures body.Parsed? && !Truthy(body.req.baseUrl) ==> resp == PostBadRequest("baseUrl is required")
    ensures resp.Dispatch? <==> (body.Parsed? && Truthy(body.req.baseUrl) &&
      (body.req.action == Some("unload-all") ||
       (body.req.action in {Some("load"), Some("unload")} && Truthy(body.req.modelId))))
    ensures resp.Dispatch? ==> resp.call.baseUrl == body.req.baseUrl.value
    ensures resp.Dispatch? ==>
      body.req.action == Some(if resp.call.Load? then "load" else if resp.call.Unload? then "unload" else "unload-all")
    ensures resp.Dispatch? && !resp.call.UnloadAll? ==>
      body.req.modelId == Some(if resp.call.Load? then resp.call.modelId else resp.call.instanceId)
    ensures body.Parsed? && Truthy(body.req.baseUrl) && body.req.action !in {Some("load"), Some("unload"), Some("unload-all")} ==>
      resp == PostBadRequest("Unknown action: " + ActionText(body.req.action))
  {
    match body
    case Unreadable(thrown) => PostServerError(ThrownMessage(thrown))
    case Parsed(req) =>
      if !Truthy(req.baseUrl) then PostBadRequest("baseUrl is required")
      else if req.action == Some("load") then
        if !Truthy(req.modelId) then PostBadRequest("modelId required for load")
        else Dispatch(Load(req.baseUrl.value, req.modelId.value))
      else if req.action == Some("unload") then
        if !Truthy(req.modelId) then PostBadRequest("modelId required for unload")
        else Dispatch(Unload(req.baseUrl.value, req.modelId.value))
      else if req.action == Some("unload-all") then Dispatch(UnloadAll(req.baseUrl.value))
      else PostBadRequest("Unknown action: " + ActionText(req.action))
  }

  /** Every 400 names the first check the request fails: base URL, then the model id of `load` or
      `unload`, then the action. */
  lemma PostErrorMessages(req: PostRequest)
    ensures Truthy(req.baseUrl) && req.action == Some("load") && !Truthy(req.modelId) ==>
      Post(Parsed(req)) == PostBadRequest("modelId required for load")
    ensures Truthy(req.baseUrl) && req.action == Some("unload") && !Truthy(req.modelId) ==>
      Post(Parsed(req)) == PostBadRequest("modelId required for unload")
    ensures Post(Parsed(req)).PostBadRequest? ==> (Post(Parsed(req)).error in
      {"baseUrl is required", "modelId required for load", "modelId required for unload",
       "Unknown action: " + ActionText(req.action)})
  {
  }
}
