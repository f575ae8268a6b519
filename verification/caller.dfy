/**
 * `ModelCallerFactory` (src/model_caller.py): choosing a back end by name
 * and the connectivity check made before a caller is handed out.
 *
 * The back ends' network calls are not modelled: what constructing a
 * client raises, and the test reply it gets (`None` when the service
 * returned no content; a failed call returns `""`), are parameters.
 */
module Caller {

  import opened Wrappers
  import opened Text

  datatype Backend = Ollama | OpenAICompatible

  datatype ModelCaller = ModelCaller(backend: Backend, modelName: string)

  /** The back end a `model_type` names, compared after `lower()`. */
  function BackendOf(modelType: string): (r: Option<Backend>)
    ensures r == Some(Ollama) <==> Lower(modelType) == "ollama"
    ensures r == Some(OpenAICompatible) <==> Lower(modelType) == "openai_compatible"
  {
    var t := Lower(modelType);
    if t == "ollama" then Some(Ollama)
    else if t == "openai_compatible" then Some(OpenAICompatible)
    else None
  }

  lemma {:induction false} LowerIdempotent(s: string)
    ensures Lower(Lower(s)) == Lower(s)
  {
    var l := Lower(s);
    forall k | 0 <= k < |s| ensures Lower(l)[k] == l[k] {
      assert LowerChar(LowerChar(s[k])) == LowerChar(s[k]);
    }
  }

  /** The back end depends only on the lower-cased name: `OLLAMA`, `Ollama`
      and `ollama` choose the same one. */
  lemma BackendIgnoresCase(modelType: string)
    ensures BackendOf(Lower(modelType)) == BackendOf(modelType)
  {
    LowerIdempotent(modelType);
  }

  /** `test_model_connectivity`: the reply must be present and not blank;
      anything else is reported as a RuntimeError. */
  function Connectivity(reply: Option<string>): (r: Result<bool>)
    ensures r.Ok? <==> reply.Some? && HasNonSpace(reply.value)
    ensures r.Ok? ==> r.value
    ensures r.Err? ==> r.error == RuntimeError(NoModelResponse)
  {
    if reply.None? || |reply.value| == 0 || |Strip(reply.value)| == 0 then
      StripNonEmpty(reply.GetOr(""));
      Err(RuntimeError(NoModelResponse))
    else
      StripNonEmpty(reply.value);
      Ok(true)
  }

  /** `ModelCallerFactory.create(model_type, model_name)`. `construct` is
      what building the client raises, if anything; `reply` is the answer to
      the connectivity prompt. */
  function Create(modelType: string, modelName: string, construct: Option<Error>, reply: Option<string>): (r: Result<ModelCaller>)
    ensures BackendOf(modelType).None? ==> r == Err(ValueError(UnsupportedModelType))
    ensures r.Ok? <==> BackendOf(modelType).Some? && construct.None? && reply.Some? && HasNonSpace(reply.value)
    ensures r.Ok? ==> r.value == ModelCaller(BackendOf(modelType).value, modelName)
    ensures BackendOf(modelType).Some? && construct.Some? ==> r == Err(construct.value)
  {
    match BackendOf(modelType)
    case None => Err(ValueError(UnsupportedModelType))
    case Some(backend) =>
      if construct.Some? then Err(construct.value)
      else
        var _ :- Connectivity(reply);
        Ok(ModelCaller(backend, modelName))
  }

  /** The prompt text a back end sends: the Ollama client appends a
      `/no_think` marker, the OpenAI-compatible client sends it unchanged. */
  function WirePrompt(backend: Backend, prompt: string): (r: string)
    ensures StartsWith(r, prompt)
    ensures backend == OpenAICompatible <==> r == prompt
  {
    match backend
    case Ollama => prompt + ",'/no_think'"
    case OpenAICompatible => prompt
  }
}
