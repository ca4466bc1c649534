/** Request checks and configuration of app/api/generate-mermaid/route.js
    (lines 6-74): which endpoint, key and model the request is sent with, when
    it is refused before any upstream call, and the upstream URL. The
    environment variables are the parameter `env`; a JavaScript value that
    may be missing is an `Option<string>`, and `None` and `Some("")` are its
    falsy values. */
module Config {
  import opened Wrappers
  import opened Strings

  /** The client's own endpoint settings (`aiConfig`), each possibly missing. */
  datatype AiConfig = AiConfig(apiUrl: Option<string>, apiKey: Option<string>, modelName: Option<string>)

  /** The fields of the request body the route reads. */
  datatype Request = Request(text: Option<string>, aiConfig: Option<AiConfig>,
                             accessPassword: Option<string>, selectedModel: Option<string>)

  /** `ACCESS_PASSWORD`, `AI_API_URL`, `AI_API_KEY` and `AI_MODEL_NAME`. */
  datatype Env = Env(accessPassword: Option<string>, apiUrl: Option<string>,
                     apiKey: Option<string>, modelName: Option<string>)

  /** The configuration the upstream call is made with. */
  datatype Resolved = Resolved(apiUrl: string, apiKey: string, modelName: string)

  /** A refusal: the HTTP status and the `error` message of the JSON body. */
  datatype Rejection = Rejection(status: nat, error: string)

  const NoTextError: string := "请提供文本内容"
  const BadPasswordError: string := "访问密码无效"
  const IncompleteError: string := "AI配置不完整，请在设置中配置API URL、API Key和模型名称"

  /** A JavaScript value that is truthy: present and not the empty string. */
  predicate Truthy(v: Option<string>)
  {
    v.Some? && v.value != ""
  }

  /** `a || b` on two possibly missing strings. */
  function Or(a: Option<string>, b: Option<string>): (r: Option<string>)
    ensures Truthy(a) ==> r == a
    ensures !Truthy(a) ==> r == b
  {
    if Truthy(a) then a else b
  }

  /** `aiConfig?.apiUrl && aiConfig?.apiKey && aiConfig?.modelName`
      (route.js:17). */
  predicate HasCompleteAiConfig(c: Option<AiConfig>)
  {
    c.Some? && Truthy(c.value.apiUrl) && Truthy(c.value.apiKey) && Truthy(c.value.modelName)
  }

  /** The access password is accepted when the server has one and the
      client's is exactly it (route.js:30-31). */
  predicate PasswordValid(given: string, env: Env)
  {
    Truthy(env.accessPassword) && given == env.accessPassword.value
  }

  /** Checks and configuration before the upstream call (route.js:8-55). */
  function ResolveConfig(req: Request, env: Env): (r: Result<Resolved, Rejection>)
    ensures !Truthy(req.text) <==> r == Err(Rejection(400, NoTextError))
    ensures r.Ok? ==> r.value.apiUrl != "" && r.value.apiKey != "" && r.value.modelName != ""
    ensures r.Err? ==> r.error.status == 400 || r.error == Rejection(401, BadPasswordError)
  {
    if !Truthy(req.text) then Err(Rejection(400, NoTextError))
    else if HasCompleteAiConfig(req.aiConfig) then
      var c := req.aiConfig.value;
      Ok(Resolved(c.apiUrl.value, c.apiKey.value, c.modelName.value))
    else if Truthy(req.accessPassword) && !PasswordValid(req.accessPassword.value, env) then
      Err(Rejection(401, BadPasswordError))
    else
      var model := Or(req.selectedModel, env.modelName);
      if !Truthy(env.apiUrl) || !Truthy(env.apiKey) || !Truthy(model) then
        Err(Rejection(400, IncompleteError))
      else Ok(Resolved(env.apiUrl.value, env.apiKey.value, model.value))
  }

  /** A complete client configuration is used as given, whatever the
      password and the server's settings. */
  lemma CompleteConfigWins(req: Request, env: Env)
    requires Truthy(req.text) && HasCompleteAiConfig(req.aiConfig)
    ensures var c := req.aiConfig.value;
            ResolveConfig(req, env) == Ok(Resolved(c.apiUrl.value, c.apiKey.value, c.modelName.value))
  {
  }

  /** Without a complete client configuration, a wrong password is refused
      with 401, and so is any password when the server has none. */
  lemma BadPasswordRefused(req: Request, env: Env)
    requires Truthy(req.text) && !HasCompleteAiConfig(req.aiConfig) && Truthy(req.accessPassword)
    ensures ResolveConfig(req, env) == Err(Rejection(401, BadPasswordError))
            <==> !Truthy(env.accessPassword) || req.accessPassword.value != env.accessPassword.value
  {
  }

  /** Without a complete client configuration, and with no password or the
      right one, the server's endpoint and key are used with the model the
      client selected, or the server's model when it selected none; a
      missing one of the three is refused with 400. */
  lemma ServerConfigUsed(req: Request, env: Env)
    requires Truthy(req.text) && !HasCompleteAiConfig(req.aiConfig)
    requires !Truthy(req.accessPassword) || PasswordValid(req.accessPassword.value, env)
    ensures var model := if Truthy(req.selectedModel) then req.selectedModel else env.modelName;
            if Truthy(env.apiUrl) && Truthy(env.apiKey) && Truthy(model)
            then ResolveConfig(req, env) == Ok(Resolved(env.apiUrl.value, env.apiKey.value, model.value))
            else ResolveConfig(req, env) == Err(Rejection(400, IncompleteError))
  {
  }

  const CompletionsPath: string := "/chat/completions"
  const VersionPrefix: string := "/v1"
  const VersionedCompletionsPath: string := VersionPrefix + CompletionsPath

  /** The upstream URL (route.js:72-74): the completions path is appended to
      the configured URL, with `/v1` before it when the URL mentions neither
      `v1` nor `v3`. */
  function RequestUrl(apiUrl: string): (r: string)
    ensures |apiUrl| <= |r| && r[..|apiUrl|] == apiUrl
    ensures |CompletionsPath| <= |r| && r[|r| - |CompletionsPath|..] == CompletionsPath
    ensures r[|apiUrl|..] == CompletionsPath <==> Contains(apiUrl, "v1") || Contains(apiUrl, "v3")
    ensures r[|apiUrl|..] == VersionedCompletionsPath <==> !Contains(apiUrl, "v1") && !Contains(apiUrl, "v3")
  {
    if Contains(apiUrl, "v1") || Contains(apiUrl, "v3") then
      Halves(apiUrl, CompletionsPath);
      apiUrl + CompletionsPath
    else
      Halves(apiUrl, VersionedCompletionsPath);
      Associative(apiUrl, VersionPrefix, CompletionsPath);
      Halves(apiUrl + VersionPrefix, CompletionsPath);
      apiUrl + VersionedCompletionsPath
  }

  /** A pattern found in a string is still found once text is appended. */
  lemma ContainsExtended(a: string, b: string, pat: string)
    requires Contains(a, pat)
    ensures Contains(a + b, pat)
  {
    IndexOfPrefix(a, b, pat, 0);
  }

  /** The upstream URL always names an API version, `v1` or `v3`. */
  lemma RequestUrlVersioned(apiUrl: string)
    ensures Contains(RequestUrl(apiUrl), "v1") || Contains(RequestUrl(apiUrl), "v3")
  {
    if Contains(apiUrl, "v1") {
      ContainsExtended(apiUrl, CompletionsPath, "v1");
    } else if Contains(apiUrl, "v3") {
      ContainsExtended(apiUrl, CompletionsPath, "v3");
    } else {
      assert OccursAt(VersionedCompletionsPath, "v1", 1);
      OccursAtRight(apiUrl, VersionedCompletionsPath, "v1", |apiUrl| + 1);
      IndexOfSpec(RequestUrl(apiUrl), "v1", 0);
    }
  }
}
