/** The summary request handler: the server action that validates a form, looks up the
    README, truncates it and asks the hosted model for a summary. The README request, the
    model and the URL syntax check are parameters; the handler's run records which external
    calls it made, in order. */
module Actions {
  import opened Wrappers
  import Strings

  const InvalidInput := "Invalid input."
  const ReadmeNotFound := "Could not find a README file for this repository."
  const ReadmeTooShort := "README is too short to provide a meaningful summary."
  const NoSummary := "AI model could not generate a summary."
  const Unexpected := "An unexpected error occurred while generating the summary."
  /** READMEs shorter than this are refused. */
  const MinReadmeLength := 100
  /** At most this many characters of a README reach the model. */
  const MaxReadmeLength := 10000

  /** A computation that returned a value or raised. */
  datatype Attempt<T> = Returned(value: T) | Raised

  /** The submitted fields; `None` is a field that is missing or not text. */
  datatype Form = Form(repoUrl: Option<string>, owner: Option<string>, repoName: Option<string>)

  /** The fields once validated. */
  datatype Request = Request(repoUrl: string, owner: string, repoName: string)

  /** The schema: `repoUrl` is a URL (by `isUrl`), `owner` and `repoName` are at least one character. */
  function Validate(form: Form, isUrl: string -> bool): (v: Option<Request>)
    ensures v.Some? <==>
      && form.repoUrl.Some? && isUrl(form.repoUrl.value)
      && form.owner.Some? && form.owner.value != ""
      && form.repoName.Some? && form.repoName.value != ""
    ensures v.Some? ==> v.value == Request(form.repoUrl.value, form.owner.value, form.repoName.value)
  {
    if form.repoUrl.Some? && isUrl(form.repoUrl.value)
      && form.owner.Some? && |form.owner.value| >= 1
      && form.repoName.Some? && |form.repoName.value| >= 1
    then Some(Request(form.repoUrl.value, form.owner.value, form.repoName.value))
    else None
  }

  /** The README endpoint of repository `repo` of `owner`: the owner's path, then the repository's. */
  function ReadmeUrl(owner: string, repo: string): (u: string)
    ensures "https://api.github.com/repos/" + owner + "/" <= u
    ensures var tail := repo + "/readme"; |tail| <= |u| && u[|u| - |tail|..] == tail
  {
    "https://api.github.com/repos/" + owner + "/" + repo + "/readme"
  }

  /** What the README request produced: `fetch` threw, a status that is not OK, an OK status whose
      body was read, or an OK status whose body could not be read. */
  datatype ReadmeResponse = ReadmeUnreachable | ReadmeNotOk | ReadmeOk(text: string) | ReadmeBodyUnreadable

  /** `getReadmeContent`: `null` for a failed request. The body is read by an un-awaited
      `return res.text()`, so a failure to read it escapes the function's own `catch`. */
  function GetReadmeContent(response: ReadmeResponse): (r: Attempt<Option<string>>)
    ensures r == Returned(None) <==> response.ReadmeUnreachable? || response.ReadmeNotOk?
    ensures r.Raised? <==> response.ReadmeBodyUnreadable?
    ensures response.ReadmeOk? <==> r.Returned? && r.value.Some?
    ensures response.ReadmeOk? ==> r.value.value == response.text
  {
    match response
    case ReadmeUnreachable => Returned(None)
    case ReadmeNotOk => Returned(None)
    case ReadmeOk(text) => Returned(Some(text))
    case ReadmeBodyUnreadable => Raised
  }

  datatype ModelInput = ModelInput(repoUrl: string, readmeContent: string)

  /** What the model call produced: it raised, it gave no output object, or an output whose
      `summary` may be missing. */
  datatype ModelReply = ModelRaised | ModelNoOutput | ModelOutput(summary: Option<string>)

  /** An external call the handler made. */
  datatype Call = FetchReadme(url: string) | InvokeModel(input: ModelInput)

  /** The action's result: exactly one of `summary` and `error`. */
  datatype SummaryResult = Summary(text: string) | Failure(message: string)

  datatype Run = Run(result: SummaryResult, calls: seq<Call>)

  ghost predicate IsErrorMessage(m: string)
  {
    m == InvalidInput || m == ReadmeNotFound || m == ReadmeTooShort || m == NoSummary || m == Unexpected
  }

  /** The outcome once a README of at least `MinReadmeLength` characters is in hand. */
  function Summarise(req: Request, readme: string, model: ModelInput -> ModelReply): (run: Run)
    requires |readme| >= MinReadmeLength
    ensures run.calls == [InvokeModel(ModelInput(req.repoUrl, Strings.Take(readme, MaxReadmeLength)))]
    ensures run.result.Summary? <==>
      var reply := model(run.calls[0].input); reply.ModelOutput? && reply.summary.GetOr("") != ""
    ensures run.result.Summary? ==> run.result.text == model(run.calls[0].input).summary.value
    ensures run.result.Failure? ==> run.result.message == (if model(run.calls[0].input).ModelOutput? then NoSummary else Unexpected)
  {
    var input := ModelInput(req.repoUrl, Strings.Take(readme, MaxReadmeLength));
    var calls := [InvokeModel(input)];
    match model(input)
    case ModelRaised => Run(Failure(Unexpected), calls)
    case ModelNoOutput => Run(Failure(Unexpected), calls)
    case ModelOutput(summary) =>
      if summary.GetOr("") == "" then Run(Failure(NoSummary), calls) else Run(Summary(summary.value), calls)
  }

  /** `getSummaryAction`. */
  function GetSummaryAction(form: Form, isUrl: string -> bool,
                            fetchReadme: string -> ReadmeResponse, model: ModelInput -> ModelReply): (run: Run)
    ensures run.result.Summary? ==> run.result.text != ""
    ensures run.result.Failure? ==> IsErrorMessage(run.result.message)
    ensures run.result == Failure(InvalidInput) <==> Validate(form, isUrl).None?
    ensures Validate(form, isUrl).None? ==> run.calls == []
    ensures Validate(form, isUrl).Some? ==>
      var req := Validate(form, isUrl).value;
      1 <= |run.calls| <= 2 && run.calls[0] == FetchReadme(ReadmeUrl(req.owner, req.repoName))
    ensures forall k :: 0 <= k < |run.calls| && run.calls[k].InvokeModel? ==>
      k == 1 && MinReadmeLength <= |run.calls[k].input.readmeContent| <= MaxReadmeLength
    ensures run.result.Summary? ==>
      |run.calls| == 2 && run.calls[1].InvokeModel? && model(run.calls[1].input) == ModelOutput(Some(run.result.text))
  {
    match Validate(form, isUrl)
    case None => Run(Failure(InvalidInput), [])
    case Some(req) =>
      var url := ReadmeUrl(req.owner, req.repoName);
      var fetched := [FetchReadme(url)];
      match GetReadmeContent(fetchReadme(url))
      case Raised => Run(Failure(Unexpected), fetched)
      case Returned(content) =>
        if content.GetOr("") == "" then Run(Failure(ReadmeNotFound), fetched)
        else if |content.value| < MinReadmeLength then Run(Failure(ReadmeTooShort), fetched)
        else
          var rest := Summarise(req, content.value, model);
          Run(rest.result, fetched + rest.calls)
  }

  /** Invalid input: the fixed message, and no README request or model call. */
  lemma InvalidInputMakesNoCalls(form: Form, isUrl: string -> bool,
                                 fetchReadme: string -> ReadmeResponse, model: ModelInput -> ModelReply)
    requires Validate(form, isUrl).None?
    ensures GetSummaryAction(form, isUrl, fetchReadme, model) == Run(Failure(InvalidInput), [])
  {
  }

  /** A missing README, a failed request and an empty README all read as "not found", and the model
      is not called. */
  lemma MissingReadme(form: Form, isUrl: string -> bool, req: Request,
                      fetchReadme: string -> ReadmeResponse, model: ModelInput -> ModelReply)
    requires Validate(form, isUrl) == Some(req)
    requires fetchReadme(ReadmeUrl(req.owner, req.repoName)) in {ReadmeUnreachable, ReadmeNotOk, ReadmeOk("")}
    ensures GetSummaryAction(form, isUrl, fetchReadme, model)
      == Run(Failure(ReadmeNotFound), [FetchReadme(ReadmeUrl(req.owner, req.repoName))])
  {
  }

  /** A README of 1 to 99 characters is too short, and the model is not called. */
  lemma ShortReadme(form: Form, isUrl: string -> bool, req: Request,
                    fetchReadme: string -> ReadmeResponse, model: ModelInput -> ModelReply)
    requires Validate(form, isUrl) == Some(req)
    requires fetchReadme(ReadmeUrl(req.owner, req.repoName)).ReadmeOk?
    requires 1 <= |fetchReadme(ReadmeUrl(req.owner, req.repoName)).text| < 100
    ensures GetSummaryAction(form, isUrl, fetchReadme, model)
      == Run(Failure(ReadmeTooShort), [FetchReadme(ReadmeUrl(req.owner, req.repoName))])
  {
  }

  /** A README of 100 characters or more goes to the model: its first min(length, 10000)
      characters, with the repository URL unchanged; the summary is the model's non-empty text. */
  lemma LongReadmeReachesModel(form: Form, isUrl: string -> bool, req: Request,
                               fetchReadme: string -> ReadmeResponse, model: ModelInput -> ModelReply)
    requires Validate(form, isUrl) == Some(req)
    requires fetchReadme(ReadmeUrl(req.owner, req.repoName)).ReadmeOk?
    requires |fetchReadme(ReadmeUrl(req.owner, req.repoName)).text| >= 100
    ensures var text := fetchReadme(ReadmeUrl(req.owner, req.repoName)).text;
            var n := if |text| < 10000 then |text| else 10000;
            var input := ModelInput(form.repoUrl.value, text[..n]);
            var run := GetSummaryAction(form, isUrl, fetchReadme, model);
            && run.calls == [FetchReadme(ReadmeUrl(req.owner, req.repoName)), InvokeModel(input)]
            && (model(input).ModelOutput? && model(input).summary.GetOr("") != "" ==>
                  run.result == Summary(model(input).summary.value))
            && (model(input).ModelOutput? && model(input).summary.GetOr("") == "" ==>
                  run.result == Failure(NoSummary))
            && (!model(input).ModelOutput? ==> run.result == Failure(Unexpected))
  {
    var text := fetchReadme(ReadmeUrl(req.owner, req.repoName)).text;
    var n := if |text| < 10000 then |text| else 10000;
    assert Strings.Take(text, MaxReadmeLength) == text[..n];
  }

  /** A README body that cannot be read raises past `getReadmeContent`; the action's own catch-all
      turns it into the generic message, and the model is not called. */
  lemma UnreadableReadme(form: Form, isUrl: string -> bool, req: Request,
                         fetchReadme: string -> ReadmeResponse, model: ModelInput -> ModelReply)
    requires Validate(form, isUrl) == Some(req)
    requires fetchReadme(ReadmeUrl(req.owner, req.repoName)) == ReadmeBodyUnreadable
    ensures GetSummaryAction(form, isUrl, fetchReadme, model)
      == Run(Failure(Unexpected), [FetchReadme(ReadmeUrl(req.owner, req.repoName))])
  {
  }
}
