/** The repository card: the relative age of a repository ("N <unit> ago"), and the summary
    dialog, whose body and form follow the state of the summary action. */
module RepositoryCard {
  import opened Wrappers
  import Strings
  import Github
  import Actions

  datatype Unit = Years | Months | Days | Hours | Minutes | Seconds

  /** Seconds in one unit: a year is 365 days and a month 30 days. */
  function UnitSeconds(u: Unit): (n: nat)
    ensures n >= 1
  {
    match u
    case Years => 31536000
    case Months => 2592000
    case Days => 86400
    case Hours => 3600
    case Minutes => 60
    case Seconds => 1
  }

  /** The order in which the thresholds are tried, largest unit first. */
  function Rank(u: Unit): nat
  {
    match u
    case Years => 0
    case Months => 1
    case Days => 2
    case Hours => 3
    case Minutes => 4
    case Seconds => 5
  }

  function UnitWord(u: Unit): string
  {
    match u
    case Years => "years"
    case Months => "months"
    case Days => "days"
    case Hours => "hours"
    case Minutes => "minutes"
    case Seconds => "seconds"
  }

  datatype Elapsed = Elapsed(count: int, unit: Unit)

  /** Whole seconds from `createdMs` to `nowMs`, rounded down. */
  function ElapsedSeconds(nowMs: int, createdMs: int): (s: int)
    ensures 1000 * s <= nowMs - createdMs < 1000 * s + 1000
  {
    (nowMs - createdMs) / 1000
  }

  /** `seconds` is past the threshold of `u`: every unit but seconds needs strictly more than one of it. */
  predicate Exceeds(seconds: int, u: Unit)
  {
    u == Seconds || seconds > UnitSeconds(u)
  }

  /** The cascade of `timeAgo`: the first unit, largest first, of which `seconds` holds more than one,
      and the whole number of those units. */
  function Bucket(seconds: int): (e: Elapsed)
    ensures Exceeds(seconds, e.unit)
    ensures forall u :: Rank(u) < Rank(e.unit) ==> !Exceeds(seconds, u)
    ensures e.count == seconds / UnitSeconds(e.unit)
    ensures e.unit != Seconds ==> e.count >= 1
    ensures e.unit == Seconds ==> e.count <= 60
    ensures e.unit == Minutes ==> e.count <= 60
    ensures e.unit == Hours ==> e.count <= 24
    ensures e.unit == Days ==> e.count <= 30
    ensures e.unit == Months ==> e.count <= 12
  {
    if seconds > 31536000 then Elapsed(seconds / 31536000, Years)
    else if seconds > 2592000 then Elapsed(seconds / 2592000, Months)
    else if seconds > 86400 then Elapsed(seconds / 86400, Days)
    else if seconds > 3600 then Elapsed(seconds / 3600, Hours)
    else if seconds > 60 then Elapsed(seconds / 60, Minutes)
    else Elapsed(seconds, Seconds)
  }

  /** The two conditions of `Bucket`'s contract pick exactly one unit. */
  lemma BucketUnitUnique(seconds: int, u: Unit)
    requires Exceeds(seconds, u)
    requires forall v :: Rank(v) < Rank(u) ==> !Exceeds(seconds, v)
    ensures u == Bucket(seconds).unit
  {
  }

  /** "N <unit> ago"; the text reads back as the count and unit it was made from. */
  function Render(e: Elapsed): (t: string)
    ensures ReadTimeAgo(t) == Some(e)
  {
    var number := Strings.IntText(e.count);
    var rest := UnitWord(e.unit) + " ago";
    Strings.SplitAtFirst(number, ' ', rest);
    Strings.IntTextRoundTrip(e.count);
    SplitAgo(UnitWord(e.unit));
    UnitNamedWord(e.unit);
    number + [' '] + rest
  }

  /** `timeAgo(created)` at time `nowMs`, both in milliseconds since the epoch. The text names the
      count and unit of the cascade, and nothing else. */
  function TimeAgo(nowMs: int, createdMs: int): (t: string)
    ensures ReadTimeAgo(t) == Some(Bucket(ElapsedSeconds(nowMs, createdMs)))
  {
    Render(Bucket(ElapsedSeconds(nowMs, createdMs)))
  }

  /** The thresholds are strict: exactly a year reads as twelve months, exactly a minute and anything
      negative read in seconds. */
  lemma StrictThresholds(nowMs: int)
    ensures Bucket(31536000) == Elapsed(12, Months)
    ensures Bucket(60) == Elapsed(60, Seconds)
    ensures Bucket(31536001) == Elapsed(1, Years)
    ensures ElapsedSeconds(nowMs, nowMs + 1) == -1 && Bucket(-1) == Elapsed(-1, Seconds)
  {
  }

  function UnitNamed(w: string): (u: Option<Unit>)
  {
    if w == "years" then Some(Years)
    else if w == "months" then Some(Months)
    else if w == "days" then Some(Days)
    else if w == "hours" then Some(Hours)
    else if w == "minutes" then Some(Minutes)
    else if w == "seconds" then Some(Seconds)
    else None
  }

  /** Reads "N <unit> ago" back into its count and unit. */
  function ReadTimeAgo(text: string): Option<Elapsed>
  {
    var number := Strings.BeforeFirst(text, ' ');
    var rest := Strings.AfterFirst(text, ' ');
    var count := Strings.ParseInt(number);
    if count.None? || |rest| < 4 || rest[|rest| - 4..] != " ago" then None
    else
      var unit := UnitNamed(rest[..|rest| - 4]);
      if unit.None? then None else Some(Elapsed(count.value, unit.value))
  }

  lemma UnitNamedWord(u: Unit)
    ensures UnitNamed(UnitWord(u)) == Some(u)
  {
    match u
    case Years =>
    case Months =>
    case Days =>
    case Hours =>
    case Minutes =>
    case Seconds =>
  }

  lemma SplitAgo(word: string)
    ensures var rest := word + " ago"; |rest| >= 4 && rest[|rest| - 4..] == " ago" && rest[..|rest| - 4] == word
  {
  }

  /** The state of the summary action as the card holds it; an absent field reads as "". */
  datatype CardState = CardState(summary: string, error: string)

  const InitialCardState := CardState("", "")

  /** The action's returned object, `{summary}` or `{error}`, as the card's state. */
  function CardStateOf(r: Actions.SummaryResult): (st: CardState)
    ensures r.Summary? ==> st == CardState(r.text, "")
    ensures r.Failure? ==> st == CardState("", r.message)
  {
    match r
    case Summary(text) => CardState(text, "")
    case Failure(message) => CardState("", message)
  }

  datatype DialogBody = ShowSummary(text: string) | ShowError(message: string) | ShowNothing

  /** The summary when there is one, else the error when there is one, else nothing. */
  function DialogBodyOf(st: CardState): (b: DialogBody)
    ensures b.ShowSummary? <==> st.summary != ""
    ensures b.ShowError? <==> st.summary == "" && st.error != ""
    ensures b.ShowSummary? ==> b.text == st.summary
    ensures b.ShowError? ==> b.message == st.error
  {
    if st.summary != "" then ShowSummary(st.summary)
    else if st.error != "" then ShowError(st.error)
    else ShowNothing
  }

  /** The form is rendered while the state holds no summary: exactly when the dialog shows none. */
  function FormShown(st: CardState): (shown: bool)
    ensures shown <==> !DialogBodyOf(st).ShowSummary?
  {
    st.summary == ""
  }

  /** The hidden fields the form submits for `repo`. */
  function SummaryForm(repo: Github.Repo): (f: Actions.Form)
    ensures f.repoUrl == Some(repo.htmlUrl) && f.owner == Some(repo.owner.login) && f.repoName == Some(repo.name)
  {
    Actions.Form(Some(repo.htmlUrl), Some(repo.owner.login), Some(repo.name))
  }

  /** Before any submission neither a summary nor an error is shown, and the form is. */
  lemma InitialCard()
    ensures DialogBodyOf(InitialCardState) == ShowNothing && FormShown(InitialCardState)
  {
  }

  /** After a submission from a card, the dialog shows the summary or the error message and never
      nothing; the form is gone exactly when a summary came back; and the card's own fields pass
      validation whenever its URL is a URL and its owner and name are not empty. */
  lemma SubmissionFromCard(repo: Github.Repo, isUrl: string -> bool,
                           fetchReadme: string -> Actions.ReadmeResponse,
                           model: Actions.ModelInput -> Actions.ModelReply)
    ensures var run := Actions.GetSummaryAction(SummaryForm(repo), isUrl, fetchReadme, model);
            var st := CardStateOf(run.result);
            && DialogBodyOf(st) != ShowNothing
            && (FormShown(st) <==> run.result.Failure?)
            && (Actions.Validate(SummaryForm(repo), isUrl).Some? <==>
                  isUrl(repo.htmlUrl) && repo.owner.login != "" && repo.name != "")
  {
    var run := Actions.GetSummaryAction(SummaryForm(repo), isUrl, fetchReadme, model);
    if run.result.Failure? {
      assert Actions.IsErrorMessage(run.result.message);
      assert run.result.message != "";
    }
  }
}
