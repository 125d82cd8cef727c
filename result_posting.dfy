/**
 * `process_and_post_results`: correlate each batch result with the task it
 * answers through its `custom_id`, and format one chat message per result.
 * The two files are given as the sequences of records they hold; the
 * messages posted are returned in order instead of being sent.
 */
module ResultPosting {
  import opened Wrappers
  import opened BatchTasks
  import opened BatchResults
  import IssueJob

  const NoId := "N/A"
  const NoUrl := "No URL available"
  const NoTitle := "No title available"

  /** A line of the batch input file as read back; `None` fields are absent keys. */
  datatype MetaRecord = MetaRecord(issueUrl: Option<string>, title: Option<string>)
  datatype InputRecord = InputRecord(customId: Option<string>, metadata: Option<MetaRecord>)

  /** The record a submitted task becomes once written out and read back. */
  function RecordOf(t: Task): InputRecord {
    InputRecord(Some(t.customId),
      match t.metadata
      case None => None
      case Some(md) => Some(MetaRecord(Some(md.issueUrl), Some(md.title))))
  }

  function Records(tasks: seq<Task>): (rs: seq<InputRecord>)
    ensures |rs| == |tasks|
    ensures forall i :: 0 <= i < |tasks| ==> rs[i] == RecordOf(tasks[i])
  {
    if tasks == [] then [] else [RecordOf(tasks[0])] + Records(tasks[1..])
  }

  /** `task.get("custom_id", "N/A")` */
  function IdOf(rec: InputRecord): string {
    rec.customId.GetOr(NoId)
  }

  /** `(metadata.get("issue_url", "No URL available"), metadata.get("title", ""))` */
  function EntryOf(rec: InputRecord): (string, string) {
    match rec.metadata
    case None => (NoUrl, "")
    case Some(md) => (md.issueUrl.GetOr(NoUrl), md.title.GetOr(""))
  }

  /** The dictionary after inserting every record in file order; a later id overwrites. */
  function UrlMap(records: seq<InputRecord>): map<string, (string, string)> {
    if records == [] then map[]
    else
      var last := records[|records| - 1];
      UrlMap(records[..|records| - 1])[IdOf(last) := EntryOf(last)]
  }

  /** `issue_url_map.get(custom_id, ("No URL available", "No title available"))` */
  function Resolve(m: map<string, (string, string)>, id: string): (string, string) {
    if id in m then m[id] else (NoUrl, NoTitle)
  }

  /** The position of the last record with the given id. */
  function LastWithId(records: seq<InputRecord>, id: string): (r: Option<nat>)
    ensures r.Some? ==> r.value < |records| && IdOf(records[r.value]) == id
    ensures r.Some? ==> forall j :: r.value < j < |records| ==> IdOf(records[j]) != id
    ensures r.None? ==> forall j :: 0 <= j < |records| ==> IdOf(records[j]) != id
  {
    if records == [] then None
    else if IdOf(records[|records| - 1]) == id then Some(|records| - 1)
    else LastWithId(records[..|records| - 1], id)
  }

  /**
   * An id resolves to the entry of the last input record carrying it, and
   * an id no record carries to the two "not available" defaults.
   */
  lemma {:induction false} ResolveFindsLastRecord(records: seq<InputRecord>, id: string)
    ensures Resolve(UrlMap(records), id) ==
            match LastWithId(records, id)
            case Some(i) => EntryOf(records[i])
            case None => (NoUrl, NoTitle)
    decreases |records|
  {
    if records != [] {
      var init := records[..|records| - 1];
      ResolveFindsLastRecord(init, id);
      if IdOf(records[|records| - 1]) != id {
        assert LastWithId(records, id) == LastWithId(init, id);
        match LastWithId(init, id)
        case Some(i) => assert records[i] == init[i];
        case None =>
      }
    }
  }

  /**
   * The loop filling `issue_url_map`: afterwards every id resolves to the
   * last record that carries it, and any other id to the defaults.
   */
  method BuildIssueUrlMap(records: seq<InputRecord>) returns (issueUrlMap: map<string, (string, string)>)
    ensures issueUrlMap == UrlMap(records)
    ensures forall id :: Resolve(issueUrlMap, id) ==
              match LastWithId(records, id)
              case Some(i) => EntryOf(records[i])
              case None => (NoUrl, NoTitle)
  {
    issueUrlMap := map[];
    for i := 0 to |records|
      invariant issueUrlMap == UrlMap(records[..i])
    {
      var task := records[i];
      var customId := task.customId.GetOr("N/A");
      var entry := EntryOf(task);
      assert records[..i + 1][..i] == records[..i];
      issueUrlMap := issueUrlMap[customId := entry];
    }
    assert records[..|records|] == records;
    forall id
      ensures Resolve(issueUrlMap, id) ==
              match LastWithId(records, id)
              case Some(i) => EntryOf(records[i])
              case None => (NoUrl, NoTitle)
    {
      ResolveFindsLastRecord(records, id);
    }
  }

  /**
   * Correlation: when the submitted tasks carry pairwise distinct ids, a
   * result bearing task i's id resolves to task i's URL and title.
   */
  lemma {:induction false} SubmittedTaskResolves(tasks: seq<Task>, i: nat)
    requires i < |tasks| && tasks[i].metadata.Some?
    requires forall j, k :: 0 <= j < k < |tasks| ==> tasks[j].customId != tasks[k].customId
    ensures Resolve(UrlMap(Records(tasks)), tasks[i].customId) ==
            (tasks[i].metadata.value.issueUrl, tasks[i].metadata.value.title)
  {
    var records := Records(tasks);
    ResolveFindsLastRecord(records, tasks[i].customId);
    var last := LastWithId(records, tasks[i].customId);
    assert IdOf(records[i]) == tasks[i].customId;
    assert last.Some? && last.value == i;
  }

  /**
   * End to end for the bot: with the tasks `prepare_klusterai_job` builds, a
   * result carrying the id `issue-<i + 1>` is posted under issue i's URL and title.
   */
  lemma {:induction false} IssueResultResolves(issues: seq<IssueJob.Issue>, texts: seq<string>, model: string,
                                               tasks: seq<Task>, i: nat)
    requires |tasks| == |issues| == |texts| && i < |issues|
    requires forall k :: 0 <= k < |issues| ==> tasks[k] == IssueJob.IssueTask(k, issues[k], texts[k], model)
    ensures Resolve(UrlMap(Records(tasks)), IssueJob.IssueId(i)) ==
            (issues[i].htmlUrl.GetOr(""), issues[i].title.GetOr(""))
  {
    forall j, k | 0 <= j < k < |tasks| ensures tasks[j].customId != tasks[k].customId {
      IssueJob.IssueIdInjective(j, k);
    }
    SubmittedTaskResolves(tasks, i);
  }

  /** A result whose id no submitted task carries gets the "not available" URL and title. */
  lemma {:induction false} UnknownIdGetsDefaults(tasks: seq<Task>, id: string)
    requires forall j :: 0 <= j < |tasks| ==> tasks[j].customId != id
    ensures Resolve(UrlMap(Records(tasks)), id) == (NoUrl, NoTitle)
  {
    var records := Records(tasks);
    ResolveFindsLastRecord(records, id);
  }

  /** `result.get("custom_id", "N/A")` */
  function ResultId(r: ResultRecord): string {
    r.customId.GetOr(NoId)
  }

  /** The message for one result. */
  function FormatResult(url: string, title: string, content: string): string {
    "*Title:* <" + url + "|[" + title + "]>\n" + content + "\n\n"
  }

  /** The heading posted first; the date is whatever the caller's clock gives. */
  function Header(repo: string, date: string): string {
    "*Latest " + repo + " Updates (" + date + ")*"
  }

  /** The message posted for a result, or `None` when extracting its content raises. */
  function PostFor(m: map<string, (string, string)>, r: ResultRecord): Option<string> {
    match LenientContent(r)
    case None => None
    case Some(content) =>
      var (url, title) := Resolve(m, ResultId(r));
      Some(FormatResult(url, title, content))
  }

  /**
   * `process_and_post_results`: the heading, then one message per result in
   * file order, each naming the URL and title its id resolves to. A result
   * whose `choices` list is empty raises: the messages before it have been
   * posted, none after it are.
   */
  method ProcessAndPostResults(records: seq<InputRecord>, results: seq<ResultRecord>, repo: string, date: string)
    returns (posts: seq<string>, aborted: bool)
    ensures 1 <= |posts| <= |results| + 1 && posts[0] == Header(repo, date)
    ensures forall i :: 0 <= i < |posts| - 1 ==> PostFor(UrlMap(records), results[i]) == Some(posts[i + 1])
    ensures aborted <==> |posts| - 1 < |results|
    ensures aborted ==> PostFor(UrlMap(records), results[|posts| - 1]).None?
  {
    var issueUrlMap := BuildIssueUrlMap(records);
    posts := [Header(repo, date)];
    aborted := false;
    var i := 0;
    while i < |results|
      invariant i <= |results| && |posts| == i + 1 && posts[0] == Header(repo, date)
      invariant forall k :: 0 <= k < i ==> PostFor(UrlMap(records), results[k]) == Some(posts[k + 1])
    {
      var result := results[i];
      var customId := result.customId.GetOr("N/A");
      var responseContent := LenientContent(result);
      if responseContent.None? {
        aborted := true;
        return;
      }
      var (issueUrl, title) := Resolve(issueUrlMap, customId);
      var formattedResult := "*Title:* <" + issueUrl + "|[" + title + "]>\n" + responseContent.value + "\n\n";
      posts := posts + [formattedResult];
      i := i + 1;
    }
  }
}
