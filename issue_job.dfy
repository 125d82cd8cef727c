/**
 * `prepare_klusterai_job`: one summarisation request per fetched issue. The
 * comment request is replaced by `commentsAt`, the comment list the server
 * returns for a comments URL.
 */
module IssueJob {
  import opened Wrappers
  import opened Text
  import opened BatchTasks
  import IssueComments

  const SystemPrompt :=
    "You are a helpful assistant that summarizes GitHub issues. "
    + "Summarize the user provided information about a GitHub issue. "
    + "Provide a Tl;DR summary first, then a detailed summary. "
    + "Use formatting suitable for Slack. "
    + "This means a single * for making titles bold. NEVER use ** for bolding text. "
    + "When formatting code blocks, use triple backticks without specifying the language name."

  /** The fields of a GitHub issue object the bot reads; `None` is an absent key. */
  datatype Issue = Issue(
    title: Option<string>,
    body: Option<string>,
    htmlUrl: Option<string>,
    comments: Option<int>,
    commentsUrl: Option<string>)

  /** `"issue-" + str(i + 1)` for the issue at position `i`. */
  function IssueId(i: nat): string {
    "issue-" + NatToString(i + 1)
  }

  /** Distinct positions give distinct correlation ids. */
  lemma IssueIdInjective(i: nat, j: nat)
    ensures IssueId(i) == IssueId(j) <==> i == j
  {
    if IssueId(i) == IssueId(j) {
      PrefixCancel("issue-", NatToString(i + 1), NatToString(j + 1));
      NatToStringInjective(i + 1, j + 1);
    }
  }

  /** Comments are fetched only for an issue whose `comments` count is positive. */
  predicate HasComments(issue: Issue) {
    issue.comments.GetOr(0) > 0
  }

  function CommentsFor(issue: Issue, commentsAt: string -> seq<IssueComments.Comment>,
                       count: string -> nat, limit: int): string
  {
    if HasComments(issue) then IssueComments.CommentsText(commentsAt(issue.commentsUrl.GetOr("")), count, limit)
    else ""
  }

  function UserPrompt(title: string, body: string, commentsText: string): string {
    "Title: " + title + ". Body: " + body + ". Comments: " + commentsText
  }

  /** The task built for the issue at position `i`. */
  function IssueTask(i: nat, issue: Issue, commentsText: string, model: string): Task {
    var title := issue.title.GetOr("");
    Task(
      IssueId(i),
      PostMethod,
      CompletionsEndpoint,
      RequestBody(model, None, None,
        [Message("system", SystemPrompt),
         Message("user", UserPrompt(title, issue.body.GetOr(""), commentsText))]),
      Some(Metadata(issue.htmlUrl.GetOr(""), title)))
  }

  /** The comments URLs requested, in issue order: one per issue that has comments. */
  function CommentUrls(issues: seq<Issue>): seq<string> {
    if issues == [] then []
    else
      var init := CommentUrls(issues[..|issues| - 1]);
      var last := issues[|issues| - 1];
      if HasComments(last) then init + [last.commentsUrl.GetOr("")] else init
  }

  /** The tasks built for `issues`, in order. */
  function JobTasks(issues: seq<Issue>, commentsAt: string -> seq<IssueComments.Comment>,
                    count: string -> nat, limit: int, model: string): seq<Task>
  {
    if issues == [] then []
    else
      var n := |issues| - 1;
      JobTasks(issues[..n], commentsAt, count, limit, model)
        + [IssueTask(n, issues[n], CommentsFor(issues[n], commentsAt, count, limit), model)]
  }

  lemma JobStep(issues: seq<Issue>, commentsAt: string -> seq<IssueComments.Comment>,
                count: string -> nat, limit: int, model: string, k: nat)
    requires k < |issues|
    ensures JobTasks(issues[..k + 1], commentsAt, count, limit, model) ==
            JobTasks(issues[..k], commentsAt, count, limit, model)
              + [IssueTask(k, issues[k], CommentsFor(issues[k], commentsAt, count, limit), model)]
    ensures CommentUrls(issues[..k + 1]) ==
            CommentUrls(issues[..k]) + if HasComments(issues[k]) then [issues[k].commentsUrl.GetOr("")] else []
  {
    var s := issues[..k + 1];
    assert s[..|s| - 1] == issues[..k];
    assert s[|s| - 1] == issues[k];
  }

  /** Task k of the job is the one built for issue k. */
  lemma {:induction false} JobTasksAt(issues: seq<Issue>, commentsAt: string -> seq<IssueComments.Comment>,
                                      count: string -> nat, limit: int, model: string)
    ensures |JobTasks(issues, commentsAt, count, limit, model)| == |issues|
    ensures forall k :: 0 <= k < |issues| ==>
              JobTasks(issues, commentsAt, count, limit, model)[k]
              == IssueTask(k, issues[k], CommentsFor(issues[k], commentsAt, count, limit), model)
    decreases |issues|
  {
    if issues != [] {
      var n := |issues| - 1;
      var init := issues[..n];
      JobTasksAt(init, commentsAt, count, limit, model);
      var all := JobTasks(issues, commentsAt, count, limit, model);
      var before := JobTasks(init, commentsAt, count, limit, model);
      assert all == before + [IssueTask(n, issues[n], CommentsFor(issues[n], commentsAt, count, limit), model)];
      forall k | 0 <= k < |issues|
        ensures all[k] == IssueTask(k, issues[k], CommentsFor(issues[k], commentsAt, count, limit), model)
      {
        if k < n {
          assert all[k] == before[k] && issues[k] == init[k];
        }
      }
    }
  }

  /**
   * One task per issue, in input order, each carrying the correlation id
   * `issue-<position + 1>` (so no two tasks share an id), the issue's URL and
   * title as metadata, the fixed system prompt and a user prompt with the
   * issue's title, body and budgeted comment text ("" for an issue without
   * comments, whose comments are not requested at all).
   */
  method PrepareKlusteraiJob(issues: seq<Issue>, commentsAt: string -> seq<IssueComments.Comment>,
                             count: string -> nat, limit: int, model: string)
    returns (tasks: seq<Task>, ghost fetched: seq<string>)
    ensures |tasks| == |issues|
    ensures forall i :: 0 <= i < |issues| ==>
              tasks[i] == IssueTask(i, issues[i], CommentsFor(issues[i], commentsAt, count, limit), model)
    ensures forall i :: 0 <= i < |issues| ==>
              tasks[i].customId == IssueId(i)
              && tasks[i].metadata == Some(Metadata(issues[i].htmlUrl.GetOr(""), issues[i].title.GetOr("")))
    ensures forall i, j :: 0 <= i < j < |tasks| ==> tasks[i].customId != tasks[j].customId
    ensures fetched == CommentUrls(issues)
  {
    tasks := [];
    fetched := [];
    for i := 0 to |issues|
      invariant tasks == JobTasks(issues[..i], commentsAt, count, limit, model)
      invariant fetched == CommentUrls(issues[..i])
    {
      var issue := issues[i];
      var commentsText := "";
      if issue.comments.GetOr(0) > 0 {
        var url := issue.commentsUrl.GetOr("");
        ghost var kept;
        commentsText, kept := IssueComments.FetchIssueComments(commentsAt(url), count, limit);
        fetched := fetched + [url];
      }
      var task := IssueTask(i, issue, commentsText, model);
      JobStep(issues, commentsAt, count, limit, model, i);
      tasks := tasks + [task];
    }
    assert issues[..|issues|] == issues;
    JobTasksAt(issues, commentsAt, count, limit, model);
    TasksCarryIds(issues, commentsAt, count, limit, model, tasks);
  }

  lemma TasksCarryIds(issues: seq<Issue>, commentsAt: string -> seq<IssueComments.Comment>,
                      count: string -> nat, limit: int, model: string, tasks: seq<Task>)
    requires |tasks| == |issues|
    requires forall i :: 0 <= i < |issues| ==>
               tasks[i] == IssueTask(i, issues[i], CommentsFor(issues[i], commentsAt, count, limit), model)
    ensures forall i :: 0 <= i < |issues| ==>
              tasks[i].customId == IssueId(i)
              && tasks[i].metadata == Some(Metadata(issues[i].htmlUrl.GetOr(""), issues[i].title.GetOr("")))
    ensures forall i, j :: 0 <= i < j < |tasks| ==> tasks[i].customId != tasks[j].customId
  {
    forall i, j | 0 <= i < j < |tasks| ensures tasks[i].customId != tasks[j].customId {
      IssueIdInjective(i, j);
    }
  }
}
