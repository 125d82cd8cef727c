# GitHub issue summarizer: a verified model of its deterministic core

The GitHub issue summarizer bot fetches new or updated issues of a repository,
turns each into a summarisation request for a batch-inference API, waits for
the batch job to finish and posts one chat message per summary. A companion
helper module does the same submit/poll/retrieve cycle for the rows of a
dataframe. Nearly all of this is HTTP glue. This project models the parts
that are deterministic transformations, with the external calls turned into
inputs:

- **Comment accumulation** (`IssueComments`). Comments are added in order
  while the token count of the text so far plus that of the next body stays
  within the budget. Accumulation stops at the first comment that fails this
  test. The tokenizer is an arbitrary function `count: string -> nat`.
- **Pagination** (`IssuePages`). Pages 1, 2, ... are requested until the
  first empty page. A transport error (an HTTP error status included) yields
  the empty list. The server is a finite sequence of responses; every page
  past its end is empty.
- **Task construction** (`IssueJob`, `NotebookTasks`, `BatchTasks`). One
  request record is built per issue or row, with a deterministic correlation
  id.
- **Batch status** (`BatchStatus`). This covers the bot's poll loop, the
  `save_results` branch and the helper's `monitor_job_status` loop. The
  statuses seen on successive polls are a finite sequence. `None` means no
  stopping status was seen, where the source would keep polling.
- **Correlation and posting** (`ResultPosting`, `BatchResults`). A map from
  `custom_id` to `(url, title)` is built from the input file and each result is
  resolved through it. The lookup falls back to fixed defaults on a miss.
  Messages are returned in order instead of being sent.
- **Line-delimited JSON** (`JsonLines`). The input is stripped and split on
  `'\n'`, and the lines that parse are kept. The JSON parser and the UTF-8
  decoder are partial functions passed in as parameters.

`Text` writes out the Python string operations these rely on. These are
`str.lower` on ASCII, `str(n)`, `sep.join`, `str.split` with a separator and
`str.strip`. `Wrappers` holds the `Option` type: `None` stands for an absent
dictionary key or a call that raises.

Where the code and its docstrings or stated intent differ, the model follows
the code (the docstring of `fetch_issue_comments` at
`github-issue-summarizer-bot/main.py:126` says the comments are "separated by
'---'"):

- The accumulated comment text is *not* always the kept bodies joined by
  `"\n---\n"`. A separator is only added after a non-empty text, so empty
  bodies before the first non-empty one leave no trace (`AccumulatedIsJoin`,
  `LeadingEmptyBodyAddsNoSeparator`). An empty body after a non-empty one
  still adds a separator, so the text can end in `"\n---\n"`
  (`EmptyBodyAfterTextAddsTrailingSeparator`).
- The budget test ignores the separators' tokens. The returned text can
  therefore exceed the budget (`SeparatorsCanExceedBudget`).
- A transport error during pagination returns `[]`, not the pages fetched so
  far.
- There is no message-chunking routine. One message is posted per result,
  whatever its length.

## Model

| member | source | states |
|---|---|---|
| `IssueComments.FetchIssueComments` | github-issue-summarizer-bot/main.py:128-145 | The text is the accumulation of the bodies of the first `kept` comments, in order, with a missing body read as "". Each kept comment passed `count(text so far) + count(body) <= limit` when it was added. Comment `kept`, if there is one, is the first that failed, so no later comment is included however small. The result equals `CommentsText`. |
| `IssueComments.StopFrom` | github-issue-summarizer-bot/main.py:132-139 | The stop index is the first comment from `i` on that fails the budget test, or the end; every comment before it passes. |
| `IssueComments.AccumulatedIsJoin` | github-issue-summarizer-bot/main.py:141-143 | The accumulated text equals the bodies joined by "\n---\n" once the leading empty bodies are dropped. So there is no leading separator, and zero comments give "". A trailing separator is possible (`EmptyBodyAfterTextAddsTrailingSeparator`). |
| `IssueComments.AccumulatedIsPlainJoin` | github-issue-summarizer-bot/main.py:141-143 | When the first kept body is non-empty, the text is exactly the kept bodies joined by "\n---\n". |
| `IssueComments.AccumulatedEmpty` | github-issue-summarizer-bot/main.py:128-145 | No comments, or only empty bodies, give "". |
| `IssueComments.LeadingEmptyBodyAddsNoSeparator` | github-issue-summarizer-bot/main.py:141-143 | Bodies ["", "a"] give "a", whereas joining them would give "\n---\na". |
| `IssueComments.EmptyBodyAfterTextAddsTrailingSeparator` | github-issue-summarizer-bot/main.py:141-143 | An empty body added to a non-empty text appends just "\n---\n", so the text ends in the separator; ["a", ""] gives "a\n---\n". |
| `IssueComments.SeparatorsCanExceedBudget` | github-issue-summarizer-bot/main.py:134-143 | With one token per character and a budget of 2, both comments "a" are kept and the text "a\n---\na" has 7 tokens: the total is not bounded by the budget. |
| `IssuePages.FetchGithubIssues` | github-issue-summarizer-bot/main.py:96-114 | Pages 1, 2, ... are requested in order up to the first empty page or error. The number of requests is `LastPage`. The result is the concatenation of the pages before it, or [] if the request that stopped the loop failed. |
| `IssuePages.StopFrom` | github-issue-summarizer-bot/main.py:98-109 | The loop stops on the first page from `n` on that is empty or failed, at most one page past the end of the listing; every page before it is a non-empty list. |
| `IssuePages.NonEmptyPagesFetchedWhole` | github-issue-summarizer-bot/main.py:96-114 | For a listing of non-empty pages, one request more than there are pages is made and the concatenation of all pages is returned. |
| `IssuePages.ErrorDiscardsAll` | github-issue-summarizer-bot/main.py:110-112 | An error on a page reached after non-empty pages stops the loop there, and the result is [], not a partial list. |
| `IssuePages.LaterPagesIgnored` | github-issue-summarizer-bot/main.py:105-106 | Whatever follows the first empty page, errors included, changes neither the requests made nor the result. |
| `IssueJob.IssueIdInjective` | github-issue-summarizer-bot/main.py:173 | The ids `issue-<i+1>` of two positions are equal exactly when the positions are. |
| `IssueJob.JobTasksAt` | github-issue-summarizer-bot/main.py:158-196 | The job has one task per issue; task k is the task built for issue k. |
| `IssueJob.PrepareKlusteraiJob` | github-issue-summarizer-bot/main.py:158-196 | Returns one task per issue, in input order. Task i has id `issue-<i+1>`, POST to /v1/chat/completions, the fixed system prompt, then the user prompt "Title: ... Body: ... Comments: ..." and the issue's URL and title as metadata. Ids are pairwise distinct. Comments are requested, in issue order, only for issues whose `comments` count is positive; the others get "". |
| `IssueJob.TasksCarryIds` | github-issue-summarizer-bot/main.py:172-194 | Tasks built this way carry the id and metadata of their issue, and no two of them share an id. |
| `NotebookTasks.RowIdInjective` | examples/helpers.py:11 | `<task_type>-<index>` ids of two rows are equal exactly when their index labels are. |
| `NotebookTasks.CreateTasks` | examples/helpers.py:5-25 | Returns one task per row, in row order, with id `<task_type>-<index>`. Each has temperature 0, max completion tokens 100 and no metadata. It has exactly two messages: the system prompt, then the row content as the user message. Two ids coincide exactly when the index labels do. |
| `BatchStatus.FirstWhere` | github-issue-summarizer-bot/main.py:238-248 | Returns the first poll at which the stop test holds, with no earlier poll satisfying it; `None` means no poll satisfies it. |
| `BatchStatus.AwaitBatch` | github-issue-summarizer-bot/main.py:238-248 | Polling stops at the first status whose lower-case form is completed, failed or canceled, and at no earlier status. |
| `BatchStatus.MonitorJobStatus` | examples/helpers.py:65-88 | The flag-driven loop stops at the first status whose lower-case form is completed. Failed and canceled keep it polling. |
| `BatchStatus.FirstWhereIsFirst` | github-issue-summarizer-bot/main.py:245-246 | A position with no stopping status before it and a stopping status at it is the one `FirstWhere` returns. If the whole sequence has no stopping status, `FirstWhere` returns `None`. |
| `BatchStatus.CompletedIsTerminal` | examples/helpers.py:74 | Every status that ends the helper's loop also ends the bot's. |
| `BatchStatus.MonitorStopsNoEarlier` | examples/helpers.py:68-88 | Whenever the helper's loop stops, the bot's loop has stopped at that poll or earlier. |
| `BatchStatus.FailedStopsOnlyTheBot` | github-issue-summarizer-bot/main.py:245 | On ["FAILED", "completed"] the bot stops at poll 0 and the helper at poll 1; on ["canceled"] the helper does not stop. |
| `BatchStatus.FailedOrCanceledStopsOnlyTheBot` | examples/helpers.py:74 | When every observed status lower-cases to failed or canceled, the helper never stops, and the bot (main.py:245) stops at the first poll if there is one. |
| `BatchStatus.SaveResults` | github-issue-summarizer-bot/main.py:264-275 | Returns True, and writes the output file unchanged, exactly when the status is completed. Otherwise nothing is written. |
| `BatchStatus.SavedOnlyWhenCompleted` | github-issue-summarizer-bot/main.py:245-275 | After the bot's loop stops, results are saved exactly when the final status is completed. They are not saved exactly when it is failed or canceled. |
| `BatchResults.LenientExtendsStrict` | github-issue-summarizer-bot/main.py:341 | Where the helper's strict content lookup succeeds, the bot's `.get` chain yields the same text. Where it fails, the bot yields "No content available" or raises. The bot raises exactly when `choices` is an empty list. |
| `ResultPosting.LastWithId` | github-issue-summarizer-bot/main.py:322-327 | Returns the position of the last input record carrying an id, with no later one carrying it; `None` means no record carries it. |
| `ResultPosting.ResolveFindsLastRecord` | github-issue-summarizer-bot/main.py:321-342 | An id resolves to the URL and title of the last input record carrying it (a later duplicate overwrites). An id no record carries resolves to ("No URL available", "No title available"). |
| `ResultPosting.BuildIssueUrlMap` | github-issue-summarizer-bot/main.py:318-327 | After the loop, the map built from the input file resolves every id as `ResolveFindsLastRecord` states. |
| `ResultPosting.SubmittedTaskResolves` | github-issue-summarizer-bot/main.py:321-342 | When submitted ids are pairwise distinct, a result bearing task i's id resolves to task i's URL and title. |
| `ResultPosting.IssueResultResolves` | github-issue-summarizer-bot/main.py:158-342 | For the tasks built by `prepare_klusterai_job`, a result with id `issue-<i+1>` is attributed to issue i's URL and title. |
| `ResultPosting.UnknownIdGetsDefaults` | github-issue-summarizer-bot/main.py:342 | A result id that no submitted task carries gets the two "not available" defaults. |
| `ResultPosting.ProcessAndPostResults` | github-issue-summarizer-bot/main.py:309-345 | Posts the heading first, then one message per result in file order: a bold "Title:" line linking the url under the bracketed title, then the content and a blank line, with url and title resolved from the id and content from the `.get` chain (`PostFor`). It stops at the first result whose `choices` list is empty, which raises. |
| `JsonLines.ParsedLinesAppend` | examples/helpers.py:56-61 | Parsing a list of lines distributes over concatenation: each line contributes independently, in order. |
| `JsonLines.ParseJsonObjects` | examples/helpers.py:49-63 | Fails only when byte input does not decode. Otherwise it returns, in order, the parse of every line of the stripped text split on '\n', skipping lines that do not parse. There are never more objects than lines. |
| `JsonLines.ParsedLinesBound` | examples/helpers.py:56-61 | There are at most as many objects as lines. |
| `JsonLines.SkipsUnparsableLine` | examples/helpers.py:57-61 | A line that fails to parse is skipped and does not affect the lines around it. |
| `JsonLines.AllLinesParse` | examples/helpers.py:56-59 | When every line parses, there is one object per line and object i is the parse of line i. |
| `JsonLines.LinesRejoin` | examples/helpers.py:53 | No line contains '\n'. Joining the lines with '\n' gives back the stripped input. |
| `JsonLines.BytesAndTextAgree` | examples/helpers.py:50-51 | Bytes and the string they decode to give the same objects. |
| `JsonLines.BlankInputYieldsNothing` | examples/helpers.py:53-61 | Whitespace-only input gives no objects, since the single empty line does not parse. |
| `JsonLines.GetResults` | examples/helpers.py:90-101 | Returns one answer per parsed result, in the same order, each equal to `response.body.choices[0].message.content`. It raises when the file does not decode or any parsed result lacks that path. |
| `Text.NatToStringInjective` | github-issue-summarizer-bot/main.py:173 | Different natural numbers have different decimal renderings. |
| `Text.IntToStringInjective` | examples/helpers.py:11 | Different integers, negative ones included, have different `str` renderings. |
| `Text.SplitJoin` | examples/helpers.py:53 | The pieces of `split(c)` contain no `c`, and joining them with `c` gives back the input. |
| `Text.StripIsTrimmedSlice` | examples/helpers.py:53 | `strip()` returns a contiguous slice whose removed ends are all whitespace and which neither starts nor ends with whitespace. |

## Left out

- All HTTP traffic: the GitHub REST calls, `post_to_slack` and its error reporting, and the batch client's upload, create, retrieve and download calls. Their results are inputs to the model: a page sequence, comment lists, status sequences, file contents.
- `submit_klusterai_job` apart from its poll loop, `save_tasks` and `create_batch_job`. These only write files and call the batch API.
- `main()`: it sequences the modelled steps, returns early when no issues are found (main.py:364-366), and processes and posts results only when the final status lower-cases to completed (main.py:375); that last test is `BatchStatus.IsCompleted`, but `main` itself is not modelled. Nor are `load_config`, `get_last_run_time` and `update_last_run_time`, which are configuration and file I/O.
- The tokenizer: `calculate_tokens` is the parameter `count`, not a real tokenizer.
- `time.sleep`, wall-clock time and the date in the heading message, which is a parameter of `ProcessAndPostResults`.
- JSON serialisation and parsing. Parsing is a parameter of `JsonLines`. The bot's input and output files are given as already-parsed records, so `json.loads` raising on a malformed line of those files is not modelled. Writing a task out and reading it back is modelled as the exact record (`ResultPosting.RecordOf`).
- JSON `null` values: every field is either present with a value of the expected type or absent. Python would render a null title or body as "None", and would raise on a null `comments` count or a null nested object.
- A line that is valid JSON but not an object (for example `[1]`): `parse_json_objects` keeps it and `get_results` then raises `TypeError` indexing it. The parser parameter of `GetResults` yields result records only, so such a line is skipped there and `GetResults` returns answers where `get_results` raises.
- A comments or listing response that is a JSON object instead of a list, and dataframe index labels that are not integers.
- `Text.Lower` only lower-cases ASCII letters; Python's `str.lower` also maps non-ASCII letters. The status strings compared against are ASCII.
- `BatchStatus.AwaitBatch`: polling forever when no terminal status ever arrives is shown as `None` after a finite sequence of observations.
- `BatchStatus.MonitorJobStatus`: polling forever when the job never completes is shown as `None` after a finite sequence of observations.
- IPython `clear_output` / `display` and the progress strings shown while polling: notebook output.
