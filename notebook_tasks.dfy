/** `create_tasks` of the notebook helpers: one request per dataframe row. */
module NotebookTasks {
  import opened Wrappers
  import opened Text
  import opened BatchTasks

  /** A dataframe row: its index label and the value of the content column. */
  datatype Row = Row(index: int, content: string)

  /** `f"{task_type}-{index}"` */
  function RowId(taskType: string, index: int): string {
    taskType + "-" + IntToString(index)
  }

  /** Two rows get the same id exactly when they have the same index label. */
  lemma RowIdInjective(taskType: string, a: int, b: int)
    ensures RowId(taskType, a) == RowId(taskType, b) <==> a == b
  {
    if RowId(taskType, a) == RowId(taskType, b) {
      PrefixCancel(taskType + "-", IntToString(a), IntToString(b));
      IntToStringInjective(a, b);
    }
  }

  /**
   * One task per row, in row order, with id `<task_type>-<index>`, temperature
   * 0, at most 100 completion tokens and exactly two messages: the system
   * prompt, then the row's content as the user message. Ids are pairwise
   * distinct exactly when the index labels are.
   */
  method CreateTasks(rows: seq<Row>, taskType: string, systemPrompt: string, model: string)
    returns (tasks: seq<Task>)
    ensures |tasks| == |rows|
    ensures forall i :: 0 <= i < |rows| ==>
              && tasks[i].customId == RowId(taskType, rows[i].index)
              && tasks[i].httpMethod == PostMethod
              && tasks[i].url == CompletionsEndpoint
              && tasks[i].body.model == model
              && tasks[i].body.temperature == Some(0)
              && tasks[i].body.maxCompletionTokens == Some(100)
              && tasks[i].body.messages == [Message("system", systemPrompt), Message("user", rows[i].content)]
              && tasks[i].metadata == None
    ensures forall i, j :: 0 <= i < |rows| && 0 <= j < |rows| ==>
              (tasks[i].customId == tasks[j].customId <==> rows[i].index == rows[j].index)
  {
    tasks := [];
    for i := 0 to |rows|
      invariant |tasks| == i
      invariant forall k :: 0 <= k < i ==>
                  tasks[k] == Task(RowId(taskType, rows[k].index), PostMethod, CompletionsEndpoint,
                    RequestBody(model, Some(0), Some(100),
                      [Message("system", systemPrompt), Message("user", rows[k].content)]),
                    None)
    {
      var row := rows[i];
      var content := row.content;
      var task := Task(
        taskType + "-" + IntToString(row.index),
        "POST",
        "/v1/chat/completions",
        RequestBody(model, Some(0), Some(100),
          [Message("system", systemPrompt), Message("user", content)]),
        None);
      tasks := tasks + [task];
    }
    forall i, j | 0 <= i < |rows| && 0 <= j < |rows|
      ensures tasks[i].customId == tasks[j].customId <==> rows[i].index == rows[j].index
    {
      RowIdInjective(taskType, rows[i].index, rows[j].index);
    }
  }
}
