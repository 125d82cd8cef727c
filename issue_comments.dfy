/**
 * Token-budgeted accumulation of an issue's comments (`fetch_issue_comments`).
 * The HTTP request is replaced by the list of comments it returns, and the
 * tokenizer by an arbitrary token-count function `count`.
 */
module IssueComments {
  import opened Wrappers
  import opened Text

  const Separator := "\n---\n"

  /** A comment object of the GitHub listing; `body` is absent when the key is missing. */
  datatype Comment = Comment(body: Option<string>)

  /** `comment.get("body", "")` */
  function BodyOf(c: Comment): string {
    c.body.GetOr("")
  }

  function Bodies(cs: seq<Comment>): (bs: seq<string>)
    ensures |bs| == |cs|
    ensures forall i :: 0 <= i < |cs| ==> bs[i] == BodyOf(cs[i])
  {
    if cs == [] then [] else [BodyOf(cs[0])] + Bodies(cs[1..])
  }

  /** One step of the loop: a separator goes in front only when the text so far is not empty. */
  function Append(text: string, body: string): string {
    if text != "" then text + Separator + body else text + body
  }

  /** The text after appending `bodies` one by one, starting from "". */
  function Accumulated(bodies: seq<string>): string {
    if bodies == [] then "" else Append(Accumulated(bodies[..|bodies| - 1]), bodies[|bodies| - 1])
  }

  /** The budget test made before adding `body` to `text`; separators are not counted. */
  predicate Fits(count: string -> nat, limit: int, text: string, body: string) {
    count(text) + count(body) <= limit
  }

  /** The index of the first comment, from `i` on, that fails the budget test (or the end). */
  function StopFrom(bodies: seq<string>, count: string -> nat, limit: int, i: nat): (k: nat)
    requires i <= |bodies|
    ensures i <= k <= |bodies|
    ensures forall j :: i <= j < k ==> Fits(count, limit, Accumulated(bodies[..j]), bodies[j])
    ensures k < |bodies| ==> !Fits(count, limit, Accumulated(bodies[..k]), bodies[k])
    decreases |bodies| - i
  {
    if i == |bodies| || !Fits(count, limit, Accumulated(bodies[..i]), bodies[i]) then i
    else StopFrom(bodies, count, limit, i + 1)
  }

  /** How many comments are kept. */
  function KeptCount(comments: seq<Comment>, count: string -> nat, limit: int): nat {
    StopFrom(Bodies(comments), count, limit, 0)
  }

  /** The text `fetch_issue_comments` returns for `comments`. */
  function CommentsText(comments: seq<Comment>, count: string -> nat, limit: int): string {
    Accumulated(Bodies(comments)[..KeptCount(comments, count, limit)])
  }

  /**
   * The loop of `fetch_issue_comments`. The text returned accumulates the
   * bodies of the first `kept` comments in order; each of them passed the
   * budget test when it was added, and comment `kept`, if any, is the first
   * that failed it: nothing after it is added, however small.
   */
  method FetchIssueComments(comments: seq<Comment>, count: string -> nat, limit: int)
    returns (text: string, ghost kept: nat)
    ensures kept <= |comments|
    ensures text == Accumulated(Bodies(comments)[..kept])
    ensures forall i :: 0 <= i < kept ==>
              Fits(count, limit, Accumulated(Bodies(comments)[..i]), BodyOf(comments[i]))
    ensures kept < |comments| ==>
              !Fits(count, limit, Accumulated(Bodies(comments)[..kept]), BodyOf(comments[kept]))
    ensures text == CommentsText(comments, count, limit)
  {
    ghost var bodies := Bodies(comments);
    text := "";
    var i := 0;
    while i < |comments|
      invariant i <= |comments|
      invariant text == Accumulated(bodies[..i])
      invariant StopFrom(bodies, count, limit, i) == KeptCount(comments, count, limit)
    {
      var body := BodyOf(comments[i]);
      var currentTokens := count(text);
      var newCommentTokens := count(body);
      if currentTokens + newCommentTokens > limit {
        break;
      }
      KeepStep(bodies, count, limit, i);
      if text != "" {
        text := text + Separator;
      }
      text := text + body;
      i := i + 1;
    }
    kept := i;
    KeptCountFacts(comments, count, limit);
  }

  /** A comment that passes the budget test is appended and the stop index moves past it. */
  lemma KeepStep(bodies: seq<string>, count: string -> nat, limit: int, i: nat)
    requires i < |bodies| && Fits(count, limit, Accumulated(bodies[..i]), bodies[i])
    ensures StopFrom(bodies, count, limit, i) == StopFrom(bodies, count, limit, i + 1)
    ensures Accumulated(bodies[..i + 1]) == Append(Accumulated(bodies[..i]), bodies[i])
  {
    assert bodies[..i + 1][..i] == bodies[..i];
  }

  /** `KeptCount` is the index of the first comment that fails the budget test, or the end. */
  lemma KeptCountFacts(comments: seq<Comment>, count: string -> nat, limit: int)
    ensures KeptCount(comments, count, limit) <= |comments|
    ensures forall i :: 0 <= i < KeptCount(comments, count, limit) ==>
              Fits(count, limit, Accumulated(Bodies(comments)[..i]), BodyOf(comments[i]))
    ensures KeptCount(comments, count, limit) < |comments| ==>
              !Fits(count, limit, Accumulated(Bodies(comments)[..KeptCount(comments, count, limit)]),
                    BodyOf(comments[KeptCount(comments, count, limit)]))
  {
  }

  // ---------------------------------------------------------------------------
  // What the accumulated text looks like.

  function DropLeadingEmpty(bodies: seq<string>): (r: seq<string>)
    ensures r != [] ==> r[0] != ""
  {
    if bodies != [] && bodies[0] == "" then DropLeadingEmpty(bodies[1..]) else bodies
  }

  /**
   * The accumulated text is the kept bodies joined by "\n---\n", except that
   * bodies that are empty before the first non-empty one leave no trace (the
   * separator is only added after a non-empty text): no leading or trailing
   * separator is ever produced by them.
   */
  lemma {:induction false} AccumulatedIsJoin(bodies: seq<string>)
    ensures Accumulated(bodies) == Join(DropLeadingEmpty(bodies), Separator)
    decreases |bodies|
  {
    if bodies != [] {
      var n := |bodies| - 1;
      var init, last := bodies[..n], bodies[n];
      assert bodies == init + [last];
      AccumulatedIsJoin(init);
      DropLeadingEmptySnoc(init, last);
      if Accumulated(init) != "" {
        JoinSnoc(DropLeadingEmpty(init), last, Separator);
      }
    }
  }

  lemma {:induction false} DropLeadingEmptySnoc(init: seq<string>, last: string)
    ensures DropLeadingEmpty(init + [last]) ==
            if DropLeadingEmpty(init) == [] then DropLeadingEmpty([last])
            else DropLeadingEmpty(init) + [last]
    decreases |init|
  {
    if init != [] {
      assert (init + [last])[1..] == init[1..] + [last];
      if init[0] == "" {
        DropLeadingEmptySnoc(init[1..], last);
      }
    }
  }

  /** When the first kept body is not empty, the text is exactly the kept bodies joined. */
  lemma AccumulatedIsPlainJoin(bodies: seq<string>)
    requires bodies != [] && bodies[0] != ""
    ensures Accumulated(bodies) == Join(bodies, Separator)
  {
    AccumulatedIsJoin(bodies);
  }

  /** No comments, or only empty ones, give the empty text. */
  lemma AccumulatedEmpty(bodies: seq<string>)
    requires forall i :: 0 <= i < |bodies| ==> bodies[i] == ""
    ensures Accumulated(bodies) == ""
  {
    AccumulatedIsJoin(bodies);
    DropAllEmpty(bodies);
  }

  lemma {:induction false} DropAllEmpty(bodies: seq<string>)
    requires forall i :: 0 <= i < |bodies| ==> bodies[i] == ""
    ensures DropLeadingEmpty(bodies) == []
    decreases |bodies|
  {
    if bodies != [] {
      DropAllEmpty(bodies[1..]);
    }
  }

  /** An empty first body adds no separator: ["", "a"] accumulates to "a", not "\n---\na". */
  lemma LeadingEmptyBodyAddsNoSeparator()
    ensures Accumulated(["", "a"]) == "a"
    ensures Join(["", "a"], Separator) == "\n---\na"
  {
    assert ["", "a"][..1] == [""];
  }

  /**
   * An empty body after a non-empty text still adds a separator, so the text
   * ends in "\n---\n": ["a", ""] accumulates to "a\n---\n".
   */
  lemma EmptyBodyAfterTextAddsTrailingSeparator(init: seq<string>)
    requires Accumulated(init) != ""
    ensures Accumulated(init + [""]) == Accumulated(init) + Separator
    ensures Accumulated(["a", ""]) == "a\n---\n"
  {
    assert (init + [""])[..|init|] == init;
    assert ["a", ""][..1] == ["a"] && ["a"][..0] == [];
  }

  function CharCount(s: string): nat {
    |s|
  }

  /**
   * The budget test ignores the separators, so the returned text can exceed
   * the budget: with one token per character and a budget of 2, the comments
   * "a" and "a" are both kept and the text "a\n---\na" has 7 tokens.
   */
  lemma SeparatorsCanExceedBudget()
    ensures KeptCount([Comment(Some("a")), Comment(Some("a"))], CharCount, 2) == 2
    ensures CommentsText([Comment(Some("a")), Comment(Some("a"))], CharCount, 2) == "a\n---\na"
  {
    var cs := [Comment(Some("a")), Comment(Some("a"))];
    var bs := Bodies(cs);
    assert bs == ["a", "a"];
    assert bs[..0] == [] && bs[..1] == ["a"] && bs[..2] == bs;
    assert Accumulated(["a"]) == "a" by {
      assert ["a"][..0] == [];
    }
    assert Accumulated(bs) == "a\n---\na" by {
      assert bs[..1] == ["a"];
    }
  }
}
