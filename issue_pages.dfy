/**
 * The pagination loop of `fetch_github_issues`. The issue listing is given as
 * the sequence of responses the server would send for pages 1, 2, ...;
 * beyond the end of that sequence every page is empty.
 */
module IssuePages {

  /** The outcome of one page request: the decoded list, or a transport error. */
  datatype Response<T> = Page(items: seq<T>) | TransportError

  /** The response to the request for page `n` (pages are numbered from 1). */
  function PageAt<T>(server: seq<Response<T>>, n: nat): Response<T> {
    if 1 <= n <= |server| then server[n - 1] else Page([])
  }

  /** The loop leaves on an error or on the first empty page. */
  predicate Stops<T>(r: Response<T>) {
    r.TransportError? || r.items == []
  }

  /** The first page, from `n` on, on which the loop leaves. */
  function StopFrom<T>(server: seq<Response<T>>, n: nat): (last: nat)
    ensures n <= last && (n <= |server| + 1 ==> last <= |server| + 1)
    ensures Stops(PageAt(server, last))
    ensures forall m :: n <= m < last ==> !Stops(PageAt(server, m))
    decreases |server| + 1 - n
  {
    if Stops(PageAt(server, n)) then n else StopFrom(server, n + 1)
  }

  /** The number of requests the loop makes: the page it stops on. */
  function LastPage<T>(server: seq<Response<T>>): nat {
    StopFrom(server, 1)
  }

  /** All items of the given responses, in order. */
  function Flatten<T>(pages: seq<Response<T>>): seq<T> {
    if pages == [] then []
    else (if pages[0].Page? then pages[0].items else []) + Flatten(pages[1..])
  }

  /** What `fetch_github_issues` returns: the pages before the stop, or [] if it stopped on an error. */
  function Listing<T>(server: seq<Response<T>>): seq<T> {
    var last := LastPage(server);
    if PageAt(server, last).TransportError? then [] else Flatten(server[..last - 1])
  }

  /**
   * The loop: pages 1, 2, ... are requested in order up to the first empty
   * page or the first error; the result is the concatenation of the pages
   * before it, or [] when it was an error. `requested` records the page
   * numbers sent.
   */
  method FetchGithubIssues<T>(server: seq<Response<T>>) returns (issues: seq<T>, ghost requested: seq<nat>)
    ensures |requested| == LastPage(server)
    ensures forall k :: 0 <= k < |requested| ==> requested[k] == k + 1
    ensures issues == Listing(server)
  {
    issues := [];
    requested := [];
    var page := 1;
    while true
      invariant 1 <= page <= LastPage(server)
      invariant |requested| == page - 1
      invariant forall k :: 0 <= k < |requested| ==> requested[k] == k + 1
      invariant issues == Flatten(server[..page - 1])
      decreases |server| + 1 - page
    {
      requested := requested + [page];
      var response := PageAt(server, page);
      if response.TransportError? {
        issues := [];
        return;
      }
      var pageIssues := response.items;
      if pageIssues == [] {
        break;
      }
      FlattenSnoc(server[..page - 1], response);
      assert server[..page] == server[..page - 1] + [response];
      issues := issues + pageIssues;
      page := page + 1;
    }
  }

  lemma {:induction false} FlattenSnoc<T>(pages: seq<Response<T>>, r: Response<T>)
    requires r.Page?
    ensures Flatten(pages + [r]) == Flatten(pages) + r.items
    decreases |pages|
  {
    if pages == [] {
      assert Flatten([r]) == r.items + Flatten([]);
    } else {
      var head := if pages[0].Page? then pages[0].items else [];
      assert (pages + [r])[0] == pages[0];
      assert (pages + [r])[1..] == pages[1..] + [r];
      assert Flatten(pages + [r]) == head + Flatten(pages[1..] + [r]);
      FlattenSnoc(pages[1..], r);
      assert Flatten(pages) == head + Flatten(pages[1..]);
    }
  }

  /** A page that stops the loop, reached from `n` without an earlier stop, is where it stops. */
  lemma {:induction false} StopFromIsFirst<T>(server: seq<Response<T>>, n: nat, k: nat)
    requires n <= k && Stops(PageAt(server, k))
    requires forall m :: n <= m < k ==> !Stops(PageAt(server, m))
    ensures StopFrom(server, n) == k
    decreases k - n
  {
    if n < k {
      StopFromIsFirst(server, n + 1, k);
    }
  }

  /** The loop stops no later than any page that would stop it. */
  lemma {:induction false} StopFromAtMost<T>(server: seq<Response<T>>, n: nat, k: nat)
    requires n <= k && Stops(PageAt(server, k))
    ensures StopFrom(server, n) <= k
    decreases k - n
  {
    if n < k && !Stops(PageAt(server, n)) {
      StopFromAtMost(server, n + 1, k);
    }
  }

  /**
   * A listing of non-empty pages is fetched in |server| + 1 requests (the last
   * one sees the empty page past the end) and returned whole.
   */
  lemma NonEmptyPagesFetchedWhole<T>(server: seq<Response<T>>)
    requires forall i :: 0 <= i < |server| ==> server[i].Page? && server[i].items != []
    ensures LastPage(server) == |server| + 1
    ensures Listing(server) == Flatten(server)
  {
    forall m | 1 <= m < |server| + 1 ensures !Stops(PageAt(server, m)) {
      assert PageAt(server, m) == server[m - 1];
    }
    StopFromIsFirst(server, 1, |server| + 1);
    assert server[..|server|] == server;
  }

  /** An error on the first page that is not a non-empty list discards every page fetched before it. */
  lemma ErrorDiscardsAll<T>(server: seq<Response<T>>, n: nat)
    requires 1 <= n <= |server| && server[n - 1].TransportError?
    requires forall i :: 0 <= i < n - 1 ==> server[i].Page? && server[i].items != []
    ensures LastPage(server) == n
    ensures Listing(server) == []
  {
    forall m | 1 <= m < n ensures !Stops(PageAt(server, m)) {
      assert PageAt(server, m) == server[m - 1];
    }
    StopFromIsFirst(server, 1, n);
  }

  /** Pages after the first empty one are never requested: what follows it does not matter. */
  lemma LaterPagesIgnored<T>(server: seq<Response<T>>, more: seq<Response<T>>, n: nat)
    requires 1 <= n <= |server| && server[n - 1] == Page([])
    ensures LastPage(server + more) == LastPage(server)
    ensures Listing(server + more) == Listing(server)
  {
    assert PageAt(server, n) == server[n - 1];
    StopFromAtMost(server, 1, n);
    var a := LastPage(server);
    forall m | 1 <= m <= a ensures PageAt(server + more, m) == PageAt(server, m) { }
    StopFromIsFirst(server + more, 1, a);
    assert (server + more)[..a - 1] == server[..a - 1];
  }
}
