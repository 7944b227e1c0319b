/**
 * Searching the view/job trees of several CI servers for a name, narrowing
 * the hits to pipeline jobs, and mapping the operator's pick back to a job.
 *
 * The server's JSON answers are inputs: each server comes with the outcome
 * of its views request and of its jobs request. The prompts are inputs too:
 * the text the selection list returned and the answer to "build this job?".
 */
module JenkinsSearch {
  import opened Wrappers
  import opened Text
  import opened JenkinsModel
  import opened SearchResultModel

  /**
   * One view or job object of a fetched tree. `username` and `apiToken` are
   * present only on objects the client tagged; the server's own JSON has no
   * such keys. A missing `views` or `jobs` key is the empty sequence: the
   * search treats both alike.
   */
  datatype Item = Item(cls: string, name: string, url: string,
                       username: Option<string>, apiToken: Option<string>,
                       views: seq<Item>, jobs: seq<Item>)

  /** The (lowercased) search term occurs in the lowercased name. */
  predicate NameMatches(term: string, it: Item) {
    Contains(Lower(it.name), term)
  }

  /** `item.get("username", "")` and `item.get("api_token", "")` */
  function OwnUsername(it: Item): string { it.username.GetOr("") }
  function OwnToken(it: Item): string { it.apiToken.GetOr("") }

  /** The hit recorded for a matching node itself. */
  function Own(it: Item): SearchResult {
    SearchResult(it.cls, it.name, it.url, OwnUsername(it), OwnToken(it))
  }

  /** The hit recorded for an immediate child of a matching node: it carries the parent's credentials. */
  function Child(parent: Item, c: Item): SearchResult {
    SearchResult(c.cls, c.name, c.url, OwnUsername(parent), OwnToken(parent))
  }

  function ChildRecords(parent: Item, cs: seq<Item>): (r: seq<SearchResult>)
    ensures |r| == |cs|
    ensures forall i :: 0 <= i < |cs| ==> r[i] == Child(parent, cs[i])
  {
    seq(|cs|, i requires 0 <= i < |cs| => Child(parent, cs[i]))
  }

  lemma ChildRecordsSnoc(parent: Item, cs: seq<Item>, c: Item)
    ensures ChildRecords(parent, cs + [c]) == ChildRecords(parent, cs) + [Child(parent, c)]
  {
  }

  /** What a matching node contributes: itself, then each immediate view, then each immediate job. */
  function Expansion(it: Item): (r: seq<SearchResult>)
    ensures |r| == 1 + |it.views| + |it.jobs| && r[0] == Own(it)
  {
    [Own(it)] + ChildRecords(it, it.views) + ChildRecords(it, it.jobs)
  }

  /** The hits of a depth-first search of `items`, in the order they are recorded. */
  function Matches(term: string, items: seq<Item>): seq<SearchResult>
    decreases items
  {
    if items == [] then [] else NodeMatches(term, items[0]) + Matches(term, items[1..])
  }

  /** A matching node contributes its expansion and nothing from below it. */
  function NodeMatches(term: string, it: Item): (r: seq<SearchResult>)
    ensures NameMatches(term, it) ==> |r| == 1 + |it.views| + |it.jobs| && r[0] == Own(it)
    decreases it
  {
    if NameMatches(term, it) then Expansion(it)
    else Matches(term, it.views) + Matches(term, it.jobs)
  }

  /** The search of a concatenation is the concatenation of the searches: hits keep the order of the lists. */
  lemma {:induction false} MatchesAppend(term: string, a: seq<Item>, b: seq<Item>)
    ensures Matches(term, a + b) == Matches(term, a) + Matches(term, b)
    decreases |a|
  {
    if a == [] {
      assert a + b == b;
    } else {
      assert (a + b)[0] == a[0];
      assert (a + b)[1..] == a[1..] + b;
      MatchesAppend(term, a[1..], b);
    }
  }

  lemma MatchesSplit(term: string, items: seq<Item>, k: int)
    requires 0 <= k < |items|
    ensures Matches(term, items) == Matches(term, items[..k]) + NodeMatches(term, items[k]) + Matches(term, items[k + 1..])
    ensures Matches(term, items[..k + 1]) == Matches(term, items[..k]) + NodeMatches(term, items[k])
  {
    assert items == items[..k] + ([items[k]] + items[k + 1..]);
    MatchesAppend(term, items[..k], [items[k]] + items[k + 1..]);
    assert items[..k + 1] == items[..k] + [items[k]];
    MatchesAppend(term, items[..k], [items[k]]);
  }

  /**
   * `n` is visited by the search of `items`: it is in `items`, or it is reached
   * through `views` or `jobs` of a node of `items` whose name does not match.
   */
  ghost predicate Exposed(term: string, items: seq<Item>, n: Item)
    decreases items
  {
    n in items ||
    exists i :: 0 <= i < |items| && !NameMatches(term, items[i]) &&
      (Exposed(term, items[i].views, n) || Exposed(term, items[i].jobs, n))
  }

  /** Every visited node whose name matches is recorded, together with all its immediate children. */
  lemma {:induction false} Completeness(term: string, items: seq<Item>, n: Item)
    requires Exposed(term, items, n) && NameMatches(term, n)
    ensures forall r :: r in Expansion(n) ==> r in Matches(term, items)
    decreases items
  {
    if n in items {
      var k :| 0 <= k < |items| && items[k] == n;
      MatchesSplit(term, items, k);
    } else {
      var i :| 0 <= i < |items| && !NameMatches(term, items[i]) &&
        (Exposed(term, items[i].views, n) || Exposed(term, items[i].jobs, n));
      MatchesSplit(term, items, i);
      if Exposed(term, items[i].views, n) {
        Completeness(term, items[i].views, n);
      } else {
        Completeness(term, items[i].jobs, n);
      }
    }
  }

  lemma ExposedTail(term: string, items: seq<Item>, n: Item)
    requires items != [] && Exposed(term, items[1..], n)
    ensures Exposed(term, items, n)
  {
    if n !in items[1..] {
      var i :| 0 <= i < |items[1..]| && !NameMatches(term, items[1..][i]) &&
        (Exposed(term, items[1..][i].views, n) || Exposed(term, items[1..][i].jobs, n));
      assert items[1..][i] == items[i + 1];
    }
  }

  /**
   * Every hit is a visited matching node or one of its immediate children:
   * nothing below a matching node is searched.
   */
  lemma {:induction false} Soundness(term: string, items: seq<Item>, r: SearchResult)
    requires r in Matches(term, items)
    ensures exists n :: Exposed(term, items, n) && NameMatches(term, n) && r in Expansion(n)
    decreases items
  {
    var head := items[0];
    if r in Matches(term, items[1..]) {
      Soundness(term, items[1..], r);
      var n :| Exposed(term, items[1..], n) && NameMatches(term, n) && r in Expansion(n);
      ExposedTail(term, items, n);
    } else if NameMatches(term, head) {
      assert Exposed(term, items, head);
    } else if r in Matches(term, head.views) {
      Soundness(term, head.views, r);
      var n :| Exposed(term, head.views, n) && NameMatches(term, n) && r in Expansion(n);
      assert Exposed(term, items, n);
    } else {
      Soundness(term, head.jobs, r);
      var n :| Exposed(term, head.jobs, n) && NameMatches(term, n) && r in Expansion(n);
      assert Exposed(term, items, n);
    }
  }

  /** The search finds nothing exactly when no visited node's name matches. */
  lemma NoHitsIff(term: string, items: seq<Item>)
    ensures Matches(term, items) == [] <==> forall n :: Exposed(term, items, n) ==> !NameMatches(term, n)
  {
    if Matches(term, items) != [] {
      Soundness(term, items, Matches(term, items)[0]);
    }
    forall n | Exposed(term, items, n) && NameMatches(term, n)
      ensures Matches(term, items) != []
    {
      Completeness(term, items, n);
      assert Own(n) in Expansion(n);
    }
  }

  // ---------------------------------------------------------------------------
  // Credentials

  /** No node of the tree carries credentials: the shape of the server's JSON. */
  ghost predicate Untagged(items: seq<Item>)
    decreases items
  {
    forall i :: 0 <= i < |items| ==>
      items[i].username.None? && items[i].apiToken.None? &&
      Untagged(items[i].views) && Untagged(items[i].jobs)
  }

  /** Tagging one top-level object: `item["username"] = ...; item["api_token"] = ...`. */
  function Tag(it: Item, jenkins: Jenkins): Item {
    it.(username := Some(jenkins.username), apiToken := Some(jenkins.apiToken))
  }

  function Tagged(items: seq<Item>, jenkins: Jenkins): seq<Item> {
    seq(|items|, i requires 0 <= i < |items| => Tag(items[i], jenkins))
  }

  /**
   * The tagging loop of `get_jenkins_views` / `get_jenkins_jobs`: every
   * top-level object gets the server's credentials, nothing else changes, and
   * nested objects stay untagged.
   */
  method TagCredentials(data: seq<Item>, jenkins: Jenkins) returns (tagged: seq<Item>)
    ensures |tagged| == |data|
    ensures forall i :: 0 <= i < |data| ==>
      tagged[i].username == Some(jenkins.username) && tagged[i].apiToken == Some(jenkins.apiToken) &&
      tagged[i].cls == data[i].cls && tagged[i].name == data[i].name && tagged[i].url == data[i].url &&
      tagged[i].views == data[i].views && tagged[i].jobs == data[i].jobs
    ensures tagged == Tagged(data, jenkins)
  {
    tagged := data;
    var i := 0;
    while i < |data|
      invariant 0 <= i <= |data| && |tagged| == |data|
      invariant forall j :: 0 <= j < i ==> tagged[j] == Tag(data[j], jenkins)
      invariant forall j :: i <= j < |data| ==> tagged[j] == data[j]
    {
      tagged := tagged[i := Tag(tagged[i], jenkins)];
      i := i + 1;
    }
  }

  lemma {:induction false} ExposedUntagged(term: string, items: seq<Item>, n: Item)
    requires Untagged(items) && Exposed(term, items, n)
    ensures n.username.None? && n.apiToken.None?
    decreases items
  {
    if n !in items {
      var i :| 0 <= i < |items| && !NameMatches(term, items[i]) &&
        (Exposed(term, items[i].views, n) || Exposed(term, items[i].jobs, n));
      if Exposed(term, items[i].views, n) {
        ExposedUntagged(term, items[i].views, n);
      } else {
        ExposedUntagged(term, items[i].jobs, n);
      }
    }
  }

  /** Hits found in an untagged tree carry empty credentials. */
  lemma UntaggedHitsHaveNoCredentials(term: string, items: seq<Item>, r: SearchResult)
    requires Untagged(items) && r in Matches(term, items)
    ensures r.username == "" && r.apiToken == ""
  {
    Soundness(term, items, r);
    var n :| Exposed(term, items, n) && NameMatches(term, n) && r in Expansion(n);
    ExposedUntagged(term, items, n);
  }

  /**
   * Only top-level objects are tagged, so a hit carries the server's
   * credentials when it comes from a matching top-level object (or is one of
   * its children), and empty credentials when it was found deeper.
   */
  lemma TopLevelCredentials(term: string, items: seq<Item>, jenkins: Jenkins, k: int, r: SearchResult)
    requires Untagged(items) && 0 <= k < |items|
    requires r in NodeMatches(term, Tagged(items, jenkins)[k])
    ensures NameMatches(term, items[k]) ==> r.username == jenkins.username && r.apiToken == jenkins.apiToken
    ensures !NameMatches(term, items[k]) ==> r.username == "" && r.apiToken == ""
  {
    var it := items[k];
    if !NameMatches(term, it) {
      if r in Matches(term, it.views) {
        UntaggedHitsHaveNoCredentials(term, it.views, r);
      } else {
        UntaggedHitsHaveNoCredentials(term, it.jobs, r);
      }
    }
  }

  // ---------------------------------------------------------------------------
  // The search over all servers

  /** The outcome of one tree request: the returned list, or a raised request/HTTP error. */
  datatype Fetch = Fetched(items: seq<Item>) | FetchFailed

  /** A configured server together with what its views and jobs requests return. */
  datatype Server = Server(config: Jenkins, views: Fetch, jobs: Fetch)

  /** The hits of one server: its tagged views searched, then its tagged jobs; `None` when a request fails. */
  function ServerMatches(term: string, s: Server): (r: Option<seq<SearchResult>>)
    ensures r.Some? <==> s.views.Fetched? && s.jobs.Fetched?
  {
    match s.views
    case FetchFailed => None
    case Fetched(vs) =>
      match s.jobs
      case FetchFailed => None
      case Fetched(js) => Some(Matches(term, Tagged(vs, s.config)) + Matches(term, Tagged(js, s.config)))
  }

  datatype Gathered = Hits(results: seq<SearchResult>) | Aborted(server: nat)

  /** All hits in server order, or the index of the server whose request failed first. */
  function Gather(term: string, servers: seq<Server>): (g: Gathered)
    ensures g.Aborted? ==> g.server < |servers|
    decreases |servers|
  {
    if servers == [] then Hits([])
    else
      var last := |servers| - 1;
      match Gather(term, servers[..last])
      case Aborted(i) => Aborted(i)
      case Hits(rs) =>
        match ServerMatches(term, servers[last])
        case None => Aborted(last)
        case Some(m) => Hits(rs + m)
  }

  /** Every hit is gathered exactly when every request of every server succeeds. */
  lemma {:induction false} GatherSucceeds(term: string, servers: seq<Server>)
    ensures Gather(term, servers).Hits? <==> forall j :: 0 <= j < |servers| ==> ServerMatches(term, servers[j]).Some?
    decreases |servers|
  {
    if servers != [] {
      var last := |servers| - 1;
      assert forall j :: 0 <= j < last ==> servers[..last][j] == servers[j];
      GatherSucceeds(term, servers[..last]);
    }
  }

  /** When every request succeeds, nothing is found exactly when no server has a hit. */
  lemma {:induction false} GatherEmpty(term: string, servers: seq<Server>)
    requires forall j :: 0 <= j < |servers| ==> ServerMatches(term, servers[j]).Some?
    ensures Gather(term, servers).Hits?
    ensures Gather(term, servers).results == []
      <==> forall j :: 0 <= j < |servers| ==> ServerMatches(term, servers[j]).value == []
    decreases |servers|
  {
    GatherSucceeds(term, servers);
    if servers != [] {
      var last := |servers| - 1;
      assert forall j :: 0 <= j < last ==> servers[..last][j] == servers[j];
      GatherEmpty(term, servers[..last]);
      var rs := Gather(term, servers[..last]).results;
      var m := ServerMatches(term, servers[last]).value;
      assert Gather(term, servers) == Hits(rs + m);
      assert |rs + m| == |rs| + |m|;
    }
  }

  lemma {:induction false} GatherAbortedFirst(term: string, servers: seq<Server>, i: nat)
    requires Gather(term, servers) == Aborted(i)
    ensures i < |servers| && ServerMatches(term, servers[i]).None?
    ensures forall j :: 0 <= j < i ==> ServerMatches(term, servers[j]).Some?
    decreases |servers|
  {
    var last := |servers| - 1;
    var init := servers[..last];
    assert forall j :: 0 <= j < last ==> init[j] == servers[j];
    if Gather(term, init).Aborted? {
      GatherAbortedFirst(term, init, i);
    } else {
      GatherSucceeds(term, init);
    }
  }

  /** The search is abandoned exactly at the first server with a failing request: one failure loses every hit. */
  lemma GatherAborts(term: string, servers: seq<Server>, i: nat)
    ensures Gather(term, servers) == Aborted(i) <==>
      i < |servers| && ServerMatches(term, servers[i]).None? &&
      forall j :: 0 <= j < i ==> ServerMatches(term, servers[j]).Some?
  {
    if i < |servers| && ServerMatches(term, servers[i]).None? {
      GatherSucceeds(term, servers);
      var g := Gather(term, servers);
      GatherAbortedFirst(term, servers, g.server);
    }
    if Gather(term, servers) == Aborted(i) {
      GatherAbortedFirst(term, servers, i);
    }
  }

  lemma GatherStep(term: string, servers: seq<Server>, k: nat, rs: seq<SearchResult>)
    requires k < |servers| && Gather(term, servers[..k]) == Hits(rs)
    ensures Gather(term, servers[..k + 1]) ==
      match ServerMatches(term, servers[k])
      case None => Aborted(k)
      case Some(m) => Hits(rs + m)
  {
    assert servers[..k + 1][..k] == servers[..k];
  }

  lemma GatherPrefixAborted(term: string, servers: seq<Server>, n: nat, i: nat)
    requires n <= |servers| && Gather(term, servers[..n]) == Aborted(i)
    ensures Gather(term, servers) == Aborted(i)
  {
    GatherAbortedFirst(term, servers[..n], i);
    assert forall j :: 0 <= j < n ==> servers[..n][j] == servers[j];
    GatherAborts(term, servers, i);
  }

  // ---------------------------------------------------------------------------
  // Narrowing and selection

  /** `[r for r in results if r.result_type == "WorkflowJob"]` */
  function WorkflowJobs(results: seq<SearchResult>): (w: seq<SearchResult>)
    ensures |w| <= |results|
    ensures forall r :: r in w <==> r in results && r.ResultType() == "WorkflowJob"
    decreases |results|
  {
    if results == [] then []
    else (if results[0].ResultType() == "WorkflowJob" then [results[0]] else []) + WorkflowJobs(results[1..])
  }

  lemma ConcatAssoc(a: seq<SearchResult>, b: seq<SearchResult>, c: seq<SearchResult>)
    ensures a + b + c == a + (b + c)
  {
  }

  lemma SplitHead(a: seq<SearchResult>, b: seq<SearchResult>)
    requires a != []
    ensures a + b == [a[0]] + (a[1..] + b) && a == [a[0]] + a[1..]
  {
  }

  lemma WorkflowJobsCons(x: SearchResult, s: seq<SearchResult>)
    ensures WorkflowJobs([x] + s) == (if x.ResultType() == "WorkflowJob" then [x] else []) + WorkflowJobs(s)
  {
    assert ([x] + s)[0] == x && ([x] + s)[1..] == s;
  }

  /** Filtering a concatenation filters each part: the kept hits stay in their order. */
  lemma {:induction false} WorkflowJobsAppend(a: seq<SearchResult>, b: seq<SearchResult>)
    ensures WorkflowJobs(a + b) == WorkflowJobs(a) + WorkflowJobs(b)
    decreases |a|
  {
    if a == [] {
      assert a + b == b;
    } else {
      var head := if a[0].ResultType() == "WorkflowJob" then [a[0]] else [];
      SplitHead(a, b);
      calc {
        WorkflowJobs(a + b);
        WorkflowJobs([a[0]] + (a[1..] + b));
        { WorkflowJobsCons(a[0], a[1..] + b); }
        head + WorkflowJobs(a[1..] + b);
        { WorkflowJobsAppend(a[1..], b); }
        head + (WorkflowJobs(a[1..]) + WorkflowJobs(b));
        (head + WorkflowJobs(a[1..])) + WorkflowJobs(b);
        { WorkflowJobsCons(a[0], a[1..]); }
        WorkflowJobs(a) + WorkflowJobs(b);
      }
    }
  }

  /** Hits that are all pipeline jobs are kept as they are, in order and with repetitions. */
  lemma {:induction false} WorkflowJobsKeepsAll(results: seq<SearchResult>)
    requires forall i :: 0 <= i < |results| ==> results[i].ResultType() == "WorkflowJob"
    ensures WorkflowJobs(results) == results
    decreases |results|
  {
    if results != [] {
      assert forall i :: 0 <= i < |results| - 1 ==> results[1..][i] == results[i + 1];
      WorkflowJobsKeepsAll(results[1..]);
      SplitHead(results, []);
      WorkflowJobsCons(results[0], results[1..]);
    }
  }

  /** The selection list: each pipeline job's text, in order, then one final "Cancel". */
  function Choices(jobs: seq<SearchResult>): (c: seq<string>)
    ensures |c| == |jobs| + 1 && c[|jobs|] == "Cancel"
    ensures forall i :: 0 <= i < |jobs| ==> c[i] == jobs[i].Display()
  {
    seq(|jobs|, i requires 0 <= i < |jobs| => jobs[i].Display()) + ["Cancel"]
  }

  /** `xs.index(x)`: the first position holding `x`, or `None` where Python raises `ValueError`. */
  function IndexOf(xs: seq<string>, x: string): (r: Option<nat>)
    ensures r.Some? ==> r.value < |xs| && xs[r.value] == x && forall j :: 0 <= j < r.value ==> xs[j] != x
    ensures r.None? <==> x !in xs
    decreases |xs|
  {
    if xs == [] then None
    else if xs[0] == x then Some(0)
    else match IndexOf(xs[1..], x)
      case None => None
      case Some(i) => Some(i + 1)
  }

  /** `jobs[i]` is the first job whose text is `text`. */
  predicate FirstWithText(jobs: seq<SearchResult>, text: string, i: int) {
    0 <= i < |jobs| && jobs[i].Display() == text &&
    forall j :: 0 <= j < i ==> jobs[j].Display() != text
  }

  datatype SearchOutcome =
    | FetchAborted(server: nat)  // a tree request raised; the error escapes the search
    | UnboundChoices             // no hit at all: the selection list is used before it is assigned
    | Cancelled                  // the picked text contains "Cancel"
    | NotAChoice                 // the picked text is not in the list (`ValueError`)
    | Declined                   // the operator answered no to "build this job?"
    | Trigger(job: SearchResult) // `trigger_build(job.url, job.username, job.api_token)` is called

  /** What follows the search: the list is offered, the pick is mapped back by its first position, and confirmed. */
  function Choose(results: seq<SearchResult>, selected: string, confirm: bool): (r: SearchOutcome)
    ensures r == UnboundChoices <==> results == []
    ensures results != [] && Contains(selected, "Cancel") ==> r == Cancelled
    ensures r == NotAChoice <==>
      results != [] && !Contains(selected, "Cancel") && selected !in Choices(WorkflowJobs(results))
    ensures r.Trigger? ==> confirm
    ensures r == Declined ==> !confirm
    ensures !r.FetchAborted?
  {
    if results == [] then UnboundChoices
    else if Contains(selected, "Cancel") then Cancelled
    else
      var jobs := WorkflowJobs(results);
      match IndexOf(Choices(jobs), selected)
      case None => NotAChoice
      case Some(i) =>
        if i < |jobs| then (if confirm then Trigger(jobs[i]) else Declined)
        else Cancelled
  }

  /** The whole of `search_jenkins` over given server answers and prompt answers. */
  function SearchSpec(servers: seq<Server>, searchTerm: string, selected: string, confirm: bool): (r: SearchOutcome)
    ensures r.FetchAborted? ==> r.server < |servers| && ServerMatches(Lower(searchTerm), servers[r.server]).None?
    ensures r.FetchAborted? ==> forall j :: 0 <= j < r.server ==> ServerMatches(Lower(searchTerm), servers[j]).Some?
  {
    match Gather(Lower(searchTerm), servers)
    case Aborted(i) =>
      GatherAbortedFirst(Lower(searchTerm), servers, i);
      FetchAborted(i)
    case Hits(rs) => Choose(rs, selected, confirm)
  }

  /**
   * A build is triggered only for a pipeline job that was found, whose text is
   * exactly the picked text (the first such job in the list), with no
   * "Cancel" in it, after the operator confirmed.
   */
  lemma ChooseTriggers(results: seq<SearchResult>, selected: string, confirm: bool, r: SearchResult)
    ensures Choose(results, selected, confirm) == Trigger(r) ==>
      && confirm && !Contains(selected, "Cancel")
      && r in results && r.ResultType() == "WorkflowJob" && r.Display() == selected
      && exists i :: FirstWithText(WorkflowJobs(results), selected, i) && WorkflowJobs(results)[i] == r
  {
    if Choose(results, selected, confirm) == Trigger(r) {
      var jobs := WorkflowJobs(results);
      var choices := Choices(jobs);
      var i := IndexOf(choices, selected).value;
      assert jobs[i] == r && jobs[i] in jobs;
      forall j | 0 <= j < i ensures jobs[j].Display() != selected {
        assert choices[j] != selected;
      }
      assert FirstWithText(jobs, selected, i);
    }
  }

  /** Picking any offered pipeline job whose text has no "Cancel" triggers a build when confirmed, and is declined otherwise. */
  lemma PickTriggers(results: seq<SearchResult>, i: nat)
    ensures i < |WorkflowJobs(results)| && !Contains(WorkflowJobs(results)[i].Display(), "Cancel") ==>
      Choose(results, WorkflowJobs(results)[i].Display(), true).Trigger? &&
      Choose(results, WorkflowJobs(results)[i].Display(), false) == Declined
  {
    var jobs := WorkflowJobs(results);
    if i < |jobs| && !Contains(jobs[i].Display(), "Cancel") {
      var text := jobs[i].Display();
      var choices := Choices(jobs);
      assert jobs[i] in results;
      assert choices[i] == text;
      var found := IndexOf(choices, text);
      assert found.Some? && found.value <= i;
      assert Choose(results, text, true) == Trigger(jobs[found.value]);
    }
  }

  /** A pipeline job whose name contains "Cancel" can never be built: picking it cancels. */
  lemma CancelShadowsJob(results: seq<SearchResult>, job: SearchResult, confirm: bool)
    requires job in WorkflowJobs(results) && Contains(job.name, "Cancel")
    ensures Choose(results, job.Display(), confirm) == Cancelled
  {
    DisplayShows(job, "Cancel");
  }

  /** Picking the final entry cancels. */
  lemma CancelEntryCancels(results: seq<SearchResult>, confirm: bool)
    requires results != []
    ensures Choose(results, Choices(WorkflowJobs(results))[|WorkflowJobs(results)|], confirm) == Cancelled
  {
    assert StartsWith("Cancel", "Cancel");
  }

  /**
   * The search ends with an unassigned selection list exactly when every
   * request succeeds and no server's tree has a matching visited node.
   */
  lemma UnboundChoicesIff(servers: seq<Server>, searchTerm: string, selected: string, confirm: bool)
    ensures SearchSpec(servers, searchTerm, selected, confirm) == UnboundChoices <==>
      forall j :: 0 <= j < |servers| ==> ServerMatches(Lower(searchTerm), servers[j]) == Some([])
  {
    var term := Lower(searchTerm);
    GatherSucceeds(term, servers);
    if forall j :: 0 <= j < |servers| ==> ServerMatches(term, servers[j]).Some? {
      GatherEmpty(term, servers);
    }
  }

  // ---------------------------------------------------------------------------
  // The imperative search

  /** The state shared by the recursive search: the lowercased term and the hits recorded so far. */
  class Searcher {
    const term: string
    var results: seq<SearchResult>

    constructor (searchTerm: string)
      ensures term == Lower(searchTerm) && results == []
    {
      term := Lower(searchTerm);
      results := [];
    }

    /** Records a matching item, then each of its immediate views, then each of its immediate jobs. */
    method RecordExpansion(item: Item)
      modifies this
      ensures results == old(results) + Expansion(item)
    {
      var username := item.username.GetOr("");
      var apiToken := item.apiToken.GetOr("");
      results := results + [SearchResult(item.cls, item.name, item.url, username, apiToken)];
      for j := 0 to |item.views|
        invariant results == old(results) + [Own(item)] + ChildRecords(item, item.views[..j])
      {
        var view := item.views[j];
        assert item.views[..j + 1] == item.views[..j] + [view];
        ChildRecordsSnoc(item, item.views[..j], view);
        ConcatAssoc(old(results) + [Own(item)], ChildRecords(item, item.views[..j]), [Child(item, view)]);
        results := results + [SearchResult(view.cls, view.name, view.url, username, apiToken)];
      }
      assert item.views[..|item.views|] == item.views;
      var middle := results;
      for j := 0 to |item.jobs|
        invariant results == middle + ChildRecords(item, item.jobs[..j])
      {
        var job := item.jobs[j];
        assert item.jobs[..j + 1] == item.jobs[..j] + [job];
        ChildRecordsSnoc(item, item.jobs[..j], job);
        ConcatAssoc(middle, ChildRecords(item, item.jobs[..j]), [Child(item, job)]);
        results := results + [SearchResult(job.cls, job.name, job.url, username, apiToken)];
      }
      assert item.jobs[..|item.jobs|] == item.jobs;
      ConcatAssoc(old(results), [Own(item)] + ChildRecords(item, item.views), ChildRecords(item, item.jobs));
    }

    /** `search_items`: appends the hits of `items`, in depth-first order, to `results`. */
    method SearchItems(items: seq<Item>)
      modifies this
      ensures results == old(results) + Matches(term, items)
      decreases items
    {
      for k := 0 to |items|
        invariant results == old(results) + Matches(term, items[..k])
      {
        var item := items[k];
        ghost var before := results;
        MatchesSplit(term, items, k);
        if NameMatches(term, item) {
          RecordExpansion(item);
        } else {
          SearchItems(item.views);
          SearchItems(item.jobs);
          ConcatAssoc(before, Matches(term, item.views), Matches(term, item.jobs));
        }
        assert results == before + NodeMatches(term, item);
        ConcatAssoc(old(results), Matches(term, items[..k]), NodeMatches(term, item));
      }
      assert items[..|items|] == items;
    }
  }

  /**
   * `search_jenkins`: for each server in order, fetch and tag its views and
   * search them, then fetch and tag its jobs and search them; then offer the
   * pipeline jobs and map the pick back.
   */
  method SearchJenkins(servers: seq<Server>, searchTerm: string, selected: string, confirm: bool)
    returns (outcome: SearchOutcome)
    ensures outcome == SearchSpec(servers, searchTerm, selected, confirm)
  {
    var searcher := new Searcher(searchTerm);
    var k := 0;
    while k < |servers|
      invariant 0 <= k <= |servers|
      invariant Gather(searcher.term, servers[..k]) == Hits(searcher.results)
    {
      var server := servers[k];
      ghost var before := searcher.results;
      if server.views.FetchFailed? {
        GatherStep(searcher.term, servers, k, before);
        GatherPrefixAborted(searcher.term, servers, k + 1, k);
        return FetchAborted(k);
      }
      var views := TagCredentials(server.views.items, server.config);
      searcher.SearchItems(views);
      if server.jobs.FetchFailed? {
        GatherStep(searcher.term, servers, k, before);
        GatherPrefixAborted(searcher.term, servers, k + 1, k);
        return FetchAborted(k);
      }
      var jobs := TagCredentials(server.jobs.items, server.config);
      searcher.SearchItems(jobs);
      ConcatAssoc(before, Matches(searcher.term, views), Matches(searcher.term, jobs));
      GatherStep(searcher.term, servers, k, before);
      k := k + 1;
    }
    assert servers[..|servers|] == servers;
    outcome := Choose(searcher.results, selected, confirm);
  }
}
