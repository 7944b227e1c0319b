/**
 * Triggering a build and following it: the queue id taken from the
 * `Location` header, the queue watcher that waits for a build number, and
 * the build watcher that reports progress until a result is known.
 *
 * HTTP answers and clock readings are inputs: each poll comes with the
 * server's answer and the time at which it was taken. Sleeping between polls
 * changes nothing but those times.
 */
module JenkinsMonitor {
  import opened Wrappers
  import opened Text

  // ---------------------------------------------------------------------------
  // The trailing `/<digits>/` of a URL

  /** The pattern `/(\d+)/$` matches `s` with its digit group starting at index `k`. */
  predicate TrailingIdAt(s: string, k: int) {
    1 <= k < |s| - 1 && s[k - 1] == '/' && s[|s| - 1] == '/' && AllDigits(s[k..|s| - 1])
  }

  /** The pattern can match in one place only. */
  lemma TrailingIdUnique(s: string, k1: int, k2: int)
    requires TrailingIdAt(s, k1) && TrailingIdAt(s, k2)
    ensures k1 == k2
  {
  }

  /** The start of the run of digits that ends just before index `end`. */
  function DigitRunStart(s: string, end: nat): (k: nat)
    requires end <= |s|
    ensures k <= end && AllDigits(s[k..end])
    ensures k == 0 || !IsDigit(s[k - 1])
    decreases end
  {
    if end > 0 && IsDigit(s[end - 1]) then
      var k := DigitRunStart(s, end - 1);
      assert s[k..end] == s[k..end - 1] + [s[end - 1]];
      k
    else end
  }

  lemma {:induction false} DigitRunStartIs(s: string, end: nat, k: nat)
    requires k <= end <= |s| && AllDigits(s[k..end]) && (k == 0 || !IsDigit(s[k - 1]))
    ensures DigitRunStart(s, end) == k
    decreases end
  {
    if end > k {
      assert s[k..end][end - 1 - k] == s[end - 1];
      assert s[k..end - 1] == s[k..end][..end - 1 - k];
      DigitRunStartIs(s, end - 1, k);
    }
  }

  /** Where the pattern `/(\d+)/$` matches, if anywhere. */
  function TrailingId(s: string): (r: Option<nat>)
    ensures r.Some? ==> TrailingIdAt(s, r.value)
    ensures r.None? <==> forall k :: !TrailingIdAt(s, k)
  {
    if |s| < 3 || s[|s| - 1] != '/' then None
    else
      var k := DigitRunStart(s, |s| - 1);
      if 1 <= k < |s| - 1 && s[k - 1] == '/' then
        assert TrailingIdAt(s, k);
        Some(k)
      else
        assert forall k' :: !TrailingIdAt(s, k') by {
          forall k' | TrailingIdAt(s, k') ensures false {
            DigitRunStartIs(s, |s| - 1, k');
          }
        }
        None
  }

  /**
   * `int(re.findall(r"/(\d+)/$", location)[0])`: the queue item number; `None`
   * where the lookup of the first match raises `IndexError`.
   */
  function QueueId(location: string): (r: Option<nat>)
    ensures r.None? <==> forall k :: !TrailingIdAt(location, k)
    ensures forall k :: TrailingIdAt(location, k) ==> r == Some(ParseDigits(location[k..|location| - 1]))
  {
    match TrailingId(location)
    case None => None
    case Some(k) =>
      assert forall k' :: TrailingIdAt(location, k') ==> k' == k by {
        forall k' | TrailingIdAt(location, k') ensures k' == k { TrailingIdUnique(location, k, k'); }
      }
      Some(ParseDigits(location[k..|location| - 1]))
  }

  /** A queue URL built from a number gives that number back. */
  lemma QueueIdOf(prefix: string, n: nat)
    ensures QueueId(prefix + "/" + ShowNat(n) + "/") == Some(n)
  {
    var s := prefix + "/" + ShowNat(n) + "/";
    var k := |prefix| + 1;
    assert s[k..|s| - 1] == ShowNat(n);
    assert TrailingIdAt(s, k);
    ParseShowNat(n);
  }

  /** `re.sub(r'/\d+/$', '/', location)`: the trailing `/<digits>/` becomes `/`. */
  function DetailsUrl(location: string): (r: string)
    ensures (forall k :: !TrailingIdAt(location, k)) ==> r == location
    ensures forall k :: TrailingIdAt(location, k) ==> r == location[..k]
  {
    match TrailingId(location)
    case None => location
    case Some(k) =>
      assert forall k' :: TrailingIdAt(location, k') ==> k' == k by {
        forall k' | TrailingIdAt(location, k') ensures k' == k { TrailingIdUnique(location, k, k'); }
      }
      location[..k - 1] + "/"
  }

  /** A build URL loses its build number: the job's page. */
  lemma DetailsUrlOf(prefix: string, digits: string)
    requires digits != [] && AllDigits(digits)
    ensures DetailsUrl(prefix + "/" + digits + "/") == prefix + "/"
  {
    var s := prefix + "/" + digits + "/";
    var k := |prefix| + 1;
    assert s[k..|s| - 1] == digits;
    assert TrailingIdAt(s, k);
    assert s[..k] == prefix + "/";
  }

  // ---------------------------------------------------------------------------
  // Progress

  /** A quotient reaches 1 exactly when the dividend is at least the divisor on the divisor's side of 0. */
  lemma QuotientReachesOne(a: real, b: real)
    requires b != 0.0
    ensures a / b >= 1.0 <==> (0.0 < b <= a || a <= b < 0.0)
  {
    var q := a / b;
    assert q * b == a;
    if b > 0.0 {
      if q >= 1.0 {
        assert q * b >= 1.0 * b;
      } else {
        assert q * b < 1.0 * b;
      }
    } else {
      if q >= 1.0 {
        assert q * b <= 1.0 * b;
      } else {
        assert q * b > 1.0 * b;
      }
    }
  }

  /**
   * `min((elapsed_time / estimated_duration) * 100, 100)`; `None` where the
   * division raises `ZeroDivisionError`.
   */
  function Progress(elapsedMs: int, estimatedMs: int): (p: Option<real>)
    ensures p.None? <==> estimatedMs == 0
    ensures p.Some? ==> p.value <= 100.0
    ensures p.Some? && (0 < estimatedMs <= elapsedMs || elapsedMs <= estimatedMs < 0) ==> p.value == 100.0
    ensures p.Some? && ((0 < estimatedMs && elapsedMs < estimatedMs) || (estimatedMs < 0 && estimatedMs < elapsedMs)) ==>
      p.value * (estimatedMs as real) == (elapsedMs as real) * 100.0
    ensures p.Some? && 0 < estimatedMs && 0 <= elapsedMs ==> 0.0 <= p.value
    ensures p.Some? && 0 < estimatedMs && elapsedMs < 0 ==> p.value < 0.0
  {
    if estimatedMs == 0 then None
    else
      var quotient := elapsedMs as real / estimatedMs as real;
      QuotientReachesOne(elapsedMs as real, estimatedMs as real);
      var ratio := quotient * 100.0;
      Some(if ratio <= 100.0 then ratio else 100.0)
  }

  /** `int(x)` of a float: truncation toward zero. */
  function Trunc(x: real): (n: int)
    ensures 0.0 <= x ==> 0 <= n && n as real <= x < n as real + 1.0
    ensures x < 0.0 ==> n <= 0 && x <= n as real < x + 1.0
  {
    if x >= 0.0 then x.Floor else -((-x).Floor)
  }

  /** `c * n` for a string of one character: empty when `n` is not positive. */
  function Repeat(c: char, n: int): (s: string)
    ensures |s| == (if n > 0 then n else 0)
    ensures forall i :: 0 <= i < |s| ==> s[i] == c
  {
    seq(if n > 0 then n else 0, _ => c)
  }

  /**
   * The bar of `render_progress_bar`: `#` for the completed part, `.` for the
   * rest, between brackets. The printed percentage after it is not modelled.
   */
  function ProgressBar(percentage: real, width: int): (bar: string)
    ensures 2 <= |bar| && bar[0] == '[' && bar[|bar| - 1] == ']'
    ensures forall i :: 0 < i < |bar| - 1 ==> bar[i] == '#' || bar[i] == '.'
  {
    var completed := Trunc(width as real * percentage / 100.0);
    var remaining := width - completed;
    "[" + Repeat('#', completed) + Repeat('.', remaining) + "]"
  }

  /** For a percentage in [0, 100] the bar is `width` long: `int(width*p/100)` marks, then dots. */
  lemma BarShape(percentage: real, width: nat)
    requires 0.0 <= percentage <= 100.0
    ensures var bar := ProgressBar(percentage, width);
      var completed := Trunc(width as real * percentage / 100.0);
      && 0 <= completed <= width
      && |bar| == width + 2 && bar[0] == '[' && bar[width + 1] == ']'
      && (forall i :: 1 <= i <= completed ==> bar[i] == '#')
      && (forall i :: completed < i <= width ==> bar[i] == '.')
  {
    var x := width as real * percentage / 100.0;
    assert width as real * percentage <= width as real * 100.0;
    assert 0.0 <= x <= width as real;
    var completed := Trunc(x);
    var bar := ProgressBar(percentage, width);
    var hashes := Repeat('#', completed);
    var dots := Repeat('.', width - completed);
    assert bar == "[" + hashes + dots + "]";
    forall i | 1 <= i <= completed ensures bar[i] == '#' {
      assert bar[i] == hashes[i - 1];
    }
    forall i | completed < i <= width ensures bar[i] == '.' {
      assert bar[i] == dots[i - 1 - completed];
    }
  }

  /** A percentage low enough below zero makes the bar longer than `width`: nothing clamps it. */
  lemma BarOverflows(percentage: real, width: nat)
    requires width as real * percentage / 100.0 <= -1.0
    ensures |ProgressBar(percentage, width)| > width + 2
  {
  }

  // ---------------------------------------------------------------------------
  // Build watcher

  datatype BuildResponse =
    | BuildRequestFailed  // the request or `raise_for_status` raised
    | BuildStatus(building: bool, result: Option<string>, timestamp: int, estimatedDuration: int)

  /** One poll of the build: the answer and the clock (milliseconds) read after it. */
  datatype BuildPoll = BuildPoll(response: BuildResponse, clockMs: int)

  datatype BuildOutcome =
    | Succeeded
    | Failed(detailsUrl: string)  // reported with a link to the job's page
    | Ended(result: Option<string>)  // any other result, `None` included
    | PollFailed       // the error escapes to the queue watcher's handler
    | ZeroEstimate     // `ZeroDivisionError`
    | StillBuilding    // the given polls ran out while the build was running

  /** The progress values reported, in order, and how watching ended. */
  datatype BuildWatch = BuildWatch(progress: seq<real>, outcome: BuildOutcome)

  /** The result read once `building` is false. */
  function Terminal(result: Option<string>, detailsUrl: string): (r: BuildOutcome)
    ensures r == Failed(detailsUrl) <==> result == Some("FAILURE")
    ensures r == Succeeded <==> result == Some("SUCCESS")
    ensures r.Ended? <==> result != Some("FAILURE") && result != Some("SUCCESS")
    ensures r.Ended? ==> r.result == result
  {
    if result == Some("FAILURE") then Failed(detailsUrl)
    else if result == Some("SUCCESS") then Succeeded
    else Ended(result)
  }

  /** The build watcher's run over a sequence of polls. */
  function WatchBuild(location: string, polls: seq<BuildPoll>): (w: BuildWatch)
    ensures |w.progress| <= |polls|
    decreases |polls|
  {
    if polls == [] then BuildWatch([], StillBuilding)
    else
      match polls[0].response
      case BuildRequestFailed => BuildWatch([], PollFailed)
      case BuildStatus(building, result, timestamp, estimated) =>
        if !building then BuildWatch([], Terminal(result, DetailsUrl(location)))
        else
          match Progress(polls[0].clockMs - timestamp, estimated)
          case None => BuildWatch([], ZeroEstimate)
          case Some(p) =>
            var rest := WatchBuild(location, polls[1..]);
            BuildWatch([p] + rest.progress, rest.outcome)
  }

  /** A poll that only reports progress: the build is running and has a non-zero estimate. */
  predicate Running(poll: BuildPoll) {
    poll.response.BuildStatus? && poll.response.building && poll.response.estimatedDuration != 0
  }

  function PollProgress(poll: BuildPoll): real
    requires Running(poll)
  {
    Progress(poll.clockMs - poll.response.timestamp, poll.response.estimatedDuration).value
  }

  /**
   * The watcher stops at the first poll whose build is no longer running and
   * reports its result; every poll before it only reports progress.
   */
  lemma {:induction false} WatchBuildStops(location: string, polls: seq<BuildPoll>, k: nat)
    requires k < |polls| && polls[k].response.BuildStatus? && !polls[k].response.building
    requires forall i :: 0 <= i < k ==> Running(polls[i])
    ensures WatchBuild(location, polls).outcome == Terminal(polls[k].response.result, DetailsUrl(location))
    ensures |WatchBuild(location, polls).progress| == k
    ensures forall i :: 0 <= i < k ==> WatchBuild(location, polls).progress[i] == PollProgress(polls[i])
    decreases k
  {
    if k > 0 {
      assert forall i :: 0 <= i < k - 1 ==> polls[1..][i] == polls[i + 1];
      WatchBuildStops(location, polls[1..], k - 1);
      WatchBuildRunning(location, polls, 0);
      assert polls[0..] == polls && polls[0 + 1..] == polls[1..];
      forall i | 0 <= i < k ensures WatchBuild(location, polls).progress[i] == PollProgress(polls[i]) {
        if i > 0 {
          assert polls[1..][i - 1] == polls[i];
        }
      }
    } else {
      assert polls[0] == polls[k];
    }
  }

  /**
   * A failing request, or a running build with a zero estimate, ends the
   * watcher at once: no retry, and one progress value for each earlier poll.
   */
  lemma {:induction false} WatchBuildFails(location: string, polls: seq<BuildPoll>, k: nat)
    requires k < |polls| && !Running(polls[k])
    requires polls[k].response.BuildRequestFailed? || polls[k].response.building
    requires forall i :: 0 <= i < k ==> Running(polls[i])
    ensures WatchBuild(location, polls).outcome ==
      if polls[k].response.BuildRequestFailed? then PollFailed else ZeroEstimate
    ensures |WatchBuild(location, polls).progress| == k
    ensures forall i :: 0 <= i < k ==> WatchBuild(location, polls).progress[i] == PollProgress(polls[i])
    decreases k
  {
    if k > 0 {
      assert forall i :: 0 <= i < k - 1 ==> polls[1..][i] == polls[i + 1];
      WatchBuildFails(location, polls[1..], k - 1);
      WatchBuildRunning(location, polls, 0);
      assert polls[0..] == polls && polls[0 + 1..] == polls[1..];
      forall i | 0 <= i < k ensures WatchBuild(location, polls).progress[i] == PollProgress(polls[i]) {
        if i > 0 {
          assert polls[1..][i - 1] == polls[i];
        }
      }
    } else {
      assert polls[0] == polls[k];
    }
  }

  /** Every reported progress value is at most 100. */
  lemma {:induction false} WatchBuildBounded(location: string, polls: seq<BuildPoll>)
    ensures forall i :: 0 <= i < |WatchBuild(location, polls).progress| ==> WatchBuild(location, polls).progress[i] <= 100.0
    decreases |polls|
  {
    if polls != [] {
      WatchBuildBounded(location, polls[1..]);
    }
  }

  lemma AppendAssoc(a: seq<real>, b: seq<real>, c: seq<real>)
    ensures a + (b + c) == (a + b) + c
  {
  }

  /** A running poll reports its progress and the watcher carries on with the next poll. */
  lemma WatchBuildRunning(location: string, polls: seq<BuildPoll>, i: nat)
    requires i < |polls| && Running(polls[i])
    ensures var rest := WatchBuild(location, polls[i + 1..]);
      WatchBuild(location, polls[i..]) == BuildWatch([PollProgress(polls[i])] + rest.progress, rest.outcome)
  {
    assert polls[i..][0] == polls[i] && polls[i..][1..] == polls[i + 1..];
  }

  /** `monitor_build`: polls until the build is no longer running. */
  method MonitorBuild(location: string, polls: seq<BuildPoll>) returns (progress: seq<real>, outcome: BuildOutcome)
    ensures BuildWatch(progress, outcome) == WatchBuild(location, polls)
  {
    var moreInfoUrl := DetailsUrl(location);
    progress := [];
    var i := 0;
    while i < |polls|
      invariant 0 <= i <= |polls|
      invariant WatchBuild(location, polls) ==
        BuildWatch(progress + WatchBuild(location, polls[i..]).progress, WatchBuild(location, polls[i..]).outcome)
    {
      var poll := polls[i];
      assert polls[i..][0] == poll;
      if poll.response.BuildRequestFailed? {
        return progress, PollFailed;
      }
      var data := poll.response;
      if !data.building {
        assert WatchBuild(location, polls[i..]) == BuildWatch([], Terminal(data.result, moreInfoUrl));
        if data.result == Some("FAILURE") {
          return progress, Failed(moreInfoUrl);
        } else if data.result == Some("SUCCESS") {
          return progress, Succeeded;
        } else {
          return progress, Ended(data.result);
        }
      }
      var elapsed := poll.clockMs - data.timestamp;
      if data.estimatedDuration == 0 {
        return progress, ZeroEstimate;
      }
      var percentage := Progress(elapsed, data.estimatedDuration).value;
      WatchBuildRunning(location, polls, i);
      ghost var rest := WatchBuild(location, polls[i + 1..]);
      assert percentage == PollProgress(poll);
      AppendAssoc(progress, [percentage], rest.progress);
      progress := progress + [percentage];
      assert WatchBuild(location, polls) == BuildWatch(progress + rest.progress, rest.outcome);
      i := i + 1;
    }
    outcome := StillBuilding;
  }

  // ---------------------------------------------------------------------------
  // Queue watcher

  datatype Executable =
    | NoExecutable                               // no `executable` key
    | NullExecutable                             // `"executable": null`
    | Executable(hasNumber: bool, url: Option<string>)

  datatype QueueResponse =
    | QueueRequestFailed  // a `requests.RequestException`
    | QueueItem(executable: Executable, why: Option<string>)

  /** One poll of the queue item: the answer and the seconds elapsed since watching began, read after it. */
  datatype QueuePoll = QueuePoll(response: QueueResponse, elapsedSeconds: real)

  datatype QueueOutcome =
    | Resolved(buildUrl: string, build: BuildWatch)  // handed to the build watcher
    | RequestFailed
    | MissingWhy        // a pending answer without `why`: `KeyError`
    | ExecutableIsNull  // `"number" in None`: `TypeError`
    | TimedOut
    | StillQueued       // the given polls ran out

  /** The number of requests issued and how watching ended. */
  datatype QueueWatch = QueueWatch(requests: nat, outcome: QueueOutcome)

  /** The build URL handed to the build watcher. */
  function BuildUrl(exec: Executable): string
    requires exec.Executable?
  {
    exec.url.GetOr("URL not available")
  }

  /** The queue watcher's run; the build watcher consumes `builds` once the item resolves. */
  function WatchQueue(polls: seq<QueuePoll>, builds: seq<BuildPoll>, timeoutSeconds: real): (w: QueueWatch)
    ensures w.requests <= |polls|
    ensures polls != [] ==> 1 <= w.requests
    ensures w.outcome == StillQueued ==> w.requests == |polls|
    decreases |polls|
  {
    if polls == [] then QueueWatch(0, StillQueued)
    else
      match polls[0].response
      case QueueRequestFailed => QueueWatch(1, RequestFailed)
      case QueueItem(exec, why) =>
        if exec.Executable? && exec.hasNumber then
          QueueWatch(1, Resolved(BuildUrl(exec), WatchBuild(BuildUrl(exec), builds)))
        else if exec.NullExecutable? then QueueWatch(1, ExecutableIsNull)
        else if why.None? then QueueWatch(1, MissingWhy)
        else if polls[0].elapsedSeconds > timeoutSeconds then QueueWatch(1, TimedOut)
        else
          var rest := WatchQueue(polls[1..], builds, timeoutSeconds);
          QueueWatch(1 + rest.requests, rest.outcome)
  }

  /** An answer that leaves the item waiting: no numbered executable, and a `why`. */
  predicate Waiting(poll: QueuePoll) {
    poll.response.QueueItem? && poll.response.why.Some? &&
    (poll.response.executable.NoExecutable? ||
     (poll.response.executable.Executable? && !poll.response.executable.hasNumber))
  }

  /**
   * Against a queue that keeps the item waiting, the watcher gives up at the
   * first poll taken strictly after the timeout and issues no more requests.
   */
  lemma {:induction false} QueueTimesOut(polls: seq<QueuePoll>, builds: seq<BuildPoll>, timeoutSeconds: real, k: nat)
    requires k < |polls| && Waiting(polls[k]) && polls[k].elapsedSeconds > timeoutSeconds
    requires forall i :: 0 <= i < k ==> Waiting(polls[i]) && polls[i].elapsedSeconds <= timeoutSeconds
    ensures WatchQueue(polls, builds, timeoutSeconds) == QueueWatch(k + 1, TimedOut)
    decreases k
  {
    if k > 0 {
      assert forall i :: 0 <= i < k - 1 ==> polls[1..][i] == polls[i + 1];
      QueueTimesOut(polls[1..], builds, timeoutSeconds, k - 1);
    }
  }

  /**
   * The first answer with a numbered executable hands its URL (or "URL not
   * available") to the build watcher, even when it arrives after the timeout.
   */
  lemma {:induction false} QueueResolves(polls: seq<QueuePoll>, builds: seq<BuildPoll>, timeoutSeconds: real, k: nat)
    requires k < |polls| && polls[k].response.QueueItem?
    requires polls[k].response.executable.Executable? && polls[k].response.executable.hasNumber
    requires forall i :: 0 <= i < k ==> Waiting(polls[i]) && polls[i].elapsedSeconds <= timeoutSeconds
    ensures var url := BuildUrl(polls[k].response.executable);
      WatchQueue(polls, builds, timeoutSeconds) == QueueWatch(k + 1, Resolved(url, WatchBuild(url, builds)))
    decreases k
  {
    if k > 0 {
      assert forall i :: 0 <= i < k - 1 ==> polls[1..][i] == polls[i + 1];
      QueueResolves(polls[1..], builds, timeoutSeconds, k - 1);
    }
  }

  /**
   * While the item is waiting within the timeout, the first failing request,
   * null `executable` or pending answer without `why` ends the watcher at once,
   * with no retry.
   */
  lemma {:induction false} QueueFails(polls: seq<QueuePoll>, builds: seq<BuildPoll>, timeoutSeconds: real, k: nat)
    requires k < |polls|
    requires forall i :: 0 <= i < k ==> Waiting(polls[i]) && polls[i].elapsedSeconds <= timeoutSeconds
    ensures polls[k].response.QueueRequestFailed? ==>
      WatchQueue(polls, builds, timeoutSeconds) == QueueWatch(k + 1, RequestFailed)
    ensures polls[k].response.QueueItem? && polls[k].response.executable.NullExecutable? ==>
      WatchQueue(polls, builds, timeoutSeconds) == QueueWatch(k + 1, ExecutableIsNull)
    ensures (polls[k].response.QueueItem? && polls[k].response.why.None? &&
             (polls[k].response.executable.NoExecutable? ||
              (polls[k].response.executable.Executable? && !polls[k].response.executable.hasNumber))) ==>
      WatchQueue(polls, builds, timeoutSeconds) == QueueWatch(k + 1, MissingWhy)
    decreases k
  {
    if k > 0 {
      assert forall i :: 0 <= i < k - 1 ==> polls[1..][i] == polls[i + 1];
      QueueFails(polls[1..], builds, timeoutSeconds, k - 1);
    }
  }

  /**
   * A timeout is reported only after a poll taken strictly later than the
   * timeout, every earlier poll having been within it; at least one request
   * is always issued.
   */
  lemma {:induction false} TimedOutOnlyAfterDeadline(polls: seq<QueuePoll>, builds: seq<BuildPoll>, timeoutSeconds: real)
    requires WatchQueue(polls, builds, timeoutSeconds).outcome == TimedOut
    ensures var n := WatchQueue(polls, builds, timeoutSeconds).requests;
      1 <= n <= |polls| && polls[n - 1].elapsedSeconds > timeoutSeconds &&
      forall i :: 0 <= i < n - 1 ==> polls[i].elapsedSeconds <= timeoutSeconds
    decreases |polls|
  {
    if WatchQueue(polls, builds, timeoutSeconds).requests > 1 {
      TimedOutOnlyAfterDeadline(polls[1..], builds, timeoutSeconds);
    }
  }

  /** `monitor_queue`: polls the queue item until it has a build number, then watches the build. */
  method MonitorQueue(polls: seq<QueuePoll>, builds: seq<BuildPoll>, timeoutSeconds: real)
    returns (requests: nat, outcome: QueueOutcome)
    ensures QueueWatch(requests, outcome) == WatchQueue(polls, builds, timeoutSeconds)
  {
    requests := 0;
    while requests < |polls|
      invariant 0 <= requests <= |polls|
      invariant WatchQueue(polls, builds, timeoutSeconds) ==
        var rest := WatchQueue(polls[requests..], builds, timeoutSeconds);
        QueueWatch(requests + rest.requests, rest.outcome)
    {
      var poll := polls[requests];
      requests := requests + 1;
      if poll.response.QueueRequestFailed? {
        return requests, RequestFailed;
      }
      var data := poll.response;
      if data.executable.Executable? && data.executable.hasNumber {
        var buildUrl := data.executable.url.GetOr("URL not available");
        var progress, result := MonitorBuild(buildUrl, builds);
        return requests, Resolved(buildUrl, BuildWatch(progress, result));
      } else if data.executable.NullExecutable? {
        return requests, ExecutableIsNull;
      } else if data.why.None? {
        return requests, MissingWhy;
      }
      if poll.elapsedSeconds > timeoutSeconds {
        return requests, TimedOut;
      }
      assert polls[requests - 1..][1..] == polls[requests..];
    }
    outcome := StillQueued;
  }

  // ---------------------------------------------------------------------------
  // Trigger

  datatype TriggerOutcome =
    | PostFailed              // `requests.post` raised; nothing in the client catches it
    | Rejected(status: int)   // any status but 201
    | NoLocation              // 201 without a (non-empty) `Location` header
    | BadLocation             // the header has no trailing `/<digits>/`: `IndexError`
    | Queued(location: string, queueId: nat, watch: QueueWatch)

  /** The queue watcher's default timeout, in seconds. */
  const QueueTimeoutSeconds: real := 30.0

  /**
   * What `trigger_build` does with the answer to the build request. The queue
   * is watched exactly when the server answered 201 with a `Location` ending
   * in `/<digits>/`, and the queue id is those digits.
   */
  function TriggerSpec(status: Option<int>, location: Option<string>, polls: seq<QueuePoll>, builds: seq<BuildPoll>): (r: TriggerOutcome)
    ensures r == PostFailed <==> status.None?
    ensures r.Queued? <==> status == Some(201) && location.Some? && exists k :: TrailingIdAt(location.value, k)
    ensures forall k :: r.Queued? && TrailingIdAt(location.value, k) ==>
      r.location == location.value && r.queueId == ParseDigits(location.value[k..|location.value| - 1]) &&
      r.watch == WatchQueue(polls, builds, QueueTimeoutSeconds)
    ensures r.Rejected? <==> status.Some? && status.value != 201
    ensures r.Rejected? ==> r.status == status.value
    ensures r == NoLocation <==> status == Some(201) && (location.None? || location.value == "")
    ensures r == BadLocation <==>
      status == Some(201) && location.Some? && location.value != "" && forall k :: !TrailingIdAt(location.value, k)
  {
    if status.None? then PostFailed
    else if status.value != 201 then Rejected(status.value)
    else if location.None? || location.value == "" then NoLocation
    else
      match QueueId(location.value)
      case None => BadLocation
      case Some(id) => Queued(location.value, id, WatchQueue(polls, builds, QueueTimeoutSeconds))
  }

  /** `trigger_build`: given the answer to the build request, watch the queue item it names. */
  method TriggerBuild(status: Option<int>, location: Option<string>, polls: seq<QueuePoll>, builds: seq<BuildPoll>)
    returns (outcome: TriggerOutcome)
    ensures outcome == TriggerSpec(status, location, polls, builds)
  {
    if status.None? {
      return PostFailed;
    }
    if status.value != 201 {
      return Rejected(status.value);
    }
    if location.None? || location.value == "" {
      return NoLocation;
    }
    var id := QueueId(location.value);
    if id.None? {
      return BadLocation;
    }
    var requests, queueOutcome := MonitorQueue(polls, builds, QueueTimeoutSeconds);
    outcome := Queued(location.value, id.value, QueueWatch(requests, queueOutcome));
  }
}
