# jenkins-cli search, trigger and monitor engine in Dafny

This project models the core of `jenkins-cli`. It is a command-line client that searches the view/job trees of several Jenkins servers for a name. It offers the matching pipeline jobs for selection, triggers the chosen one, and then follows it through the build queue and the build itself. It also models two helpers that feed that engine: the `.env` line editor and the scan that loads the server list from the environment.

Each source file is modelled by one module, except `helpers/jenkins_helper.py`, which is split into a search module and a monitor module. Three more modules hold shared definitions and stand for no single source file:

- `search_result.dfy` (`SearchResultModel`) models a search hit. It covers its type name, the last dot-segment of `_class`, and its display text `url - name`.
- `jenkins_search.dfy` (`JenkinsSearch`) models the depth-first search in `search_jenkins`/`search_items`, and the credential tagging done by `get_jenkins_views`/`get_jenkins_jobs`.
  - It also models the narrowing to `WorkflowJob` hits, the choice list ending in `"Cancel"`, and the mapping from the picked text back to a job.
  - The search that appends to a shared result list while recursing is the class `Searcher`.
  - `SearchJenkins` runs it server by server. It is proved equal to the specification function `SearchSpec`.
  - `Matches` is the reference definition. It is tied to an independent characterisation (`Exposed`) by `Completeness`, `Soundness` and `NoHitsIff`.
- `jenkins_monitor.dfy` (`JenkinsMonitor`) models the rest of the run after the pick:
  - the queue id taken from the `Location` header (`/(\d+)/$`);
  - the details URL (`re.sub(r'/\d+/$', '/', ...)`);
  - the progress value and the progress bar;
  - the two polling loops, `monitor_build` and `monitor_queue`, and `trigger_build`.
  - Each loop is a method proved equal to a function over the sequence of poll answers. The lemmas about those functions state when each loop stops and what it reports.
- `env_functions.dfy` (`EnvFunctions`) models `upsert_env_var` and `del_env_var` as operations on the file's list of lines.
- `env_loader.dfy` (`EnvJenkinsLoader`) models `load_jenkins_instances` as a scan over the environment, given as a finite map.
- `text.dfy` (`Text`) holds the string operations the code relies on: ASCII `lower()`, `startswith`, substring `in`, and decimal `str`/`int` of naturals.
- `wrappers.dfy` (`Wrappers`) holds the `Option` type.
- `jenkins.dfy` (`JenkinsModel`) holds the server record. `models/jenkins.py` is not part of this model, so `Jenkins` is a plain record built as `(base_url, api_token, username)`.

Everything outside the program becomes an input: HTTP answers, clock readings and prompt answers.

- A server comes with the outcome of its views request and of its jobs request.
- A poll comes with the server's answer and the time read after it.
- The selection prompt's answer is the picked text, and the confirmation is a boolean.
- Python exceptions and `exit()` become outcome variants. These include `IndexError` from the regex lookup, `ZeroDivisionError` from a zero estimate, `KeyError` for a missing `why`, `TypeError` for a null `executable`, and the unbound `choices` when nothing was found.

Behaviour of the code worth knowing:

- One failing tree request ends the whole search, and every hit gathered so far is lost (`GatherAborts`). Nothing isolates one server's failure from the others.
- The selection list is built only when there is any hit at all, not only when there is a pipeline-job hit. With no hit, the list is read before it is assigned (`UnboundChoicesIff`). With hits but no pipeline job, the list is just `["Cancel"]`.
- `trigger_build` posts no build parameters.
- An exception from the build POST is caught neither by `trigger_build` nor by the search, whose handler catches only `KeyboardInterrupt` (`PostFailed`). The same holds for the `IndexError` of a `Location` without a trailing number (`BadLocation`) and for the queue watcher's `KeyError` and `TypeError` (`MissingWhy`, `ExecutableIsNull`).
- Disabled jobs are not filtered out.
- No change set is fetched.

## Model

| member | source | states |
|---|---|---|
| Text.Lower | helpers/jenkins_helper.py:11 | the lowercased term has the same length, and each character is folded as ASCII `lower()` folds it |
| Text.ContainsIff | helpers/jenkins_helper.py:22 | the left-to-right substring scan holds exactly when the needle occurs at some index |
| Text.ShowNat | helpers/env_jenkins_loader.py:11 | the decimal rendering of an index is non-empty and all digits, and starts with `0` only for 0 itself |
| Text.ParseShowNat | helpers/jenkins_helper.py:99 | `int()` of the rendered digits gives the number back |
| Text.ShowNatInjective | helpers/env_jenkins_loader.py:11-13 | distinct indices render to distinct key suffixes |
| SearchResultModel.LastSegment | models/search_result.py:4 | `result_type` is the longest dot-free suffix of `_class`: it contains no dot, is preceded by a dot unless it is all of `_class`, and is all of `_class` when there is no dot |
| SearchResultModel.LastSegmentAfterDot | models/search_result.py:4 | whatever comes before the last dot does not change the type name |
| SearchResultModel.SearchResult.Display | models/search_result.py:10-12 | the text is the URL, then `" - "`, then the name, and nothing else |
| SearchResultModel.DisplayShows | models/search_result.py:12 | a substring of the URL or of the name is a substring of the display text |
| JenkinsSearch.NodeMatches | helpers/jenkins_helper.py:22-34 | a node whose lowercased name contains the term (`NameMatches`, the substring test characterised by `Text.ContainsIff`) contributes its own hit first and exactly one hit per immediate view and job, and nothing from deeper down; `Completeness` and `Soundness` characterise it over whole trees |
| JenkinsSearch.Expansion | helpers/jenkins_helper.py:22-29 | a matching node contributes one hit for itself, first, with its own class, name, URL and credentials, then one per immediate view and one per immediate job; `ChildRecords` gives the children's hits |
| JenkinsSearch.Matches | helpers/jenkins_helper.py:14-34 | the depth-first hits of a list, in recording order; characterised by `MatchesAppend`, `MatchesSplit`, `Completeness`, `Soundness` and `NoHitsIff` |
| JenkinsSearch.ServerMatches | helpers/jenkins_helper.py:36-40 | a server yields its hits exactly when both its views request and its jobs request succeed; `TagCredentials` and `TopLevelCredentials` state the credentials its hits carry |
| JenkinsSearch.Gather | helpers/jenkins_helper.py:36-40 | an abort names one of the servers; `GatherSucceeds`, `GatherAborts`, `GatherAbortedFirst` and `GatherEmpty` state when it aborts and what it gathers |
| JenkinsSearch.ChildRecords | helpers/jenkins_helper.py:24-29 | one hit per immediate child, in order, each with the child's class, name and URL and the parent's credentials |
| JenkinsSearch.MatchesAppend | helpers/jenkins_helper.py:16-34 | searching a concatenated list gives the hits of the first part followed by those of the second |
| JenkinsSearch.MatchesSplit | helpers/jenkins_helper.py:16-34 | the hits of a list are those before item k, then item k's hits, then those after it |
| JenkinsSearch.Completeness | helpers/jenkins_helper.py:22-29 | every visited node whose lowercased name contains the term is recorded with all its immediate views and jobs |
| JenkinsSearch.Soundness | helpers/jenkins_helper.py:22-34 | every hit is a visited matching node or an immediate child of one; nodes below a match are never searched |
| JenkinsSearch.NoHitsIff | helpers/jenkins_helper.py:16-34 | the search records nothing exactly when no visited node's name matches |
| JenkinsSearch.TagCredentials | helpers/jenkins_helper.py:195-197 | every top-level object gets the server's username and token and nothing else about it changes; the loop at 207-209 is the same |
| JenkinsSearch.ExposedUntagged | helpers/jenkins_helper.py:30-34 | in an untagged tree, every node the search visits is untagged |
| JenkinsSearch.UntaggedHitsHaveNoCredentials | helpers/jenkins_helper.py:20-21 | hits found in an untagged tree carry empty username and token |
| JenkinsSearch.TopLevelCredentials | helpers/jenkins_helper.py:20-29 | a hit from a matching top-level object, or from one of its children, carries the server's credentials; a hit found deeper carries empty ones |
| JenkinsSearch.GatherSucceeds | helpers/jenkins_helper.py:36-40 | all hits are gathered exactly when every views and jobs request of every server succeeds |
| JenkinsSearch.GatherEmpty | helpers/jenkins_helper.py:36-44 | when every request succeeds, the gathered list is empty exactly when no server has a hit |
| JenkinsSearch.GatherAbortedFirst | helpers/jenkins_helper.py:36-40 | an aborted search names a failing server, and every server before it succeeded |
| JenkinsSearch.GatherAborts | helpers/jenkins_helper.py:36-40 | the search is abandoned at server i exactly when i is the first server with a failing request |
| JenkinsSearch.GatherStep | helpers/jenkins_helper.py:36-40 | processing server k after a successful prefix either aborts at k or appends that server's hits |
| JenkinsSearch.GatherPrefixAborted | helpers/jenkins_helper.py:36-40 | an abort in a prefix of the servers is the abort of the whole run |
| JenkinsSearch.WorkflowJobs | helpers/jenkins_helper.py:42 | a hit is kept exactly when it was found and its type name is `WorkflowJob`, and no more hits come out than went in |
| JenkinsSearch.WorkflowJobsAppend | helpers/jenkins_helper.py:42 | filtering a concatenation filters each part and concatenates: the kept hits keep their order |
| JenkinsSearch.WorkflowJobsKeepsAll | helpers/jenkins_helper.py:42 | a list made only of pipeline-job hits is kept as it is, in order and with repetitions |
| JenkinsSearch.Choices | helpers/jenkins_helper.py:46-47 | entry i is the display text of pipeline job i, and one final `"Cancel"` follows |
| JenkinsSearch.IndexOf | helpers/jenkins_helper.py:59 | `list.index`: the first position holding the text, and no position exactly when the text is absent |
| JenkinsSearch.Choose | helpers/jenkins_helper.py:42-80 | the list is unbound exactly when nothing was found; a pick containing `"Cancel"` cancels; the pick is no offered choice exactly when it is absent from the list; a build is triggered only when confirmed and declined only when not; the selection never aborts a fetch |
| JenkinsSearch.SearchSpec | helpers/jenkins_helper.py:10-80 | a failed fetch names the first server whose views or jobs request failed, every earlier server having succeeded; otherwise the gathered hits go to `Choose` |
| JenkinsSearch.ChooseTriggers | helpers/jenkins_helper.py:56-73 | a build is triggered only after confirmation, for a found pipeline job whose display text is the picked text with no `"Cancel"` in it, and it is the first job with that text |
| JenkinsSearch.PickTriggers | helpers/jenkins_helper.py:59-76 | picking any offered job whose text has no `"Cancel"` triggers a build if confirmed and is declined otherwise |
| JenkinsSearch.CancelShadowsJob | helpers/jenkins_helper.py:56-57 | a pipeline job whose name contains `"Cancel"` can never be triggered: picking it cancels |
| JenkinsSearch.CancelEntryCancels | helpers/jenkins_helper.py:47-57 | picking the final entry cancels |
| JenkinsSearch.UnboundChoicesIff | helpers/jenkins_helper.py:44-50 | the selection list is read unassigned exactly when every request succeeds and no server has any hit |
| JenkinsSearch.Searcher.constructor | helpers/jenkins_helper.py:11-12 | the term is lowercased and the result list starts empty |
| JenkinsSearch.Searcher.RecordExpansion | helpers/jenkins_helper.py:22-29 | appends the matching item, then each immediate view, then each immediate job |
| JenkinsSearch.Searcher.SearchItems | helpers/jenkins_helper.py:14-34 | appends exactly the depth-first hits of the items, in order, to the shared results |
| JenkinsSearch.SearchJenkins | helpers/jenkins_helper.py:10-80 | the whole search, selection and confirmation yields the outcome of `SearchSpec` over the same answers |
| JenkinsMonitor.TrailingIdUnique | helpers/jenkins_helper.py:99 | the anchored pattern `/(\d+)/$` can match in one place only |
| JenkinsMonitor.TrailingId | helpers/jenkins_helper.py:99 | finds the match of `/(\d+)/$` when there is one, and reports none exactly when no position matches |
| JenkinsMonitor.QueueId | helpers/jenkins_helper.py:99 | the queue id is the integer value of the trailing digit group; it is absent (the `IndexError`) exactly when there is no match |
| JenkinsMonitor.QueueIdOf | helpers/jenkins_helper.py:99 | a location ending in `/<n>/` yields queue id n |
| JenkinsMonitor.DetailsUrl | helpers/jenkins_helper.py:118 | the trailing `/<digits>/` is replaced by `/`, and a URL without one is unchanged |
| JenkinsMonitor.DetailsUrlOf | helpers/jenkins_helper.py:118 | a build URL `p/<digits>/` becomes the job URL `p/` |
| JenkinsMonitor.Progress | helpers/jenkins_helper.py:147-148 | a zero estimate fails, and the value is otherwise never above 100. It is exactly 100 when the quotient elapsed/estimate is at least 1 (elapsed at least a positive estimate, or at most a negative one), and exactly elapsed*100/estimate otherwise, a negative elapsed time included; it is not clamped below 0 |
| JenkinsMonitor.Trunc | helpers/jenkins_helper.py:108 | `int()` of a float truncates toward zero: for x ≥ 0 the result is the largest integer not above x, and for x < 0 the smallest integer not below x |
| JenkinsMonitor.Repeat | helpers/jenkins_helper.py:110 | `c * n` has n copies of c and is empty for n not positive |
| JenkinsMonitor.ProgressBar | helpers/jenkins_helper.py:107-111 | the bar is bracketed and holds only `#` and `.` between the brackets |
| JenkinsMonitor.BarShape | helpers/jenkins_helper.py:107-111 | for a percentage in [0, 100] the bar holds `int(width*p/100)` `#` marks and then dots, `width` in total |
| JenkinsMonitor.BarOverflows | helpers/jenkins_helper.py:107-111 | a sufficiently negative percentage makes the bar longer than `width` |
| JenkinsMonitor.Terminal | helpers/jenkins_helper.py:128-139 | a finished build reports failure with the details URL exactly for `"FAILURE"`, success exactly for `"SUCCESS"`, and otherwise the raw result, `None` included |
| JenkinsMonitor.WatchBuild | helpers/jenkins_helper.py:122-153 | the build watcher never reports more progress values than it has answers; `WatchBuildRunning`, `WatchBuildStops`, `WatchBuildFails` and `WatchBuildBounded` state what it reports |
| JenkinsMonitor.WatchBuildRunning | helpers/jenkins_helper.py:142-153 | an answer for a running build reports its progress value and the watcher goes on with the next answer |
| JenkinsMonitor.WatchBuildStops | helpers/jenkins_helper.py:122-153 | the build watcher stops at the first answer that is not building and reports failure with the details URL, success, or the raw result; each earlier answer reports one progress value |
| JenkinsMonitor.WatchBuildFails | helpers/jenkins_helper.py:122-148 | a failing request, or a running build with a zero estimate, ends the build watcher at the first such poll with `PollFailed` or `ZeroEstimate`, with no retry and one progress value per earlier poll |
| JenkinsMonitor.WatchBuildBounded | helpers/jenkins_helper.py:148 | every reported progress value is at most 100 |
| JenkinsMonitor.MonitorBuild | helpers/jenkins_helper.py:113-156 | the polling loop reports the progress values and the end of `WatchBuild` over the same answers |
| JenkinsMonitor.WatchQueue | helpers/jenkins_helper.py:165-187 | the queue watcher issues at least one request when there is an answer, never more than the answers, and uses them all when it is still waiting at the end; `QueueTimesOut`, `QueueResolves`, `QueueFails` and `TimedOutOnlyAfterDeadline` state how it ends |
| JenkinsMonitor.QueueTimesOut | helpers/jenkins_helper.py:165-187 | against a queue that keeps the item waiting, the watcher times out at the first poll taken strictly after the timeout and issues no further request |
| JenkinsMonitor.QueueResolves | helpers/jenkins_helper.py:173-175 | the first answer with a numbered executable hands its URL, or "URL not available", to the build watcher |
| JenkinsMonitor.QueueFails | helpers/jenkins_helper.py:166-181 | while the item waits within the timeout, the first failing request ends the queue watcher with `RequestFailed`, the first null `executable` with `ExecutableIsNull` (`TypeError`), and the first pending answer without `why` with `MissingWhy` (`KeyError`), each after exactly k+1 requests and with no retry |
| JenkinsMonitor.TimedOutOnlyAfterDeadline | helpers/jenkins_helper.py:183-185 | a timeout is reported only for a poll strictly past the timeout, after earlier polls within it, and after at least one request |
| JenkinsMonitor.MonitorQueue | helpers/jenkins_helper.py:158-187 | the polling loop issues the requests and ends as `WatchQueue` does over the same answers |
| JenkinsMonitor.TriggerSpec | helpers/jenkins_helper.py:83-105 | `PostFailed` arises exactly when the POST raises. A 201 answer without a (non-empty) `Location` is `NoLocation`, the message and normal return, exactly; a 201 answer whose `Location` has no trailing `/<digits>/` is `BadLocation`, the uncaught `IndexError`, exactly. The queue is watched exactly when the answer is 201 with a `Location` ending in `/<digits>/`, with those digits as queue id; any other status is a rejection carrying that status |
| JenkinsMonitor.TriggerBuild | helpers/jenkins_helper.py:83-105 | the trigger handles the answer, a raised POST included, as `TriggerSpec` does |
| EnvFunctions.EnvLineAssigns | utils/env_functions.py:10 | the written line `key=value\n` is itself a line assigning the key |
| EnvFunctions.FirstAssignment | utils/env_functions.py:8-9 | the first line starting with `key=`, and none exactly when no line does |
| EnvFunctions.Upserted | utils/env_functions.py:8-16 | only the first `key=` line is replaced and the count is kept. Later `key=` lines and other lines, `KEYX=` included, are untouched. Without such a line, `key=value\n` is appended after all the old lines |
| EnvFunctions.UpsertEnvVar | utils/env_functions.py:7-16 | the indexed loop with its flag and `break` produces `Upserted` |
| EnvFunctions.UpsertedAssigns | utils/env_functions.py:8-16 | afterwards the first line assigning the key assigns it the new value |
| EnvFunctions.UpsertIdempotent | utils/env_functions.py:8-16 | upserting the same key and value twice equals upserting once |
| EnvFunctions.DelEnvVar | utils/env_functions.py:28 | no remaining line starts with `key=`, every other line is kept, and nothing is added |
| EnvFunctions.DelAppend | utils/env_functions.py:28 | deleting from a concatenation deletes from each part, so kept lines stay in order |
| EnvFunctions.DelNothing | utils/env_functions.py:28 | lines without a `key=` line are returned unchanged |
| EnvFunctions.DelIdempotent | utils/env_functions.py:28 | deleting twice equals deleting once |
| EnvFunctions.DelAfterUpsert | utils/env_functions.py:28 | deleting a key after upserting it leaves what deleting alone leaves |
| EnvJenkinsLoader.Getenv | helpers/env_jenkins_loader.py:11-13 | `os.getenv` yields a value exactly when the variable is present, and that value is the variable's |
| EnvJenkinsLoader.UrlKeyInjective | helpers/env_jenkins_loader.py:11 | different indices use different `JENKINS_BASE_URL_<n>` variables |
| EnvJenkinsLoader.LoadJenkinsInstances | helpers/env_jenkins_loader.py:5-22 | entry i is built from the variables numbered i+1 in constructor order, and all three fields are non-empty. The scan stops at the first incomplete index, nothing after a gap is returned, and the list is empty exactly when index 1 is incomplete |

## Left out

- HTTP: the views, jobs, queue and build requests and `raise_for_status` are inputs, and so is the status of the build POST (`None` when it raised). The POST URL `{job_url}buildWithParameters` and the basic-auth pair are not modelled because the answer to the request is given.
- The selection and confirmation prompts are inputs. A `KeyboardInterrupt` typed at a prompt is not modelled.
- `rich` printing and `sys.stdout` writes are not modelled. That includes the percentage text `{percentage:.2f}%` after the bar.
- `time.time`, `time.sleep` and the poll intervals are replaced by a clock reading or elapsed seconds given with each poll.
- `exit()` is a terminal outcome in the returned value.
- Floating point: the progress arithmetic is on exact reals.
- File reading and writing in `utils/env_functions.py` and `load_dotenv`: lines are a sequence of strings, and the environment is a finite map.
- `helpers/env_validator.py` is not part of this model. It is a file-existence check, an environment check and `exit()`.
- `jk.py` is not part of this model. It is argument dispatch and screen clearing.
- A missing `views`/`jobs` key is an empty sequence, since the search treats both alike. The server's JSON is taken to carry no `username` or `api_token` keys of its own.
- A build watcher whose request fails inside the queue watcher is reported by the queue watcher's handler. The model keeps that failure inside `Resolved` as `PollFailed`.
- A triggered job (`Trigger`) is not chained into `TriggerBuild`: the answer to its POST is a separate input.
- EnvFunctions.Upserted: the lines are the list `readlines()` gives. When the file's last line has no newline, the line `key=value\n` appended after it runs into it once written, so `A=1` upserted with `B=2` is written as `A=1B=2\n`. The append and idempotence properties hold for the list of lines, not for the file's text.
- Text.Lower: folds ASCII letters only, not Unicode case.
- JenkinsMonitor.TrailingId: `$` also matching just before a final newline is not modelled. Only ASCII digits count as `\d`.
- JenkinsMonitor.ProgressBar: only the bar is modelled, not the formatted percentage after it.
- Parameter override, disabled-job filtering and change-set fetching do not occur in this code and are not modelled.
