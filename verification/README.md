# asabru-commons: a verified model

This project models the parts of asabru-commons that hold state, parse text or keep a
schedule, and proves what they promise.

| file | what it models |
|---|---|
| `Text.dfy`, `Lex.dfy`, `Decimals.dfy`, `Files.dfy` | C++ standard library: `find`, `getline`, `>>`, string order, `lower_bound`, `sort`, `to_string`, a file of bytes |
| `RevocationFile.dfy`, `CachedFileList.dfy` | the revocation list: a set in memory over a file changed by append, a one-byte overwrite and a rewrite |
| `AuthenticationRuns.dfy`, `BasicAuthentication.dfy`, `CompactionPass.dfy` | login, logout, checks, restarts and the compaction thread, interleaved; the strategy object; what passes and checks do in a run |
| `MappedListFile.dfy`, `TwoStores.dfy` | the sorted file-backed list, and its agreement with the revocation list |
| `HttpMessage.dfy`, `Trimming.dfy`, `HttpRequestText.dfy`, `HttpResponseText.dfy` | HTTP/1.1 messages (RFC 9112), printing and parsing |
| `ThreadPool.dfy` | worker loops, blocking queue and destructor as a step relation, and the same steps as methods |
| `Schedules.dfy`, `LoadBalancer.dfy` | round robin and weighted round robin |
| `Split.dfy`, `LineGrabber.dfy`, `Scheduler.dfy` | the smaller loops |

Operations that change state are methods on classes; each is proved equal to a function of
the old state, and the properties are proved about those functions, over all inputs or over
all runs.

Conventions. A stream is what is left to read and its two state bits; `getline` on a stream
that is not good leaves its target as it was, and a write on a stream that has met the end
of its file does nothing. File opens succeed or fail as a parameter says. The token library
is a function from strings to claims: signed by this server or not, `nbf`, `exp` and the
user name, which may be missing (RFC 7519, sections 4.1.4 to 4.1.6); clocks are
parameters and do not go back.

What the proofs found, where the code does less than a reader may expect:

- `add` on a file whose last line is unfinished, or with a string that cannot be an entry,
  breaks the agreement of cache and file, and nothing else does (`AddAgreesExactly`);
  `remove` breaks it exactly for an entry that stands twice or on an unfinished last line
  (`RemoveAgreesExactly`).
- Removing the empty string joins two lines (`RemovingEmptyJoinsLines`), and with that a
  revoked token can be accepted again (`EmptyLogoutUndoesRevocation`). Over the strings
  that may be logged out, revocation is permanent in every run if and only if the empty
  string is not among them (`PermanentExactly`). A token appended to a finished file
  without empty lines stays revoked even if the empty string is logged out before or
  after (`RevocationIsPermanent`).
- A logout lasts exactly if the token was not still waiting for its `nbf` and the file it
  was appended to was finished (`RevocationLastsExactly`); tokens handed out by
  `authenticate` never wait.
- A header value keeps its trailing blanks, except on the last header line, which the
  parser sees without its carriage return (`RoundTripExactly`).
- `string_to_response` keeps the carriage return behind every value (`ReparseExactly`).
- Content right behind a start line, without headers in between and without a blank line
  in it, is lost (`ContentWithoutHeadersIsLost`); a header line without ':' takes the value of the line
  before (`LastLineDecides`); the error for an invalid start line is the answer to none
  (`StartLineExactly`).
- A response status that is no number reads as zero, one that does not fit an `int` is
  clamped, and in both cases headers and content are dropped (`StatusExactly`,
  `NoStatusNumber`).
- A pool of two or more workers can hang in its destructor: a state can be reached from
  which no continuation without a client's Stop returns. A smaller pool can be run to the
  end from every state it reaches (`CanHangExactly`), and with one worker the return
  cannot be put off, whatever clients push (`OneWorkerReturns`).
- The destructor drains the queue up to the last Stop exactly when no client has pushed
  a Stop (`DrainedOnReturn`, `ClientStopLosesTask`).
- One negative weight stops the weighted schedule, unless there is one server only
  (`ScheduleExactly`).

Run `dafny verify dfyconfig.toml` to check everything.

## Model

| member | source | states |
|---|---|---|
| Text.GetLineTakesOne | src/authentication/CachedFileList.h:76-85 | one `getline` takes exactly the first line off the text, and meets the end of the file exactly when that line is unfinished |
| RevocationFile.AddAgreesExactly | src/authentication/CachedFileList.h:41-56 | appending a new string leaves a fresh load equal to the cache if and only if the string can be an entry and the file ends with a newline |
| RevocationFile.RemovedLines | src/authentication/CachedFileList.h:74-85 | the one-byte overwrite replaces the first matching line by its tombstone and changes no other line, nor whether the file is terminated |
| RevocationFile.Removed | src/authentication/CachedFileList.h:67-85 | the file keeps its length |
| RevocationFile.LiveAfterRemove | src/authentication/CachedFileList.h:58-88 | which entries a load finds after a removal: all others, and the removed one only if it stands twice or was not struck out |
| RevocationFile.RemoveAgreesExactly | src/authentication/CachedFileList.h:58-88 | cache and file agree after a removal if and only if the entry stood on one line and that line was finished |
| RevocationFile.RemovingEmptyJoinsLines | src/authentication/CachedFileList.h:78-82 | in a file of an empty line and an entry, whichever entry that is, removing the empty string takes the entry with it |
| RevocationFile.CompactionMeaning | src/authentication/CachedFileList.h:109-141 | compaction keeps the live entries in order, drops exactly the tombstones, shrinks the file by exactly their bytes, finishes the last line and is idempotent |
| CachedFileList.RunIsSound | src/authentication/CachedFileList.h:16-141 | after every run of adds of legal strings, removals, compactions and reloads, whichever opens fail, the cache equals what a fresh load reads, and a reload changes nothing |
| CachedFileList.ScanHit | src/authentication/CachedFileList.h:75-85 | at the first match the running offset is the byte to overwrite, and nothing is to be written if the line was unfinished |
| CachedFileList.CachedFileList.constructor | src/authentication/CachedFileList.h:36-39 | the cache starts as the set of live lines of the file |
| CachedFileList.CachedFileList.PopulateCacheFromFile | src/authentication/CachedFileList.h:16-33 | adds exactly the live lines to the cache |
| CachedFileList.CachedFileList.Add | src/authentication/CachedFileList.h:41-56 | the new cache and file, for known strings, failed opens and appends |
| CachedFileList.CachedFileList.Remove | src/authentication/CachedFileList.h:58-88 | the new cache and file, for unknown strings, failed opens and removals |
| CachedFileList.CachedFileList.StrikeOut | src/authentication/CachedFileList.h:74-85 | the scan with its running offset overwrites the byte that `Removed` names |
| CachedFileList.CachedFileList.Find | src/authentication/CachedFileList.h:90-95 | membership in the cache |
| CachedFileList.CachedFileList.GetAll | src/authentication/CachedFileList.h:97-107 | every cached string once, in some order |
| CachedFileList.CachedFileList.CompactFile | src/authentication/CachedFileList.h:109-141 | the loop writes the file of kept lines |
| AuthenticationRuns.StepIsSound | src/authentication/BasicAuthenticationStrategy.h:26-46 | every step, whatever string is logged out, keeps the compaction snapshot distinct and within the cache, and what is known of issued tokens; and if the string is not empty, the file terminated and each legal cached token on disk |
| AuthenticationRuns.RevocationIsPermanent | src/authentication/BasicAuthenticationStrategy.h:90-119 | in every interleaving of logins, logouts, split checks, clock ticks, restarts and split compaction steps, once the logout of an issued token has appended it, no check that starts later authenticates it, if the empty string is never logged out, or else if the file was finished and without empty lines at that moment |
| AuthenticationRuns.RevocationLastsExactly | src/authentication/BasicAuthenticationStrategy.h:30-44 | the logout of a legal token that neither list nor file holds lasts in all continuations if and only if the token was not waiting for its `nbf` and the file was finished, or the token can never be accepted; if the file has an empty line and the list no empty string, the same over all continuations that do not log out the empty string |
| AuthenticationRuns.EarlyTokenComesBack | src/authentication/BasicAuthenticationStrategy.h:35-41 | a run in which a token logged out before its `nbf` is removed by compaction and accepted afterwards |
| AuthenticationRuns.EmptyLogoutUndoesRevocation | src/authentication/BasicAuthenticationStrategy.h:115-119 | from an empty file: a run in which, behind a logout of the empty string, an issued token is logged out, loses its line to a compaction and is accepted after a restart |
| AuthenticationRuns.PermanentExactly | src/authentication/BasicAuthenticationStrategy.h:26-119 | over the strings that may be logged out, with some usable token among them: revocation is permanent in every run if and only if the empty string is not one of them |
| BasicAuthentication.BasicAuthenticationStrategy.Authenticate | src/authentication/BasicAuthenticationStrategy.h:65-88 | a token is handed out exactly for the right credentials; it names the user who logged in, the `Login` step of a run issues it, and it is accepted from its issue until it expires |
| BasicAuthentication.Session | src/authentication/BasicAuthenticationStrategy.h:65-119 | login, check, logout and check in a row: the first check succeeds exactly for the right credentials and a valid unlisted token, and then reports the user who logged in; the second one only if, besides, the logout could not open the file |
| BasicAuthentication.BasicAuthenticationStrategy.IsAuthenticated | src/authentication/BasicAuthenticationStrategy.h:90-113 | authenticated if and only if the token is not listed, verifies and has a user name that is a string; the name is reported on success only |
| BasicAuthentication.BasicAuthenticationStrategy.RemoveAuthentication | src/authentication/BasicAuthenticationStrategy.h:115-119 | logout is an add to the list |
| BasicAuthentication.BasicAuthenticationStrategy.CompactRound | src/authentication/BasicAuthenticationStrategy.h:26-46 | a whole round at a fixed time leaves exactly the tokens that still verify, in memory and on disk |
| CompactionPass.PassIsRound | src/authentication/BasicAuthenticationStrategy.h:26-46 | a pass of the thread in a run, with nothing in between, does what `CompactRound` does and nothing else: exactly the verifying tokens and those whose removal could not open the file are left, in memory and on disk |
| CompactionPass.EveryPassCollects | src/authentication/BasicAuthenticationStrategy.h:26-46 | whatever is interleaved, a token listed and past its time at the snapshot is off the list when the pass ends, unless a restart, another logout of it or a failed open comes between |
| CompactionPass.SpentExactly | src/authentication/BasicAuthenticationStrategy.h:35-41 | past its time are exactly the tokens that verify at no later time |
| CompactionPass.SnapshotCollects | src/authentication/BasicAuthenticationStrategy.h:30 | every snapshot begins such a pass |
| CompactionPass.IssuedExactly | src/authentication/BasicAuthenticationStrategy.h:71-82 | in every run a token is issued if and only if some login handed it out, and it stays so |
| CompactionPass.WholeCheck | src/authentication/BasicAuthenticationStrategy.h:90-113 | the two steps of a check, with nothing in between, answer what `IsAuthenticated` answers |
| CompactionPass.ChecksAreConserved | src/authentication/BasicAuthenticationStrategy.h:90-113 | in every run without restarts each check begun is answered once or still under way |
| CompactionPass.AnswersAreRight | src/authentication/BasicAuthenticationStrategy.h:98-107 | in every run whatever is authenticated is a usable token whose time had come |
| Lex.LessExactly | src/authentication/MemoryMappedListFile.h:68 | one string is less than another if and only if it ends, or has the smaller character, where they first differ |
| Lex.Total | src/authentication/MemoryMappedListFile.h:68 | the order of strings is strict and total |
| Lex.LowerBound | src/authentication/MemoryMappedListFile.h:101 | bisection splits a sorted list into what is less than the value and what is not |
| Lex.SortedIsUnique | src/authentication/MemoryMappedListFile.h:68 | a sorted permutation is unique, so any sorting gives the same list |
| MappedListFile.WriteBackIsIdentity | src/authentication/MemoryMappedListFile.h:27-86 | writing a sorted list out, loading it and sorting it is the identity, on the empty list too |
| MappedListFile.ReloadExactly | src/authentication/MemoryMappedListFile.h:44-47 | loading again gives what is in the file if and only if the file is not empty or the list was; behind a write it always does |
| MappedListFile.AddSettlesExactly | src/authentication/MemoryMappedListFile.h:97-110 | an add leaves the list strictly ascending, holding the value, with the file as its serialisation, if and only if the value can stand on a line |
| MappedListFile.RemoveSettles | src/authentication/MemoryMappedListFile.h:112-143 | so does every removal, of one value or of many, and it removes exactly the values named |
| MappedListFile.RunSettles | src/authentication/MemoryMappedListFile.h:27-143 | from a file without duplicate lines every sequence of changes that adds only entries leaves the list strictly ascending and the file its serialisation, and reloading changes nothing |
| MappedListFile.MappedListFile.LoadFromFile | src/authentication/MemoryMappedListFile.h:27-69 | the load loop and sort, and the early return that keeps the list |
| MappedListFile.MappedListFile.WriteToFile | src/authentication/MemoryMappedListFile.h:79-86 | the file becomes the list, a newline behind each entry |
| MappedListFile.MappedListFile.Add | src/authentication/MemoryMappedListFile.h:97-110 | insertion, write and reload as one function of the old state |
| MappedListFile.MappedListFile.Remove | src/authentication/MemoryMappedListFile.h:112-125 | removal of the first match, write and reload |
| MappedListFile.MappedListFile.RemoveList | src/authentication/MemoryMappedListFile.h:127-143 | removal of all named values, write and reload |
| MappedListFile.MappedListFile.IsPresent | src/authentication/MemoryMappedListFile.h:151-155 | membership in the list |
| TwoStores.SameAnswers | src/authentication/MemoryMappedListFile.h:97-155 | from the same terminated file without duplicate live lines, after any calls and restarts of either store, both stores give the same answer for every legal string |
| TwoStores.AddAlike | src/authentication/CachedFileList.h:41-56 | an add to both stores keeps them one set |
| HttpMessage.MethodsAreNames | src/http/http_message.cpp:102-149 | a string is read as a method if and only if it spells its name in either case |
| HttpMessage.VersionsAreNames | src/http/http_message.cpp:151-179 | the same for versions, with HTTP/2 read as HTTP/2.0 |
| HttpMessage.EditMatchesExactly | src/http/http_message.h:89-107 | which single edits keep Content-Length equal to the length of the content, exactly; setting or clearing the content always restores it |
| HttpMessage.LastEditDecides | src/http/http_message.h:89-107 | after any sequence of edits each header is what the last edit that touches it says, and what no edit touches is unchanged |
| HttpMessage.LastContentDecides | src/http/http_message.h:98-107 | after any sequence of edits the content is that of the last edit of the content |
| HttpMessage.EditsMatch | src/http/http_message.h:89-128 | Content-Length follows the content through every sequence of edits to content and other headers, and decodes to its length |
| HttpMessage.HttpMessage.SetContent | src/http/http_message.h:98-102 | content and Content-Length change together |
| HttpMessage.HttpMessage.GetHeader | src/http/http_message.h:93-95 | reading an absent header inserts it |
| Decimals.ValueOfDecimal | src/http/http_message.h:127 | decoding the decimal form of a number gives the number |
| Decimals.DecimalExactly | src/http/http_message.h:127 | a string of digits is the decimal form of its value if and only if it is not empty and has no superfluous zero in front |
| Trimming.TrimOfName | src/http/http_message.cpp:12-21 | which header names the six erasures leave alone |
| Trimming.TrimOfInnerValue | src/http/http_message.cpp:12-21 | which values come back from a header line with its carriage return |
| Trimming.TrimOfLastValue | src/http/http_message.cpp:12-21 | which values come back from the last header line, which has none |
| Trimming.TrimOnto | src/http/http_message.cpp:265 | a set of names that trimming maps onto itself is left alone by it |
| HttpRequestText.StartLineExactly | src/http/http_message.cpp:242-254 | for every start line: taken with this method and path if and only if the first three words are the method in either case, the path and HTTP/1.1; which error every other line gives; and that the error for an invalid format is never given |
| HttpRequestText.OnlyVersion11 | src/http/http_message.cpp:251-254 | method, path and version in any white space are taken if and only if the version is 1.1, and refused as not supported otherwise |
| HttpRequestText.NoStartLineExactly | src/http/http_message.cpp:222-226 | a text has no start line if and only if it has no line end |
| HttpRequestText.TextExactly | src/http/http_message.cpp:229-272 | for every text with a start line that is taken: headers up to the first blank line and content behind it, or neither if there is no blank line |
| HttpRequestText.ContentWithoutHeadersIsLost | src/http/http_message.cpp:229-240 | content right behind a start line is lost, if there is no blank line in it |
| HttpRequestText.LastLineDecides | src/http/http_message.cpp:256-268 | for any header lines: a header is there if and only if some line names it, and the last such line gives its value, a line without ':' that of the line before |
| HttpRequestText.FindBlank | src/http/http_message.cpp:230-240 | the first blank line of a printed request is the one behind its headers, whatever the body |
| HttpRequestText.ParsedIsPlain | src/http/http_message.cpp:212-273 | every request parsed from any text has a path without white space, names without ':' and newlines, and a Content-Length that matches its content |
| HttpRequestText.ParseOfPrint | src/http/http_message.cpp:181-273 | what parsing makes of a printed request, trimmed names and values included |
| HttpRequestText.RoundTripExactly | src/http/http_message.cpp:181-273 | parsing the text of a request gives the request back if and only if it is printable in the sense of `Printable` |
| HttpRequestText.ToString | src/http/http_message.cpp:181-194 | the printing loop, in the key order of the header map |
| HttpRequestText.StringToRequest | src/http/http_message.cpp:212-273 | the parsing loop gives the parsed request or the error, with the value that outlives each turn |
| HttpResponseText.StatusExactly | src/http/http_message.cpp:284-289 | for every text with a word and a number in front: the number is the status and the lines behind its line are headers and content if it fits an `int`; it is clamped and nothing else read if not |
| HttpResponseText.NoStatusNumber | src/http/http_message.cpp:284-289 | without a number behind the first word the status is zero and nothing else is read |
| HttpResponseText.NoStatusAtAll | src/http/http_message.cpp:282-289 | a text of one word or none leaves the status unset |
| HttpResponseText.TakeFieldsIs | src/http/http_message.cpp:293-312 | for any lines: headers up to the first line that is empty or a carriage return, content from behind it |
| HttpResponseText.FieldLineIs | src/http/http_message.cpp:297-304 | a header line gives name and value without the blanks in front of them, or the error if one of the two is blank only |
| HttpResponseText.MixedEndingsParse | src/http/http_message.cpp:276-316 | with "\n" or "\r\n" chosen for each line: exactly the headers written, a carriage return behind a value where one was, and as content everything behind the first empty line, finished |
| HttpResponseText.ReasonsTellStatus | src/http/http_message.cpp:65-99 | a reason phrase belongs to one status, and which statuses have one |
| HttpResponseText.ReparseExactly | src/http/http_message.cpp:196-316 | what parsing makes of a printed response: status and names kept, a carriage return behind each value, the body finished by a newline, Content-Length to match |
| HttpResponseText.ResponseRoundTripExactly | src/http/http_message.cpp:196-316 | a response with any headers comes back unchanged if and only if Content-Length is its only header and the body is empty or newline-terminated |
| HttpResponseText.ParsedIsReadable | src/http/http_message.cpp:276-316 | in every response parsed from any text, names are non-empty without ':' and newlines, and neither names nor values start with a blank |
| HttpResponseText.ParsedLengthMatches | src/http/http_message.cpp:276-316 | Content-Length matches in every response parsed from any text |
| HttpResponseText.StringToResponse | src/http/http_message.cpp:276-316 | the parsing loops give the parsed response, or the error of a name or value of blanks only |
| ThreadPool.StepInv | src/thread_pool/thread_pool.cpp:4-40 | conservation, single execution, no lost wakeup and the order of Stops hold after every step |
| ThreadPool.ReachableStates | src/thread_safe_queue/thread_safe_queue.h:13-28 | in every reachable state tasks leave in push order, and while a worker sleeps there is an awake worker at `pop` for every queued task |
| ThreadPool.WorkIsBounded | src/thread_pool/thread_pool.cpp:4-17 | any number of workers: the steps they can take are bounded by the work there was and the work that came, as a worker that finds nothing sleeps |
| ThreadPool.RestIsDone | src/thread_safe_queue/thread_safe_queue.h:13-28 | in every reachable state in which no worker can do anything, every task pushed has been executed once, or every worker has left with a Stop |
| ThreadPool.WakingInVain | src/thread_safe_queue/thread_safe_queue.h:22-24 | a wakeup without notification and without work changes nothing |
| ThreadPool.DrainedOnReturn | src/thread_pool/thread_pool.cpp:27-35 | in every run of n workers in which the destructor returns, whoever pushed what: n Stops have been popped, the last pop is one, the tasks popped have been executed once each and no others, and they are all that was pushed up to the last Stop if and only if no client pushed a Stop |
| ThreadPool.ClientStopLosesTask | src/thread_pool/thread_pool.cpp:4-35 | a run with a client's Stop in which the destructor returns and a task pushed before its own Stop is never executed |
| ThreadPool.StopsAreTakenInOrder | src/thread_pool/thread_pool.cpp:27-35 | past the i-th join, worker j took the j-th Stop for all j up to i, and at most one Stop is queued |
| ThreadPool.WrongTakerNeverReturns | src/thread_pool/thread_pool.cpp:29-33 | if another worker takes the Stop meant for worker i, the destructor returns in no continuation without a client's Stop |
| ThreadPool.CanHangExactly | src/thread_pool/thread_pool.cpp:21-35 | a state from which the destructor returns in no continuation without a client's Stop can be reached if and only if the pool has two workers or more |
| ThreadPool.SmallPoolCanReturn | src/thread_pool/thread_pool.cpp:21-35 | with one worker or none, from every reachable state, client Stops or not, a continuation without a client's Stop returns |
| ThreadPool.ClosingStarts | src/thread_pool/thread_pool.cpp:29-30 | in every reachable state of a pool of one worker whose destructor is past its push, the worker has stopped, or is awake with a Stop queued |
| ThreadPool.ClosingComesNearer | src/thread_pool/thread_pool.cpp:4-17 | with one worker every step of worker or destructor lowers a rank once the Stop is pushed, and no push raises it |
| ThreadPool.OneWorkerReturns | src/thread_pool/thread_pool.cpp:27-35 | so in every such run, whatever clients push, at most that many steps of worker and destructor are left, one of them is possible until the destructor has returned, and after that many it has |
| ThreadPool.Pool.Pop | src/thread_safe_queue/thread_safe_queue.h:20-28 | a worker's turn at `pop` is the `Take` step |
| ThreadPool.Pool.PushToQueue | src/thread_safe_queue/thread_safe_queue.h:13-18 | append and notification |
| ThreadPool.Pool.DestroyTurn | src/thread_pool/thread_pool.cpp:29-33 | the destructor's push and join are the steps of that name |
| Schedules.WeightedPickIs | src/load_balancer/WeightedRoundRobinStrategy.h:14-27 | call k picks entry k mod the sum of turns of the list in which server i is repeated max(w, 1) times |
| Schedules.ScheduleExactly | src/load_balancer/WeightedRoundRobinStrategy.h:14-27 | that schedule holds for ever if and only if no weight is negative or there is one server |
| Schedules.WindowIsFair | src/load_balancer/WeightedRoundRobinStrategy.h:14-27 | any window of one period, wherever it starts, picks each server exactly as often as it has turns |
| Schedules.RoundIsBalanced | src/load_balancer/RoundRobinStrategy.h:9-13 | any m consecutive calls of the strategy give each of n servers m/n picks, rounded down or up |
| Schedules.RoundPickIs | src/load_balancer/RoundRobinStrategy.h:9-13 | call k picks index k mod n |
| Schedules.RoundIsUnitWeights | src/load_balancer/WeightedRoundRobinStrategy.h:14-27 | with all weights 1 the weighted picks are those of round robin |
| Schedules.RoundFromAny | src/load_balancer/RoundRobinStrategy.h:9-13 | from any index, also one outside a list that has shrunk, the picks go on one by one mod n |
| Schedules.WeightedFromAny | src/load_balancer/WeightedRoundRobinStrategy.h:14-27 | from any state that earlier lists have left: the turns left of the last server, then the expanded list from the next server on |
| LoadBalancer.RoundAcrossLists | src/load_balancer/RoundRobinStrategy.h:9-13 | over any sequence of lists, round robin goes on from the index they left |
| LoadBalancer.WeightedAcrossLists | src/load_balancer/WeightedRoundRobinStrategy.h:14-27 | and the weighted strategy from the state they left |
| LoadBalancer.ServeInTurn | src/load_balancer/LoadBalancer.h:14-24 | a new balancer with round robin serves the servers in the order in which they were added, again and again |
| LoadBalancer.ServeByWeight | src/load_balancer/LoadBalancer.h:14-24 | and with the weighted strategy each as often in a row as its weight says |
| LoadBalancer.RoundRobinStrategy.SelectServer | src/load_balancer/RoundRobinStrategy.h:9-13 | the index is in range of whatever non-empty list is given |
| LoadBalancer.WeightedRoundRobinStrategy.SelectServer | src/load_balancer/WeightedRoundRobinStrategy.h:14-27 | the two static variables after a call, and the server picked |
| LoadBalancer.StaysInsideExactly | src/load_balancer/WeightedRoundRobinStrategy.h:18-26 | when a weighted call stays in range of its list, exactly |
| LoadBalancer.GrowthStaysInside | src/load_balancer/LoadBalancer.h:14-24 | while servers are only added, every weighted call stays in range |
| LoadBalancer.ShrinkingCanLeave | src/load_balancer/LoadBalancer.h:18-20 | a concrete list change after which it does not |
| LoadBalancer.LoadBalancer.RequestServer | src/load_balancer/LoadBalancer.h:22-24 | a request is one call of the strategy on the current list |
| Split.Split | src/Utils.h:12-27 | the loop gives the pieces cut at the leftmost delimiters |
| Split.JoinOfSplit | src/Utils.h:12-27 | joining the pieces gives the text back |
| Split.PiecesAreClean | src/Utils.h:12-27 | no piece contains the delimiter |
| Split.SplitOfJoin | src/Utils.h:12-27 | splitting undoes joining if and only if each piece is found first in front of its delimiter and the last holds none, also for delimiters that overlap themselves |
| LineGrabber.LineGrabber.GetNextLine | src/LineGrabber.h:12-47 | the line read and the new index, for every line that fits the local buffer |
| LineGrabber.LineGrabber.GetContentTillEof | src/LineGrabber.h:49-63 | the unread bytes up to a NUL, and nothing unread after |
| LineGrabber.ReadAllIsTexts | src/LineGrabber.h:10-47 | line by line a buffer gives back its lines in order, each up to its first NUL, ended by a newline or by a carriage return and whatever byte is behind it, an unfinished last line included; and each line fits the local buffer if and only if it has at most 1023 bytes |
| LineGrabber.ReadLines | src/LineGrabber.h:10-47 | calling `getNextLine` until `isEof` gives those lines, leaves nothing unread and moves the index at every call |
| LineGrabber.EveryBufferIsRendered | src/LineGrabber.h:12-47 | every buffer is made of such lines |
| LineGrabber.RestIsRendered | src/LineGrabber.h:49-63 | after any number of lines the content till the end is exactly the rest of the buffer |
| LineGrabber.NextLineMoves | src/LineGrabber.h:23-45 | every call on unread bytes moves the index, by one byte past the end at most |
| Scheduler.SimpleScheduler.Sweep | src/scheduler/SimpleScheduler.cpp:13-22 | the erasing loop runs the due tasks in order and keeps the others in order |
| Scheduler.ConservesTasks | src/scheduler/SimpleScheduler.cpp:4-28 | executed and pending tasks together are a permutation of those added |
| Scheduler.RunsWhenFirstDue | src/scheduler/SimpleScheduler.cpp:11-28 | a task has run at a sweep if and only if that is the first sweep after its addition whose clock reaches its time, it is pending if and only if there is none, and executions go by sweep and addition |

## Left out

- Token signing, decoding and cryptography: the token library is a function to claims.
- Crash atomicity of compaction: there is a moment with no file between removal and rename (src/authentication/CachedFileList.h:139-140); restarts come between finished file operations.
- Missing context entries: `any_cast` throws on them; here the context has its fields.
- MappedListFile: sequential callers only, since the lock is released between change, write and reload; opens succeed; the mapping itself is not modelled, only the bytes it shows.
- The thread pool's runs are sequences of atomic steps; `Pool` gives those steps as methods but no method runs a whole worker, since worker loops do not end. Scheduling fairness is not assumed: with one worker, steps are bounded from the moment the Stop is pushed.
- Tasks that throw, and tasks of the scheduler that add tasks during a sweep.
- `SimpleScheduler::start`: its endless loop around the sweep; a run is any sequence of additions and sweeps.
- LineGrabber.LineGrabber.GetNextLine: lines of 1024 bytes and more, which run over the local buffer.
- Empty delimiters in `split`, on which the loop does not end.
- Empty server lists, on which `%` is undefined, and the wrap of `int` in an index that never exceeds the list.
- `std::map`, `std::unordered_map` and `std::sort` themselves: a map, and a function with its uniqueness.
- Number parsing in locales other than "C".
- Random strategy, logger stack, sockets, XML authorization, factories, endian readers, `ChopLine`, `getStringWithEscapes`: plumbing, vendored code or easy members.
