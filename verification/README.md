# GoDoxy verification model

A Dafny model of the parts of GoDoxy that carry real proof obligations, and the properties
proved of them. `dafny verify dfyconfig.toml` checks everything.

| files | what they model |
|---|---|
| `LogLines`, `BackScanning`, `LogRetention`, `LogRanges`, `LogRotation` | access-log rotation: the backward chunked line scanner, the retention policies, the recorded byte ranges and the in-place compaction |
| `RuleParser`, `RuleBrackets`, `RuleCrash`, `RuleEnv`, `RuleCondition`, `RuleOn`, `RuleText`, `RulePadding`, `RuleAnd` | the rule language: the tokenizer with its variables and escapes, what it does to unbalanced brackets and when it crashes, the two splitters, the recursive condition parser, the round trip from a written condition, however it is laid out, back to itself, and where it fails |
| `RuleHandler`, `RuleTrace` | the compilation of a rule list into a request handler, and what a request goes through |
| `TemplateVars`, `TemplateText` | template expansion and validation, and what written templates expand to |
| `DependencyGraph`, `Interleaving`, `ContainerOrder`, `ContainerLimits`, `ContainerTasks` | container dependencies: transitive reduction, the order of wake and stop commands under every schedule, and how far it can be relied on |
| `IdleWatcher` | the state machine of one idle-watched container |
| `HealthMonitor` | which notifications a sequence of health checks causes |
| `LoadBalancer` | weight rebalancing |
| `DockerLabels`, `LabelConflicts` | nesting dotted labels into maps and flattening them back, and what labels do that are in each other's way |
| `DeepEquality` | deep comparison with its two traversals |
| `RefCounter` | the compare-and-swap reference counter over all interleavings |
| `MetricsPeriod` | the metrics ring buffer, its save/load path and interval repair |
| `Common` | an option type and two things about sequences |

Conventions. Bytes are small integers and texts are sequences of characters. Files, objects
and buffers that the program changes in place are classes or arrays; what the world answers
(I/O failures, provider commands, health checks, the clock, container states) is arbitrary,
so every theorem holds for all of its behaviours. Functions named like `ServeGeneral` or
`Step` give a program's meaning as a value; the methods with the program's own loops and
variables are proved equal to them, and the theorems are about those functions.

## Findings

Places where the code and its intention part, each with a proved boundary.

- `last N` retention subtracts the lines without a time stamp from a counter that never
  included them (rotate.go:88), so it can keep more than N lines. It keeps exactly
  min(N, stamped) lines if and only if at most N lines are stamped or the newest N + 1 lines
  all are (`LogRetention.LastNExactIffCleanTail`); under exactly the same condition on the log
  a second rotation changes nothing (`LogRanges.RotationIsIdempotent`).
- The byte positions (rotate.go:116-117) are those of the lines if and only if, from the
  first byte of a line on, the log ends in a newline and has no two newlines in a row
  (`LogRanges.RangesTrueIffTerminated`, with `LogLines.AlignedIffTerminated`); an unterminated
  last line and an inner blank line are each misplaced. Rotation needs this only of the part
  it may keep.
- `isBypass` is documented as "purely bypass" but looks at the last command only
  (do.go:541-555): a matching request rule that ends in a bypass runs none of its commands
  (`RuleHandler.BypassSkipsItsCommands`), and the special handlers for a lone default rule
  differ from the general one exactly when the default looks at the response and ends in a
  bypass after other commands (`RuleHandler.SpecialCasesAgree`, `RuleHandler.SpecialCaseDiffers`).
- Template validation runs on a request without values, so it cannot notice a negative index,
  which crashes on a request that has the key. Validation is sound exactly for templates
  without one (`TemplateVars.ValidationIsSound`).
- Brackets cannot be escaped in rule arguments: a printed list of arguments comes back if and
  only if the brackets of each argument are balanced (`RuleBrackets.RoundTripIffBalanced`).
- The tokenizer looks characters up in a table of 256 entries. It crashes if and only if some
  character above U+00FF is not escaped and no stray closing bracket, which ends the parsing,
  comes before it (`RuleCrash.CrashesIffUnreadable`, `RuleCrash.SnowmanCrashes`).
- Conditions are cut into lines at `&` and newlines inside quotes too (on.go:416-453). A written
  condition comes back if and only if no argument holds one of them; otherwise it is rejected
  (`RuleAnd.ConditionComesBackIffNoAnd`), for example `a "x&y"`
  (`RuleAnd.QuotedAmpersandIsError`).
- After an even split the weight counter is right exactly when the number of servers divides
  100 (`LoadBalancer.EvenSplitIsExact`). From a counter that is not right the next rebalancing
  can miss 100: when an added server does is a condition on its weight and the number of
  servers (`LoadBalancer.AddAfterEvenSplit`), which 101 servers and weight 5 do not meet
  (`LoadBalancer.HundredAndOneServersMiss`).
- A container is stuck "starting" with nothing checking it, over every run, exactly if its
  state was last replaced by a reload that found it running while its health ticker was
  stopped (`IdleWatcher.StuckExactly`) - for example after it was ready and was then reloaded
  (`IdleWatcher.ReadyThenReloadedIsStuck`).
- A reload of a container that is starting forgets when it was started, so the wake timeout
  is kept with respect to the start event if and only if there was no such reload
  (`IdleWatcher.TimeoutKeptIffNotReloaded`, `IdleWatcher.ReloadForgetsTheStart`).
- A dependency that is already starting is passed over, and with it the wait for its health
  (watcher.go:421-424). In a run, every container is commanded after the dependencies whose
  health it waits for were seen healthy if and only if those that were passed over were seen
  healthy by another task (`ContainerLimits.HealthyFirstIffNotPassedOver`); it holds in every
  run only if no such wait is asked for (`ContainerLimits.HealthIsKeptIffNeverAwaited`).
- The reduction of dependencies drops health conditions: all of them survive if and only if
  none is on a container that another direct dependency needs, or that is listed again later
  without the condition (`DependencyGraph.HealthConditionsSurviveIff`,
  `DependencyGraph.ConditionIsDropped`).
- Stopping a container stops a container below it only after all of its dependents are down,
  in every run, if and only if no container below has two dependents
  (`ContainerLimits.StopOrderIffNothingShared`).
- The reference counter panics if and only if a reference is added at zero
  (`RefCounter.PanicsIffAddsAtZero`), and from every such state a second close can follow
  (`RefCounter.AddAtZeroClosesTwice`).
- Labels nest into the same map in every visiting order if and only if no label's path
  continues another's (`LabelConflicts.SameInEveryOrderIffIndependent`), for any two of them
  and any values, the empty one included (`LabelConflicts.LabelsCommuteIffApart`).

## Model

| member | source | states |
|---|---|---|
| `LogLines.LinesJoin` | internal/logging/accesslog/access_logger.go:171-199 | the lines of a log written as newline-terminated lines are exactly those lines |
| `LogLines.LineFeedEndsLine` | internal/logging/accesslog/back_scanner.go:51-60 | the bytes up to a line feed, byte 10, are a line |
| `BackScanning.BackScanner.constructor` | internal/logging/accesslog/back_scanner.go:27-41 | a new scanner has the whole file pending |
| `BackScanning.CutAtLastNewline` | internal/logging/accesslog/back_scanner.go:53-60 | cutting a text at its last newline removes exactly its last line |
| `BackScanning.BackScanner.CutLine` | internal/logging/accesslog/back_scanner.go:53-60 | the buffer is cut exactly if it has a newline, and the lines pending before are those pending after plus the one cut off |
| `BackScanning.BackScanner.ReadChunk` | internal/logging/accesslog/back_scanner.go:73-90 | prepending a chunk leaves the pending text as it was, makes progress, and fails only on a read error or without a buffer |
| `BackScanning.BackScanner.Scan` | internal/logging/accesslog/back_scanner.go:43-103 | each call returns the last pending line, for every chunk size; false means nothing is left, a read failed, or there is no buffer |
| `BackScanning.BackScanner.Reset` | internal/logging/accesslog/back_scanner.go:115-122 | the whole file is pending again and the error is cleared |
| `BackScanning.ScanAll` | internal/logging/accesslog/back_scanner.go:43-103 | for every content and chunk size repeated scanning yields exactly the non-empty lines, newest first; a failed read leaves a suffix of them |
| `LogRetention.KeepFrom` | internal/logging/accesslog/rotate.go:86-131 | the point at which the backward scan stops: everything after it passes the stop test, the line before it does not |
| `LogRetention.LastNKeepsEnough` | internal/logging/accesslog/rotate.go:87-88 | "last N" keeps the newest stamped lines, all of them if there are at most N and never fewer than N otherwise |
| `LogRetention.LastNExactIffCleanTail` | internal/logging/accesslog/rotate.go:87-88 | exactly min(N, stamped) lines are kept if and only if the tail of the log is clean |
| `LogRetention.LastNOfCleanLog` | internal/logging/accesslog/rotate.go:87-88 | with every line stamped exactly the last min(N, total) lines survive |
| `LogRetention.LastOneCanKeepTwo` | internal/logging/accesslog/rotate.go:88 | a log on which "last 1" keeps two lines |
| `LogRetention.SinceKeepsRecent` | internal/logging/accesslog/rotate.go:90-92 | an age limit keeps no older line, and drops a stamped line only if it, or a newer one, is older than the cutoff |
| `LogRetention.KeptAgain` | internal/logging/accesslog/rotate.go:86-149 | applying a policy to what it kept drops nothing more: always for an age limit, for "last N" if and only if the tail of the lines is clean |
| `LogRanges.PositionIsTrue` | internal/logging/accesslog/rotate.go:116-118 | on an aligned log the position computed for a line is where that line is |
| `LogRanges.AddLineRanges` | internal/logging/accesslog/rotate.go:134-146 | merging or appending a range keeps the ranges disjoint and in order, and their sizes add up |
| `LogRanges.AddLineExtract` | internal/logging/accesslog/rotate.go:134-146 | the text of the ranges grows by exactly the line, merged or not |
| `LogRanges.CopyAdvances` | internal/logging/accesslog/rotate.go:181-192 | reading a range at or above the write position and writing it there appends the original text of the range and leaves everything behind untouched |
| `LogRanges.ExtractEverything` | internal/logging/accesslog/rotate.go:160-163 | ranges that add up to the file size hold the whole file, so not rotating is right |
| `LogLines.AlignedIffTerminated` | internal/logging/accesslog/rotate.go:116-118 | a log ends in the newline-terminated form of its own lines if and only if, from the first byte of a line on, it ends in a newline and has no two in a row |
| `LogRanges.RangesTrueIffTerminated` | internal/logging/accesslog/rotate.go:116-118 | all computed ranges are the true ranges of the lines exactly under that condition on the bytes |
| `LogRanges.InnerBlankMisplaces` | internal/logging/accesslog/rotate.go:116-118 | a blank line in the middle puts the line before it one byte too late |
| `LogRanges.UnterminatedLineIsMisplaced` | internal/logging/accesslog/rotate.go:116-118 | a last line without newline gets a position one too small |
| `LogRanges.RotationIsIdempotent` | internal/logging/accesslog/rotate.go:82-200 | rotating twice equals rotating once: always for an age limit, and for "last N" if and only if the tail of the log is clean before the first rotation |
| `LogRotation.CopyOne` | internal/logging/accesslog/rotate.go:173-192 | one range is copied behind what is done, or nothing changes |
| `LogRotation.CopyRanges` | internal/logging/accesslog/rotate.go:165-193 | the file becomes the text of the ranges in file order followed by its old bytes; a failure leaves a prefix of that text in front |
| `LogRotation.ConsiderLine` | internal/logging/accesslog/rotate.go:114-149 | one round of the scan keeps the invariant that ties ranges and counters to the lines read, or stops at the stopping point |
| `LogRotation.ScanOne` | internal/logging/accesslog/rotate.go:108-153 | one line keeps the invariant of the scan, or the scan ends with the ranges of exactly the kept lines |
| `LogRotation.SelectRanges` | internal/logging/accesslog/rotate.go:107-153 | the ranges hold exactly the kept lines, one range for each run of them, and the counters account for all lines read |
| `LogRotation.RotateByPolicy` | internal/logging/accesslog/rotate.go:82-200 | without an I/O error a log that is aligned from the stopping point on becomes exactly the kept lines in order, with true counters; of a terminated log are left its last min(N, total) lines if a number is set and all are stamped, otherwise the stamped lines after the newest one older than the cutoff; after an error it is a front part of that text followed by its old bytes |
| `LogRotation.RotateBySize` | internal/logging/accesslog/rotate.go:202-229 | the front of the file is kept, exactly if it is too long |
| `LogRotation.Rotate` | internal/logging/accesslog/rotate.go:70-80 | which of the two applies, and the content it leaves, in terms of the configured size, number of lines and cutoff |
| `RuleParser.Parse` | internal/route/rules/parser.go:28-174 | the tokenizer computes the specified result, with its errors and its crash |
| `RuleParser.QuotedText` | internal/route/rules/parser.go:63-148 | inside quotes the escaped form of a text adds exactly the text, or leaves a bracket open or stops if it is unbalanced |
| `RuleParser.RoundTrip` | internal/route/rules/parser.go:22-174 | a word and any list of bare, single-, double- or back-quoted arguments with balanced brackets comes back exactly, in every environment |
| `RuleParser.UnbalancedLastIsRejected` | internal/route/rules/parser.go:122-131 | a last argument with unbalanced brackets is rejected with an error |
| `RuleBrackets.RestIsLost` | internal/route/rules/parser.go:83-97 | once a bracket was left open, a quoted argument is misread or the text rejected |
| `RuleBrackets.RoundTripIffBalanced` | internal/route/rules/parser.go:63-174 | a list of arguments in any quotes comes back if and only if the brackets of each are balanced |
| `RuleEnv.RichRoundTrip` | internal/route/rules/parser.go:63-174 | arguments in any quotes, with variables and escapes anywhere in them, are read as what they stand for; all variables that are not set are reported in one error, in order |
| `RuleEnv.BareVariable` | internal/route/rules/parser.go:99-127 | a variable as an argument of its own is read as its value without leading spaces, and is an error if not set |
| `RuleEnv.UnclosedVariable` | internal/route/rules/parser.go:158-174 | a variable that is not closed is an error |
| `RuleEnv.LoneDollar` | internal/route/rules/parser.go:79-82 | a dollar before anything but a brace or a dollar stays, at the end too |
| `RuleCrash.GoesOn` | internal/route/rules/parser.go:69-148 | up to the first stray bracket or unreadable character the tokenizer goes on, and what it has open is a matter of escapes and brackets alone |
| `RuleCrash.CrashesIffUnreadable` | internal/route/rules/parser.go:83 | the tokenizer crashes if and only if a character is neither escaped nor in the table and no stray closing bracket comes before it |
| `RuleCrash.SnowmanCrashes` | internal/route/rules/parser.go:83 | a text that crashes it, and two with the same character that do not |
| `RuleCondition.SplitPipe` | internal/route/rules/on.go:455-513 | the splitter returns the trimmed pieces between the top-level pipes |
| `RuleCondition.PiecesJoin` | internal/route/rules/on.go:457-513 | the pieces joined by pipes are the text: nothing else is lost |
| `RuleCondition.PiecesHaveNoCuts` | internal/route/rules/on.go:457-513 | no piece, read on its own, has a top-level pipe |
| `RuleCondition.SplittingIsIdempotent` | internal/route/rules/on.go:457-513 | each part splits again into itself, so into at most one part |
| `RuleOn.ParseOn` | internal/route/rules/on.go:552-605 | the recursion ends after one level, the unchecked type assertion always holds, and the result is the list of alternatives or an error if one of them is wrong |
| `RuleOn.SplitAnd` | internal/route/rules/on.go:416-453 | the non-empty trimmed segments between ampersands and newlines |
| `RuleOn.Parse` | internal/route/rules/on.go:515-542 | all lines parsed, or an error if one of them is wrong; a response condition exactly if one line is |
| `RuleText.TermIsRead` | internal/route/rules/on.go:576-605 | a written check, negated or not, parses to that check |
| `RuleText.JoinedAlternatives` | internal/route/rules/on.go:455-513 | alternatives joined by pipes split into exactly those alternatives, whatever their quotes hold |
| `RuleText.JoinedLines` | internal/route/rules/on.go:416-453 | lines joined by newlines split into exactly those lines |
| `RuleText.ClauseIsRead` | internal/route/rules/on.go:552-605 | a line of alternatives is read as exactly those, whatever its arguments hold |
| `RuleText.ConditionRoundTrip` | internal/route/rules/on.go:515-605 | a whole condition without `&` or newlines in its arguments, written down and parsed, comes back with all its lines, alternatives, negations and arguments |
| `RuleAnd.CutLineIsError` | internal/route/rules/on.go:416-453 | a line that was cut inside a quoted argument is rejected, wherever in the line that is |
| `RuleAnd.AndInArgumentIsError` | internal/route/rules/on.go:416-453 | `&` or a newline in any argument makes the whole condition an error, for every table of checks |
| `RuleText.UnknownIsError` | internal/route/rules/on.go:576-605 | a check that is not known, or refuses its arguments, is an error |
| `RulePadding.LayoutDoesNotMatter` | internal/route/rules/on.go:416-453 | lines separated by `&` or newlines are read as those lines, whatever spaces stand around them and wherever blank lines stand |
| `RulePadding.SpacesAroundPipesDoNotMatter` | internal/route/rules/on.go:455-513 | alternatives are read as themselves, whatever spaces stand around the pipes |
| `RulePadding.SpacesExactly` | internal/route/rules/on.go:416-513 | which characters count as spaces there, one by one |
| `RuleAnd.ConditionComesBackIffNoAnd` | internal/route/rules/on.go:416-605 | a written condition comes back if and only if no argument holds `&` or a newline |
| `RuleAnd.ConditionIsAcceptedIff` | internal/route/rules/on.go:416-605 | a written condition is accepted, with the meaning written, exactly if also every check is known and accepts its arguments; otherwise it is an error |
| `RuleAnd.QuotedAmpersandIsError` | internal/route/rules/on.go:416-453 | such a text |
| `RuleHandler.BuildCmd` | internal/route/rules/do.go:526-538 | a command list is accepted exactly if returning commands come last |
| `RuleHandler.BuildHandler` | internal/route/rules/rules.go:59-138 | the handler is built from the last default rule and the other rules, in order, split by whether they look at the response |
| `RuleHandler.HandleRequest` | internal/route/rules/rules.go:140-228 | the compiled closure with its flags and loops performs the specified trace |
| `RuleHandler.CommandsRunInOrder` | internal/route/rules/command.go:28-70 | commands run in their order, each on what happened before it, until one does not complete or a bypass is reached; the list is done exactly if neither happened |
| `RuleHandler.CommandsRun` | internal/route/rules/command.go:28-70 | only events of the rule's own commands are added, and a list that ends in a terminating or bypass command never completes |
| `RuleHandler.RequestPhases` | internal/route/rules/rules.go:140-228 | two phases around at most one upstream call, which happens exactly if no rule of the first phase interrupted the request |
| `RuleHandler.RequestChecksInOrder` | internal/route/rules/rules.go:167-220 | the checks made are a prefix of the request rules, then a prefix of the response rules |
| `RuleHandler.WhoRunsBefore` | internal/route/rules/rules.go:150-199 | exactly which rules run before the upstream: default first, the matching rules without bypass, default last if nothing matched |
| `RuleHandler.WhoRunsAfter` | internal/route/rules/rules.go:205-227 | exactly which rules run after it |
| `RuleHandler.EveryRequestIsWellServed` | internal/route/rules/rules.go:59-229 | for every rule list and environment: one upstream call at most, request rules before it, response rules after it, skipped exactly if a request rule terminated or failed |
| `RuleTrace.CompiledExactly` | internal/route/rules/rules.go:59-138 | a list is compiled to its last default and its other rules, in order, split by whether they look at the response; a list of defaults only to a handler for the last |
| `RuleTrace.EveryTraceIsTruthful` | internal/route/rules/rules.go:140-228 | in every request each check has the value of its condition at that point (a rule without one matches), each command its outcome there, and exactly the failed rules are reported |
| `RuleTrace.ChecksGoOn` | internal/route/rules/rules.go:167-227 | all request rules are checked unless a matching one bypasses, terminates or fails, or a first default does; all response rules are, called upstream or not, unless one terminates or fails or a terminating default failed |
| `RuleHandler.SpecialCasesAgree` | internal/route/rules/rules.go:88-125 | the special handlers have the effects of the general one if and only if the default is not a response rule ending in a bypass after other commands |
| `RuleHandler.SpecialCaseDiffers` | internal/route/rules/rules.go:88-91 | such a default: alone its command does not run, in the general handler it does |
| `RuleHandler.BypassSkipsItsCommands` | internal/route/rules/rules.go:168-173 | a matching request rule that ends in a bypass runs none of its commands and ends the phase |
| `TemplateVars.ExtractArgs` | internal/route/rules/vars.go:136-211 | argument extraction computes the specified list and end, or the specified error |
| `TemplateVars.ReadToken` | internal/route/rules/vars.go:57-131 | what stands at a position is decided without looking at the request |
| `TemplateVars.ExpandVars` | internal/route/rules/vars.go:53-134 | the loop computes the specified expansion, error or crash |
| `TemplateVars.FailureIsStatic` | internal/route/rules/vars.go:53-211 | without negative indices whether and how expansion fails is a function of the template alone |
| `TemplateVars.RequestsAgree` | internal/route/rules/vars.go:53-134 | any two requests agree on success and on the error |
| `TemplateVars.NegativeIndexCrashes` | internal/route/rules/vars_dynamic.go:67-74 | a reached negative index crashes on the request that has its key |
| `TemplateVars.ValidationIsSound` | internal/route/rules/vars.go:47-51 | an accepted template expands on every request if and only if it has no negative index |
| `TemplateVars.RejectionIsFinal` | internal/route/rules/vars.go:47-51 | a rejected template fails with the same error everywhere |
| `TemplateVars.DoubledTextExpandsToItself` | internal/route/rules/vars.go:73-78 | any text with doubled dollars expands to itself |
| `TemplateText.TemplateExpands` | internal/route/rules/vars.go:53-134 | a template of literal text, variables and functions expands to their values in order, up to the first that fails |
| `TemplateText.ListRead` | internal/route/rules/vars.go:136-211 | bare and quoted arguments, separated by commas and blanks, are read as their values |
| `TemplateText.OneArgument` | internal/route/rules/vars_dynamic.go:67-91 | without an index the first value of the key counts, up to its fragment; a key without values gives nothing |
| `TemplateText.TwoArguments` | internal/route/rules/vars_dynamic.go:67-91 | with an index the value at it, nothing past the end, a crash before the start |
| `TemplateText.OtherArguments` | internal/route/rules/vars_dynamic.go:76-91 | any other arguments are an error, whatever the request |
| `TemplateText.FunctionNames` | internal/route/rules/vars_dynamic.go:8-64 | which function looks at which part of a request |
| `TemplateText.UnsignedIsRead` | internal/route/rules/vars_dynamic.go:76-91 | a string of digits is its number if that fits 64 bits |
| `TemplateText.SignedIsRead` | internal/route/rules/vars_dynamic.go:76-91 | so is one with a sign |
| `TemplateText.BadTail` | internal/route/rules/vars.go:63-96 | a template that ends in a dollar, or has one before no name, is an error |
| `TemplateText.UnknownVariable` | internal/route/rules/vars.go:113-122 | so is a variable that is not known, |
| `TemplateText.NoParentheses` | internal/route/rules/vars.go:136-211 | a function without parentheses, |
| `TemplateText.ListNotClosed` | internal/route/rules/vars.go:136-211 | one whose list is not closed, |
| `TemplateText.QuoteNotClosed` | internal/route/rules/vars.go:136-211 | and one of whose quotes is not |
| `DependencyGraph.Watchers.Dependencies` | internal/idlewatcher/watcher.go:663-672 | the map holds exactly the transitive dependencies, each once, a direct one that nothing below needs with the setting listed last; terminates on acyclic graphs |
| `DependencyGraph.Watchers.ReducedDependencies` | internal/idlewatcher/watcher.go:644-658 | exactly the direct dependencies that no other direct dependency reaches, without duplicates, each with the setting listed last |
| `DependencyGraph.Watchers.DedupDependencies` | internal/idlewatcher/watcher.go:644-661 | only this container's list changes, to its reduction; reachability between all containers and acyclicity stay |
| `DependencyGraph.ReductionPreservesReach` | internal/idlewatcher/watcher.go:644-661 | reduction changes nothing about who depends on whom |
| `DependencyGraph.ReductionIsAntichain` | internal/idlewatcher/watcher.go:645 | no kept dependency reaches another |
| `DependencyGraph.ReductionIsMinimal` | internal/idlewatcher/watcher.go:645 | without any one kept dependency its container is no longer reached |
| `DependencyGraph.HealthConditionsSurviveIff` | internal/idlewatcher/watcher.go:644-661 | the reduction keeps all health conditions if and only if none is on a container another direct dependency needs, or listed again later without it |
| `DependencyGraph.ConditionIsDropped` | internal/idlewatcher/watcher.go:644-661 | a graph whose only reduction drops one |
| `Interleaving.MergeOrdered` | internal/idlewatcher/watcher.go:419-457 | an order of events that holds within every concurrent task holds in every schedule of them |
| `ContainerOrder.WakesDependenciesFirst` | internal/idlewatcher/watcher.go:363-483 | in every schedule, and whatever fails, a start or unpause comes after each direct dependency is running, starting or woken; one whose health is to be waited for was seen healthy or passed over as starting |
| `ContainerOrder.TasksTouchBelow` | internal/idlewatcher/watcher.go:414-458 | the tasks of a wake touch only containers below the one they are for |
| `ContainerOrder.FailedDependencyBlocks` | internal/idlewatcher/watcher.go:374-379 | if a dependency could not be woken, no event of the whole run is about the container itself |
| `ContainerLimits.HealthyFirstIffNotPassedOver` | internal/idlewatcher/watcher.go:420-455 | in any run commands come after the awaited dependencies were seen healthy, exactly if those passed over as starting were seen healthy by another task |
| `ContainerLimits.HealthMayBePassedOver` | internal/idlewatcher/watcher.go:421-424 | wherever a health condition stands at or below a container, some run of Wake starts its holder without it |
| `ContainerLimits.HealthIsKeptIffNeverAwaited` | internal/idlewatcher/watcher.go:414-458 | health conditions are kept in every run if and only if there are none |
| `ContainerOrder.StopsDependentsFirst` | internal/idlewatcher/watcher.go:485-540 | a dependency is touched only after a container depending on it was down or was stopped successfully |
| `ContainerOrder.TouchedBelowStopped` | internal/idlewatcher/watcher.go:497-540 | a container is touched only at the end of a chain from the one being stopped, all of whose containers are down by then |
| `ContainerLimits.ChainStops` | internal/idlewatcher/watcher.go:485-540 | along any chain there is a run that stops exactly its containers |
| `ContainerLimits.SharedDependencyMayStopEarly` | internal/idlewatcher/watcher.go:485-540 | in every acyclic graph, wherever a container is shared, a run stops it while one of its dependents is never down |
| `ContainerLimits.StopOrderIffNothingShared` | internal/idlewatcher/watcher.go:485-540 | all dependents are down before any container is touched, in every run, if and only if nothing below is shared |
| `ContainerLimits.SuccessMeansAllDown` | internal/idlewatcher/watcher.go:485-540 | if stopping reports no error, the container and all below it were found down or were stopped |
| `ContainerTasks.WakeController.Wake` | internal/idlewatcher/watcher.go:363-404 | terminates on acyclic graphs, its effects are one of the runs the theorems are about, and what it does itself is what the state of the container at that time asks for |
| `ContainerTasks.WakeController.WakeIfStopped` | internal/idlewatcher/watcher.go:460-483 | which command is issued, or which error returned, exactly by status and provider |
| `ContainerTasks.WakeController.WakeDependency` | internal/idlewatcher/watcher.go:420-455 | a dependency is passed over exactly if starting, else woken and, where asked for, awaited: with success exactly if some check finds it healthy before one fails or the context ends |
| `ContainerTasks.WakeController.WakeDependencies` | internal/idlewatcher/watcher.go:414-458 | every dependency is handled and success means all succeeded |
| `ContainerTasks.WakeController.StopByMethod` | internal/idlewatcher/watcher.go:497-540 | terminates on acyclic graphs, itself before its dependencies, by its state at that time; success means that it and all below it were down or stopped |
| `ContainerTasks.WakeController.StopDependencies` | internal/idlewatcher/watcher.go:485-495 | every dependency is stopped in turn, and success means that all succeeded |
| `IdleWatcher.Watcher.Handle` | internal/idlewatcher/watcher.go:573-641 | after any sequence of inputs the watcher is in the state its whole history leads to |
| `IdleWatcher.Watcher.Status` | internal/idlewatcher/health.go:52-65 | each health status exactly characterised by the container's state |
| `IdleWatcher.EveryStateIsConsistent` | internal/idlewatcher/watcher.go:565-642 | every reachable state: ready implies running, no error, no start time; an error exactly in status error; a start time or tries only while running and not ready |
| `IdleWatcher.WhatActionsDo` | internal/idlewatcher/watcher.go:581-603 | the state after each action, from any state |
| `IdleWatcher.AliveUnlessDestroyed` | internal/idlewatcher/watcher.go:581-583 | nothing but a destroy event ends the watcher |
| `IdleWatcher.DestroyedIsFrozen` | internal/idlewatcher/watcher.go:581-583 | the state of a destroyed container is the one it had |
| `IdleWatcher.TickerIsExpected` | internal/idlewatcher/watcher.go:587-624 | over every run the health ticker is stopped exactly if the container was put down or a check was conclusive, and it was not started since |
| `IdleWatcher.StateIsExpected` | internal/idlewatcher/health.go:104-167 | the whole state as a function of what happened: the outcome of the check that settled it, or the state last set with the checks counted |
| `IdleWatcher.ReadyOrFailedExactly` | internal/idlewatcher/health.go:104-143 | exactly which histories leave the container ready, and which leave it in error |
| `IdleWatcher.ReadyInTime` | internal/idlewatcher/health.go:112-126 | a container that is ready since its last start event was found healthy within the wake timeout of that event |
| `IdleWatcher.ReadyUpToTheTimeout` | internal/idlewatcher/health.go:112-126 | a check that finds a started container healthy makes it ready exactly up to the wake timeout, the last moment included |
| `IdleWatcher.TimeoutKeptIffNotReloaded` | internal/idlewatcher/watcher.go:302 | the timeout is kept with respect to the start event if and only if the container was not reloaded as running while it is being checked |
| `IdleWatcher.ReloadForgetsTheStart` | internal/idlewatcher/watcher.go:302 | a run in which a container becomes ready after its deadline |
| `IdleWatcher.NoEndlessStart` | internal/idlewatcher/health.go:112-126 | after a start event and a check beyond the wake timeout the container is ready or in error |
| `IdleWatcher.StuckExactly` | internal/idlewatcher/watcher.go:302 | over every run: a running container is neither ready nor checked exactly if it was last reloaded as running while its ticker was stopped |
| `IdleWatcher.ReadyThenReloadedIsStuck` | internal/idlewatcher/watcher.go:302 | such a run |
| `IdleWatcher.StuckStaysStuck` | internal/idlewatcher/watcher.go:604-640 | no further inputs end that, except a start, stop, pause, destroy or reload |
| `HealthMonitor.Monitor.constructor` | internal/watcher/health/monitor/monitor.go:74-101 | a monitor starts healthy; without a retry threshold it gets the number of checks that fit into the notification delay |
| `HealthMonitor.Monitor.CheckUpdateHealth` | internal/watcher/health/monitor/monitor.go:255-295 | one check, the state and what is sent, as a function of the whole history |
| `HealthMonitor.Monitor.Loop` | internal/watcher/health/monitor/monitor.go:128-171 | the loop stops exactly at the first five errors in a row |
| `HealthMonitor.RunIsExpected` | internal/watcher/health/monitor/monitor.go:255-295 | the state as a function of the checks alone |
| `HealthMonitor.NoticesAreExact` | internal/watcher/health/monitor/monitor.go:272-292 | exactly which check sends which notification |
| `HealthMonitor.FailingRunSends` | internal/watcher/health/monitor/monitor.go:272-292 | a failing run sends one "down" if it lasts max(1, retries) checks, and nothing else |
| `HealthMonitor.RecoverySends` | internal/watcher/health/monitor/monitor.go:273-277 | a finished failing run sends exactly one "up", at its end |
| `HealthMonitor.HealthyRunSends` | internal/watcher/health/monitor/monitor.go:272-292 | nothing is sent while the service stays healthy |
| `HealthMonitor.HealthyIsClean` | internal/watcher/health/monitor/monitor.go:274-277 | healthy implies no failures counted and no notification pending |
| `LoadBalancer.LoadBalancer.AddServer` | internal/net/gphttp/loadbalancer/loadbalancer.go:125-139 | the pool with this server replaced, rebalanced by the counter as it then is; a true counter stays true and the total becomes 100, or an even split if all weights are zero |
| `LoadBalancer.LoadBalancer.RemoveServer` | internal/net/gphttp/loadbalancer/loadbalancer.go:141-164 | the same on removal, if the caller's server has the pooled weight: a total of 100, or an even split if the rest has no weight; nothing on an unknown server |
| `LoadBalancer.LoadBalancer.Rebalance` | internal/net/gphttp/loadbalancer/loadbalancer.go:166-217 | each branch's weights and counter; after scaling the counter is the true total |
| `LoadBalancer.LoadBalancer.SplitEvenly` | internal/net/gphttp/loadbalancer/loadbalancer.go:175-188 | the even split and the counter it leaves |
| `LoadBalancer.LoadBalancer.ScaleAll` | internal/net/gphttp/loadbalancer/loadbalancer.go:190-197 | all weights scaled, the counter their total |
| `LoadBalancer.LoadBalancer.CorrectBy` | internal/net/gphttp/loadbalancer/loadbalancer.go:199-216 | the correction pass keeps the counter true |
| `LoadBalancer.RescaledTotal` | internal/net/gphttp/loadbalancer/loadbalancer.go:190-216 | the total is 100 exactly if the rounding errors together do not exceed the pool size |
| `LoadBalancer.RebalanceReachesGoal` | internal/net/gphttp/loadbalancer/loadbalancer.go:166-217 | with a true non-zero counter and scaling off by at most one unit the total is exactly 100 |
| `LoadBalancer.RebalanceIsFair` | internal/net/gphttp/loadbalancer/loadbalancer.go:190-216 | when scaling truncates every weight is non-negative and within one of its exact share |
| `LoadBalancer.EvenSplitIsExact` | internal/net/gphttp/loadbalancer/loadbalancer.go:175-188 | the even split totals 100 with weights at most one apart; its counter is right exactly if the pool size divides 100 |
| `LoadBalancer.ExactDivisionTruncates` | internal/net/gphttp/loadbalancer/loadbalancer.go:190-197 | exact truncating division is a scaling as the two theorems on rescaling assume it |
| `LoadBalancer.RebalancedTotal` | internal/net/gphttp/loadbalancer/loadbalancer.go:166-217 | from any counter, true or not, exactly when rebalancing reaches 100 |
| `LoadBalancer.AddAfterEvenSplit` | internal/net/gphttp/loadbalancer/loadbalancer.go:125-217 | after an even split, adding a server reaches 100 exactly under a condition on the number of servers and its weight |
| `LoadBalancer.HundredAndOneServersMiss` | internal/net/gphttp/loadbalancer/loadbalancer.go:175-188 | a pool size and weight that miss it |
| `DockerLabels.ParseLabels` | internal/docker/label.go:15-57 | the nested map is that of some visiting order of the labels |
| `DockerLabels.OnlyTheNamespaceCounts` | internal/docker/label.go:21-29 | the result of any labels is that of those beginning with `proxy.`, with one more error if `proxy` alone is among them |
| `DockerLabels.InsertFits` | internal/docker/label.go:33-53 | setting a path that neither continues nor is continued by another is no error and changes that path only |
| `DockerLabels.SameContents` | internal/docker/label.go:21-54 | a tree without empty maps is determined by its values |
| `DockerLabels.OrderDoesNotMatter` | internal/docker/label.go:21-54 | independent labels nest into the same tree, without error, in every order |
| `LabelConflicts.InsertFailsIffBlocked` | internal/docker/label.go:38-46 | setting a path is an error exactly if a non-empty value stands on the way |
| `LabelConflicts.ErrorsLeaveOutKeys` | internal/docker/label.go:38-53 | each error leaves out a key on the way, and the value is set at the path of the other keys |
| `LabelConflicts.InsertEffect` | internal/docker/label.go:33-53 | what a tree holds after a path was set without error: the value there, nothing above or below it, the rest as before |
| `LabelConflicts.ConflictDependsOnOrder` | internal/docker/label.go:33-53 | of two labels, one continuing the other, the shorter survives exactly if it comes last; first, it is an error or lost |
| `LabelConflicts.LabelsCommuteIffApart` | internal/docker/label.go:33-53 | two labels can be set in either order if and only if neither path continues the other |
| `LabelConflicts.SameInEveryOrderIffIndependent` | internal/docker/label.go:21-54 | a whole set of labels gives the same result in every order if and only if no path continues another |
| `DockerLabels.FlattenMap` | internal/docker/label.go:131-152 | exactly the names of the tree's values are overwritten, each with a value of that name, whatever the keys |
| `DockerLabels.ProperNamesAreKept` | internal/docker/label.go:131-152 | with non-empty keys without dots every value keeps its own name |
| `DockerLabels.FlattenGivesLabelsBack` | internal/docker/label.go:131-152 | flattening a tree that holds the labels gives back exactly their names and values |
| `DockerLabels.NestAndFlatten` | internal/docker/label.go:15-152 | nesting then flattening independent labels is the identity |
| `DeepEquality.DeepEqual` | internal/utils/deep_equal.go:33-104 | the comparison decides deep equality, at every depth |
| `DeepEquality.DeepEqualSlice` | internal/utils/deep_equal.go:121-139 | so does the slice comparison, whichever traversal it takes |
| `DeepEquality.DeepEqualElements` | internal/utils/deep_equal.go:111-149 | all elements equal |
| `DeepEquality.DeepEqualSliceBFS` | internal/utils/deep_equal.go:151-179 | the two passes decide the same |
| `DeepEquality.DeepEqualMap` | internal/utils/deep_equal.go:181-208 | equal sizes and one-sided lookup decide equality of the maps |
| `DeepEquality.DeepEqualStruct` | internal/utils/deep_equal.go:210-228 | all exported fields equal |
| `DeepEquality.Reflexive` | internal/utils/deep_equal.go:33-104 | deep equality is reflexive, NaN included |
| `DeepEquality.Symmetric` | internal/utils/deep_equal.go:33-104 | it is symmetric |
| `DeepEquality.Transitive` | internal/utils/deep_equal.go:33-104 | it is transitive |
| `DeepEquality.EqualIsSame` | internal/utils/deep_equal.go:33-104 | where every struct field is exported, values are deeply equal exactly if they are the same |
| `DeepEquality.HiddenFieldsDoNotCount` | internal/utils/deep_equal.go:210-228 | changing a field that is not exported changes nothing |
| `RefCounter.StepKeepsInv` | internal/utils/ref_count.go:26-54 | every atomic step keeps the counting invariant |
| `RefCounter.EveryRunIsSafe` | internal/utils/ref_count.go:26-54 | over every interleaving that never adds at zero: the count is 1 + adds - subs, no panic, the channel closed at most once, only at zero, and eventually |
| `RefCounter.CountIsAddsMinusReleases` | internal/utils/ref_count.go:26-54 | over every such run the count is one plus the number of adds minus the number of swaps that find the count as loaded |
| `RefCounter.UndisturbedSub` | internal/utils/ref_count.go:36-54 | an undisturbed release takes one off any count above zero and is the closing one exactly at one; at zero it leaves |
| `RefCounter.SubIsNotLost` | internal/utils/ref_count.go:36-54 | a thread leaves a release only by taking one off, or when it finds none |
| `RefCounter.ClosedIsFinal` | internal/utils/ref_count.go:36-54 | a closed counter stays at zero |
| `RefCounter.PanicsIffAddsAtZero` | internal/utils/ref_count.go:26-34 | over every interleaving, overflowing ones included, something panics if and only if a reference was added at zero |
| `RefCounter.AddAtZeroClosesTwice` | internal/utils/ref_count.go:26-54 | from every state with no reference left, closed or about to be, adding one panics and can lead to a second close |
| `MetricsPeriod.Entries.Add` | internal/metrics/period/entries.go:28-33 | a sample is taken exactly if it does not come too soon; spacing is kept |
| `MetricsPeriod.Entries.AddWithTime` | internal/metrics/period/entries.go:35-44 | the ring refines appending to a sequence |
| `MetricsPeriod.Entries.Get` | internal/metrics/period/entries.go:58-70 | the last 100 accepted samples in order |
| `MetricsPeriod.RingHoldsLatest` | internal/metrics/period/entries.go:58-70 | a ring with the latest samples at their slots reads back as those samples |
| `MetricsPeriod.Entries.Save` | internal/metrics/period/entries.go:77-82 | the samples in order and the interval |
| `MetricsPeriod.Entries.Load` | internal/metrics/period/entries.go:84-110 | the saved samples, at most 100, are appended, one interval apart and ending now |
| `MetricsPeriod.SaveAndLoad` | internal/metrics/period/entries.go:77-110 | saving and loading into a fresh buffer preserves samples and interval |
| `MetricsPeriod.AcceptedAreSpaced` | internal/metrics/period/entries.go:28-33 | accepted samples are at least one interval apart |
| `MetricsPeriod.AddAll` | internal/metrics/period/entries.go:28-44 | after any run the buffer stands for the old and the accepted samples |
| `MetricsPeriod.IntervalsFillTheDuration` | internal/metrics/period/entries.go:18-26 | 100 intervals fill the duration as well as whole nanoseconds allow, with a floor of one second |
| `MetricsPeriod.KnownPeriods` | internal/metrics/period/period.go:15-48 | the five periods and their intervals |
| `MetricsPeriod.ValidateAndFixIntervals` | internal/metrics/period/period.go:70-91 | every known period gets the interval of its duration, others keep theirs |

## Left out

- Everything that talks to the network, Docker, Proxmox, certificate authorities or the file
  system, the HTTP API, the UI, reflection-based configuration, logging and cryptography.
- Parsing of time stamps in log lines and calendar arithmetic: a line is dated by an arbitrary
  function, and the cutoff of an age limit is a parameter.
- LogRotation.RotateByPolicy: says what the content is only if the log is aligned from the stopping point on, because otherwise the computed ranges are not those of the lines; the pooled scratch buffer and partial writes are not modelled (a write that fails changes nothing).
- LogRotation.Rotate: the final seek to the end of the file is not modelled.
- RuleParser.Parse: works on characters where the source trims leading spaces by bytes, which differs for the two-byte spaces U+0085 and U+00A0.
- RuleHandler.BuildHandler: rules without a name get no generated name.
- RuleHandler.HandleRequest: a rule with an empty command list, on which the source calls a nil handler, does nothing in the model; nested command lists, which parsing never builds, and the buffering of the response are not modelled.
- RuleOn.ParseOn: argument validation is an arbitrary predicate per check, error texts are not modelled, and a tokenizer crash counts as an error.
- TemplateVars.ExpandVars: output already written before an error and errors of the output writer are not modelled.
- ContainerTasks.WakeController.Wake: the sharing of concurrent wake calls for one container is not modelled; every task that reaches the command issues it.
- ContainerTasks.WakeController.WakeDependencies: runs the tasks one after the other; all other schedules are covered by the relation in `ContainerOrder`.
- ContainerTasks.WakeController.WakeDependency: the context of a wake call ends after some number of ticks; a wait that never ends is not modelled.
- IdleWatcher.Watcher.Handle: event broadcasting, the idle timer and the ready notification channel are not modelled.
- BackScanning.BackScanner.Reset: the seek to the start, and its failure, are not modelled.
- RuleOn.Parse: the checks that parsed before an error, which the source keeps beside the error, are not modelled.
- HealthMonitor.Monitor.constructor: a target without a port, which is never checked, is not modelled.
- HealthMonitor.Monitor.Loop: the random initial delay, the last-seen record and the final status on exit are not modelled.
- LoadBalancer.LoadBalancer.Rebalance: floating-point scaling is an arbitrary function, assumed off by at most one unit where the total is claimed; the pool is visited in one fixed order.
- DockerLabels.ParseLabels: nested maps are values, so aliasing between maps is not modelled; wildcard expansion and YAML are left out.
- DockerLabels.FlattenMap: the destination map is passed and returned as a value, and maps with non-string keys are left out.
- DeepEquality.DeepEqual: values are finite trees, so cycle detection, functions and channels are left out.
- RefCounter.EveryRunIsSafe: the count is assumed not to overflow 32 bits.
- DependencyGraph.Watchers.ReducedDependencies: the order of the kept dependencies is not stated.
- ContainerTasks.WakeController.StopByMethod: pausing, stopping and killing are one command, with one outcome.
- MetricsPeriod.Entries.Get: a branch for a write position past the end, which cannot occur, is left out.
- MetricsPeriod: a period as a whole, which forwards each sample to the buffers of its filters, is not modelled.
- LoadBalancer: the choice of a server for a request (round robin, least connections, address hash) and sticky sessions are not modelled; nor is the renewal of certificates.
