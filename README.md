# Gradle core pieces, modelled and verified in Dafny

This project models four small pieces of the Gradle build tool and proves
properties about them.

- **Node dependency tracking** (`node_dependency_set.dfy`, module `NodeDependencies`).
  Each node of the execution plan has a tracker that records:
  - its predecessors, in a sorted set;
  - the predecessors it still waits for;
  - whether a predecessor failed;
  - whether the waiting set is already reconciled with the predecessors' outcomes ("pruned").

  From these it derives the readiness state: not complete, complete and
  successful, or complete and not successful. The model gives:
  - the class `NodeDependencySet`, whose methods update its fields in place;
  - one specification function per operation on the value `Tracker`;
  - lemmas about runs of calls.
- **Leaked-process cleanup** (`kill_leaking_java_processes.dfy`, module `ProcessCleanup`).
  The build's cleanup tool reads a process listing, keeps the lines that
  describe a Java process, and splits each command line into tokens. From the
  tokens it picks the main class and the classpath. It then decides whether
  the process is a leaked worker, a leaked Kotlin compile daemon, or a Gradle
  daemon whose classpath starts with the path of the working directory.
- **Interception-request grouping** (`groovy_class_generator_utils.dfy`, module `InterceptorGrouping`).
  The code generator for Groovy call interceptors keeps the requests that ask
  for Groovy interception. It groups constructor requests by owner type and all
  other requests by intercepted JVM method name. Each grouping goes into an
  insertion-ordered map, modelled as the class `LinkedGroups`.
- **Validation-problem collection** (`work_validation_context.dfy`, module `WorkValidation`).
  The collector records the validated types and the problems found in them.
  It drops a problem that only concerns cacheability when the type was
  validated as not cacheable. It reports the types sorted by class name.

`wrappers.dfy` holds the shared `Option` and `Result` types.

## Model

| member | source | states |
|---|---|---|
| NodeDependencies.Insert | subprojects/core/src/main/java/org/gradle/execution/plan/NodeDependencySet.java:46-49 | adding to the sorted node set keeps it sorted and adds exactly that node |
| NodeDependencies.Fresh | subprojects/core/src/main/java/org/gradle/execution/plan/NodeDependencySet.java:31-43 | a tracker without dependencies has no ordered nodes; under any outcomes its state is complete and successful |
| NodeDependencies.AfterAddDependency | subprojects/core/src/main/java/org/gradle/execution/plan/NodeDependencySet.java:45-55 | the node joins both the sorted set and the waiting set; the failure flag is kept; pruning is invalidated |
| NodeDependencies.AfterNodeComplete | subprojects/core/src/main/java/org/gradle/execution/plan/NodeDependencySet.java:57-66 | a notice about an untracked node changes nothing; a failed tracked node sets the failure flag and drops the waiting set; a successful one is only removed |
| NodeDependencies.Prune | subprojects/core/src/main/java/org/gradle/execution/plan/NodeDependencySet.java:69-85 | the scan never touches the sorted set and leaves the tracker pruned; an already pruned tracker is left as it is |
| NodeDependencies.Classify | subprojects/core/src/main/java/org/gradle/execution/plan/NodeDependencySet.java:86-92 | "not successful" exactly when a failure was seen; "not complete" exactly when there is no failure and the waiting set is present and non-empty |
| NodeDependencies.Step | subprojects/core/src/main/java/org/gradle/execution/plan/NodeDependencySet.java:45-93 | every call keeps the node set sorted and never removes a node; only `addDependency` changes it |
| NodeDependencies.StepKeepsConsistent | subprojects/core/src/main/java/org/gradle/execution/plan/NodeDependencySet.java:45-93 | each call keeps the tracker invariant: sorted, waiting set within the dependencies, no waiting set only after a failure or before any dependency |
| NodeDependencies.RunKeepsConsistent | subprojects/core/src/main/java/org/gradle/execution/plan/NodeDependencySet.java:45-93 | every sequence of calls keeps that invariant |
| NodeDependencies.FailureIsSticky | subprojects/core/src/main/java/org/gradle/execution/plan/NodeDependencySet.java:57-93 | once a failure is recorded, no sequence of calls, not even `addDependency`, clears it, and `getState` answers complete and not successful |
| NodeDependencies.DependenciesOnlyGrow | subprojects/core/src/main/java/org/gradle/execution/plan/NodeDependencySet.java:45-93 | the sorted set never loses a node, and without `addDependency` it does not change at all |
| NodeDependencies.TerminalStateIsStable | subprojects/core/src/main/java/org/gradle/execution/plan/NodeDependencySet.java:57-93 | from a terminal state, completion notices and queries keep the same state |
| NodeDependencies.RescanDecidesState | subprojects/core/src/main/java/org/gradle/execution/plan/NodeDependencySet.java:69-92 | a rescan answers: failed iff a waited-for node failed; successful iff all waited-for nodes completed successfully; not complete iff none failed and one is incomplete |
| NodeDependencies.SecondQueryDoesNotRescan | subprojects/core/src/main/java/org/gradle/execution/plan/NodeDependencySet.java:69-85 | a second `getState` without an intervening `addDependency` does not rescan, whatever the outcomes have become |
| NodeDependencies.CompletionsCommute | subprojects/core/src/main/java/org/gradle/execution/plan/NodeDependencySet.java:57-66 | completion notices for two different nodes give the same tracker in either order |
| NodeDependencies.NodeDependencySet.constructor | subprojects/core/src/main/java/org/gradle/execution/plan/NodeDependencySet.java:31-35 | a new tracker is the fresh tracker |
| NodeDependencies.NodeDependencySet.GetOrderedNodes | subprojects/core/src/main/java/org/gradle/execution/plan/NodeDependencySet.java:37-43 | returns the recorded predecessors, sorted without duplicates; for a new tracker this is the empty set |
| NodeDependencies.NodeDependencySet.AddDependency | subprojects/core/src/main/java/org/gradle/execution/plan/NodeDependencySet.java:45-55 | the new fields are those of `AfterAddDependency`, and the invariant holds |
| NodeDependencies.NodeDependencySet.OnNodeComplete | subprojects/core/src/main/java/org/gradle/execution/plan/NodeDependencySet.java:57-66 | the new fields are those of `AfterNodeComplete`, and the invariant holds |
| NodeDependencies.NodeDependencySet.GetState | subprojects/core/src/main/java/org/gradle/execution/plan/NodeDependencySet.java:68-93 | the scan over the waiting set, in any iteration order and with its early stop at a failure, leaves the fields of `Prune`; the answer is `Classify` of them |
| ProcessCleanup.SplitOnWhitespace | build-logic/cleanup/src/main/java/gradlebuild/cleanup/KillLeakingJavaProcesses.java:99 | splitting at single whitespace characters gives one more field than there are whitespace characters; no field holds whitespace; the fields joined are the input without its whitespace |
| ProcessCleanup.SplitWithoutWhitespace | build-logic/cleanup/src/main/java/gradlebuild/cleanup/KillLeakingJavaProcesses.java:99 | a string without whitespace splits into itself alone |
| ProcessCleanup.SplitAtWhitespace | build-logic/cleanup/src/main/java/gradlebuild/cleanup/KillLeakingJavaProcesses.java:99 | a whitespace-free part followed by a whitespace character is one field, followed by the fields of the rest |
| ProcessCleanup.Trim | build-logic/cleanup/src/main/java/gradlebuild/cleanup/KillLeakingJavaProcesses.java:100 | the result is no longer than the input, and it neither starts nor ends with a character up to the space |
| ProcessCleanup.TrimmedAtBothEnds | build-logic/cleanup/src/main/java/gradlebuild/cleanup/KillLeakingJavaProcesses.java:100 | the result is the middle part of the input that starts at the first untrimmable character; everything cut off at either end is a character up to the space |
| ProcessCleanup.TrimIdempotent | build-logic/cleanup/src/main/java/gradlebuild/cleanup/KillLeakingJavaProcesses.java:100 | trimming twice is trimming once |
| ProcessCleanup.TrimEach | build-logic/cleanup/src/main/java/gradlebuild/cleanup/KillLeakingJavaProcesses.java:100 | one trimmed field per field, at the same position |
| ProcessCleanup.TrimEachAppend | build-logic/cleanup/src/main/java/gradlebuild/cleanup/KillLeakingJavaProcesses.java:100 | trimming each field of two runs of fields gives the two trimmed runs in turn |
| ProcessCleanup.DropEmpty | build-logic/cleanup/src/main/java/gradlebuild/cleanup/KillLeakingJavaProcesses.java:101 | keeps exactly the non-empty strings, and no more of them than there were |
| ProcessCleanup.DropEmptyAppend | build-logic/cleanup/src/main/java/gradlebuild/cleanup/KillLeakingJavaProcesses.java:101 | dropping the empty strings keeps the order: a concatenation gives the concatenation of the kept parts |
| ProcessCleanup.OneField | build-logic/cleanup/src/main/java/gradlebuild/cleanup/KillLeakingJavaProcesses.java:99-102 | a single field gives its trimmed text, or nothing when that is empty |
| ProcessCleanup.OneMorePiece | build-logic/cleanup/src/main/java/gradlebuild/cleanup/KillLeakingJavaProcesses.java:99-102 | one more field adds its trimmed text, unless empty, after the tokens of the fields before it |
| ProcessCleanup.TrimmedPiecesAreWords | build-logic/cleanup/src/main/java/gradlebuild/cleanup/KillLeakingJavaProcesses.java:99-101 | fields without whitespace stay without whitespace when trimmed, and each is empty or has no trimmable character at either end |
| ProcessCleanup.Tokens | build-logic/cleanup/src/main/java/gradlebuild/cleanup/KillLeakingJavaProcesses.java:99-102 | every token is non-empty, holds no whitespace and has no trimmable character at either end |
| ProcessCleanup.TokensAtWhitespace | build-logic/cleanup/src/main/java/gradlebuild/cleanup/KillLeakingJavaProcesses.java:99-102 | the tokens of a whitespace-free part, a whitespace character and a rest are the part's tokens followed by the rest's |
| ProcessCleanup.Commands | build-logic/cleanup/src/main/java/gradlebuild/cleanup/KillLeakingJavaProcesses.java:98-102 | the first command is the Java executable, and the rest are the tokens of the other arguments |
| ProcessCleanup.SingleWordIsOneToken | build-logic/cleanup/src/main/java/gradlebuild/cleanup/KillLeakingJavaProcesses.java:99-102 | arguments that are one untrimmable word are exactly that one token |
| ProcessCleanup.IsMainClass | build-logic/cleanup/src/main/java/gradlebuild/cleanup/KillLeakingJavaProcesses.java:48 | a matching token has at least four characters, starts with a lower-case letter, holds a dot and ends with a word character |
| ProcessCleanup.MainClassSplitIsUnique | build-logic/cleanup/src/main/java/gradlebuild/cleanup/KillLeakingJavaProcesses.java:48 | a token matches the main-class pattern with exactly one split into package prefix and simple class name |
| ProcessCleanup.SegmentIsPackagePrefix | build-logic/cleanup/src/main/java/gradlebuild/cleanup/KillLeakingJavaProcesses.java:48 | a lower-case segment and a dot match `([a-z]+\.)` |
| ProcessCleanup.PackagePrefixExtends | build-logic/cleanup/src/main/java/gradlebuild/cleanup/KillLeakingJavaProcesses.java:48 | a package prefix followed by one more lower-case segment and a dot is a package prefix |
| ProcessCleanup.QualifiedNameIsMainClass | build-logic/cleanup/src/main/java/gradlebuild/cleanup/KillLeakingJavaProcesses.java:48 | a package prefix followed by a simple class name matches the main-class pattern |
| ProcessCleanup.DaemonPackageIsPrefix | build-logic/cleanup/src/main/java/gradlebuild/cleanup/KillLeakingJavaProcesses.java:48 | the package of the Gradle daemon's main class is a package prefix |
| ProcessCleanup.DaemonMainClassMatches | build-logic/cleanup/src/main/java/gradlebuild/cleanup/KillLeakingJavaProcesses.java:48 | `org.gradle.launcher.daemon.bootstrap.GradleDaemon` matches the main-class pattern |
| ProcessCleanup.BareClassNameDoesNotMatch | build-logic/cleanup/src/main/java/gradlebuild/cleanup/KillLeakingJavaProcesses.java:48 | a simple name without a package does not match |
| ProcessCleanup.LastMainClassAtIsUnique | build-logic/cleanup/src/main/java/gradlebuild/cleanup/KillLeakingJavaProcesses.java:103-107 | only one token can be the last to match the pattern |
| ProcessCleanup.LastMainClass | build-logic/cleanup/src/main/java/gradlebuild/cleanup/KillLeakingJavaProcesses.java:103-107 | none iff no token matches; otherwise the token that matches with no matching token after it |
| ProcessCleanup.LastMainClassStep | build-logic/cleanup/src/main/java/gradlebuild/cleanup/KillLeakingJavaProcesses.java:103-107 | one more token overwrites the main class exactly when it matches |
| ProcessCleanup.StripQuotes | build-logic/cleanup/src/main/java/gradlebuild/cleanup/KillLeakingJavaProcesses.java:110-115 | the first character is removed iff it is a double quote, then the last remaining one iff it is a double quote, and nothing else; a string without quotes is unchanged |
| ProcessCleanup.QuotedIsUnquoted | build-logic/cleanup/src/main/java/gradlebuild/cleanup/KillLeakingJavaProcesses.java:110-115 | a value wrapped in double quotes comes back unwrapped, whatever it holds |
| ProcessCleanup.ClasspathOf | build-logic/cleanup/src/main/java/gradlebuild/cleanup/KillLeakingJavaProcesses.java:108-116 | none iff no `-classpath`/`-cp` flag stands before the last token; otherwise the token after the last such flag, quotes stripped |
| ProcessCleanup.LastClasspathFlagIsUnique | build-logic/cleanup/src/main/java/gradlebuild/cleanup/KillLeakingJavaProcesses.java:108-116 | only one flag can be the last |
| ProcessCleanup.ClasspathOfStep | build-logic/cleanup/src/main/java/gradlebuild/cleanup/KillLeakingJavaProcesses.java:108-116 | a flag followed by one more token overwrites the classpath with that token, unquoted |
| ProcessCleanup.Info | build-logic/cleanup/src/main/java/gradlebuild/cleanup/KillLeakingJavaProcesses.java:96-118 | the process keeps its pid, and its commands are the executable and the tokens |
| ProcessCleanup.InfoAsWritten | build-logic/cleanup/src/main/java/gradlebuild/cleanup/KillLeakingJavaProcesses.java:96-118 | construction fails iff the last command is `-cp`, with the index one past the end; otherwise it gives the intended process description |
| ProcessCleanup.TrailingCpThrows | build-logic/cleanup/src/main/java/gradlebuild/cleanup/KillLeakingJavaProcesses.java:108-109 | the line whose command ends in `-cp` makes the constructor read past the end of the token list |
| ProcessCleanup.CollectCommands | build-logic/cleanup/src/main/java/gradlebuild/cleanup/KillLeakingJavaProcesses.java:97-102 | appends the executable, then each trimmed non-empty field, giving exactly the commands |
| ProcessCleanup.AddTokens | build-logic/cleanup/src/main/java/gradlebuild/cleanup/KillLeakingJavaProcesses.java:99-102 | the loop appends exactly the trimmed non-empty fields, in order, to what the list held |
| ProcessCleanup.ScanCommands | build-logic/cleanup/src/main/java/gradlebuild/cleanup/KillLeakingJavaProcesses.java:103-117 | the loop fails exactly when the last token is `-cp`, with an index past the end; otherwise it finds the last main class and the intended classpath |
| ProcessCleanup.NewJavaProcessInfo | build-logic/cleanup/src/main/java/gradlebuild/cleanup/KillLeakingJavaProcesses.java:96-118 | the constructor as written: the description, or the out-of-bounds failure |
| ProcessCleanup.IsLeakingJavaProcess | build-logic/cleanup/src/main/java/gradlebuild/cleanup/KillLeakingJavaProcesses.java:146-157 | false without a main class; true for a worker or Kotlin daemon; for anything else, true iff it is a Gradle daemon whose classpath starts with the working directory |
| ProcessCleanup.LeakingVerdictFromTokens | build-logic/cleanup/src/main/java/gradlebuild/cleanup/KillLeakingJavaProcesses.java:146-157 | in terms of the tokens: kept without a main-class token; otherwise decided by the last matching token and by the token after the last classpath flag |
| ProcessCleanup.LineEnd | build-logic/cleanup/src/main/java/gradlebuild/cleanup/KillLeakingJavaProcesses.java:121 | finds the first line terminator at or after a position, or the end |
| ProcessCleanup.Lines | build-logic/cleanup/src/main/java/gradlebuild/cleanup/KillLeakingJavaProcesses.java:121 | no line holds a terminator, and there are no more lines than characters |
| ProcessCleanup.LinesRoundTrip | build-logic/cleanup/src/main/java/gradlebuild/cleanup/KillLeakingJavaProcesses.java:121 | an output without `\r` that ends in a newline is its lines, each followed by a newline |
| ProcessCleanup.SplitAtNewline | build-logic/cleanup/src/main/java/gradlebuild/cleanup/KillLeakingJavaProcesses.java:121 | an output whose first terminator is a newline is its first line, then the lines after the newline |
| ProcessCleanup.ParseLine | build-logic/cleanup/src/main/java/gradlebuild/cleanup/KillLeakingJavaProcesses.java:132-144 | a process iff the platform pattern matches the trimmed line; the pid comes from group 4 on Windows and group 1 on Unix; the commands are built from the executable group and the rest |
| ProcessCleanup.ParseLineAsWritten | build-logic/cleanup/src/main/java/gradlebuild/cleanup/KillLeakingJavaProcesses.java:132-144 | as written, parsing a line fails iff it matches and its commands end in `-cp`; otherwise it gives the corrected parse |
| ProcessCleanup.Present | build-logic/cleanup/src/main/java/gradlebuild/cleanup/KillLeakingJavaProcesses.java:123 | the kept values are exactly the present ones |
| ProcessCleanup.PresentAppend | build-logic/cleanup/src/main/java/gradlebuild/cleanup/KillLeakingJavaProcesses.java:121-124 | filtering keeps the order: a concatenation filters to the concatenation of the filtered parts |
| ProcessCleanup.ParseEach | build-logic/cleanup/src/main/java/gradlebuild/cleanup/KillLeakingJavaProcesses.java:122 | one parse per line, at the line's position |
| ProcessCleanup.ParseEachConcat | build-logic/cleanup/src/main/java/gradlebuild/cleanup/KillLeakingJavaProcesses.java:122 | parsing two runs of lines gives the two runs of parses in turn |
| ProcessCleanup.ParsePsOutput | build-logic/cleanup/src/main/java/gradlebuild/cleanup/KillLeakingJavaProcesses.java:120-125 | a process is listed exactly when some line of the output parses to it, and there are no more processes than lines |
| ProcessCleanup.ParseEachAppend | build-logic/cleanup/src/main/java/gradlebuild/cleanup/KillLeakingJavaProcesses.java:120-125 | the processes of two listings in turn are those of each listing, in input order |
| ProcessCleanup.ParseLinesAsWritten | build-logic/cleanup/src/main/java/gradlebuild/cleanup/KillLeakingJavaProcesses.java:120-125 | as written, listing fails iff some line throws; otherwise it lists the present parses in line order |
| ProcessCleanup.ParsePsOutputAsWritten | build-logic/cleanup/src/main/java/gradlebuild/cleanup/KillLeakingJavaProcesses.java:120-125 | as written, the listing fails iff some line of the output matches with commands ending in `-cp`; otherwise it is the corrected listing |
| InterceptorGrouping.AddToGroup | subprojects/internal-instrumentation-processor/src/main/java/org/gradle/internal/instrumentation/processor/codegen/groovy/GroovyClassGeneratorUtils.java:42-45 | keys stay as they were, or the new key comes last; the request is appended under its key and every other key keeps its requests |
| InterceptorGrouping.Filter | subprojects/internal-instrumentation-processor/src/main/java/org/gradle/internal/instrumentation/processor/codegen/groovy/GroovyClassGeneratorUtils.java:38 | a request is kept exactly when it is in the input and passes the test |
| InterceptorGrouping.FirstOccurrencesMembers | subprojects/internal-instrumentation-processor/src/main/java/org/gradle/internal/instrumentation/processor/codegen/groovy/GroovyClassGeneratorUtils.java:35-36 | the first occurrences of the keys are exactly the keys, without repeats |
| InterceptorGrouping.GroupedKeyOrder | subprojects/internal-instrumentation-processor/src/main/java/org/gradle/internal/instrumentation/processor/codegen/groovy/GroovyClassGeneratorUtils.java:35-50 | groups come in the order in which their keys first occur among the requests |
| InterceptorGrouping.GroupedContents | subprojects/internal-instrumentation-processor/src/main/java/org/gradle/internal/instrumentation/processor/codegen/groovy/GroovyClassGeneratorUtils.java:42-45 | the group of each key holds exactly the requests with that key, in input order |
| InterceptorGrouping.WithKeyMembers | subprojects/internal-instrumentation-processor/src/main/java/org/gradle/internal/instrumentation/processor/codegen/groovy/GroovyClassGeneratorUtils.java:42-45 | the requests with a key are the input's requests that have it |
| InterceptorGrouping.GroupKeysAreDistinct | subprojects/internal-instrumentation-processor/src/main/java/org/gradle/internal/instrumentation/processor/codegen/groovy/GroovyClassGeneratorUtils.java:42-45 | no two groups share a key |
| InterceptorGrouping.GroupsHoldTheirKey | subprojects/internal-instrumentation-processor/src/main/java/org/gradle/internal/instrumentation/processor/codegen/groovy/GroovyClassGeneratorUtils.java:41-46 | every group is non-empty and holds only input requests with its key |
| InterceptorGrouping.EveryRequestIsGrouped | subprojects/internal-instrumentation-processor/src/main/java/org/gradle/internal/instrumentation/processor/codegen/groovy/GroovyClassGeneratorUtils.java:41-46 | every request lands in the group of its key |
| InterceptorGrouping.LookupOfDistinct | subprojects/internal-instrumentation-processor/src/main/java/org/gradle/internal/instrumentation/processor/codegen/groovy/GroovyClassGeneratorUtils.java:42-45 | with distinct keys, looking up a group's key finds that group's requests |
| InterceptorGrouping.OnlyGroovyRequestsAreGrouped | subprojects/internal-instrumentation-processor/src/main/java/org/gradle/internal/instrumentation/processor/codegen/groovy/GroovyClassGeneratorUtils.java:37-48 | only input requests that ask for Groovy interception appear: constructors under their owner, others under their method name |
| InterceptorGrouping.KeptRequestLandsInOneGroup | subprojects/internal-instrumentation-processor/src/main/java/org/gradle/internal/instrumentation/processor/codegen/groovy/GroovyClassGeneratorUtils.java:38-46 | a request that asks for Groovy interception lands in exactly one spec of the right map, and in none of the other |
| InterceptorGrouping.SpecKeysAreDistinct | subprojects/internal-instrumentation-processor/src/main/java/org/gradle/internal/instrumentation/processor/codegen/groovy/GroovyClassGeneratorUtils.java:35-50 | within each of the two results, no two specs share a key |
| InterceptorGrouping.ValuesOf | subprojects/internal-instrumentation-processor/src/main/java/org/gradle/internal/instrumentation/processor/codegen/groovy/GroovyClassGeneratorUtils.java:50 | the map's values come in the order of its keys |
| InterceptorGrouping.ValuesOfIgnoresOthers | subprojects/internal-instrumentation-processor/src/main/java/org/gradle/internal/instrumentation/processor/codegen/groovy/GroovyClassGeneratorUtils.java:42-45 | updating an unlisted key changes no listed group |
| InterceptorGrouping.ValuesOfAppend | subprojects/internal-instrumentation-processor/src/main/java/org/gradle/internal/instrumentation/processor/codegen/groovy/GroovyClassGeneratorUtils.java:42-45 | appending to a present key's entry is adding to its group |
| InterceptorGrouping.ValuesOfNewKey | subprojects/internal-instrumentation-processor/src/main/java/org/gradle/internal/instrumentation/processor/codegen/groovy/GroovyClassGeneratorUtils.java:42-45 | entering an absent key opens its group at the end |
| InterceptorGrouping.LinkedGroups.constructor | subprojects/internal-instrumentation-processor/src/main/java/org/gradle/internal/instrumentation/processor/codegen/groovy/GroovyClassGeneratorUtils.java:35-36 | a new map has no groups |
| InterceptorGrouping.LinkedGroups.Values | subprojects/internal-instrumentation-processor/src/main/java/org/gradle/internal/instrumentation/processor/codegen/groovy/GroovyClassGeneratorUtils.java:50 | the groups, keyed in insertion order |
| InterceptorGrouping.LinkedGroups.Add | subprojects/internal-instrumentation-processor/src/main/java/org/gradle/internal/instrumentation/processor/codegen/groovy/GroovyClassGeneratorUtils.java:42-45 | adding a request under a key changes the values as `AddToGroup` does, and keeps keys distinct |
| InterceptorGrouping.GroupedStep | subprojects/internal-instrumentation-processor/src/main/java/org/gradle/internal/instrumentation/processor/codegen/groovy/GroovyClassGeneratorUtils.java:37-46 | one more request joins the group of its key when the filter keeps it, and changes nothing otherwise |
| InterceptorGrouping.GroupRequests | subprojects/internal-instrumentation-processor/src/main/java/org/gradle/internal/instrumentation/processor/codegen/groovy/GroovyClassGeneratorUtils.java:34-51 | the loop over the requests returns the filtered requests grouped by key, named and constructor groups apart |
| WorkValidation.RecordedWithoutPayloadOrWhenCacheable | subprojects/execution/src/main/java/org/gradle/internal/execution/impl/DefaultWorkValidationContext.java:47-50 | a problem without a payload is always recorded, and a cacheable context records everything; a problem is dropped iff it is cacheability-only and the type is not cacheable |
| WorkValidation.NameLeqReflexive | subprojects/execution/src/main/java/org/gradle/internal/execution/impl/DefaultWorkValidationContext.java:62 | the name order is reflexive |
| WorkValidation.NameLeqAntisymmetric | subprojects/execution/src/main/java/org/gradle/internal/execution/impl/DefaultWorkValidationContext.java:62 | the name order is antisymmetric |
| WorkValidation.NameLeqTransitive | subprojects/execution/src/main/java/org/gradle/internal/execution/impl/DefaultWorkValidationContext.java:62 | the name order is transitive |
| WorkValidation.NameLeqTotal | subprojects/execution/src/main/java/org/gradle/internal/execution/impl/DefaultWorkValidationContext.java:62 | any two names are comparable |
| WorkValidation.FirstByNameExists | subprojects/execution/src/main/java/org/gradle/internal/execution/impl/DefaultWorkValidationContext.java:62 | every non-empty set of classes has a class whose name comes first |
| WorkValidation.FirstByNameIsUnique | subprojects/execution/src/main/java/org/gradle/internal/execution/impl/DefaultWorkValidationContext.java:62 | that class is unique |
| WorkValidation.SortByName | subprojects/execution/src/main/java/org/gradle/internal/execution/impl/DefaultWorkValidationContext.java:62 | the result holds exactly the set's classes, once each, in strictly increasing name order |
| WorkValidation.AfterForType | subprojects/execution/src/main/java/org/gradle/internal/execution/impl/DefaultWorkValidationContext.java:42-43 | the type is added to the validated types, whether or not a problem follows; problems are unchanged |
| WorkValidation.AfterRecordProblem | subprojects/execution/src/main/java/org/gradle/internal/execution/impl/DefaultWorkValidationContext.java:46-51 | a recorded problem is appended at the end; a dropped one changes nothing; types never change |
| WorkValidation.ProblemsOnlyGrow | subprojects/execution/src/main/java/org/gradle/internal/execution/impl/DefaultWorkValidationContext.java:42-58 | the problems of a run begin with those of any prefix of it, and no type is ever removed |
| WorkValidation.ValidatedTypesAreTheNamedOnes | subprojects/execution/src/main/java/org/gradle/internal/execution/impl/DefaultWorkValidationContext.java:42-43 | a type is validated exactly when some `forType` call named it |
| WorkValidation.KeptProblems | subprojects/execution/src/main/java/org/gradle/internal/execution/impl/DefaultWorkValidationContext.java:46-51 | no more problems are kept than there are events |
| WorkValidation.KeptProblemsAppend | subprojects/execution/src/main/java/org/gradle/internal/execution/impl/DefaultWorkValidationContext.java:46-51 | the kept problems of two runs in turn are those of each run, in order |
| WorkValidation.ProblemsAreTheKeptOnes | subprojects/execution/src/main/java/org/gradle/internal/execution/impl/DefaultWorkValidationContext.java:46-58 | `getProblems` is the recorded problems that pass the filter, in recording order |
| WorkValidation.DefaultWorkValidationContext.constructor | subprojects/execution/src/main/java/org/gradle/internal/execution/impl/DefaultWorkValidationContext.java:33-39 | a new collector has no types and no problems |
| WorkValidation.DefaultWorkValidationContext.ForType | subprojects/execution/src/main/java/org/gradle/internal/execution/impl/DefaultWorkValidationContext.java:42-54 | the type is recorded as `AfterForType` says, and a new context records into this collector with the given cacheability |
| WorkValidation.DefaultWorkValidationContext.GetProblems | subprojects/execution/src/main/java/org/gradle/internal/execution/impl/DefaultWorkValidationContext.java:56-59 | returns the recorded problems in recording order |
| WorkValidation.DefaultWorkValidationContext.ValidatedTypes | subprojects/execution/src/main/java/org/gradle/internal/execution/impl/DefaultWorkValidationContext.java:61-63 | the validated types, each once, in strictly increasing name order |
| WorkValidation.TypeValidationContext.constructor | subprojects/execution/src/main/java/org/gradle/internal/execution/impl/DefaultWorkValidationContext.java:44 | the context remembers its collector and the cacheability of its type |
| WorkValidation.TypeValidationContext.RecordProblem | subprojects/execution/src/main/java/org/gradle/internal/execution/impl/DefaultWorkValidationContext.java:46-52 | the collector changes as `AfterRecordProblem` says |

## Left out

- Threads: `NodeDependencySet` has no synchronisation and is modelled as single-threaded.
- Node outcomes: `isComplete` and `isSuccessful` belong to the node and change over time. They are parameters that hold at the moment of each call.
- The node comparator is not part of this model. Nodes are ordered by an integer id.
- NodeDependencies.NodeDependencySet.GetOrderedNodes: returns the set as a value. The live `NavigableSet` the source hands out, and changes made through that reference, are not modelled.
- Iteration order of the waiting set in `getState` is unspecified. The loop picks any remaining node, and the result is proved not to depend on the order.
- Process spawning, console output, `main`, `ps`, `run`, `kill`, `determinePsCommand`, `isWindows` and `isMacOS` are I/O and are not modelled. The working directory is a parameter.
- The Unix and Windows line patterns are regular expressions with greedy matching. They are not modelled: each is a function from the trimmed line to its capture groups. The main-class pattern is modelled exactly, as a predicate.
- ProcessCleanup.SplitOnWhitespace: keeps the trailing empty fields that Java's `split` drops. Every empty field is dropped right after, so the tokens are the same.
- Characters are Unicode scalar values, not UTF-16 code units. Strings with characters outside the Basic Multilingual Plane may split, trim and compare differently than in Java.
- `NameUtil.interceptedJvmMethodName` is not part of this model. It is a parameter of `GroupRequests`.
- The ASM `Type` of an owner is its internal name. The spec objects `NamedCallableInterceptorSpec` and `ConstructorInterceptorSpec` are a key with its request list.
- Callable kinds other than `AFTER_CONSTRUCTOR` are not told apart, since grouping treats them alike.
- A class is identified by its name. Two classes with the same name from different class loaders, which Java's sorted copy keeps only once, cannot arise in the model.
- Message formatting in `MessageFormattingTypeValidationContext`, and the documentation registry, are not modelled. A problem is its description and its optional payload.
- ProcessCleanup.ParseLine: builds the corrected process description, so a matched line whose commands end in `-cp` gives a process instead of an exception. The listing as written, which throws on such a line, is ProcessCleanup.ParsePsOutputAsWritten, through ProcessCleanup.ParseLineAsWritten.
- ProcessCleanup.ParsePsOutput: lists with the corrected parse; the listing as written is ProcessCleanup.ParsePsOutputAsWritten, which fails exactly when some line would throw and otherwise equals this one.
- ProcessCleanup.LinesRoundTrip: states the round trip only for output without `\r` that ends in a newline. A line break written `\r` or `\r\n` does not come back as written.

## Findings

| source | as written | input that shows it | evidently intended | confidence | as-written member | corrected member |
|---|---|---|---|---|---|---|
| build-logic/cleanup/src/main/java/gradlebuild/cleanup/KillLeakingJavaProcesses.java:108-109 | `i != last && "-classpath".equals(c) \|\| "-cp".equals(c)` groups as `(i != last && -classpath) \|\| -cp`, so the last-index guard does not cover `-cp` | the Unix listing line `4242 /usr/bin/java -cp`: the last token `-cp` makes `commands.get(i + 1)` throw `IndexOutOfBoundsException`, which escapes `parsePsOutput` and stops the whole cleanup | the guard covers both flags, and a flag in last position is ignored | not executed | ProcessCleanup.TrailingCpThrows | ProcessCleanup.ClasspathOf |

The as-written constructor is `ProcessCleanup.NewJavaProcessInfo`, specified by `ProcessCleanup.InfoAsWritten`. The corrected description `ProcessCleanup.Info` uses `ProcessCleanup.ClasspathOf`, and `ProcessCleanup.ParseLine` builds on it. At the level of the whole listing, `ProcessCleanup.ParsePsOutputAsWritten` fails exactly when some line of the output matches and its commands end in `-cp`, and otherwise equals the corrected `ProcessCleanup.ParsePsOutput`.
