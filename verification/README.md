# PLaTypus, modelled and verified in Dafny

PLaTypus hardens indirect calls. A compiler pass rewrites every indirect call of a module so that its target is masked, or
compared with a mask and otherwise looked up in a generated table of callbacks; scripts compute which callbacks belong in
which table; a patched glibc is the first program built that way. This project models the parts of the repository with the
most intricate behaviour and proves what they promise, for all inputs, all trees, all runs and all interleavings.

| files | what they model |
|---|---|
| `Options.dfy`, `ArgpTree.dfy` | options, argps and their children as an ordered tree |
| `HelpOrder.dfy`, `HelpNames.dfy`, `HelpBlocks.dfy` | the comparator of the help listing, what it reads off the options, and what sorting by it does to clusters |
| `HelpList.dfy`, `HelpListBuild.dfy` | the help option list, with shadowing kept as pointers into one shared string |
| `HelpOwners.dfy`, `HelpUsage.dfy` | which option put each letter there, and the letters of the usage line |
| `HelpHeaders.dfy`, `HelpClusters.dfy`, `HelpPaths.dfy` | what is printed for each entry, the clusters of a tree with their headers, and which children and options an entry has its clusters and group from |
| `HelpAgreement.dfy` | help against parser: where a letter is listed, and where it goes |
| `HelpExamples.dfy`, `Counterexamples.dfy` | single inputs on which a promise or condition fails |
| `UsagePatterns.dfy`, `UsageLines.dfy` | the alternative usage lines, an odometer over the tree, and the text it prints |
| `ParserTables.dfy`, `ParserConvert.dfy`, `ParserLayout.dfy`, `ParserDispatch.dfy`, `ParserLong.dfy`, `ParserShort.dfy` | the option tables and groups of the parser: sizing, filling, layout, and lookup of short and long options |
| `ParseRun.dfy`, `ParseClosing.dfy`, `ParseQuoted.dfy`, `ParseEnds.dfy`, `ParsePositions.dfy`, `ParserMachine.dfy` | parsing runs as traces of calls, which calls close them and with what result, what `--` and ARGP_NO_ARGS change, when they end, which arguments they take, and the parser object that makes them |
| `TableSearch.dfy`, `CallIr.dfy`, `CallRewrite.dfy`, `CallDiamond.dfy`, `CallPass.dfy`, `CallInstrument.dfy`, `CallMeaning.dfy` | the masks and table stubs, a block language with indirect calls, the rewriting pass, and what it means for whole runs |
| `CallbackClosure.dfy`, `TableSymbols.dfy` | the closure of the callback tables, computed twice, and the symbols of the generated tables |
| `ProducerConsumer.dfy` | the condition-variable benchmark as a state machine over its steps |
| `JsonWriter.dfy`, `JsonRoundTrip.dfy` | the JSON emitter, and a reader for sections 2, 4 and 5 of RFC 8259 |

Code that updates objects or buffers is modelled by classes, arrays and loops. Each such method is proved against a
function of its inputs or of the old state, and the results are proved about those functions. What is outside the code is a
parameter: the locale, user parsers and getopt (arbitrary functions of the state so far), help filters, the environment of a
rewritten function (every operation, callee, mask and table), the analysis that classifies a call. Streams are sequences that
grow. Integers are unbounded except where width matters, and there it is written out: `char` levels and letters, the 24-bit
key and 8-bit group packed in an `int`, the `unsigned` indentation, 64-bit words.

## How rewriting is stated

A function runs under a policy that gives every call site a check: untouched, masked, mask-or-table, or always a table. The
empty policy is the program as written. Rewriting a site turns a run under its check into a run under none: everything seen
of the original under the policy is seen of the rewritten function without it, at least as far along, so they also end alike
(`CallIr.SameEnds`). Register `r11` does not survive a call in either.

## Where the code and its documentation differ

- A short option with a key above 127 is never found in the help list, since it is compared with a signed `char`; and when
  lists are merged, the letters behind such a key are lost with it. The list finds the first occurrence of every letter if and
  only if no such key is used (`Counterexamples.WideKeyExample` has one). A lost letter that another argp declares again can
  then be found twice, and the usage line overruns its buffer: `HelpExamples.UsageOverflows` has a tree. The buffer suffices
  whenever no letter is declared twice that is new behind a key above 127 outside the first argp with options.
- The usage loop ends if and only if no argument string has more than 128 lines; beyond that a level wraps before its last line.
- A short alias of a documentation option is listed in help and unknown to the parser. A key above 127 is listed nowhere, and
  what getopt returns for it is not taken for a short option. Leaving aside ':' and the character that the flags put in front
  of the short options, which getopt takes for syntax, help and parser agree on every letter if and only if all short keys are
  at most 127 and the argp that declares a letter first declares it for a real option and has a parser. `Counterexamples.DocAliasExample` and
  `HelpAgreement.ListedTwice` have trees on which they differ.
- argp does not keep the keys ':', '-' and '+' apart from getopt's syntax. The argument getopt reads for a letter is the one its
  option declares if and only if that is optional or the next real short option is not ':'; `Counterexamples.ColonKeyExample` has
  an option without argument that getopt takes to need one. The order of options and arguments it reads is the one the flags ask
  for if and only if a flag asks for one or the first real short option is neither '-' nor '+'.
- A comment in the comparator puts entries with a short option before those without where both start with the same character;
  the code does the opposite (`Counterexamples.LetterComesSecond`).
- A cluster's entries stay together in every sorted listing if and only if no other cluster has the same place. Two clusters of
  a tree have one when a child merged into its parent has children with groups: `HelpExamples.TwinsSplit` has a tree whose
  listing is always split, so that a header comes twice.
- A cluster's header is printed only before a switch. Where the first thing the cluster's own entries print is the title of an
  option group, the header is never printed: `HelpExamples.HeaderLost` has a tree.
- With `ARGP_NO_ARGS` the short-option string is one character too long exactly when every option takes three characters.
- A comment says that a parser accepting all remaining arguments moves to the end only if it left the position alone; the code
  always moves there, so that nobody is offered an argument afterwards (`ParsePositions.ArgsAreLast`). argp.h says that nothing
  follows an error call; the final call does.
- `group_cmp` subtracts groups; the difference fits an `int` under the condition in `HelpOrder.GroupCmpFits`.
- The memoised search for callbacks, over any list of keys that has all tables with a rule, is exact for all data if and only
  if no cycle of rules has three or more tables. The one-pass transfer is exact if and only if whenever a rule reads a table
  that the same or a later rule adds to, that rule adds one of the two tables of the first.
- Masked calls use the addresses of `or_mask` and `and_mask`; the mask-or-table test uses their contents.
- The table loop compares the first word before it tests for the end. It stays inside a table if and only if the table has an
  entry or the target is zero. `TableSearch.EmptyTableOverruns` shows an empty table that lets a target through.

## Model

| member | source | states |
|---|---|---|
| HelpOrder.GroupCmpIsKeyOrder | glibc-platypus/argp/argp-help.c:673-683 | comparing groups is comparing keys in which zero comes first, then positive groups, then negative ones |
| HelpOrder.GroupCmpFits | glibc-platypus/argp/argp-help.c:673-683 | on C ints, exactly when the subtraction stays in range |
| HelpOrder.CousinCmpIsKeyOrder | glibc-platypus/argp/argp-help.c:700-723 | clusters of equal depth are ordered by their root-to-leaf paths |
| HelpOrder.ClusterCmpIsKeyOrder | glibc-platypus/argp/argp-help.c:725-757 | clusters of any depth are ordered by their paths, a prefix first |
| HelpOrder.StrCaseCmpIsKeyOrder | glibc-platypus/argp/argp-help.c:886-891 | the case-insensitive comparison of names is the order of the lower-cased characters |
| HelpOrder.NameCmpIsKeyOrder | glibc-platypus/argp/argp-help.c:836-896 | the part of the comparison that looks at names and letters is an order of keys |
| HelpOrder.EntryCmpIsKeyOrder | glibc-platypus/argp/argp-help.c:787-897 | the whole comparison has the sign of a lexicographic comparison of keys, for all entries over well-formed clusters |
| HelpOrder.EntryCmpTotalOrder | glibc-platypus/argp/argp-help.c:787-897 | the four transitivity laws of the comment, antisymmetry of signs, and equality exactly for equal keys |
| HelpNames.EntryKeyIs | glibc-platypus/argp/argp-help.c:836-896 | within its group and cluster an entry is sorted by its first visible letter that it finds, or the first character of its first visible name, documentation that is no option last, lower case first, entries with a letter behind those without, and those by their whole names |
| HelpNames.ShortFound | glibc-platypus/argp/argp-help.c:607-622 | the letter of an entry is that of the first visible option among those that find theirs in the shared string, and 0 exactly if there is none |
| HelpNames.LongFound | glibc-platypus/argp/argp-help.c:624-635 | the name of an entry is that of the first visible option that has one |
| HelpNames.DocNameTrimmed | glibc-platypus/argp/argp-help.c:769-785 | the name of a documentation option loses its leading spaces and everything before the first letter or digit, and counts as an option exactly if a dash follows the spaces |
| HelpBlocks.ChildIsPrefix | glibc-platypus/argp/argp-help.c:1163-1171 | being below a cluster without a twin is having its path as a prefix |
| HelpBlocks.ClusterBlock | glibc-platypus/argp/argp-help.c:725-835 | in a sorted listing the entries at or below a cluster without a twin are contiguous |
| HelpBlocks.ProperlyBelowLater | glibc-platypus/argp/argp-help.c:799-835 | an entry of a sub-cluster sorts after every direct entry of the cluster |
| HelpBlocks.DirectEntriesFirst | glibc-platypus/argp/argp-help.c:799-835 | in a sorted listing the direct entries of a cluster precede those of its sub-clusters |
| HelpBlocks.TwinsInterleave | glibc-platypus/argp/argp-help.c:685-757 | two clusters with one path have a sorted listing that interleaves them |
| HelpBlocks.BlockIffNoTwin | glibc-platypus/argp/argp-help.c:725-835 | a cluster is contiguous in every sorted listing if and only if it has no twin |
| HelpHeaders.IsBelow | glibc-platypus/argp/argp-help.c:1163-1171 | climbing from a cluster meets another exactly when that one is the cluster or an ancestor of it |
| HelpHeaders.EntryHelp | glibc-platypus/argp/argp-help.c:1210-1335 | the loops over an entry print a switch exactly when it has a visible name or a visible letter it finds, and before the first one the header of its cluster, if the last entry printed was outside |
| HelpNames.OutcomeIs | glibc-platypus/argp/argp-help.c:1210-1335 | an entry prints a switch exactly if some visible option of it has a name or finds its letter, and otherwise a title exactly if its first option has neither name nor short key |
| HelpHeaders.HolHelp | glibc-platypus/argp/argp-help.c:1337-1347 | the headers printed over the whole listing, where only entries that print something count as the one before |
| HelpHeaders.HeaderOpens | glibc-platypus/argp/argp-help.c:1173-1208 | in a sorted listing a header is printed only at the first of the cluster's own entries that prints anything |
| HelpHeaders.OpeningHasHeader | glibc-platypus/argp/argp-help.c:1173-1208 | if that entry prints a switch, the header is printed there |
| HelpHeaders.HeaderOnce | glibc-platypus/argp/argp-help.c:1173-1335 | over a sorted listing with distinct siblings a header is printed once if the first of the cluster's own entries that prints anything prints a switch, and otherwise never |
| HelpClusters.TreeForest | glibc-platypus/argp/argp-help.c:504-526 | the clusters of every tree are closed under parents, and no two siblings share group and index where merged children are leaves |
| HelpPaths.EntryCluster | glibc-platypus/argp/argp-help.c:504-526 | every entry of the list of a tree is in the cluster made of the children with a group or a header on the way from the root to its argp, with their headers, groups and places, and sorts first by the group of the outermost of them |
| HelpPaths.GroupsFirst | glibc-platypus/argp/argp-help.c:799-815 | entries below children of different groups are listed in the order of those groups, negative ones last |
| HelpPaths.EntryGroupInForce | glibc-platypus/argp/argp-help.c:478-483 | every entry has the group its argp set last, or 0, plus the number of group titles since |
| HelpClusters.TreeHeaders | glibc-platypus/argp/argp-help.c:1017-1036 | in every sorted listing of such a tree each cluster's entries stay together, and its header is printed once or never, as above |
| HelpExamples.TwinsSplit | glibc-platypus/argp/argp-help.c:1017-1036 | a tree whose entries, however sorted, split a cluster and print its header twice |
| HelpExamples.HeaderLost | glibc-platypus/argp/argp-help.c:1288-1300 | a tree whose entries, however sorted, print the title of an option group and a switch of a cluster but never the cluster's header |
| HelpList.NextLetter | glibc-platypus/argp/argp-help.c:553-577 | the letter under the pointer is the next option's own exactly when that letter is new |
| HelpList.MatchSegment | glibc-platypus/argp/argp-help.c:553-577 | iterating over an entry visits exactly its first occurrences |
| HelpList.WideKeyIsLost | glibc-platypus/argp/argp-help.c:553-577 | with a key above 127 among the short options, the entries do not find the first occurrences |
| HelpList.RepresentedFindsFirsts | glibc-platypus/argp/argp-help.c:553-577 | a list that represents its letters finds exactly the first occurrences, has no letter twice, and as many matches as letters |
| HelpListBuild.FindChar | glibc-platypus/argp/argp-help.c:340-350 | whether a character occurs between two positions |
| HelpListBuild.CountOptions | glibc-platypus/argp/argp-help.c:455-462 | the sizing pass counts the entries and the short options |
| HelpListBuild.CopyLetter | glibc-platypus/argp/argp-help.c:491-494 | a letter is added to the string exactly when it is new, and there is room for it |
| HelpListBuild.CopyEntry | glibc-platypus/argp/argp-help.c:488-496 | one entry is an option with the aliases that follow, and the string then holds the first occurrences so far |
| HelpListBuild.MakeHol | glibc-platypus/argp/argp-help.c:433-502 | the list of one argp: its options in entries, and pointers that represent the first occurrences |
| HelpListBuild.MergeStep | glibc-platypus/argp/argp-help.c:974-999 | reading one more option keeps the merged string equal to the first occurrences of both lists |
| HelpListBuild.MergeEntry | glibc-platypus/argp/argp-help.c:985-998 | the loop over one entry reads the letters of the second list as specified, in place, without touching those of the first |
| HelpListBuild.MergeKeeps | glibc-platypus/argp/argp-help.c:974-999 | without keys above 127 the merged string holds, at every point, the first occurrences of both lists so far |
| HelpListBuild.HolAppend | glibc-platypus/argp/argp-help.c:922-1013 | the loop leaves exactly the appended list, for all lists |
| HelpListBuild.AppendedIs | glibc-platypus/argp/argp-help.c:922-1013 | appending keeps all entries in order, adds no foreign letter, and keeps the first occurrences where the second list has no key above 127 |
| HelpListBuild.ArgpHol | glibc-platypus/argp/argp-help.c:1017-1036 | the recursion over the children builds exactly the list of the tree |
| HelpListBuild.TreeCovers | glibc-platypus/argp/argp-help.c:1017-1036 | the list of every tree has its entries in preorder, with their clusters, and without keys above 127 represents all first occurrences |
| HelpListBuild.HelpOptionList | glibc-platypus/argp/argp-help.c:1017-1036 | for every tree, the entries find exactly the first occurrences if and only if no short key is above 127; then no letter repeats and matches add up to the length of the string |
| HelpOwners.RepresentedAccounts | glibc-platypus/argp/argp-help.c:433-502 | in a list that represents its letters, each is owned by its first occurrence |
| HelpOwners.MergeReads | glibc-platypus/argp/argp-help.c:974-999 | up to its first key above 127, the string of the second list is read as fast as its owners come by |
| HelpOwners.AppendAccounts | glibc-platypus/argp/argp-help.c:922-1013 | whatever the keys, appending keeps letters distinct and owned in order, pointers behind the letters owned before, and every letter owned in time unless a key above 127 came before |
| HelpOwners.TreeAccounts | glibc-platypus/argp/argp-help.c:1017-1036 | all this holds of the list of every tree |
| HelpUsage.NotFoundTwice | glibc-platypus/argp/argp-help.c:553-577 | a letter found by an entry is owned no later than the option that finds it, unless it is declared again behind a key above 127 |
| HelpUsage.SortedDistinct | glibc-platypus/argp/argp-help.c:1456-1463 | so, however the entries are sorted, no letter is collected twice and each is in the shared string |
| HelpUsage.SortedFits | glibc-platypus/argp/argp-help.c:1456-1463 | and in any order the letters fit the buffer |
| HelpUsage.SortedComplete | glibc-platypus/argp/argp-help.c:1456-1463 | the letters are those of the visible options without an argument that their entries find |
| HelpUsage.UsageInOrder | glibc-platypus/argp/argp-help.c:553-577 | an entry adds the letters of the options that it finds, in their order |
| HelpUsage.EntriesInOrder | glibc-platypus/argp/argp-help.c:1456-1463 | the letters of each entry follow those of the entries before it |
| HelpUsage.UsageOfEntry | glibc-platypus/argp/argp-help.c:1373-1382 | one entry adds the letters of its visible options without an argument that it finds, in order, for all lists |
| HelpUsage.HolUsage | glibc-platypus/argp/argp-help.c:1448-1468 | over the sorted entries of every tree in which no letter new behind a key above 127, outside the first argp with options, is declared twice: the buffer suffices and each letter is there once; without such keys they are those of all unshadowed visible options without an argument |
| HelpExamples.UsageOverflows | glibc-platypus/argp/argp-help.c:1448-1468 | a tree on which, however the entries are sorted, more letters are collected than the buffer has room for |
| UsagePatterns.FindLine | glibc-platypus/argp/argp-help.c:1519-1532 | the scan finds the line of the current level and whether it is the last |
| UsagePatterns.StepCounts | glibc-platypus/argp/argp-help.c:1509-1562 | with at most 128 lines everywhere, advancing takes the mixed-radix value v to v+1 modulo the number of combinations, and carries exactly when it wraps |
| UsagePatterns.ValueInjective | glibc-platypus/argp/argp-help.c:1509-1562 | different levels have different values |
| UsagePatterns.WideNeverCarries | glibc-platypus/argp/argp-help.c:1547-1559 | a tree with a string of more than 128 lines never carries |
| UsagePatterns.LevelsCount | glibc-platypus/argp/argp-help.c:1698-1751 | before round i of the usage loop the levels have value i, and the round is the last exactly when i+1 is the number of combinations |
| UsagePatterns.LoopEndsIffNarrow | glibc-platypus/argp/argp-help.c:1698-1751 | the usage loop ends if and only if every string has at most 128 lines |
| UsagePatterns.EachCombinationOnce | glibc-platypus/argp/argp-help.c:1698-1751 | every combination of lines is current in exactly one round, and afterwards every level is zero |
| UsageLines.LinesAreTheText | glibc-platypus/argp/argp-help.c:1519-1539 | the lines of an argument string, joined by newlines, are the string, and none has a newline |
| UsageLines.EveryChoicePrinted | glibc-platypus/argp/argp-help.c:1698-1751 | every choice of one line from each argument string, in preorder, is printed, and its levels are current in exactly one round |
| UsagePatterns.ArgpArgsLevels | glibc-platypus/argp/argp-help.c:1488-1502 | the number of argument strings with several lines in the tree |
| UsagePatterns.CurrentLine | glibc-platypus/argp/argp-help.c:1516-1539 | the line of an argp's own string to print, and whether it is the last |
| UsagePatterns.StepOwn | glibc-platypus/argp/argp-help.c:1547-1561 | an argp's own level advances, or returns to zero and passes the advance on |
| UsagePatterns.UsageOfChildren | glibc-platypus/argp/argp-help.c:1543-1545 | the children print their lines and step their levels in order, the advance passing from one to the next |
| UsagePatterns.ArgpArgsUsage | glibc-platypus/argp/argp-help.c:1509-1562 | one call prints the current lines and steps exactly the levels of the tree in place |
| UsagePatterns.UsageLoop | glibc-platypus/argp/argp-help.c:1698-1751 | the loop prints the pattern of every combination, in counting order |
| UsagePatterns.FiltersKeepNewlines | glibc-platypus/argp/argp-help.c:1488-1502 | the level vector is long enough when filters add newlines only to strings that had one |
| ParserTables.ShortTableFits | glibc-platypus/argp/argp-parse.c:310-331 | the short string is at most three characters for each option |
| ParserTables.PrincipalIs | glibc-platypus/argp/argp-parse.c:310-319 | the option an alias takes its values from is the closest one before it that is no alias |
| ParserTables.TablesFit | glibc-platypus/argp/argp-parse.c:297-500 | everything written fits the sizes computed, terminators included, and the group count is exact; with ARGP_NO_ARGS, exactly when the short string does not |
| ParserLong.LongEntryDecodes | glibc-platypus/argp/argp-parse.c:333-357 | every entry of the long-option vector is the first option of its name in preorder, asks for the argument that option declares, and its value decodes to that option's group and key if and only if the key is signed 24-bit and the group among the first 127 |
| ParserLong.LongEntryExists | glibc-platypus/argp/argp-parse.c:333-357 | every name offered has exactly one entry |
| ParserLong.BuiltIsValid | glibc-platypus/argp/argp-parse.c:712-743 | with at most 127 groups and no short key above 127, whatever a getopt returns that knows only the tables names one of their groups |
| ParserLong.EveryParserTakesPart | glibc-platypus/argp/argp-parse.c:361-396 | in every run over the tables of a tree, the parser of every argp is started and closed, whether or not that argp has options |
| ParserLong.LongOptionReaches | glibc-platypus/argp/argp-parse.c:712-743 | a long option makes exactly one call, of the parser of the first argp that offers its name, with the key that argp gave it, or none if that argp has no parser |
| ParserShort.ShortOptionReaches | glibc-platypus/argp/argp-parse.c:712-736 | a short option makes exactly one call, of the parser of the first argp in preorder that accepts its letter, with that letter, or none if that argp has no parser or no argp accepts it |
| ParserShort.ShortArgument | glibc-platypus/argp/argp-parse.c:321-331 | at the first place of a letter, getopt's grammar reads no, a required or an optional argument as the first real option with that letter declares, if and only if that argument is optional or the next real short option is not a colon |
| ParserShort.OrderRead | glibc-platypus/argp/argp-parse.c:409-414 | getopt's grammar reads the order the flags ask for, and then exactly the letters of the tree, if and only if a flag is set or the first real short option is neither minus nor plus |
| ParserTables.DecodeLow | glibc-platypus/argp/argp-parse.c:738-743 | decoding the key sign-extends its low 24 bits |
| ParserTables.ValRoundTrip | glibc-platypus/argp/argp-parse.c:53-67 | key and group come back from the packed value if and only if the key is signed 24-bit and the group among the first 127; the values of those groups are above every character and special key |
| ParserConvert.CalcSizes | glibc-platypus/argp/argp-parse.c:434-463 | the sizes for a whole tree, added to those given |
| ParserConvert.Converter.constructor | glibc-platypus/argp/argp-parse.c:400-423 | the prefix of the flags and empty tables |
| ParserConvert.Converter.FindLongOption | glibc-platypus/argp/argp-parse.c:180-197 | a position of the name, or that there is none |
| ParserConvert.Converter.AddOptions | glibc-platypus/argp/argp-parse.c:310-359 | the options of one argp are appended to both tables, within their sizes |
| ParserConvert.Converter.AddGroup | glibc-platypus/argp/argp-parse.c:361-384 | the group of one argp, with its slice of the child inputs |
| ParserConvert.Converter.AddArgp | glibc-platypus/argp/argp-parse.c:297-384 | the tables then hold one more argp |
| ParserConvert.Converter.ConvertOptions | glibc-platypus/argp/argp-parse.c:297-396 | the tables then hold the whole tree, in preorder, with the right parents |
| ParserConvert.BuildTables | glibc-platypus/argp/argp-parse.c:466-512 | sizing, allocation and filling give the tables of the tree; no argp gives empty ones |
| ParserLayout.TreeLinks | glibc-platypus/argp/argp-parse.c:361-396 | every recorded parent and index name the argp whose child this is |
| ParserLayout.GroupOfArgp | glibc-platypus/argp/argp-parse.c:361-384 | every argp that has options or a parser has a group, with its parser |
| ParserLayout.GroupPair | glibc-platypus/argp/argp-parse.c:361-396 | a later group has a later argp, a later end in the short string and a later slice |
| ParserLayout.GroupParent | glibc-platypus/argp/argp-parse.c:361-396 | a parent precedes its children, and a child's index is its own place among them |
| ParserLayout.TreeLayout | glibc-platypus/argp/argp-parse.c:361-396 | for every tree the slices are disjoint and within bounds, and no two groups share a slot |
| ParserLayout.InitInputs | glibc-platypus/argp/argp-parse.c:514-539 | every group started receives what its own parent stored for it during its own start; the first hard error ends the starts and is returned, and otherwise all groups are started |
| ParserLayout.InputPassesDown | glibc-platypus/argp/argp-parse.c:514-539 | the input of the caller goes down through groups without a parser to their first children, and groups without a parent group get none |
| ParserDispatch.FindShortGroup | glibc-platypus/argp/argp-parse.c:715-736 | the loop finds the group whose part of the string has the first occurrence |
| ParserDispatch.DispatchToFirst | glibc-platypus/argp/argp-parse.c:715-736 | a letter goes to the first argp in preorder that accepts it |
| ParserDispatch.FirstDeclarer | glibc-platypus/argp/argp-parse.c:297-396 | a letter goes to the argp that declares it first if and only if that argp declares it for a real option |
| HelpAgreement.WideNeitherSide | glibc-platypus/argp/argp-parse.c:712-720 | a key above 127 is listed nowhere in help, and what getopt returns for it is not even taken for a short option |
| HelpAgreement.FirstReaches | glibc-platypus/argp/argp-parse.c:715-736 | using a letter calls the parser of the argp that declares it first, if and only if that argp declares it for a real option and has a parser |
| HelpAgreement.ListedReaches | glibc-platypus/argp/argp-parse.c:715-736 | without such keys, a listed letter makes exactly one call, of the argp it is listed under, if and only if that argp declares it for a real option and has a parser |
| HelpAgreement.HelpAndParserAgree | glibc-platypus/argp/argp-help.c:1017-1036 | for every tree and parser state: each letter is listed under exactly those argps whose parser a use of it calls, if and only if no short key is above 127 and every letter is declared for a real option by the argp that declares it first, which has a parser |
| HelpAgreement.ListedTwice | glibc-platypus/argp/argp-help.c:974-999 | a letter listed under two argps behind a key above 127 |
| HelpAgreement.AgreeWithoutDocAliases | glibc-platypus/argp/argp-parse.c:715-736 | they agree on every letter of a tree without short aliases of documentation options and keys above 127 |
| ParseRun.ParseArgTrace | glibc-platypus/argp/argp-parse.c:661-708 | an argument is offered to the groups in turn until one accepts, and the group whose call accepted it is credited with exactly the stretch from the argument to where it left the position |
| ParsePositions.ArgumentsConserved | glibc-platypus/argp/argp-parse.c:661-708 | with parsers that move forward and drop nothing and a getopt that keeps order, no argument is taken twice, and the counts of all groups add up to the number of positions taken |
| ParseRun.ParseNextTrace | glibc-platypus/argp/argp-parse.c:773-858 | a round makes only option and argument calls, and keeps each group's count equal to what its own accepting calls took |
| ParseRun.FinalizeTrace | glibc-platypus/argp/argp-parse.c:564-654 | the closing calls, in their order and directions |
| ParseRun.RunProtocol | glibc-platypus/argp/argp-parse.c:865-913 | every run that ends is starts, then options and arguments, then the closing calls; an error goes to all groups or none; EBADKEY is never returned; each group's count is what its own accepting calls took |
| ParseRun.RefusedRun | glibc-platypus/argp/argp-parse.c:514-539 | a run whose start fails made only start calls, and returns the hard error of the last of them, the only one |
| ParseRun.RunOrder | glibc-platypus/argp/argp.h:123-174 | each group with a parser sees the start once, first, and the final call once, last, and in between the calls in the order documented, at most one of success and error |
| ParseEnds.StepShrinks | glibc-platypus/argp/argp-parse.c:773-858 | a round that goes on lowers the measure of arguments dropped, getopt trial, getopt remainder and arguments left |
| ParseEnds.LoopEnds | glibc-platypus/argp/argp-parse.c:907-908 | the loop ends when parsers never move back, only drop arguments or only add ones they pass, and getopt uses up its input |
| ParseEnds.RunEnds | glibc-platypus/argp/argp-parse.c:865-913 | so does every run |
| ParsePositions.ArgsAreLast | glibc-platypus/argp/argp-parse.c:689-705 | after a parser took the remaining arguments no parser is offered another one, in any run in which their number stays |
| ParseRun.FinalizeResult | glibc-platypus/argp/argp-parse.c:564-654 | what becomes of a hard error, an unknown option and leftover arguments |
| ParseClosing.RunCloses | glibc-platypus/argp/argp-parse.c:564-654 | every run that ends: if the loop stopped with all arguments parsed, each group with a parser and no arguments is told so, up to the first hard error, and then each group with a parser is told of the end, from the last, up to the first hard error; otherwise neither; then all are told of success or all of the error, and all of the final call; and the result and end index that follow from the errors returned |
| ParseClosing.QuietRunSucceeds | glibc-platypus/argp/argp-parse.c:564-654 | a run whose loop stops with all arguments parsed and whose closing calls return no hard error calls every group with a parser for the end and for success, and returns 0 |
| ParseClosing.UnknownOptionFails | glibc-platypus/argp/argp-parse.c:818-825 | an option getopt does not know ends the run with EINVAL: no parser is called for it, for the end or for success, and all are told of the error |
| ParseQuoted.OptionHandedOut | glibc-platypus/argp/argp-parse.c:848-857 | an option getopt comes up with, `?` included unless getopt reports an error, goes to parser_parse_opt from the position getopt leaves; if it is refused or belongs to nobody the run fails with EINVAL, and all parsers are told |
| ParseQuoted.OptionsEnd | glibc-platypus/argp/argp-parse.c:830-839 | when the options are at an end and no argument is left or wanted, the loop stops: with none left the run succeeds and every parser sees the end and success, unless a closing call objects; with some left they are handed back, or the run fails with EINVAL |
| ParseQuoted.FirstRound | glibc-platypus/argp/argp-parse.c:508-539 | the first thing after the start calls, unless one of them quotes, is to ask getopt, from position 0 and with the given count but for what the start calls changed |
| ParseQuoted.ArgumentRound | glibc-platypus/argp/argp-parse.c:656-708 | a round that does not ask getopt offers the next argument, and then all that remain, to each group with a parser in turn until one does not refuse, and returns what that one said; getopt is then tried again exactly if it was before or the argument was accepted and left in place |
| ParseQuoted.AsksIff | glibc-platypus/argp/argp-parse.c:779-803 | a round asks getopt once if it has not come to its end and the position is before any quoted one, and else not at all |
| ParseQuoted.QuotedStaysQuoted | glibc-platypus/argp/argp-parse.c:779-846 | from the quoted position on, as long as no call moves before it, getopt is not asked and no option is parsed, to the end of the loop |
| ParseQuoted.NothingQuotedIsAnOption | glibc-platypus/argp/argp-parse.c:804-817 | so it is in every run from the round in which getopt comes to its end behind `--` |
| ParseQuoted.ParserQuotes | glibc-platypus/argp/argp-parse.c:779-786 | and from the round in which a parser begins a quoted region itself |
| ParseQuoted.NoArgsRunOffersNone | glibc-platypus/argp/argp-parse.c:830-846 | with ARGP_NO_ARGS, unless a parser takes it back or getopt itself hands out an argument, no run offers one to any parser |
| ParseQuoted.ParserEndsArguments | glibc-platypus/argp/argp-parse.c:830-846 | nor does it once a parser that is handed an option sets that flag |
| ParserMachine.Parser.constructor | glibc-platypus/argp/argp-parse.c:466-512 | the state given to the first parser |
| ParserMachine.Parser.GroupParse | glibc-platypus/argp/argp-parse.c:229-248 | the parser of a group is called and its new state and error taken over |
| ParserMachine.Parser.CallUp | glibc-platypus/argp/argp-parse.c:514-540 | the loops over the groups in order |
| ParserMachine.Parser.CallDown | glibc-platypus/argp/argp-parse.c:586-646 | the loops over the groups from the last |
| ParserMachine.Parser.OfferArg | glibc-platypus/argp/argp-parse.c:671-687 | the argument, then the rest of them, offered to each group |
| ParserMachine.Parser.ParseArg | glibc-platypus/argp/argp-parse.c:656-708 | one positional argument, as specified |
| ParserMachine.Parser.ParseOpt | glibc-platypus/argp/argp-parse.c:710-767 | one option, as specified |
| ParserMachine.Parser.Handle | glibc-platypus/argp/argp-parse.c:848-857 | an argument or option handed out |
| ParserMachine.Parser.AfterEnd | glibc-platypus/argp/argp-parse.c:830-846 | the end of the options |
| ParserMachine.Parser.ParseNext | glibc-platypus/argp/argp-parse.c:769-858 | one round of the parse loop, as specified |
| ParserMachine.Parser.Finalize | glibc-platypus/argp/argp-parse.c:564-654 | the closing calls and the result, as specified |
| ParserMachine.ArgpParse | glibc-platypus/argp/argp-parse.c:865-913 | the object goes through exactly the run of the specification, with its error and end index |
| TableSearch.FindsIff | scripts/create_header.py:163-180 | the loop finds a target exactly when it is a word before the first zero after the first word |
| TableSearch.AdmitsIffEntry | scripts/create_header.py:163-193 | a table with entries admits exactly its entries |
| TableSearch.StaysInTableIff | scripts/create_header.py:163-180 | the loop stays within the table and its terminator if and only if there is an entry or the target is zero |
| TableSearch.EmptyTableOverruns | scripts/create_header.py:163-180 | an empty table that admits a target standing after its terminator |
| TableSearch.CallbackTable | scripts/create_header.py:163-180 | the loop over the memory at the table, what it answers and the last word it reads |
| TableSearch.KeptIff | binaries/BitMasks.cpp:276-283 | masking leaves a target unchanged exactly when it lies under the and-mask and has the bits both masks have |
| TableSearch.MaskedIsKept | binaries/BitMasks.cpp:56-65 | a masked target is kept, so masking twice is masking once |
| CallIr.SameEnds | binaries/BitMasks.cpp:218-339 | functions related by simulation end alike, with the same events, or both go on |
| CallRewrite.MaskCodeDoes | binaries/BitMasks.cpp:56-65 | the masking code calls the masked target with the arguments of the call, and gives its result |
| CallRewrite.TableCodeDoes | binaries/BitMasks.cpp:67-108 | the table code calls the target with the arguments of the call if the table admits it, and halts otherwise |
| CallRewrite.MaskSimulates | binaries/BitMasks.cpp:56-65 | a function with one call masked runs as the original under the masking policy |
| CallRewrite.TableSimulates | binaries/BitMasks.cpp:67-108 | a function with one call sent to a table runs as the original under the table policy |
| CallDiamond.RenameFrom | binaries/BitMasks.cpp:286-291 | after a block is split, its successors take the values they took before |
| CallDiamond.MergeAgrees | binaries/BitMasks.cpp:321-331 | either result is merged under the name of the call |
| CallDiamond.DiamondCall | binaries/BitMasks.cpp:259-334 | test, side and merge together do what the policy asks of the call |
| CallDiamond.DiamondSimulates | binaries/BitMasks.cpp:259-334 | a function with one call turned into a diamond runs as the original under the mask-or-table policy, phis, loops and all |
| CallPass.RewriteSimulates | binaries/BitMasks.cpp:218-339 | rewriting one candidate of any kind turns its policy into code |
| CallPass.RewriteKeeps | binaries/BitMasks.cpp:218-339 | rewriting one call leaves every other call there, once |
| CallPass.RewriteBelow | binaries/BitMasks.cpp:218-339 | the new registers and blocks are new |
| CallInstrument.Instrumented.constructor | binaries/BitMasks.cpp:111-128 | a function before the pass |
| CallInstrument.Instrumented.InstrumentNormalCase | binaries/BitMasks.cpp:56-65 | the call now goes to the target masked in place |
| CallInstrument.Instrumented.AlwaysCallbackTable | binaries/BitMasks.cpp:67-108 | the call is replaced by one of the table stub |
| CallInstrument.Instrumented.SplitBasicBlock | binaries/BitMasks.cpp:286-291 | the block is split and its successors renamed, everything else unchanged |
| CallInstrument.Instrumented.InsertTest | binaries/BitMasks.cpp:268-283 | the target in r11 and the comparison, put before the call |
| CallInstrument.Instrumented.Branch | binaries/BitMasks.cpp:259-334 | the function with the call split into test, sides and merge |
| CallInstrument.Instrumented.Instrument | binaries/BitMasks.cpp:218-339 | one candidate rewritten, names kept fresh, and the flag set if it was |
| CallInstrument.Instrumented.Collect | binaries/BitMasks.cpp:177-216 | the candidates are the indirect calls, each once |
| CallInstrument.Instrumented.RunPass | binaries/BitMasks.cpp:111-343 | the pass leaves a function that runs, without checks, as the original under the policy for its calls; the flag says whether any call was rewritten |
| CallMeaning.AdmittedRunsUnchanged | binaries/BitMasks.cpp:218-339 | a run with admitted targets only has the same calls, results and end after the pass |
| CallMeaning.RefusedTargetHalts | binaries/BitMasks.cpp:218-339 | at the first target a check refuses, the rewritten function halts after the same events |
| CallMeaning.DiamondGuard | binaries/BitMasks.cpp:259-334 | with a table that has entries: the original target if the masks keep it or the table has it, and a halt otherwise |
| CallMeaning.TableGuard | binaries/BitMasks.cpp:67-108 | with a table that has entries: the original target if it is an entry, and a halt otherwise |
| CallMeaning.MaskGuard | binaries/BitMasks.cpp:56-65 | a masked call always goes to a target the masks keep, its own exactly when that fits them |
| CallMeaning.OnlyCheckedCalls | binaries/BitMasks.cpp:218-339 | in no run after the pass does a call go to a target that none of the checks in use lets through |
| CallMeaning.PassConfinesCalls | binaries/BitMasks.cpp:111-343 | outside speed tests, the loader and the two early functions, and with no target of the dynamic linker: only targets the masks keep or a table admits are called, in any run |
| CallMeaning.ListedFunctionsUseTheirTable | binaries/BitMasks.cpp:223-241 | every call in any run of a listed function of the C library goes to an entry of that function's own table, whatever else is known |
| CallMeaning.LoaderFinalizersUseTheirTable | binaries/BitMasks.cpp:150-235 | under LOADER, every call in any run of _dl_call_fini in its own file goes to an entry of the table of finalizers |
| CallMeaning.CallbackFunctionsUseMasksOrTable | binaries/BitMasks.cpp:243-334 | every call in any run of another function whose targets may all be callbacks, by its annotation, their origin or the global they are read from, goes to a target that fits the masks or to an entry of the first table |
| CallMeaning.OtherFunctionsUseMasks | binaries/BitMasks.cpp:335-338 | every call in any run of a function where no callback is expected goes to a target that fits the masks |
| CallMeaning.SkippedRunsAsBefore | binaries/BitMasks.cpp:111-165 | a speed test, any other file under LOADER, and the two functions that run too early run after the pass as before it |
| CallMeaning.LinkerCallsRunAsBefore | binaries/BitMasks.cpp:243-258 | so does a function without a table of its own whose targets all belong to the dynamic linker |
| CallbackClosure.CollectSound | Security_Analysis/ct.py:13-30 | only values reachable along the rules are collected |
| CallbackClosure.CollectExact | Security_Analysis/ct.py:13-30 | without cycles of three or more tables, what is collected is exactly the union along the chain, and so is the memo |
| CallbackClosure.LongCycleFails | Security_Analysis/ct.py:54-62 | with a cycle of three or more tables, for every list that has all tables with a rule some data leaves a table incomplete |
| CallbackClosure.CollectAllIff | Security_Analysis/ct.py:54-62 | for every such list, in any order, the shared memo is exact for all data if and only if no cycle has three or more tables |
| CallbackClosure.Collector.DfsCollect | Security_Analysis/ct.py:13-30 | the recursive search over the shared memo, as specified, the visiting set restored |
| CallbackClosure.CountTables | Security_Analysis/ct.py:54-62 | the loop over the keys; every result exact without long cycles |
| CallbackClosure.TransferRules | scripts/create_header.py:39-40 | the pass over the rules in their order |
| CallbackClosure.TransferFails | scripts/create_header.py:39-40 | it fails exactly if some rule names a table that is not there |
| CallbackClosure.RuleCompletes | scripts/create_header.py:39-40 | in a good order each rule completes its table |
| CallbackClosure.BadOrderFails | scripts/create_header.py:39-40 | a rule read too early leaves its table incomplete for some contents |
| CallbackClosure.TransferIff | scripts/create_header.py:39-40 | the pass completes every table for all contents if and only if the order is good |
| CallbackClosure.GoodOrderShortCycles | scripts/create_header.py:39-40 | rules in a good order have no cycle of three or more tables |
| CallbackClosure.PassesAgree | scripts/create_header.py:27-42 | with rules in a good order, of which source first is one, both programs arrive at the same sets |
| CallbackClosure.AgreeIff | scripts/create_header.py:27-42 | without cycles of three or more tables they agree for all contents if and only if the order is good |
| TableSymbols.Dedup | scripts/create_header.py:256-256 | the same elements, each once |
| TableSymbols.SymbolInjective | scripts/create_header.py:44-47 | different names or occurrences have different symbols |
| TableSymbols.ReferencesAre | scripts/create_header.py:272-282 | after k tables exactly the symbols up to a name's occurrences so far are referenced |
| TableSymbols.ReferencesDistinct | scripts/create_header.py:272-282 | no symbol is referenced twice across all tables |
| TableSymbols.DeclaredAreReferenced | scripts/create_header.py:254-282 | the symbols referenced are exactly those declared |
| TableSymbols.CountOccurrences | scripts/create_header.py:254-258 | the first pass counts the tables each name is in |
| TableSymbols.EmitRow | scripts/create_header.py:275-282 | one table, numbered from the counters before it |
| TableSymbols.EmitTables | scripts/create_header.py:272-282 | the references of all tables, distinct, and exactly the declared symbols |
| TableSymbols.EmitHeader | scripts/create_header.py:260-264 | the declarations in any order of names: every referenced symbol once, and nothing else |
| ProducerConsumer.StepInv | glibc-platypus/benchtests/bench-pthread-locks.c:340-408 | every step of either thread, spurious wakeups included, keeps the invariant |
| ProducerConsumer.RunInv | glibc-platypus/benchtests/bench-pthread-locks.c:340-408 | every reachable state satisfies it |
| ProducerConsumer.StepCounts | glibc-platypus/benchtests/bench-pthread-locks.c:340-408 | items are put in by the producer only and taken out by the consumer only, once in each round |
| ProducerConsumer.NeverStuck | glibc-platypus/benchtests/bench-pthread-locks.c:340-408 | the threads are never both asleep, and one can go on unless both have finished |
| ProducerConsumer.StepRank | glibc-platypus/benchtests/bench-pthread-locks.c:340-408 | every step but a spurious wakeup lowers the rank |
| ProducerConsumer.RunBound | glibc-platypus/benchtests/bench-pthread-locks.c:340-408 | runs are bounded but for spurious wakeups |
| ProducerConsumer.Benchmark | glibc-platypus/benchtests/bench-pthread-locks.c:340-408 | in every interleaving of n rounds, the queue holds none or one, which is the items put in less those taken out, no two threads are in the critical section, and a run that stops has finished both threads after n items put in and n taken out |
| JsonWriter.JsonContext.constructor | glibc-platypus/benchtests/json-lib.c:23-29 | the context of a new writer |
| JsonWriter.JsonContext.DoIndent | glibc-platypus/benchtests/json-lib.c:31-40 | as many spaces as the level |
| JsonWriter.JsonContext.DocumentBegin | glibc-platypus/benchtests/json-lib.c:42-51 | indentation and an open brace; one level deeper, nothing written in it yet |
| JsonWriter.JsonContext.DocumentEnd | glibc-platypus/benchtests/json-lib.c:53-61 | one level up and a closing brace; the flag is left alone |
| JsonWriter.JsonContext.AttrObjectBegin | glibc-platypus/benchtests/json-lib.c:63-75 | a comma line unless first, indentation, name and open brace; one level deeper, nothing written in it yet |
| JsonWriter.JsonContext.AttrObjectEnd | glibc-platypus/benchtests/json-lib.c:77-88 | one level up, the closing brace on its own line, and the container around it is not empty |
| JsonWriter.JsonContext.AttrString | glibc-platypus/benchtests/json-lib.c:90-101 | a comma line unless first, indentation, quoted name and quoted string; no longer first |
| JsonWriter.JsonContext.AttrUint | glibc-platypus/benchtests/json-lib.c:103-114 | the same with an unsigned number |
| JsonWriter.JsonContext.AttrInt | glibc-platypus/benchtests/json-lib.c:116-127 | the same with a signed number |
| JsonWriter.JsonContext.AttrDouble | glibc-platypus/benchtests/json-lib.c:129-140 | the same with the text of a double |
| JsonWriter.JsonContext.ArrayBegin | glibc-platypus/benchtests/json-lib.c:142-154 | a comma line unless first, indentation, name and open bracket; one level deeper, nothing written in it yet |
| JsonWriter.JsonContext.ArrayEnd | glibc-platypus/benchtests/json-lib.c:156-163 | one level up, a closing bracket, and the container around it is not empty |
| JsonWriter.JsonContext.ElementString | glibc-platypus/benchtests/json-lib.c:165-175 | a comma unless first, and the quoted string; no longer first |
| JsonWriter.JsonContext.ElementUint | glibc-platypus/benchtests/json-lib.c:177-187 | the same with an unsigned number |
| JsonWriter.JsonContext.ElementInt | glibc-platypus/benchtests/json-lib.c:189-199 | the same with a signed number |
| JsonWriter.JsonContext.ElementDouble | glibc-platypus/benchtests/json-lib.c:201-211 | the same with the text of a double |
| JsonWriter.JsonContext.ElementObjectBegin | glibc-platypus/benchtests/json-lib.c:213-227 | a comma unless first, a new indented line and an open brace; one level deeper, nothing written in it yet |
| JsonWriter.JsonContext.ElementObjectEnd | glibc-platypus/benchtests/json-lib.c:229-240 | one level up, the closing brace on its own line, and the array around it is not empty |
| JsonWriter.FlagRefinesStack | glibc-platypus/benchtests/json-lib.c:42-240 | on every well-nested call sequence one flag does what a stack of flags would, and the level is the starting one plus the depth, modulo the size of an unsigned int |
| JsonRoundTrip.AttrsNested | glibc-platypus/benchtests/json-lib.c:63-240 | the calls for the inside of a document are well nested |
| JsonRoundTrip.RunAttrs | glibc-platypus/benchtests/json-lib.c:63-163 | the calls for attributes write their text with a comma exactly between neighbours, and restore the level |
| JsonRoundTrip.RunElems | glibc-platypus/benchtests/json-lib.c:165-240 | the calls for array elements write theirs |
| JsonRoundTrip.DecimalDigits | glibc-platypus/benchtests/json-lib.c:103-114 | the digits of a number have its value, with no leading zero |
| JsonRoundTrip.ReadText | glibc-platypus/benchtests/json-lib.c:63-240 | every value text reads back as that value, signed and unsigned integers as the integers, whatever follows |
| JsonRoundTrip.DocumentRoundTrip | glibc-platypus/benchtests/json-lib.c:42-240 | the calls for a document append a text that reads back as exactly that document, every integer with its sign and value, and restore the level |
| Counterexamples.WideKeyExample | glibc-platypus/argp/argp-help.c:553-577 | an option with any printable key above 127, which the help list never finds |
| Counterexamples.DocAliasExample | glibc-platypus/argp/argp-parse.c:310-331 | a letter help shows and no group of the parser takes |
| Counterexamples.ColonKeyExample | glibc-platypus/argp/argp-parse.c:321-331 | an option without argument that getopt takes to need one, as the next key is a colon |
| Counterexamples.LetterComesSecond | glibc-platypus/argp/argp-help.c:874-877 | an entry with a letter sorted behind one with a name that starts with the same character |

## Left out

- ParserMachine.ArgpParse: the parse loop is cut off after a number of rounds given by the caller, because parsers that move
  back can keep it going for ever; ParseEnds.RunEnds gives a number of rounds that suffices for all others.
- ParserConvert.BuildTables: requires that the short string fits, which ParserTables.TablesFit shows is always so without ARGP_NO_ARGS.
- HelpListBuild.MakeHol: requires that no option vector starts with an alias, as the assertion in make_hol does; an alias there has nothing to stand for.
- HelpUsage.HolUsage: covers the letters without arguments; the two later loops print to the stream as they go and need no buffer.
  Its condition on letters behind keys above 127 is sufficient, not necessary: whether a lost letter really overruns the buffer
  also depends on which options are hidden or take arguments and on what stands between the two declarations.
- HelpHeaders.EntryHelp: only which switches and headers are printed is modelled, not their text, arguments, blank lines and
  documentation; a help filter may still replace the text of a header by nothing.
- JsonWriter.JsonContext.DoIndent: at the largest level the size of the buffer wraps to zero in the source, which C leaves undefined;
  the model writes the spaces.
- ParseRun.RunProtocol: argument counts are unbounded integers; the wrap-around of the unsigned counter is not modelled.
- JsonRoundTrip.DocumentRoundTrip: strings need no escape and a double is given by its text, a number of RFC 8259; the choice of
  digits by `%g` is not modelled. Integers read back as their values, other doubles as their texts.
- getopt itself: any step that returns an option, an argument or the end.
- qsort: any sequence sorted by the comparator; the listing results hold for all of them.
- The format stream with its margins and line breaks, gettext, locale tables, program exit, the help output hooks.
- The list of clusters kept for freeing, and the change of group for the options help and version before sorting, which the usage and listing results allow for.
- The vector terminators written after each append: the model keeps the length instead.
- The version of the table stubs that asks the dynamic linker about libraries, the placeholder and dsym stubs.
- The analysis behind an indirect call's origin and its annotations, and the linker's choice of mask values: parameters.
- Register allocation, inline-assembly clobbers and branch weights: r11 is set, kept by the test, and not relied on after a call.
- glibc-platypus/BitMasks.cpp: a near-copy of binaries/BitMasks.cpp.
- Parsing of the dictionary text in the scripts, the files they write, and the counts they print.
- Timing, thread creation and the filler in the benchmark; mutexes and condition variables are as POSIX defines them.
- The other scripts, evaluation programs and benchmarks of the repository: text scraping, constants and timing loops.
