# Verified kernel of QuackMail

A Dafny model of the pure algorithms in `core/src` of QuackMail, with proofs. Each source file below has one or
more modules of its own. Code that works by changing things step by step is a method or a class whose contract
ties it to a specification function or a state machine; what the source promises is then proved about those.

| source | modules | main results |
|---|---|---|
| `diff.cpp` | `DiffText`, `DiffScript`, `Myers`, `DiffApply`, `DiffSides`, `DiffPatch`, `DiffHunks`, `Diff`, `DiffTrim`, `DiffGroups`, `DiffUnified` | Myers' search is optimal and fails exactly over its budget; any patch is applied exactly when its old sides stand where its headers say; printed patches bring the target, exactly when their headers can be read |
| `sieve.cpp` | `SieveLex`, `SieveParse`, `SieveParser`, `SieveSyntax`, `SieveReads`, `SieveGrammar`, `SieveSpelling`, `SieveLanguage`, `SieveRules`, `SieveCompose`, `SievePieces`, `SievePrinted`, `SieveReadBack`, `SieveNames`, `SieveRoundTrip`, `SieveSurvives`, `SieveCanonical`, `SieveRewrite`, `SieveVariables`, `SieveTests`, `SieveRun`, `SieveRunner`, `SieveMatches`, `SieveOutcome`, `SieveMeaning`, `SieveDelivery`, `SieveLosses`, `Glob` | a text is accepted with a program exactly when it is a way to write that program; composing rules and decomposing the script gives the rules back exactly when they are canonical; evaluating the script of some rules does with every message what the rules say, and the view of a script shows what it does, with the exceptions named; no script loses a message but by `discard`; the budgeted glob is the declarative match |
| `ical.cpp` | `Calendar`, `Recurrence`, `NamedDays`, `Expansion`, `FreeBusy` | dates and day numbers are inverse bijections; the expander lists the recurrence set in order, for named days exactly when they are named in week order; merged periods are the unique canonical form |
| `json.cpp` | `Utf8`, `Json`, `JsonLayout`, `JsonGrammar`, `JsonReadBack`, `JsonRoundTrip`, `JsonParser` | a text is accepted with a value exactly when it writes the value in some layout and spelling; serialized values parse back exactly within the limits; the validator accepts exactly the encodings |
| `dkim.cpp` | `Dkim`, `DkimText`, `DkimAgree`, `DkimCanon`, `DkimMethods` | the verifier rebuilds the bytes that the signer hashed and signed, whatever each half of c= says; what the canonical forms are |
| `citadel_store.cpp` | `RoomStore`, `RoomTables`, `RoomExpiry` | a synchronizing copy is exact after every synchronization of every run; the expiry pass keeps exactly what the policies keep |
| `server_controller.cpp` | `Listener` | every interleaving keeps the descriptor set and the connection cap |
| `mailpolicy.cpp` | `MailAlias` | expansion is bounded reachability |
| `contentline.cpp` | `ContentLine` | folding and unfolding are inverse, within the octet limit, without cutting a character |
| `markdown.cpp` | `Html`, `MarkdownTree`, `MarkdownSound`, `MarkdownText`, `MarkdownDoc`, `MarkdownSpans`, `MarkdownPages`, `MarkdownBlocks`, `MarkdownRows`, `MarkdownNests`, `MarkdownShows`, `Markdown` | a document written as Markdown is shown as its HTML; every output is the printed form of a legal tree of bounded depth, hence well nested |

`Text` holds what they share. Texts are sequences of characters below 256 where the code works on bytes. Digests,
base64, signing, the addresses in a header value, the resolver of wiki links and the printer of numbers that are not
integers are parameters. `std::sort` is the function that sorts.

## Model

| member | source | states |
|---|---|---|
| DiffText.JoinInvertsSplit | core/src/diff.cpp:21-67 | splitting a text gives well-formed lines, and joining them gives the text |
| DiffText.SplitInvertsJoin | core/src/diff.cpp:21-67 | splitting the join of well-formed lines gives those lines, final newline included |
| DiffText.KeysEqual | core/src/diff.cpp:51-57 | equal comparison keys mean equal lines that are both terminated or both not |
| DiffText.KeysInjective | core/src/diff.cpp:51-57 | the keys determine the lines and the final newline |
| DiffText.HeaderReadsBack | core/src/diff.cpp:171-387 | a printed hunk header reads back as the numbers written, with the different numbering of empty sides, exactly when no number goes over the reader's limit |
| DiffScript.ReplayYieldsTarget | core/src/diff.cpp:72-80 | replaying a script that uses every index once and in order leaves the target |
| DiffScript.NoCheaperScript | core/src/diff.cpp:82-162 | every script from a grid point costs at least the distance that remains |
| Myers.Sweep | core/src/diff.cpp:93-116 | one round of the search either reaches the far corner at its own distance or leaves the furthest points of every diagonal in the array |
| Myers.MyersScript | core/src/diff.cpp:82-162 | succeeds exactly when the edit distance is within the budget; the script then replays to the target and no script is cheaper; on failure every script is over the budget |
| DiffTrim.TrimmedIsOptimal | core/src/diff.cpp:229-266 | a best script for the middles is best for the whole once common heads and tails are kept |
| DiffTrim.BestScript | core/src/diff.cpp:229-266 | trimming and searching finds a best script exactly within the budget |
| DiffGroups.GroupingIsRight | core/src/diff.cpp:267-333 | the hunks show exactly the changes and their context, apart from each other, and cover every change |
| DiffUnified.Unified | core/src/diff.cpp:214-334 | the patch is empty exactly for equal texts; within the bounds it prints a best script grouped with context, otherwise one hunk for the whole file; applying it yields the target exactly when its headers can be read, which texts within the line limit guarantee |
| DiffPatch.Apply | core/src/diff.cpp:389-517 | the patcher reads hunks from the patch, checks that the old side of each stands in the source where its header says, and yields the source with the new sides in their place, or refuses |
| DiffPatch.PatchesExactly | core/src/diff.cpp:389-517 | for any source and patch, reading hunk by hunk gives a result exactly when the old sides stand in order at the lines named, and then the source with them replaced by the new sides |
| DiffPatch.WrittenPatch | core/src/diff.cpp:336-517 | the same for any patch in writing, with short counts, notes after the header, blank context lines and markers, after any lines that are no headers |
| DiffPatch.ForeignContext | core/src/diff.cpp:480-482 | a patch whose context is not what stands in the source is refused |
| Diff.PatchApplies | core/src/diff.cpp:389-517 | from the state reached at any step of a script, the hunks still to come bring the patcher to the target, newline included |
| Diff.RoundTrip | core/src/diff.cpp:214-517 | for every script and covering hunks, applying the printed patch gives the target exactly when its headers can be read; otherwise it fails or changes nothing |
| DiffUnified.Reconstruct | core/src/diff.cpp:214-517 | diff then patch gives the target for all texts within the line limit, every context length and both bounds |
| DiffUnified.HugeInsertionIsLost | core/src/diff.cpp:339-387 | an insertion of more lines than the header reader's limit gives a patch that does not bring them back |
| SieveLex.Lexer.Run | core/src/sieve.cpp:63-200 | the lexer object yields the tokens of the grammar, or fails where it does |
| SieveParser.Parser.ParseTest | core/src/sieve.cpp:486-623 | the recursive-descent parser of tests consumes and yields exactly what the grammar says, and progresses |
| SieveParser.Parser.ParseCommand | core/src/sieve.cpp:645-823 | the same for commands, with their blocks and else branches |
| SieveParser.ParseInternal | core/src/sieve.cpp:1644-1660 | lexing and parsing a script gives the program of the grammar |
| SieveReads.ProgramReads | core/src/sieve.cpp:385-823 | every way to write a program, its keywords spelled out, parses to that program |
| SieveGrammar.ParsesExactly | core/src/sieve.cpp:385-823 | tokens parse to a program exactly when they are those of a way to write it |
| SieveLanguage.LexesExactly | core/src/sieve.cpp:63-383 | a text lexes to tokens exactly when it spells them out, with blanks and comments between them |
| SieveLanguage.AcceptsExactly | core/src/sieve.cpp:63-823 | a text is accepted with a program exactly when it is some spelling of some way to write it |
| SieveLanguage.FlagWords | core/src/sieve.cpp:722-725 | `addflag` and `removeflag` are the commands of their names |
| SieveRules.RuleNames | core/src/sieve.cpp:1761-1795 | the scan over the lines yields the names that the comments give the rules, in order |
| SieveRules.Decompose | core/src/sieve.cpp:1967-2096 | flattens the parsed program into the rules, or refuses it |
| SieveCompose.Compose | core/src/sieve.cpp:2098-2262 | writes the text of the rules, with the requirements they need |
| SievePieces.QuotedReadsBack | core/src/sieve.cpp:229-249 | a quoted string reads back as the string without its line breaks, whatever follows |
| SievePieces.StuffingReadsBack | core/src/sieve.cpp:251-290 | a dot-stuffed line unstuffs to itself and is never taken for the closing dot |
| SievePieces.BlockReadsBack | core/src/sieve.cpp:1926-1956 | a printed `text:` block reads back as its lines, each ended by CRLF |
| SievePrinted.PrintedScriptLexes | core/src/sieve.cpp:2098-2262 | the text of legal rules lexes to the tokens of the rules |
| SieveReadBack.PrintedScriptParses | core/src/sieve.cpp:385-823 | those tokens parse to the tree of the rules |
| SieveNames.PrintedScriptNames | core/src/sieve.cpp:1761-1795 | the names read out of a printed script are one list of entries for each printed rule |
| SieveNames.NameSurvives | core/src/sieve.cpp:1761-1795 | exactly the trimmed one-line names are read back as they were |
| SieveRoundTrip.ReadsBackAs | core/src/sieve.cpp:1967-2262 | what decomposing a composed script gives, for all legal rules |
| SieveSurvives.ReadRulesAreLegal | core/src/sieve.cpp:1799-1904 | every rule read from any script has known match types and decimal sizes |
| SieveSurvives.TestSurvives | core/src/sieve.cpp:1799-1852 | a condition survives exactly when it is canonical |
| SieveSurvives.ReasonSurvives | core/src/sieve.cpp:1926-1965 | a reason survives exactly when it is one line or CRLF-ended lines without other CR |
| SieveSurvives.FlagsSurvive | core/src/sieve.cpp:1286-1316 | flags survive exactly when none is empty or holds a blank |
| SieveSurvives.ActionSurvives | core/src/sieve.cpp:1967-2096 | an action survives exactly when it is canonical |
| SieveCanonical.ComposeThenDecompose | core/src/sieve.cpp:1967-2262 | decomposing a composed script gives the same rules exactly when every rule is canonical and each is given its own name |
| SieveCanonical.TidyRulesRoundTrip | core/src/sieve.cpp:1967-2262 | canonical rules with trimmed one-line names, and no reason with a line that looks like an `if`, survive |
| SieveCanonical.IfLineTakesAName | core/src/sieve.cpp:1761-1795 | two canonical rules with tidy names, the second of which loses its name to a line of the reason in the first |
| SieveCanonical.RequiresWhatIsUsed | core/src/sieve.cpp:2099-2137 | a composed script requires an extension exactly when an action of some rule uses it |
| SieveCanonical.RuleTextBegins | core/src/sieve.cpp:2139-2150 | a rule is written after the comment that names it |
| SieveVariables.Expand | core/src/sieve.cpp:908-930 | the loop over a text replaces each reference to a valid name, when variables are in use |
| SieveVariables.ExpansionFills | core/src/sieve.cpp:871-930 | a text of plain pieces, references and what only looks like one expands to the pieces with the values in place; values are not expanded again |
| SieveVariables.AssignedStaysBounded | core/src/sieve.cpp:836-865 | the store never holds more than 128 names, nor a value over 4096 bytes |
| SieveVariables.LastAssignmentCounts | core/src/sieve.cpp:836-865 | the value last given to a name is what it stands for, in any spelling |
| SieveMatches.MatchMeans | core/src/sieve.cpp:1080-1095 | `:is`, `:contains` and `:matches` of a value and a key, with or without regard to case, the last within its budget and with least captures |
| SieveMatches.LooksAndMatches | core/src/sieve.cpp:1137-1279 | the tests of headers, addresses, the envelope, strings and flags hold exactly when a value they look at matches a key |
| SieveMatches.OtherTests | core/src/sieve.cpp:1161-1253 | when the tests for presence, size and body hold |
| SieveMatches.FirstOfIs | core/src/sieve.cpp:1169-1182 | without variables `anyof` holds exactly when one of its tests does and `allof` exactly when none fails |
| SieveMatches.PartsOfAddress | core/src/sieve.cpp:1100-1128 | the parts of an address, with the subaddress at the first separator, or none |
| SieveRunner.Runner.EvalTest | core/src/sieve.cpp:1161-1279 | the recursive evaluation of a test, with the captures it leaves, is the function that defines it |
| SieveRunner.Runner.Walk | core/src/sieve.cpp:1513-1626 | the walk over the commands changes flags, variables and actions as the function that defines a run says |
| SieveRunner.Evaluate | core/src/sieve.cpp:1656-1706 | what becomes of a message is the conclusion of the run |
| SieveRunner.ReplyWarranted | core/src/sieve.cpp:1365-1451 | the checks for an automatic reply, in their order, decide whether it is warranted |
| SieveOutcome.EveryOutcomeIsSound | core/src/sieve.cpp:1454-1706 | for every script and message there is an outcome: a rejection or a discard only alone, at most one automatic reply, no flag twice and system flags in one spelling |
| SieveOutcome.OnlyDiscardLoses | core/src/sieve.cpp:1513-1706 | a script without `discard`, and one that cannot be read, stores the message, sends it on or refuses it |
| SieveOutcome.VariablesStayBounded | core/src/sieve.cpp:836-865 | the store of variables is bounded in every run |
| SieveOutcome.TestKeepsNames | core/src/sieve.cpp:1132-1279 | a test changes no variable but the captures, and those only when variables are in use |
| SieveOutcome.FlagCommands | core/src/sieve.cpp:1328-1344 | what `setflag`, `addflag` and `removeflag` do to the flags, and that they do nothing else |
| SieveOutcome.OneCommandAlone | core/src/sieve.cpp:1513-1706 | what a script of one command makes of a message; `:copy` keeps it as well |
| SieveOutcome.NothingAfterStop | core/src/sieve.cpp:1513-1524 | nothing after a `stop` or a `reject` is run |
| SieveOutcome.ActionsOnlyGrow | core/src/sieve.cpp:1513-1626 | what has been done is never undone |
| SieveOutcome.ModifiersInAnyOrder | core/src/sieve.cpp:1476-1511 | the order of modifiers makes no difference |
| SieveOutcome.OneModifier | core/src/sieve.cpp:1476-1511 | what each modifier does |
| SieveOutcome.NoReplyToRobots | core/src/sieve.cpp:1365-1451 | robots and list managers get no automatic reply |
| SieveOutcome.NoReplyToMachines | core/src/sieve.cpp:1365-1451 | nor do generated, bulk and list mail, the user, and messages that do not name the user |
| SieveMeaning.ProgramShown | core/src/sieve.cpp:1513-2096 | running a program of plain rules is following the rules read out of it, from any state without variables and flags |
| SieveDelivery.ViewTellsTheTruth | core/src/sieve.cpp:1656-2096 | a plain script does with every message what the rules shown for it say |
| SieveDelivery.ComposedDoes | core/src/sieve.cpp:1656-2262 | a composed script does with every message what its rules, as they are read back, say |
| SieveDelivery.ComposedDoesItsRules | core/src/sieve.cpp:1656-2262 | and what the rules themselves say when their texts can be written and none only stops |
| SieveDelivery.SavingChangesNothing | core/src/sieve.cpp:1656-2262 | so opening a plain script in the rule editor and saving it changes nothing about what becomes of any message |
| SieveRewrite.GivenBackAsItWas | core/src/sieve.cpp:1799-2262 | and it gives back the same commands, requirements aside, exactly when the script is in the form the editor writes |
| SieveLosses.CopyIsLost | core/src/sieve.cpp:1967-2096 | a script with `:copy` that saving changes |
| SieveLosses.AddressBecomesHeader | core/src/sieve.cpp:1799-1822 | one with an `address` test |
| SieveLosses.CaseIsLost | core/src/sieve.cpp:1799-1822 | one with the comparator `i;octet` |
| SieveLosses.LineBreakIsLost | core/src/sieve.cpp:1906-1921 | one with a key of two lines |
| SieveLosses.AfterStopIsDone | core/src/sieve.cpp:1967-2096 | one with a command after a `stop` |
| SieveLosses.StopIsLost | core/src/sieve.cpp:2139-2142 | one with a rule that only stops |
| Glob.BestIsLeast | core/src/sieve.cpp:957-1042 | any captures that spell the value are found, or lexicographically shorter ones are |
| Glob.BestIsComplete | core/src/sieve.cpp:957-1042 | the search succeeds exactly when some captures spell the value |
| Glob.MatchMeans | core/src/sieve.cpp:957-1054 | on success the captures put back into the pattern give the value up to folding, and no others are shorter |
| Glob.Globber.Match | core/src/sieve.cpp:970-1010 | the backtracking search counts its calls exactly, never past the budget and one, and records the captures it found |
| Glob.GlobMatch | core/src/sieve.cpp:1044-1054 | succeeds exactly when there is a match and finding it takes no more calls than the budget |
| Glob.OneStarFewCalls | core/src/sieve.cpp:957-1042 | a pattern with one star needs at most one call for each character and one more |
| Glob.StarsBoundCalls | core/src/sieve.cpp:957-1042 | a pattern with any number of stars needs at most the calls of `MostCalls`, which nests one loop over the value for each star |
| Glob.MostCallsIsPolynomial | core/src/sieve.cpp:957-1042 | for `k` stars and `n` characters that is at most `k * (n + 1)^k` |
| Glob.FewStarsAreDecided | core/src/sieve.cpp:957-1054 | so a pattern with few enough stars for the length of the value is decided within the budget |
| Calendar.DaysOfCivil | core/src/ical.cpp:65-85 | every integer is the day number of the valid date read from it |
| Calendar.CivilOfDays | core/src/ical.cpp:65-85 | every valid date is the date read from its day number |
| Calendar.DaysAscend | core/src/ical.cpp:65-72 | day numbers are strictly increasing in the date |
| Calendar.DaysStep | core/src/ical.cpp:65-99 | the next calendar day has the next day number |
| Calendar.WeekdayForm | core/src/ical.cpp:87-90 | weekdays go round by one a day, for negative days too |
| Calendar.WallInverse | core/src/ical.cpp:104-119 | every integer instant breaks into a valid clock reading that makes it again |
| Calendar.WallOf | core/src/ical.cpp:104-119 | every valid clock reading is the one its instant breaks into |
| Recurrence.RuleMeans | core/src/ical.cpp:1036-1117 | what a rule names: whole intervals of days, weeks, months or years after the start, on the same day of the month or one of the days named, at the same time of day |
| Recurrence.LengthMeans | core/src/ical.cpp:948-1000 | how long an item lasts, and that it is shown when a part of it lies in the window |
| Recurrence.MonthRound | core/src/ical.cpp:1084-1115 | in each round of a monthly or yearly rule falls the start's day of that month, or nothing when the month is too short |
| Expansion.ExpandDays | core/src/ical.cpp:1068-1081 | daily and weekly rules list the recurrence set in order, complete unless a cap is reached |
| Expansion.ExpandByDay | core/src/ical.cpp:1036-1067 | for any list of days returns exactly its listing: the days in the order of rounds and of the list, up to the first after UNTIL, the first COUNT of them, those that are shown, up to the caps; for days in week order that is the recurrence set in order |
| Expansion.ExpandMonths | core/src/ical.cpp:1084-1117 | the same for monthly and yearly rules, skipping invalid dates |
| Expansion.Expand | core/src/ical.cpp:948-1121 | an item without an understood rule appears once if it meets the window; with one, the first COUNT recurrences up to UNTIL that are not excepted and meet the window, in order, all of them or those before a cap; with named days in any order, their listing |
| NamedDays.OrderedIsExpanded | core/src/ical.cpp:1036-1067 | the listing of days in week order is the recurrence set in order, for every item, window, COUNT and UNTIL |
| NamedDays.OutOfOrderIsWrong | core/src/ical.cpp:1036-1067 | the listing of any other days is wrong already for a Sunday item in its first week |
| NamedDays.RightExactlyInOrder | core/src/ical.cpp:1036-1067 | a list of days is expanded as the rule says, for every item, window, COUNT and UNTIL, exactly when it names the days in week order without repeating one |
| NamedDays.ListingIsPlausible | core/src/ical.cpp:1036-1067 | whatever the order, every entry is a recurrence in the window, not excepted and not after UNTIL |
| NamedDays.SaturdayBeforeSunday | core/src/ical.cpp:1044-1060 | Saturday and Sunday: the Saturday comes before the Sunday of its week |
| NamedDays.MondayTwice | core/src/ical.cpp:1044-1060 | Monday twice: each Monday is returned twice |
| NamedDays.UntilLosesSunday | core/src/ical.cpp:1052-1054 | Monday and Sunday until the starting Sunday: nothing is returned, though that Sunday qualifies |
| NamedDays.MondayBeforeSunday | core/src/ical.cpp:1055-1059 | Monday and Sunday, once, from a Sunday: the Monday is returned |
| NamedDays.WednesdayBeforeMonday | core/src/ical.cpp:1055-1059 | Sunday, Wednesday and Monday, once, from a Monday: the Wednesday is returned |
| FreeBusy.MergePeriods | core/src/ical.cpp:1125-1149 | the result is canonical (not empty, increasing, a strict gap between neighbours) and covers exactly the same instants |
| FreeBusy.CanonicalIsUnique | core/src/ical.cpp:1125-1149 | two canonical lists that cover the same instants are equal |
| FreeBusy.MergeIsCanonicalForm | core/src/ical.cpp:1125-1149 | hence merging is idempotent and does not depend on the order of its input |
| Utf8.EncodeThenDecode | core/src/json.cpp:24-40 | encoded scalar values are valid and decode to themselves |
| Utf8.DecodeThenEncode | core/src/json.cpp:396-446 | a valid string is the encoding of what it decodes to |
| Utf8.ValidIsEncoded | core/src/json.cpp:24-446 | a string is valid exactly when it is the encoding of some scalar values |
| Utf8.EncodingIsUnique | core/src/json.cpp:24-40 | and of no others |
| Utf8.ValidIsWellFormed | core/src/json.cpp:396-446 | a string is valid exactly when the grammar of section 4 of RFC 3629 allows it |
| Utf8.BitsInOrder | core/src/json.cpp:24-40 | the examples of section 7 of RFC 3629 |
| Utf8.ValidUtf8 | core/src/json.cpp:396-446 | the validator's loop decides exactly that |
| JsonReadBack.StringReadsBack | core/src/json.cpp:216-305 | a written string reads back as itself exactly when it is valid UTF-8 and at most one byte longer than the limit, whatever follows |
| JsonReadBack.NumberReadsBack | core/src/json.cpp:323-380 | an integer within 2^53 reads back as itself |
| JsonReadBack.ValueReadsBack | core/src/json.cpp:103-214 | a written value reads back in any place, with what follows and its node count, exactly when it fits the limits that remain |
| JsonRoundTrip.SerializeThenParse | core/src/json.cpp:572-701 | parsing a serialized value gives the value, members in order and duplicates kept, when depth and nodes are within the limits and no string is more than one byte longer than its limit, and fails otherwise |
| JsonRoundTrip.AcceptedRespectsLimits | core/src/json.cpp:63-305 | any accepted document nests and counts within the limits, and none of its strings is more than four bytes longer than its limit |
| JsonRoundTrip.LimitIsTestedBefore | core/src/json.cpp:228-230 | with a limit of zero bytes one character is accepted, an escape of four bytes too, and a second character is not |
| JsonParser.Parser.ParseValue | core/src/json.cpp:103-132 | the parser object consumes, counts and yields what the grammar says |
| JsonParser.Parser.ParseString | core/src/json.cpp:216-305 | strings with escapes and surrogate pairs, the same |
| JsonParser.Parser.ParseNumber | core/src/json.cpp:323-380 | numbers, the same |
| JsonParser.ParseDocument | core/src/json.cpp:572-581 | the whole document, the same, with nothing but blanks after it |
| JsonGrammar.LayoutReads | core/src/json.cpp:15-380 | every layout and spelling of a value, with any of the four blank characters between tokens and any escape of each character, reads as the value exactly within the limits |
| JsonGrammar.AcceptsExactly | core/src/json.cpp:63-380 | the parser accepts a text with a value exactly when the text writes the value in some layout and spelling within the limits |
| JsonGrammar.LineBreaksAreAllowed | core/src/json.cpp:15-94 | an array spread over lines is accepted |
| JsonParser.Serialize | core/src/json.cpp:656-701 | writes the text of the value |
| Dkim.LastUnusedIs | core/src/dkim.cpp:480-503 | the header chosen is unused and of the name, and every later one of the name is used: selection is from the bottom up |
| DkimText.HeaderPrepended | core/src/dkim.cpp:60-126 | a folded header put in front of a message becomes its first header and changes nothing else |
| DkimAgree.FinishedTags | core/src/dkim.cpp:153-199 | the finished signature header reads back as the tags it was built from |
| DkimText.EmptiedChain | core/src/dkim.cpp:505-542 | emptying the b= tag of the finished header gives back what was signed |
| DkimText.FoldedReadsBack | core/src/dkim.cpp:191-199 | a folded base64 value without its blanks is the value |
| DkimAgree.SameChoice | core/src/dkim.cpp:480-503 | with the new header in front, the names choose the same headers |
| DkimAgree.SignThenRebuild | core/src/dkim.cpp:358-733 | if signing succeeds, the body and header block that the verifier rebuilds for that signature are the bytes that were hashed and signed |
| DkimAgree.AnySignerRebuilds | core/src/dkim.cpp:358-733 | the same for a signer with any canonicalization of headers and of body, one or both left unsaid |
| DkimAgree.HalvesGovern | core/src/dkim.cpp:411-416 | what stands before the slash of c= decides for the headers and what stands after it for the body; a missing half means simple |
| DkimCanon.RelaxedHeaderForm | core/src/dkim.cpp:324-348 | a relaxed header is the name in lower case, a colon, and the words of the value with one space between them, however it was spaced and folded |
| DkimCanon.RelaxedBodyIsStandard | core/src/dkim.cpp:271-322 | a relaxed body is that of section 3.4.4 of RFC 6376 exactly when no line is indented |
| DkimCanon.SimpleBodyForm | core/src/dkim.cpp:271-322 | a simple body is its lines without the empty ones at the end |
| DkimCanon.ExampleBody | core/src/dkim.cpp:285-302 | the body line of the RFC's example that loses its leading space |
| DkimMethods.SplitMessage | core/src/dkim.cpp:60-126 | the loop yields the headers and the body |
| DkimMethods.ParseTagList | core/src/dkim.cpp:153-178 | the loop yields the tags |
| DkimMethods.CanonicalizeBody | core/src/dkim.cpp:271-322 | the loops yield the canonical body, simple or relaxed |
| DkimMethods.TakeHeader | core/src/dkim.cpp:480-503 | the loop finds the last unused header of a name, or that there is none |
| DkimMethods.EmptySignature | core/src/dkim.cpp:505-542 | the scan empties exactly the b= tag |
| DkimMethods.Rebuild | core/src/dkim.cpp:358-542 | what the verifier computes before any cryptography, or a refusal when a tag is missing or the algorithm unknown |
| DkimMethods.Sign | core/src/dkim.cpp:590-733 | the signed message, or a refusal |
| RoomStore.StepValid | core/src/citadel_store.cpp:2143-2523 | every store call keeps the tables in order and never lowers the sequence |
| RoomStore.TokenRises | core/src/citadel_store.cpp:2355-2362 | the change token never falls, and rises with each change of the room but a move into it |
| RoomStore.StepAnnounced | core/src/citadel_store.cpp:2364-2394 | every call but a move into the room announces each euid whose message it changes there |
| RoomStore.SyncIsExact | core/src/citadel_store.cpp:2364-2421 | resolving the announced euids makes a current copy equal to the room's map, and current again |
| RoomStore.RunKeepsCurrent | core/src/citadel_store.cpp:2143-2474 | in every run of calls and synchronizations a copy stays current and is exact after each synchronization |
| RoomStore.NewClientIsExact | core/src/citadel_store.cpp:2143-2474 | so the copy of a client that starts with nothing is exact after each synchronization of every run |
| RoomStore.ExactExactlyIfCurrent | core/src/citadel_store.cpp:2364-2421 | a synchronization makes a copy exact exactly when it was current before |
| RoomStore.UpsertReplaces | core/src/citadel_store.cpp:2423-2474 | an upsert makes its message the one found by its euid, replaces the one before, and touches no other euid |
| RoomStore.LinkingIn | core/src/citadel_store.cpp:2492-2523 | exactly when a copy stays current after an old message is linked into the room |
| RoomStore.OldMessageIsMissed | core/src/citadel_store.cpp:2492-2523 | such a message, and a copy that misses it |
| RoomTables.ChangesNameChanged | core/src/citadel_store.cpp:2364-2394 | an euid is in the change list exactly when a number after the token names it |
| RoomTables.Store.InsertMessage | core/src/citadel_store.cpp:2143-2236 | the call is one step of the state machine |
| RoomTables.Store.Unlink | core/src/citadel_store.cpp:2316-2345 | the same, with the tombstone |
| RoomTables.Store.UpsertByEuid | core/src/citadel_store.cpp:2423-2474 | the same, insert first and unlink second |
| RoomTables.Store.MoveMessage | core/src/citadel_store.cpp:2492-2523 | the same, refusing what is not there |
| RoomTables.Store.RoomChangesSince | core/src/citadel_store.cpp:2364-2394 | names an euid exactly when a number after the token does, with numbers after that token and up to the room's own |
| RoomTables.Mirror.Synchronize | core/src/citadel_store.cpp:2364-2421 | the client's loop is one synchronization of the state machine |
| RoomExpiry.Effective | core/src/citadel_store.cpp:1951-1978 | the policy that applies is never a deferral, and from settable policies has a value of at least one |
| RoomExpiry.FirstLevelDecides | core/src/citadel_store.cpp:1951-1978 | the policy is that of the first level that says something, asked in the order room, floor or mailboxes, site; without any, messages are kept by hand |
| RoomExpiry.SetKeepsSettable | core/src/citadel_store.cpp:1929-1949 | setting a policy stores it and keeps every stored policy settable |
| RoomExpiry.KeepsNewest | core/src/citadel_store.cpp:2017-2023 | a count keeps exactly its newest messages |
| RoomExpiry.RunExpiry | core/src/citadel_store.cpp:1980-2061 | exactly the links that the policies give up go, each with its tombstone, and exactly the rows that this leaves without a link |
| RoomExpiry.PassLeaves | core/src/citadel_store.cpp:1980-2061 | after the pass a swept room holds what its policy keeps: all if permanent or manual, with a count exactly that many of the newest, with an age all but the dated messages older than so many days |
| RoomExpiry.SecondPassFindsNothing | core/src/citadel_store.cpp:1980-2061 | a second pass at the same time expires nothing |
| RoomExpiry.OthersKeepAll | core/src/citadel_store.cpp:1980-2061 | a room that is not swept is as it was |
| Listener.StepKeeps | core/src/server_controller.cpp:34-180 | every atomic step of any thread keeps the invariant |
| Listener.EveryRunIsSafe | core/src/server_controller.cpp:92-180 | in every interleaving the set holds exactly the open descriptors of serving sessions, no two alike, every session that has not closed its descriptor still owns it, and active connections stay within a positive cap |
| Listener.DrainedIsEmpty | core/src/server_controller.cpp:127-180 | once the accept thread is joined and every session has ended, nothing is listed and nothing counted |
| Listener.WakingIsFinal | core/src/server_controller.cpp:147-180 | when `Stop` wakes the sessions no new one can appear, and it wakes only descriptors that are theirs |
| MailAlias.ExactFirst | core/src/mailpolicy.cpp:323-352 | an address with rows of its own leads to exactly their destinations |
| MailAlias.CatchAllNext | core/src/mailpolicy.cpp:323-352 | one without leads to exactly the destinations of the rows for its domain |
| MailAlias.NoDomainNoStep | core/src/mailpolicy.cpp:323-352 | and one without either leads nowhere |
| MailAlias.ExpandByCase | core/src/mailpolicy.cpp:323-352 | addresses that differ in case have the same expansion |
| MailAlias.WithinStable | core/src/mailpolicy.cpp:356-386 | once a round reaches nothing new, no later one does |
| MailAlias.ExpandAlias | core/src/mailpolicy.cpp:356-386 | without duplicates up to case, exactly the addresses within ten steps that have no expansion of their own, for cyclic tables too |
| ContentLine.Unfold | core/src/contentline.cpp:27-52 | the loop yields the unfolded lines |
| ContentLine.WrittenUnfolds | core/src/contentline.cpp:27-52 | logical lines broken anywhere, by CRLF or line feeds alone and continued by a space or a tab, unfold to the logical lines |
| ContentLine.AppendFolded | core/src/contentline.cpp:54-82 | the loop appends the pieces of the line, which put together are the line |
| ContentLine.PiecesFit | core/src/contentline.cpp:54-82 | no physical line is longer than 75 octets |
| ContentLine.PiecesAreFull | core/src/contentline.cpp:54-82 | for valid UTF-8 none that is continued is shorter than 72 |
| ContentLine.PiecesAreValid | core/src/contentline.cpp:54-82 | no cut of valid UTF-8 falls inside a character |
| ContentLine.FoldThenUnfold | core/src/contentline.cpp:27-82 | unfolding folded lines gives the lines and one empty line |
| Html.EscapeReadsBack | core/src/markdown.cpp:13-35 | escaping loses nothing |
| Html.SafeSchemes | core/src/markdown.cpp:52-72 | an address with a scheme is safe for `http`, `https` and `mailto` only |
| Html.TreesAreWellNested | core/src/markdown.cpp:222-682 | the text of a legal tree is well nested, as a scanner of the text alone decides it |
| MarkdownSound.InlineSound | core/src/markdown.cpp:318-435 | every line becomes legal nodes, links and images only to safe places, no deeper than the nesting cap allows |
| Markdown.PageSound | core/src/markdown.cpp:486-681 | every page becomes a legal tree, its depth bounded by the nesting the options allow |
| MarkdownSpans.SpansShow | core/src/markdown.cpp:313-437 | a line written from letters, code, emphasis of both kinds, links, images, wiki links and bare addresses, one inside another, shows as the HTML of these |
| MarkdownNests.PageShows | core/src/markdown.cpp:439-681 | the lines written from headings, dividers, fences, indented code, tables, quotes, lists and paragraphs, one inside another, show as the HTML of these |
| MarkdownShows.PageShowsAs | core/src/markdown.cpp:233-681 | the source of a document renders to the HTML of the document, within the limits |
| MarkdownShows.OneStarOrTwo | core/src/markdown.cpp:411-419 | one star is `em`, two are `strong` |
| MarkdownText.BackslashesProtect | core/src/markdown.cpp:318-435 | a backslash before every punctuation character makes any text show as itself, cut where the output reaches its cap; nothing is lost exactly when what comes before the last character is under the cap |
| MarkdownText.SecondLetterDropped | core/src/markdown.cpp:332-335 | with room for one character of output, the second letter of a text is lost |
| MarkdownText.TabReadsPastTheEnd | core/src/markdown.cpp:94-106 | a line of a tab and a letter has indentation longer than itself |
| MarkdownText.FencedIsVerbatim | core/src/markdown.cpp:504-529 | lines between fences are shown as they are, unless one of them closes the fence |
| Markdown.EmitInline | core/src/markdown.cpp:318-435 | appends the printed nodes of the line, plain past the nesting cap and nothing once the output is full |
| Markdown.Table | core/src/markdown.cpp:466-484 | appends the printed table |
| Markdown.ListBlock | core/src/markdown.cpp:603-652 | appends the printed list, items with their own blocks, and stops where the list does |
| Markdown.Blocks | core/src/markdown.cpp:486-681 | appends the printed blocks, flat past the nesting cap and nothing once the output is full |
| Markdown.RenderInline | core/src/markdown.cpp:691-694 | the result is the printed nodes of the source, and well nested |
| Markdown.Render | core/src/markdown.cpp:233-241 | the result is the printed tree of the source, and well nested, for every source and every setting |

## Findings

Where the code does less than it promises, with the exact limit.

- A patch whose hunk headers hold a number over the limit of the header reader (`n / 10 > 2^40`,
  core/src/diff.cpp:339-387) is not applied: `DiffUnified.HugeInsertionIsLost` gives such an insertion for every
  number over the limit. `DiffUnified.Unified` and `Diff.RoundTrip` state the exact condition, and texts whose line
  counts are within the limit (`DiffUnified.LineCountsFit`) always meet it.
- A weekly rule that names its days out of week order, or names one twice, is listed in the order of the names
  (core/src/ical.cpp:1041-1060), so order, the choice of the first COUNT and what comes before UNTIL can be wrong.
  `NamedDays.RightExactlyInOrder` is the exact condition on the list of days, `NamedDays.Listing` what is returned for
  any list, and `NamedDays.ListingIsPlausible` what holds for all of them. `SaturdayBeforeSunday` ([SA, SU]: not in order),
  `MondayTwice` ([MO, MO]: duplicates), `UntilLosesSunday` ([MO, SU] until the starting Sunday: nothing is returned),
  `MondayBeforeSunday` ([MO, SU], once) and `WednesdayBeforeMonday` ([SU, WE, MO], once, from a Monday) are inputs.
- A rule with BYDAY stops inside its last round rather than after it, so it reaches one round less than other rules
  (`Recurrence.Horizon`).
- A message moved into a room keeps its old number, which a synchronizing client may have passed:
  `RoomStore.LinkingIn` says exactly when it is missed and `RoomStore.OldMessageIsMissed` is a case. A copy that has
  missed something is wrong after its next synchronization too (`RoomStore.ExactExactlyIfCurrent`).
- A line of a multi-line reason that looks like an `if` is taken for the start of a rule by the scan for names, and
  takes the next rule's name: the second half of the condition in `SieveCanonical.ComposeThenDecompose`, and
  `SieveCanonical.IfLineTakesAName` for an input.
- The rule editor is to refuse a script it cannot show rather than rewrite it silently
  (core/include/quackmail/sieve.hpp:126-131, core/src/sieve.cpp:1753-1756). It does rewrite `:copy`, the comparator
  `i;octet`, `address` tests, what comes after a `stop`, rules that only stop, and texts of more than one line
  (core/src/sieve.cpp:1799-2096, 2139-2142). A script that is not refused is given back as it was exactly when its
  commands are in the editor's own form (`SieveRewrite.GivenBackAsItWas`, `SieveRewrite.EditorProgram`). Where it is
  rewritten, nothing changes for any message as long as none of those six is in it (`SieveDelivery.SavingChangesNothing`),
  and `SieveLosses` has for each of the six a script and a message for which something does.
- The limit on the size of a string is tested before each character (core/src/json.cpp:228-230), so a string may be
  longer than its limit by the last character it reads: by one byte when written by the serializer, by up to four
  when it ends in an escape. `JsonReadBack.StringReadsBack` and `JsonRoundTrip.AcceptedRespectsLimits` are the bounds, and
  `JsonRoundTrip.LimitIsTestedBefore` shows both reached.
- The options promise that past a ceiling the remainder is emitted as escaped text
  (core/include/quackmail/markdown.hpp:55-58). Past the output cap the code drops it:
  `MarkdownText.BackslashesProtect` says for protected text what is kept and exactly when that is all of it, and
  `MarkdownText.SecondLetterDropped` is an input. Past the input cap a notice is printed instead. The model follows the
  code.
- A line whose indentation, a tab counting four, is larger than its length (`Indent(line) > |line|`) is read out of
  bounds where a heading is looked for (core/src/markdown.cpp:537); a tab and one letter is such a line
  (`MarkdownText.TabReadsPastTheEnd`). The model reads a zero byte there.
- A relaxed body drops the blanks in front of a line (core/src/dkim.cpp:285-302), where section 3.4.4 of RFC 6376 asks
  for one space. `DkimCanon.RelaxedBodyIsStandard` is the exact condition and `DkimCanon.ExampleBody` the RFC's own
  example. Signer and verifier agree with each other all the same (`DkimAgree.AnySignerRebuilds`).
- A remark, not about the code as it is: `Listener.CloseFirstIsUnsafe` shows why a session must leave the set
  before its descriptor is closed, as core/src/server_controller.cpp:127-142 does.

## Left out

- Sockets, TLS, DNS, the mail and web protocols, SQL and the database, cryptography and base64.
- Error messages and the line numbers in them.
- Time zones, the reading of rule texts and of dates; BYDAY on rules that are not weekly, which the code ignores.
- JSON numbers that are not integers within 2^53, which stay text with a printer given as a parameter; the sign of
  zero.
- DkimMethods.Rebuild: does not cut the body at l= nor refuse a signature past its x= time.
- Key lookup and the check of the signature itself.
- RoomTables.Store.InsertMessage: does not refuse a message over the quota, nor keep the highest message number.
- RoomTables.Store.UpsertByEuid: does not write wiki history, nor refuse when that cannot be written.
- The order of the change list, `PruneTombstones` and concurrent transactions of the room store;
  `RoomStore.RunKeepsCurrent` leaves out moves into the observed room.
- The bounded wait of `Stop`, and failure to create a thread.
- Flags of Sieve actions other than `keep` and `fileinto`: the composer looks at the flags of any action when it
  decides whether to require `imap4flags`, but prints only those of these two.
- How the addresses in a header value are found, which is a parameter of the evaluation of Sieve scripts.
- MarkdownShows.PageShowsAs: says nothing of sources that are not written from a document, such as marks that do not
  match; those are shown well nested (`Markdown.Render`), as what is not said.
- Machine integer overflow on sizes.
- The table of aliases as SQL, wildcard domains apart from what one expansion step looks up.
- Escaping of content line values.
