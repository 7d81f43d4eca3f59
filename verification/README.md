# LHS and its vendored Google Test, modelled in Dafny

LHS is a small HTTP server; the algorithms in its tree are one parser of its
own, which counts the bytes of a request head, and the Google Test 1.6.0 sources
it carries in `ext/gtest-1.6.0`. This project models them, one module per
component, and proves what their comments and interfaces promise. Where the code
does something else, the model follows the code, and a lemma says exactly
when the promise holds.

| file | models |
|---|---|
| `RefCount.dfy`, `LinkedPtr.dfy` | `linked_ptr`: the abstract ownership protocol, and the rings of links that carry it out |
| `SimpleRegex.dfy` | the simple regular expression engine: validator, backtracking matcher, `RE` |
| `Shuffling.dfy` | the random generator and the shuffle |
| `Filters.dfy` | `--gtest_filter` |
| `RegistryModel.dfy`, `Registry.dfy` | registering, shuffling and unshuffling test cases |
| `Sharding.dfy` | `FilterTests` and the sharding protocol |
| `Events.dfy`, `EventOrder.dfy`, `Outcomes.dfy` | the events of a run and their order, the listeners that hear them, and the results of assertions |
| `Runner.dfy`, `RunLaws.dfy`, `RunProperties.dfy` | the event repeater and `RunAllTests`; the seeds, and what runs when |
| `ShardedRun.dfy` | all of it together: filtering, sharding, shuffling and running |
| `Utf8.dfy`, `CLiterals.dfy`, `CData.dfy` | the three encoders, each with a decoder from its standard |
| `PrimeTables.dfy` | the two prime tables |
| `CommandLine.dfy` | taking recognised flags out of `argv` |
| `RequestHead.dfy` | the head of an HTTP request |
| `CStrings.dfy`, `Basics.dfy` | NUL-terminated strings; optional values and sequences |

Code that works by changing objects, arrays and vectors is modelled by classes and
methods, each proved against a function or a state machine on values; the
properties are then proved about that function or machine, over all inputs and all
runs.

## Where the code and its promises differ

- `FullMatch` is to match the entire string. `RE::Init` looks only at the last
  character for a `$`, so with a regex that ends in an escaped `$` it also matches
  longer strings. `SimpleRegex.FullMatchIffWholeString`: it means the entire
  string, for all strings, if and only if the regex does not end in an escaped `$`.
  An input: `SimpleRegex.EscapedDollarMatchesTooMuch`.
- The comment on `PrintCharsAsStringTo`'s helper speaks of unambiguous escapes, but
  a NUL is printed as `\0`, and an octal digit behind it is read into the escape.
  `CLiterals.PrintedReadsBackIff`: the literal is read back as the bytes printed
  if and only if no NUL comes directly before an octal digit. An input:
  `CLiterals.NulBeforeOctalExample`.
- `lhs::http::request::parse` counts a line without the CR it stripped, so its body
  starts too early on CRLF input. `RequestHead.BodyRightIff` says for which input it
  is right. An input: `RequestHead.CrLfExample`.
- `UnitTestImpl::GetTestCase(int) const` looks up the shuffled index only to see
  whether it is in range, and then returns the case in registration order;
  `GetMutableTestCase` returns the one in run order.
  `Registry.UnitTestImpl.ConstViewIffUnshuffled`: they agree if and only if the
  cases are not shuffled. An input: `Registry.ShuffledExample`.
- Death test cases are to run first. A comment on `GetTestCase` warns that this may
  fail if a test case is registered while the tests are shuffled.
  `RegistryModel.RegisteringKeepsDeathsFirstIff` says exactly when they do run first
  after a registration, whatever has been done before. An input: `RegistryModel.DeathTestRunsLate`. Unshuffling
  repairs it (`RegistryModel.UnshufflingRepairs`).
- `CodePointToUtf8` is to write `(Invalid Unicode 0x...)` for values outside of
  Unicode, but it encodes every value up to `0x1FFFFF`. `Utf8.InvalidWrittenIff`: the
  text is written exactly for the values above `0x10FFFF`, as promised, if and only if
  the value is not from `0x110000` to `0x1FFFFF`. `Utf8.StandardIffScalar`: for any
  32-bit value, what is written is well-formed UTF-8 if and only if the value is a
  Unicode scalar value or above `0x1FFFFF`. Inputs: `Utf8.EncodedButNotUtf8`.
- `OnTheFlyPrimeTable::GetNextPrime` is to return the smallest prime above `p`. It
  does if and only if `p` is not negative; for any other `p` it returns -1
  (`PrimeTables.OnTheFlyPrimeTable.GetNextPrime`).
- A full test name that does not fit `String::Format`'s 4096-byte buffer is
  replaced by an error text, and it is that text the filter sees.
  `Filters.FilterSeesNameIff`: every filter treats a test as its full name says if and
  only if that name fits. An input: `Filters.LongNameIsNotSeen`.
- An iteration is to run its tests if there was no fatal failure during global
  set-up. But what is reported outside the tests is never cleared, so an earlier
  iteration's failure, be it in an environment or in the set-up or tear-down of a test
  case, counts too. `RunProperties.RunsItsTestsIff`: an iteration whose own environments
  report nothing fatal runs its tests if and only if nothing fatal has been reported
  outside the tests before it. An input: `RunProperties.FatalFailureExample`.

## Model

| member | source | states |
|---|---|---|
| RefCount.StepSafe | ext/gtest-1.6.0/include/gtest/internal/gtest-linked_ptr.h:142-209 | Constructing, copying, assigning, resetting and destroying keep the ownership invariant: nothing is deleted twice, no live pointer holds a deleted object, and every captured object is held or deleted |
| RefCount.RunSafe | ext/gtest-1.6.0/include/gtest/internal/gtest-linked_ptr.h:142-209 | The invariant holds after every run of these operations |
| RefCount.EveryRunDeletesExactlyOnce | ext/gtest-1.6.0/include/gtest/internal/gtest-linked_ptr.h:142-209 | After every run no object has been deleted twice, no live pointer holds a deleted object, and once all pointers are gone exactly the captured objects have been deleted |
| RefCount.DeletedExactlyWhenLastLeaves | ext/gtest-1.6.0/include/gtest/internal/gtest-linked_ptr.h:194-196 | An operation deletes an object if and only if it takes away the last pointer that holds it, and deletes at most one |
| RefCount.StepHolds | ext/gtest-1.6.0/include/gtest/internal/gtest-linked_ptr.h:142-209 | What each operation leaves the pointers holding: constructing and resetting, the new object, which is captured; copying and assigning, what the source held, and nothing more is captured; destroying takes only that pointer away |
| RefCount.StepDeletes | ext/gtest-1.6.0/include/gtest/internal/gtest-linked_ptr.h:142-209 | What has been deleted after an operation is what was before it, and what pointers held before it and none holds after it |
| RefCount.AssignWithinRingIsIdentity | ext/gtest-1.6.0/include/gtest/internal/gtest-linked_ptr.h:159-165 | Assigning between two pointers to the same object changes nothing, so it never deletes |
| LinkedPtrs.LinkedPtr.JoinNew | ext/gtest-1.6.0/include/gtest/internal/gtest-linked_ptr.h:92-94 | The link becomes a cycle of its own |
| LinkedPtrs.LinkedPtr.Join | ext/gtest-1.6.0/include/gtest/internal/gtest-linked_ptr.h:109-116 | The search finds the last link of the cycle and terminates; the cycle then is the old one with this link behind it, and only two links were written |
| LinkedPtrs.LinkedPtr.Depart | ext/gtest-1.6.0/include/gtest/internal/gtest-linked_ptr.h:121-129 | The search terminates; the rest of the cycle is a cycle without this link, and the result tells whether the link was alone |
| LinkedPtrs.AddPartition | ext/gtest-1.6.0/include/gtest/internal/gtest-linked_ptr.h:109-116 | Adding a link to one ring leaves all links partitioned into disjoint rings |
| LinkedPtrs.RemovePartition | ext/gtest-1.6.0/include/gtest/internal/gtest-linked_ptr.h:121-129 | So does removing one, and every other member of its ring stays on that ring |
| LinkedPtrs.Heap.Unlink | ext/gtest-1.6.0/include/gtest/internal/gtest-linked_ptr.h:121-129 | Over the whole heap: exactly this link leaves its ring, every other ring is unchanged, all rings are still cycles of `next_` |
| LinkedPtrs.Heap.Link | ext/gtest-1.6.0/include/gtest/internal/gtest-linked_ptr.h:109-116 | Over the whole heap: exactly this link is new on the target's ring, every other ring is unchanged, all rings are still cycles of `next_` |
| LinkedPtrs.Heap.Depart | ext/gtest-1.6.0/include/gtest/internal/gtest-linked_ptr.h:194-196 | Deletes the object exactly when the protocol releases it: being alone on the ring is being the last to hold it |
| LinkedPtrs.Heap.CaptureRaw | ext/gtest-1.6.0/include/gtest/internal/gtest-linked_ptr.h:198-201 | A fresh raw pointer is held by this pointer alone |
| LinkedPtrs.Heap.Copy | ext/gtest-1.6.0/include/gtest/internal/gtest-linked_ptr.h:203-209 | Refines the protocol's copy, also from a pointer that holds nothing |
| LinkedPtrs.Heap.Construct | ext/gtest-1.6.0/include/gtest/internal/gtest-linked_ptr.h:142-142 | Refines the protocol's step and keeps the heap invariant; the new pointer holds the object |
| LinkedPtrs.Heap.CopyConstruct | ext/gtest-1.6.0/include/gtest/internal/gtest-linked_ptr.h:147-150 | Refines the protocol's step and keeps the heap invariant; the new pointer holds what the other does |
| LinkedPtrs.Heap.Assign | ext/gtest-1.6.0/include/gtest/internal/gtest-linked_ptr.h:159-165 | Refines the protocol's step, self-assignment included, and keeps the heap invariant; this pointer holds what the other does |
| LinkedPtrs.Heap.Reset | ext/gtest-1.6.0/include/gtest/internal/gtest-linked_ptr.h:168-171 | Refines the protocol's step and keeps the heap invariant; the pointer holds the new object |
| LinkedPtrs.Heap.Destroy | ext/gtest-1.6.0/include/gtest/internal/gtest-linked_ptr.h:143-143 | Refines the protocol's step and keeps the heap invariant |
| SimpleRegex.AtomMatchesItsClass | ext/gtest-1.6.0/src/gtest-port.cc:178-222 | An atom matches exactly the characters of its documented class, which the language is defined by; the classes are stated independently of the code's predicates |
| SimpleRegex.ClassLaws | ext/gtest-1.6.0/src/gtest-port.cc:178-222 | The upper-case classes are the complements of the lower-case ones, and a dot is any character but the line feed, unless it is escaped |
| SimpleRegex.AtomChars | ext/gtest-1.6.0/src/gtest-port.cc:197-222 | The characters that stand for themselves, and those that may follow a backslash |
| SimpleRegex.Syntax | ext/gtest-1.6.0/include/gtest/gtest-death-test.h:107-131 | How a tree is spelled: an atom and its repetition sign, atom after atom, between the anchors |
| SimpleRegex.ParsePrint | ext/gtest-1.6.0/src/gtest-port.cc:232-286 | Every syntax tree of the grammar is the parse of its printed form |
| SimpleRegex.ParseSound | ext/gtest-1.6.0/src/gtest-port.cc:232-286 | What a string parses to is a tree of the grammar, and prints as that string |
| SimpleRegex.ValidateRegex | ext/gtest-1.6.0/src/gtest-port.cc:232-286 | The one-pass validator accepts exactly the strings that parse, and NULL not at all |
| SimpleRegex.AcceptedIffPrintedForm | ext/gtest-1.6.0/src/gtest-port.cc:232-286 | These are the printed forms of trees: an optional `^`, atoms with at most one repeat each, an optional final `$`; and the tree is unique |
| SimpleRegex.MatchRepetitionAndRegexAtHead | ext/gtest-1.6.0/src/gtest-port.cc:295-319 | True if and only if the string is a word of the repeated atom followed by a match of the rest; the mutual recursion terminates, and no read passes the terminator |
| SimpleRegex.MatchRegexAtHead | ext/gtest-1.6.0/src/gtest-port.cc:322-348 | True if and only if some prefix is in the regex's declarative language, and with `$` if the whole string is |
| SimpleRegex.MatchRegexAnywhere | ext/gtest-1.6.0/src/gtest-port.cc:358-371 | True if and only if some substring matches with its anchors respected; false for NULL |
| SimpleRegex.FillBuffer | ext/gtest-1.6.0/src/gtest-port.cc:404-422 | Filling the buffer in place stays within it and yields the pattern with its missing anchors |
| SimpleRegex.RE.constructor | ext/gtest-1.6.0/src/gtest-port.cc:392-423 | Establishes that both patterns are what the matching functions need |
| SimpleRegex.RE.PartialMatch | ext/gtest-1.6.0/src/gtest-port.cc:387-389 | Holds if and only if the regex is valid and some substring matches it |
| SimpleRegex.RE.FullMatch | ext/gtest-1.6.0/src/gtest-port.cc:381-383 | Holds if and only if the regex is valid and the pattern with both anchors matches |
| SimpleRegex.FullPatternTree | ext/gtest-1.6.0/src/gtest-port.cc:392-423 | The pattern with both anchors parses to the same atoms, anchored at the start, and at the end unless the regex ends in an escaped `$` |
| SimpleRegex.FullMatchMeaning | ext/gtest-1.6.0/src/gtest-port.cc:381-423 | A full match is membership of the whole string in the language, or of a prefix if the regex ends in an escaped `$` |
| SimpleRegex.FullMatchIffWholeString | ext/gtest-1.6.0/src/gtest-port.cc:380-423 | `FullMatch` means the whole string for all strings if and only if the regex does not end in an escaped `$` |
| SimpleRegex.EscapedDollarMatchesTooMuch | ext/gtest-1.6.0/src/gtest-port.cc:419-420 | The input that shows it: `\$` fully matches `$x` |
| Shuffling.Random.Generate | ext/gtest-1.6.0/src/gtest.cc:284-301 | The generator's new state, and a result in range |
| Shuffling.GeneratorLaws | ext/gtest-1.6.0/src/gtest.cc:286-286 | The recurrence: the state 0 leads to 12345, and a state one higher leads to a state 1103515245 higher, modulo the range |
| Shuffling.NextStateReversible | ext/gtest-1.6.0/src/gtest.cc:286-286 | Different states below the range lead to different states: each can be computed back from the next |
| Shuffling.ShuffleRange | ext/gtest-1.6.0/src/gtest-internal-inl.h:301-319 | Shuffles in place as the drawn choices say, and advances the generator by as many draws as it made |
| Shuffling.DrawsAt | ext/gtest-1.6.0/src/gtest-internal-inl.h:314-318 | The k-th choice is the state after k + 1 steps of the generator, modulo the width that is left then |
| Shuffling.StateAfterDraws | ext/gtest-1.6.0/src/gtest-internal-inl.h:314-318 | Shuffling a range takes one step of the generator less than the range is wide, and none for an empty range |
| Shuffling.ShuffledFirst | ext/gtest-1.6.0/src/gtest-internal-inl.h:314-318 | The first choice swaps the element it names with the last of the range; what is left of the range is shuffled by the other choices |
| Shuffling.ShuffledPart | ext/gtest-1.6.0/src/gtest-internal-inl.h:301-319 | Shuffling a range within a longer vector is shuffling that range alone |
| Shuffling.ShuffledRearranges | ext/gtest-1.6.0/src/gtest-internal-inl.h:301-319 | Whatever the choices, the result is a rearrangement of the range, and nothing outside it moves |
| Shuffling.ChoicesExist | ext/gtest-1.6.0/src/gtest-internal-inl.h:301-319 | Every rearrangement of the range is reached by some choices |
| Shuffling.ChoicesDetermined | ext/gtest-1.6.0/src/gtest-internal-inl.h:301-319 | For distinct elements, different choices lead to different results |
| Shuffling.ShuffleIsBijection | ext/gtest-1.6.0/src/gtest-internal-inl.h:301-319 | For distinct elements, every rearrangement, and nothing else, is produced, by exactly one sequence of choices |
| Filters.PatternMatchesIffGlob | ext/gtest-1.6.0/src/gtest.cc:433-448 | The recursive matcher terminates and decides the declarative glob relation of the pattern up to its first colon |
| Filters.GlobOfOne | ext/gtest-1.6.0/src/gtest.cc:433-448 | What the glob relation says of single characters: `*` matches anything, `?` any one character, any other itself |
| Filters.GlobConcat | ext/gtest-1.6.0/src/gtest.cc:433-448 | A pattern in two parts matches exactly the names that can be cut into matches of the two |
| Filters.SegmentsJoin | ext/gtest-1.6.0/src/gtest.cc:450-468 | The segments of a filter are its parts between colons |
| Filters.MatchesFilter | ext/gtest-1.6.0/src/gtest.cc:450-468 | True if and only if some segment's glob matches the name |
| Filters.FilterMatchesTest | ext/gtest-1.6.0/src/gtest.cc:474-502 | True if and only if some segment before the first `-` matches (any name if nothing is before it) and no segment behind it does |
| Filters.SegmentsMeaning | ext/gtest-1.6.0/src/gtest.cc:450-468 | A list of patterns matches what its first pattern or the rest of the list matches |
| Filters.FilterMeaning | ext/gtest-1.6.0/src/gtest.cc:474-502 | Without a `-`, a filter selects what its list matches; behind the first `-` it excludes, and with nothing before it, it selects all else |
| Filters.FilterSeesNameIff | ext/gtest-1.6.0/src/gtest.cc:474-502 | Every filter treats a test as its full name says if and only if that name fits the formatting buffer |
| Filters.LongNameIsNotSeen | ext/gtest-1.6.0/src/gtest.cc:476-478 | An input that shows it: a name of 4096 characters is not selected by the filter that spells it |
| Filters.LongestNameIsSeen | ext/gtest-1.6.0/src/gtest.cc:476-478 | A name of 4095 characters is selected by the filter that spells it |
| Filters.DeathTestNames | ext/gtest-1.6.0/src/gtest.cc:155-155 | The death test filter means: ends in `DeathTest`, or contains `DeathTest/` |
| Filters.DisabledNames | ext/gtest-1.6.0/src/gtest.cc:150-150 | The filter for disabled tests means: starts with `DISABLED_`, or contains `/DISABLED_` |
| RegistryModel.AddKeepsInv | ext/gtest-1.6.0/src/gtest.cc:4096-4129 | Registering keeps case names unique, the death test cases at positions 0 to the last one, and all index vectors permutations, shuffled or not; while unshuffled, it also keeps the death test cases first in run order |
| RegistryModel.NewCaseOrder | ext/gtest-1.6.0/src/gtest.cc:4115-4128 | A new case gets the last position in run order, whatever its kind, and the death test cases become one more if it is one |
| RegistryModel.ShuffleKeepsInv | ext/gtest-1.6.0/src/gtest.cc:4484-4497 | So does shuffling, from any state of the generator |
| RegistryModel.ShuffleShufflesGroups | ext/gtest-1.6.0/src/gtest.cc:4484-4492 | Shuffling shuffles the death test cases first, and then the other cases with what the generator gives next |
| RegistryModel.ShuffleShufflesCase | ext/gtest-1.6.0/src/gtest.cc:4494-4496 | Then it shuffles the tests of every case, from the first case on, drawing from the same generator |
| RegistryModel.UnshuffleRestores | ext/gtest-1.6.0/src/gtest.cc:4499-4506 | Unshuffling undoes shuffling, and restores the identity order |
| RegistryModel.EveryRunKeepsOrder | ext/gtest-1.6.0/src/gtest.cc:4096-4129 | After every sequence of registrations, shuffles and unshuffles, registrations while shuffled included: the cases are the names registered, each once, death test cases first and both kinds in registration order; each case holds the tests registered under it, in order; all index vectors are permutations. If registrations were made only while unshuffled, the death test cases are also first in run order |
| RegistryModel.UnshufflingRepairs | ext/gtest-1.6.0/src/gtest.cc:4499-4506 | After every sequence that ends with unshuffling, the death test cases are first in run order |
| RegistryModel.DeathCasesRunFirst | ext/gtest-1.6.0/src/gtest.cc:4484-4492 | In run order, every death test case comes before any other case, shuffled or not |
| RegistryModel.RegisteringKeepsDeathsFirstIff | ext/gtest-1.6.0/src/gtest.cc:4112-4125 | In every state that any sequence of operations leads to: with a new case, the death test cases run first if and only if it is none and they did before, or it is one and no case registered behind the first of the others runs before that one or a death test case |
| RegistryModel.RunsUpToWhileInOrder | ext/gtest-1.6.0/src/gtest.cc:4115-4122 | For a new death test case, while the others do run first, that is: there is no other case, or the first registered of them is the first of them to run |
| RegistryModel.DeathTestRunsLate | ext/gtest-1.6.0/src/gtest.cc:4115-4122 | An input that shows it: a death test case registered after two other cases were shuffled |
| RegistryModel.RunFilesOnce | ext/gtest-1.6.0/src/gtest.cc:4096-4129 | After every sequence of operations in which each registration is of a test of its own, no test is filed twice |
| RegistryModel.RunFilesAll | ext/gtest-1.6.0/src/gtest.cc:4096-4129 | After every sequence of operations, every registered test is filed |
| Registry.TestCase.AddTestInfo | ext/gtest-1.6.0/src/gtest.cc:2424-2427 | The test goes to the end of the list, with its own index |
| Registry.TestCase.UnshuffleTests | ext/gtest-1.6.0/src/gtest.cc:2468-2472 | The indices are the identity |
| Registry.UnitTestImpl.GetTestCase | ext/gtest-1.6.0/src/gtest.cc:4096-4129 | Finds the case of that name or creates it in place, a new object, with all other cases left; shuffled or not, and it keeps the registry in order unless it creates one while shuffled |
| Registry.UnitTestImpl.AddTestInfo | ext/gtest-1.6.0/src/gtest-internal-inl.h:633-653 | Registers the test under its case, as the value model says, with all objects kept separate, and those it creates new |
| Registry.UnitTestImpl.ShuffleTests | ext/gtest-1.6.0/src/gtest.cc:4484-4497 | Shuffles both groups and every case, drawing from one generator in turn, as the value model says |
| Registry.UnitTestImpl.UnshuffleTests | ext/gtest-1.6.0/src/gtest.cc:4499-4506 | Resets every index vector and nothing else; afterwards the registry is in order, whatever happened before |
| Registry.RegisterAll | ext/gtest-1.6.0/src/gtest-internal-inl.h:633-653 | A registry built from nothing by registering these tests is in order, unshuffled, no larger than the tests are many, and in the state the value model says |
| Registry.UnitTestImpl.ConstViewIffUnshuffled | ext/gtest-1.6.0/src/gtest-internal-inl.h:563-575 | The two lookups by position agree everywhere if and only if the cases are not shuffled |
| Registry.UnitTestImpl.ConstViewDiffers | ext/gtest-1.6.0/src/gtest-internal-inl.h:563-575 | Two cases, registered and shuffled with the seed 1: the lookups differ at the first position |
| Registry.ShuffledExample | ext/gtest-1.6.0/src/gtest-internal-inl.h:563-575 | A registry made that way from nothing, where they do |
| Sharding.ExactlyOneShard | ext/gtest-1.6.0/src/gtest.cc:4366-4368 | A runnable test runs on exactly one shard |
| Sharding.SelectedIsLoad | ext/gtest-1.6.0/src/gtest.cc:4411-4424 | How many tests a shard gets |
| Sharding.LoadsBalanced | ext/gtest-1.6.0/src/gtest.cc:4366-4368 | The loads of two shards differ by at most one |
| Sharding.LoadsSumToRunnable | ext/gtest-1.6.0/src/gtest.cc:4377-4428 | The loads sum to the number of runnable tests |
| ShardedRuns.ShardsTakeTurns | ext/gtest-1.6.0/src/gtest.cc:4394-4423 | The runnable tests go to the shards in turn: a test is selected if and only if it is runnable and the number of runnable tests before it is the shard index modulo the number of shards |
| Sharding.FilterTest | ext/gtest-1.6.0/src/gtest.cc:4394-4423 | Sets the three flags of a test from the filter, its name, and the number of runnable tests before it |
| Sharding.FilterCase | ext/gtest-1.6.0/src/gtest.cc:4389-4425 | Decides every test of a case; the case should run if and only if one of its tests should |
| Sharding.FilterTests | ext/gtest-1.6.0/src/gtest.cc:4377-4428 | Decides every test of every case, and returns how many were selected |
| Events.ProgramNests | ext/gtest-1.6.0/src/gtest.cc:4145-4270 | The events of a run nest: iterations in the program, environments and cases in an iteration, tests in a case, and every start has its end |
| Events.TraceFollowsNest | ext/gtest-1.6.0/src/gtest.cc:2953-3005 | For any nested events, what reaches the listeners is bracketed per listener: starts in order, ends in reverse order, so that each end closes the bracket opened last |
| Events.RunIsWellBracketed | ext/gtest-1.6.0/src/gtest.cc:2953-3005 | For any listeners and any run, the whole trace of listener and event pairs is well bracketed |
| Events.EndlessRunStaysOpen | ext/gtest-1.6.0/src/gtest.cc:4185-4265 | Between the iterations of a run that repeats forever, what is open in the trace is the program, once for every listener in order |
| Events.ListenersHearTheRun | ext/gtest-1.6.0/src/gtest.cc:2953-3005 | Every listener hears every event once, in the order of the run |
| EventOrder.BroadcastAt | ext/gtest-1.6.0/src/gtest.cc:2955-2972 | Each event goes to every listener once: starts and results to the first listener first, ends to the last one first |
| EventOrder.TestAt | ext/gtest-1.6.0/src/gtest.cc:2312-2354 | A test that runs: its start, its results in order, and its end |
| EventOrder.CaseAt | ext/gtest-1.6.0/src/gtest.cc:2430-2455 | A case that runs: its start, what its set-up reports, all its tests, what its tear-down reports, and its end |
| EventOrder.TestsAt | ext/gtest-1.6.0/src/gtest.cc:2444-2446 | The tests of a case come one after the other, in order |
| EventOrder.CasesAt | ext/gtest-1.6.0/src/gtest.cc:4234-4239 | So do the cases of an iteration |
| EventOrder.IterationsAt | ext/gtest-1.6.0/src/gtest.cc:4206-4251 | And the iterations of a program, each with its number |
| EventOrder.IterationAt | ext/gtest-1.6.0/src/gtest.cc:4223-4251 | An iteration with tests: its start, the set-up of the environments, the cases if that went well, the tear-down, and its end |
| EventOrder.CasesBetweenEnvironments | ext/gtest-1.6.0/src/gtest.cc:4226-4246 | No case starts before the set-up of the environments has ended, or behind the start of their tear-down |
| EventOrder.OutsideOfIteration | ext/gtest-1.6.0/src/gtest.cc:4187-4253 | What an iteration leaves reported outside the tests is what the listeners hear in it while no test is open, in that order |
| Outcomes.TestResult.Failed | ext/gtest-1.6.0/src/gtest.cc:1853-1859 | True if and only if some result is a failure |
| Outcomes.TestResult.HasFatalFailure | ext/gtest-1.6.0/src/gtest.cc:1867-1869 | True if and only if some result is a fatal failure |
| Outcomes.CaseFailsIff | ext/gtest-1.6.0/include/gtest/gtest.h:794-794 | A case fails if and only if one of its tests that run reports a failure; its set-up and tear-down do not count |
| Outcomes.PassesIffNoFailureHeard | ext/gtest-1.6.0/src/gtest-internal-inl.h:555-561 | All iterations pass if and only if no assertion failed before the run and none of the events sent during the run reports a failure, wherever it comes from |
| Runner.TestEventRepeater.Append | ext/gtest-1.6.0/src/gtest.cc:2937-2939 | The listener goes to the end of the list |
| Runner.TestEventRepeater.Release | ext/gtest-1.6.0/src/gtest.cc:2942-2951 | Removes the first entry of the listener and nothing else, and says whether there was one |
| Runner.TestEventRepeater.Forward | ext/gtest-1.6.0/src/gtest.cc:2955-2962 | After the event has gone out, the log is the trace of all events so far, starts and results in listener order; or unchanged if forwarding is off |
| Runner.TestEventRepeater.Reverse | ext/gtest-1.6.0/src/gtest.cc:2965-2972 | The same for ends, which go out in reverse listener order |
| Runner.RunTest | ext/gtest-1.6.0/src/gtest.cc:2312-2354 | Reports start, results and end of a test that should run, nothing for another; the test fails if and only if one of its results is a failure |
| Runner.ReportParts | ext/gtest-1.6.0/src/gtest.cc:663-667 | Each result is recorded, and sent to the listeners |
| Runner.RunCase | ext/gtest-1.6.0/src/gtest.cc:2430-2455 | Reports a case, its tests in the shuffled order, and what its set-up and tear-down report, which counts as reported outside the tests; it fails if and only if one of its tests does |
| Runner.GetRandomSeedFromFlag | ext/gtest-1.6.0/src/gtest-internal-inl.h:124-135 | The seed is in range whatever the flag and the clock, and a flag in range is kept |
| Runner.GetNextRandomSeed | ext/gtest-1.6.0/src/gtest-internal-inl.h:140-146 | The next seed is the successor, and 1 after the greatest |
| Runner.SeedsCycle | ext/gtest-1.6.0/src/gtest-internal-inl.h:124-146 | The seeds of the iterations run through the whole range before one comes again |
| RunLaws.FlagOrTime | ext/gtest-1.6.0/src/gtest-internal-inl.h:125-127 | A flag other than 0 is used whatever the clock says, and the clock is used like such a flag if it is 0 |
| RunLaws.SeedBeyondRange | ext/gtest-1.6.0/src/gtest-internal-inl.h:129-134 | Flags that differ by the length of the range give the same seed |
| RunLaws.SeedWraps | ext/gtest-1.6.0/src/gtest-internal-inl.h:125-127 | Only the lowest 32 bits of the flag or the clock count |
| RunLaws.SeedAtIs | ext/gtest-1.6.0/src/gtest-internal-inl.h:140-146 | The seed of iteration i, in closed form |
| Runner.RunBody | ext/gtest-1.6.0/src/gtest.cc:4226-4247 | Environments, cases, environments; no case runs if there has been a fatal failure outside the tests, in this or an earlier iteration |
| Runner.RunIteration | ext/gtest-1.6.0/src/gtest.cc:4187-4261 | Runs the cases in the order the iteration's seed shuffles them to, and leaves them in registration order; it passes if and only if none of its tests has failed, and nothing outside the tests since the program began |
| Runner.RunAllTests | ext/gtest-1.6.0/src/gtest.cc:4186-4268 | What the listeners get is the trace of the program's events, iteration by iteration in the order of that iteration's seed; the result is true if and only if every iteration passed; the tests end up in registration order. For a negative repeat count, the same after any number of iterations, with the program still open |
| RunLaws.PlannedCase | ext/gtest-1.6.0/src/gtest.cc:4213-4237 | The k-th case an iteration runs: the one that shuffling with the iteration's seed puts there, or the k-th registered one if shuffling is off |
| RunLaws.PlannedTest | ext/gtest-1.6.0/src/gtest.cc:2444-2446 | Likewise the j-th test of that case, with its mark and its results |
| RunLaws.PlannedEnvironments | ext/gtest-1.6.0/src/gtest.cc:4226-4246 | The cases run if and only if nothing fatal has been reported before, or by the environments' set-up |
| RunLaws.ShuffledRunExample | ext/gtest-1.6.0/src/gtest.cc:4213-4221 | Two ordinary cases A and B, shuffled with the seed 1, run as B and A |
| RunLaws.EndIsReportedIff | ext/gtest-1.6.0/src/gtest.cc:4198-4265 | The program's start comes first; its end comes last if and only if the repeat count is not negative; in between are the iterations |
| RunProperties.SumOverPermutation | ext/gtest-1.6.0/src/gtest.cc:4484-4497 | Walking a permuted index vector visits what walking in order visits |
| RunProperties.CasesStart | ext/gtest-1.6.0/src/gtest.cc:4216-4222 | The tests the first k cases start are the marked tests of these cases |
| RunProperties.IterationStartsMarkedTests | ext/gtest-1.6.0/src/gtest.cc:4187-4253 | Whatever the seed, an iteration starts exactly the tests marked to run, each as often as it is registered; or none, if something fatal has been reported outside the tests |
| RunProperties.FatalFailureStopsTests | ext/gtest-1.6.0/src/gtest.cc:4209-4234 | After a fatal failure outside the tests, no later iteration starts any test, and the run fails |
| RunProperties.RunsItsTestsIff | ext/gtest-1.6.0/src/gtest.cc:4232-4239 | An iteration with tests to run, whose own environments report nothing fatal, runs exactly them if and only if nothing fatal has been reported outside the tests before |
| RunProperties.FatalFailureExample | ext/gtest-1.6.0/src/gtest.cc:4232-4239 | An input that shows it: one test, whose case's set-up fails fatally in the first iteration only; the first iteration starts the test, the second nothing |
| RunProperties.DeathCasesFirst | ext/gtest-1.6.0/src/gtest.cc:4192-4222 | In no iteration does a death test case run after another kind of case |
| ShardedRuns.Filter | ext/gtest-1.6.0/src/gtest.cc:4174-4179 | Filtering marks exactly the tests selected for this shard, and leaves the registry's order alone |
| ShardedRuns.FilterAndRun | ext/gtest-1.6.0/src/gtest.cc:4145-4268 | The whole of `RunAllTests`: nothing runs when help or a list is asked for; else every iteration follows the plan made from the filter's verdicts, on all shards and once in the subprocess of a death test, and it runs something if and only if something was selected |
| ShardedRuns.SomeSelected | ext/gtest-1.6.0/src/gtest.cc:4411-4428 | The number of selected tests is positive if and only if some test is selected |
| ShardedRuns.RunnableMeaning | ext/gtest-1.6.0/src/gtest.cc:4394-4412 | A test is runnable if and only if the filter selects its full name, and neither it nor its case is named as disabled, unless disabled tests run too |
| ShardedRuns.SubprocessRunsAll | ext/gtest-1.6.0/src/gtest.cc:4175-4204 | In the subprocess of a death test, all runnable tests are selected, and there is one iteration |
| ShardedRuns.ShardsStartRunnableTests | ext/gtest-1.6.0/src/gtest.cc:4366-4428 | When every shard runs an iteration, each with an order of its own, the tests they start add up to the runnable tests |
| ShardedRuns.FilteredRunsOnShard | ext/gtest-1.6.0/src/gtest.cc:4174-4222 | The iterations `FilterAndRun` runs are such iterations |
| ShardedRuns.RegisteredIsFiledOnce | ext/gtest-1.6.0/src/gtest-internal-inl.h:633-653 | A registry that any sequence of operations has led to, each registration of a test of its own, is one that can be filtered |
| ShardedRuns.ShardsStartRegisteredTests | ext/gtest-1.6.0/src/gtest.cc:4145-4268 | From registration on: after any run of registrations, shuffles and unshuffles, an iteration on all shards starts each runnable test exactly once and no other test |
| ShardedRuns.RunProgram | ext/gtest-1.6.0/src/gtest.cc:4145-4268 | A whole program, from an empty registry: it registers its tests, and then does what `FilterAndRun` says, with verdicts given by the tests' own names |
| ShardedRuns.ProgramRunsOnShard | ext/gtest-1.6.0/src/gtest.cc:4174-4222 | Its iterations on a shard are those the next row is about |
| ShardedRuns.ProgramsStartTestsOnce | ext/gtest-1.6.0/src/gtest.cc:4145-4268 | When one program runs on every shard, each iteration starts every test once over all shards if the filter selects its full name and it is not disabled (or disabled tests run too), and no other test, whatever the seeds |
| Utf8.CodePointToUtf8 | ext/gtest-1.6.0/src/gtest.cc:1435-1469 | For every 32-bit value, the buffer holds the encoding or, above `0x1FFFFF`, the error text, NUL-terminated and within 32 bytes |
| Utf8.TextNamesValue | ext/gtest-1.6.0/src/gtest.cc:1457-1466 | The error text names the value in hexadecimal, without leading zeros |
| Utf8.EncodeExamples | ext/gtest-1.6.0/src/gtest.cc:1435-1456 | Encodings of one to four bytes |
| Utf8.DecodeEncode | ext/gtest-1.6.0/src/gtest.cc:1435-1469 | A decoder that refuses anything but the shortest form recovers every value up to `0x1FFFFF` from its encoding, whatever follows it |
| Utf8.StandardIffScalar | ext/gtest-1.6.0/src/gtest.cc:1424-1469 | For every 32-bit value, what is written is well-formed by section 3 of RFC 3629 if and only if the value is a Unicode scalar value or above `0x1FFFFF`; for a scalar value it is read back as that value |
| Utf8.InvalidWrittenIff | ext/gtest-1.6.0/src/gtest.cc:1432-1469 | The error text stands for exactly the values outside of Unicode, as the comment promises, if and only if the value is not from `0x110000` to `0x1FFFFF` |
| Utf8.NonScalarRefused | ext/gtest-1.6.0/src/gtest.cc:1435-1469 | What is written for any other value up to `0x1FFFFF` makes a strict decoder stop, whatever follows |
| Utf8.EncodedButNotUtf8 | ext/gtest-1.6.0/src/gtest.cc:1435-1469 | Inputs that show it: a surrogate, and the first value beyond Unicode |
| Utf8.CodePointsLossless | ext/gtest-1.6.0/src/gtest.cc:1475-1486 | Combining surrogate pairs loses nothing: the words can be recovered, also with unpaired surrogates |
| Utf8.CodePointsOfWellFormed | ext/gtest-1.6.0/src/gtest.cc:1475-1486 | From UTF-16 (section 2.1 of RFC 2781) of any scalar values, combining recovers these |
| Utf8.Utf16Example | ext/gtest-1.6.0/src/gtest.cc:1475-1486 | The surrogate pair of a character beyond 16 bits |
| Utf8.DecodeEncodeAll | ext/gtest-1.6.0/src/gtest.cc:1504-1526 | Decoding a concatenation of encodings gives back the values |
| Utf8.StandardIffAllScalar | ext/gtest-1.6.0/src/gtest.cc:1504-1526 | A concatenation of encodings is well-formed UTF-8 if and only if every value is a scalar value |
| Utf8.WideStringToUtf8 | ext/gtest-1.6.0/src/gtest.cc:1504-1526 | Writes the concatenation of the encodings of the code points of the string, up to the given length or its NUL |
| Utf8.WideStringReadsBack | ext/gtest-1.6.0/src/gtest.cc:1504-1526 | A lenient decoder recovers the code points, and so the 16-bit words, of every string; a strict one recovers those of well-formed UTF-16, and refuses what comes of any other string |
| CLiterals.PrintCharsAsStringTo | ext/gtest-1.6.0/src/gtest-printers.cc:261-275 | The loop with its flag prints every byte, with a break exactly between a hex escape and a hexadecimal digit |
| CLiterals.Spelling | ext/gtest-1.6.0/src/gtest-printers.cc:150-213 | How each byte is spelled: the printable ones as they are, but for `\` and `"`; these and some others by an escape of two characters; the rest in hexadecimal |
| CLiterals.BreakIs | ext/gtest-1.6.0/src/gtest-printers.cc:266-271 | The literal is broken, by `" "`, if and only if a hexadecimal digit comes behind a hex escape |
| CLiterals.BodyInParts | ext/gtest-1.6.0/src/gtest-printers.cc:261-275 | A string in two parts is printed as the parts are, the second as behind the last byte of the first |
| CLiterals.PrintedReadsBackIff | ext/gtest-1.6.0/src/gtest-printers.cc:150-275 | Read as adjacent C string literals (sections 6.4.4.4 and 6.4.5 of ISO/IEC 9899:1999), the output gives back the bytes if and only if no NUL is directly followed by an octal digit |
| CLiterals.ReadsNoMore | ext/gtest-1.6.0/src/gtest-printers.cc:261-275 | The output is always valid literals, of at most as many bytes as were printed |
| CLiterals.NulBeforeOctalExample | ext/gtest-1.6.0/src/gtest-printers.cc:152-154 | An input that is not read back: NUL, then the digit 1 |
| CLiterals.BreakNeededIffHexDigit | ext/gtest-1.6.0/src/gtest-printers.cc:266-271 | Without the break, a hex escape and the next character, whatever it is, are read back if and only if the latter is no hexadecimal digit |
| CData.FindEnd | ext/gtest-1.6.0/src/gtest.cc:3208-3208 | The first position of `]]>`, if there is one |
| CData.OutputXmlCDataSection | ext/gtest-1.6.0/src/gtest.cc:3203-3220 | The loop terminates and writes the sections the data is split into |
| CData.PlainSection | ext/gtest-1.6.0/src/gtest.cc:3203-3220 | Data without `]]>` is one section |
| CData.SplitSection | ext/gtest-1.6.0/src/gtest.cc:3207-3219 | The first `]]>` closes the section, is written as `]]&gt;` behind its own end, and the rest is in further sections |
| CData.SectionReadsBack | ext/gtest-1.6.0/src/gtest.cc:3207-3219 | Inside a section, reading up to the first `]]>` and on behind it recovers the data, also where pieces end in brackets |
| CData.WrittenReadsBack | ext/gtest-1.6.0/src/gtest.cc:3203-3220 | A reader following section 2.7 of XML 1.0 gets exactly the data from what was written |
| PrimeTables.SmallDivisor | ext/gtest-1.6.0/samples/prime_tables.h:61-66 | A number with no divisor below a bound whose square exceeds it is prime |
| PrimeTables.PrimeAbove | ext/gtest-1.6.0/samples/prime_tables.h:69-75 | Euclid's theorem: there is a prime above any number |
| PrimeTables.OnTheFlyPrimeTable.IsPrime | ext/gtest-1.6.0/samples/prime_tables.h:58-67 | Trial division up to the square root decides primality |
| PrimeTables.OnTheFlyPrimeTable.GetNextPrime | ext/gtest-1.6.0/samples/prime_tables.h:69-75 | The search terminates; it gives the least prime above p if and only if p is not negative, and -1 otherwise |
| PrimeTables.PreCalculatedPrimeTable.CalculatePrimesUpTo | ext/gtest-1.6.0/samples/prime_tables.h:102-114 | After the sieve, the entry for n is set if and only if n is prime |
| PrimeTables.PreCalculatedPrimeTable.MarkMultiples | ext/gtest-1.6.0/samples/prime_tables.h:110-112 | One round of the sieve clears exactly the proper multiples of i |
| PrimeTables.PreCalculatedPrimeTable.IsPrime | ext/gtest-1.6.0/samples/prime_tables.h:89-91 | True if and only if n is a prime within the table |
| PrimeTables.PreCalculatedPrimeTable.GetNextPrime | ext/gtest-1.6.0/samples/prime_tables.h:93-99 | The least prime above p within the table, or -1 if there is none |
| PrimeTables.TablesAgree | ext/gtest-1.6.0/samples/prime_tables.h:69-99 | The table's answer is the on-the-fly answer if that lies within the table, and -1 if not |
| CommandLine.KeptPositions | ext/gtest-1.6.0/src/gtest.cc:4773-4830 | The kept arguments are those at exactly the positions that hold no flag, in order: a stable filter |
| CommandLine.ShiftLeft | ext/gtest-1.6.0/src/gtest.cc:4813-4815 | Moves the arguments behind i, and the NULL behind them, one place down and nothing else |
| CommandLine.ParseGoogleTestFlagsOnly | ext/gtest-1.6.0/src/gtest.cc:4772-4830 | In place: `argv[0]` stays, the unrecognised arguments follow in order, NULL comes behind them, nothing behind the old NULL changes, and the help flag is set if and only if a kept argument asks for help |
| RequestHead.Request.ReadLines | src/protocol/http/request.cc:30-38 | The lines of the data, each without its CR |
| RequestHead.LinesHoldNoFeed | src/protocol/http/request.cc:33-38 | No line holds a line feed |
| RequestHead.StripCrIs | src/protocol/http/request.cc:34-36 | One CR is taken from the end of a line, and nothing else |
| RequestHead.Request.ReadFields | src/protocol/http/request.cc:40-54 | The header fields up to the first blank line, a later field replacing an earlier one of its name, and the bytes counted for the head |
| RequestHead.FieldIs | src/protocol/http/request.cc:46-48 | A line is the name before its first colon and the value behind it; without a colon, the line is both |
| RequestHead.HeaderHolds | src/protocol/http/request.cc:45-53 | Of the lines up to the blank one, the last with a name gives the header's value of that name, trimmed; all else in the header is as before |
| RequestHead.Request.ReadHead | src/protocol/http/request.cc:40-55 | Fields and body behind a request line: the header holds the last field of each name, as `HeaderHolds` says |
| RequestHead.Request.Parse | src/protocol/http/request.cc:26-56 | The header holds the last field of each name up to the blank line, any other name as before; the body is where the count puts it; nothing changes if the request line is refused, blank line or not |
| RequestHead.BodyIsInData | src/protocol/http/request.cc:54-55 | The count never passes the end of the data |
| RequestHead.CountIsShortByCrs | src/protocol/http/request.cc:33-54 | The count is the index just behind the blank line, less the CRs stripped up to it |
| RequestHead.BodyRightIff | src/protocol/http/request.cc:33-55 | The body is what follows the blank line if and only if no CR was stripped up to it (one, if the data ends with the blank line and no line feed) |
| RequestHead.LineFeedsRebuild | src/protocol/http/request.cc:26-56 | With line feeds only, the lines of the head and the body make up the data again |
| RequestHead.CrLfBody | src/protocol/http/request.cc:30-55 | Every request without fields whose lines end in CRLF gets a body that starts with the CRLF of the blank line |
| RequestHead.CrLfExample | src/protocol/http/request.cc:30-55 | An input that shows it: the body of such a request is not `x` |

## Left out

- Locks: every operation on the rings and on the registry is one atomic step.
- `linked_ptr` conversions between element types (lines 146 and 153 of `gtest-linked_ptr.h`); a `linked_ptr` and its `link_` are one object here, and deleting an object is an entry in a list, so destructors that use `linked_ptr` themselves are not covered.
- Integer widths: sizes, counts and indices are unbounded, except where the code computes in 32-bit unsigned arithmetic on purpose (the generator, the seed, UTF-8). So the sieve and the prime searches never overflow.
- The POSIX branch of `RE`, and the messages `ValidateRegex` reports; only its verdict is modelled.
- `PrintWideCharsAsStringTo`: the same loop over wider characters.
- `wchar_t` is 16 bits wide here; the UTF-32 case is the same loop without pairs.
- Sharding.FilterTests: the shard comes as an argument; reading it from the environment, and the exits on bad values, are not modelled.
- Runner.RunAllTests: what users' code reports is an input, arbitrary in every iteration, and it throws nothing out of a run; what all environments report on set-up, or on tear-down, is one such input, so their order among each other is not modelled. The model does not run forever: of a negative repeat count it gives the first iterations, as many as one likes.
- Runner.RunTest: a test's results live in an object made for the run of that test, where the code clears one kept in the test; so the failed test cases are not counted after the iteration but found while it runs.
- ShardedRuns.FilterAndRun: the list of tests that is printed, and the shard status file.
- Listeners that change the listener list during a run.
- Shuffling.ShuffleRange: ranges wider than the generator's, for which the code aborts, are excluded, and so are they wherever a registry is shuffled.
- PrimeTables.PreCalculatedPrimeTable.GetNextPrime: `p` below -1, for which the code reads before its array.
- CommandLine.ParseGoogleTestFlagsOnly: which texts are flags, and which ask for help, are predicates on the argument; the flags' values and the help text are left out.
- RequestHead.Request.Parse: `parse_init` is a predicate on the request line and `trim` a function, since neither `split` nor `trim` is part of this model; the data is not empty, and there has to be a blank line behind a request line that is accepted (else the code reads past its deque); and the CR test on an empty line, which indexes before the string, is guarded.
- The server, its file middleware, URL mapping, query strings and responses; death test processes, assertion macros, parameterised tests, output formatting, floating point comparison: plumbing, or members that would only add easy claims.
