# Verification models for Yggdrasil

Dafny models of the algorithmic cores of the repository, with proofs. Loops and
objects that change state are methods and classes proved against specification
functions; the properties are lemmas about those functions.

| file | models |
|---|---|
| `text.dfy`, `ordering.dfy`, `sorting.dfy`, `collections.dfy`, `payloads.dfy`, `payload_reading.dfy` | strings as Python sees them, string order, the stable sort, facts on collections, JSON payloads with their recursive extractors, and what these extract |
| `segmenter.dfy` | greedy packing of sentences into segments, and their offsets |
| `tool_calls.dfy`, `stream.dfy`, `response_reading.dfy` | assembly of streamed tool calls, the line reader around it, and every field of the response |
| `aliases.dfy`, `embedded.dfy`, `embedded_roundtrip.dfy`, `tag_roundtrip.dfy`, `tidying.dfy`, `mixed_passes.dfy`, `mixed_roundtrip.dfy`, `tag_arguments.dfy`, `results.dfy`, `result_reading.dfy` | tool name aliases, calls tagged in free text, and the result read from a response, end to end |
| `retry.dfy` | the retry loop of one model invocation |
| `pruning.dfy` | planning and executing context pruning |
| `rebuild.dfy` | the rebuilt index of task conversations |
| `resource_hook.dfy` | the data-fetching hook as a protocol over all interleavings |
| `work_tree.dfy`, `delivery.dfy` | the report of unfinished work nodes, and the delivery parser |
| `forgetting.dfy` | soft forgetting of memory nodes |
| `edges.dfy`, `edge_rules.dfy` | the scan for latent relations |
| `permissions.dfy`, `permission_rules.dfy` | permission decisions and the check of memory writes |

JSON decoding, `repr`, integer literals and `str.lower` are arbitrary functions
(`Host`), and so are excerpts, glob matching, rounding (to a nearest integer, ties
either way) and generated ids. Where a lemma needs one fact about them it says so:
`lower("")` is empty, `lower("skipped")` is itself.

Where the code differs from what it means to do, the model follows the code:

- Segment starts after the first are computed before the cursor is right for them
  (`Segmenter.ReportedOffsetError`, `Segmenter.OffsetsRightIff`).
- A tool named like another tool's alias is decoded to the wrong name
  (`ToolAliases.RoundTripIff`).
- A delta without index can run into an entry with an explicit one
  (`ToolCalls.UnindexedOpensFreshIff`).
- With fallback allowed a call can still raise (`RetryLoop.RaisesIff`), for one when the
  body of an HTTP error cannot be read, and an answer can be returned although every
  attempt failed (`RetryLoop.LeftOverExists`).
- Tidying after one pass over tagged text can change an argument that a later pass reads
  (`MixedRoundTrip.TidyingCanChangeAnArgument`).
- Records rebuilt in another order can differ in their times
  (`ConversationRebuild.RecordOrderIrrelevant`).
- Soft forgetting can raise a score, for a node below stability 0.1 or access score 0,
  and then select other nodes at the next pass (`SoftForgetting.ReselectsIff`).
- A full branch gets the same edges at every scan (`LatentEdges.FullBranchGrows`,
  `LatentEdges.ScansRepeatThemselves`).
- A full list of permission tuples lets a new deny grant and a new allow revoke
  (`Permissions.NewDenyGrantsIff`, `Permissions.NewAllowRevokesIff`).

## Model

| member | source | states |
|---|---|---|
| Segmenter.NormalizeSound | modules/multimodal-memory/src/yggdrasil_multimodal_memory/plugin.py:21-22 | normalising keeps exactly the words of the text, one blank apart, and a second normalisation changes nothing |
| Segmenter.SentencesSound | modules/multimodal-memory/src/yggdrasil_multimodal_memory/plugin.py:29-31 | the sentences joined with blanks are the normalised text; no sentence contains a split point and all but the last end in a terminator |
| Segmenter.PackSentences | modules/multimodal-memory/src/yggdrasil_multimodal_memory/plugin.py:32-52 | the packing loop yields the greedy groups of the sentences, with the offsets the loop really computes |
| Segmenter.SegmentText | modules/multimodal-memory/src/yggdrasil_multimodal_memory/plugin.py:25-52 | blank text gives no segment, any other text the greedy groups of its sentences |
| Segmenter.SegmentationIsLossless | modules/multimodal-memory/src/yggdrasil_multimodal_memory/plugin.py:25-52 | segment texts joined with single blanks give back the normalised text; each is at most the target long or one single sentence |
| Segmenter.GreedyIsOptimal | modules/multimodal-memory/src/yggdrasil_multimodal_memory/plugin.py:36-51 | no grouping of consecutive sentences under the same rule has fewer groups than the greedy one (greedy stays ahead) |
| Segmenter.TrueStartsAreSlices | modules/multimodal-memory/src/yggdrasil_multimodal_memory/plugin.py:32-52 | cut at the true starts, segments are slices of the text: ordered, disjoint, one blank apart, ending at the end of the text |
| Segmenter.ReportedOffsetError | modules/multimodal-memory/src/yggdrasil_multimodal_memory/plugin.py:46-51 | for the code as written: end minus start is the text length, the first start is right and every later one is short by exactly its first sentence's length plus one |
| Segmenter.OffsetsRightIff | modules/multimodal-memory/src/yggdrasil_multimodal_memory/plugin.py:32-52 | all reported offsets are right if and only if the text is within the target or a single sentence |
| Segmenter.SecondStart | modules/multimodal-memory/src/yggdrasil_multimodal_memory/plugin.py:37-51 | the second reported start is the first segment's length minus that of the second segment's own first sentence: negative if and only if that sentence is longer than the whole first segment |
| Segmenter.ReportedStartCanBeNegative | modules/multimodal-memory/src/yggdrasil_multimodal_memory/plugin.py:25-52 | for every target there is a text for which a reported start is negative |
| ToolCalls.CallTable.Merge | adapters/model-providers/src/yggdrasil_model_providers/gateway.py:673-710 | merging one raw call in place updates exactly the entry of its index (of the entry count, when the index is no integer), appending name and arguments and overwriting id and type when given |
| ToolCalls.EntryIsConcatenation | adapters/model-providers/src/yggdrasil_model_providers/gateway.py:673-710 | with explicit indexes entry k exists exactly when a fragment names it, and its name and arguments are the in-order concatenations of k's fragments |
| ToolCalls.InterleavingIrrelevant | adapters/model-providers/src/yggdrasil_model_providers/gateway.py:673-710 | two streams with the same fragments per index give the same table, however they interleave |
| ToolCalls.SwapNeighbours | adapters/model-providers/src/yggdrasil_model_providers/gateway.py:673-710 | swapping adjacent deltas of different indexes changes nothing |
| ToolCalls.AnyStreamIsConcatenation | adapters/model-providers/src/yggdrasil_model_providers/gateway.py:673-710 | also with deltas that carry no index the table is that of the stream with each such delta's index resolved to the entry count it met |
| ToolCalls.ContiguousIff | adapters/model-providers/src/yggdrasil_model_providers/gateway.py:674-678 | a fragment keeps the key set 0..n-1 if and only if it has no index or one between 0 and the entry count |
| ToolCalls.ContiguousThroughout | adapters/model-providers/src/yggdrasil_model_providers/gateway.py:674-678 | over a whole stream the keys are 0..n-1 after every prefix if and only if every fragment fits |
| ToolCalls.UnindexedOpensFreshIff | adapters/model-providers/src/yggdrasil_model_providers/gateway.py:676-686 | a delta without index opens a fresh entry if and only if the entry count is not a key yet; always so in a contiguous table |
| ToolCalls.UnindexedCanCollide | adapters/model-providers/src/yggdrasil_model_providers/gateway.py:676-686 | a concrete stream in which a delta without index runs into an explicit one |
| ToolCalls.ReadOutMeaning | adapters/model-providers/src/yggdrasil_model_providers/gateway.py:776 | the calls come out in increasing index order, every entry exactly once |
| ToolCalls.ReadOutContiguous | adapters/model-providers/src/yggdrasil_model_providers/gateway.py:776 | when the keys are 0..n-1, the i-th call is entry i |
| StreamReader.AssembleStream | adapters/model-providers/src/yggdrasil_model_providers/gateway.py:711-806 | for every body the line loop returns the meaning of its lines: concatenated fragments of the data lines before `[DONE]`, first non-empty id and model, last usage and finish reason, merged calls, one plain body from a foreign line on, or an error |
| ResponseReading.StreamFields | adapters/model-providers/src/yggdrasil_model_providers/gateway.py:711-806 | every field of the response in terms of the events: the first true id and model, the last dictionary of usage, the last finish reason given, the joined texts of `content` and `reasoning_content` of the deltas, or of the messages where a delta is empty, and the calls the deltas carry, merged |
| ResponseReading.DecodableIff | adapters/model-providers/src/yggdrasil_model_providers/gateway.py:742-754 | an event can be read if and only if its payload decodes to a dictionary whose first choice is one |
| ResponseReading.StreamedCallsRead | adapters/model-providers/src/yggdrasil_model_providers/gateway.py:654-710 | what a raw call contributes: its index as a number, the first true of its ids, its type, its stripped name and the first of its arguments given; calls that say nothing are skipped |
| ResponseReading.RawDeltaSays | adapters/model-providers/src/yggdrasil_model_providers/gateway.py:673-710 | what merging a raw call adds to its entry, also for one that was not normalised: the first true of its two ids, its type, the first true of its four names and the first given of its three arguments |
| PayloadReading.ExtractTextIff | adapters/model-providers/src/yggdrasil_model_providers/gateway.py:427-458 | the text a payload holds is what the extractor finds: of a list the texts of its items that are not empty, one a line, of a dictionary its own text or the first found below |
| PayloadReading.ListOfTexts | adapters/model-providers/src/yggdrasil_model_providers/gateway.py:430-436 | the text of a list of strings is its strings that are not empty, joined by newlines |
| PayloadReading.CandidatesIff | adapters/model-providers/src/yggdrasil_model_providers/gateway.py:608-653 | the calls a payload carries are what the extractor finds: those of a list's items, or the dictionaries a dictionary lists, the call it is itself by its type, and those found below, in order |
| PayloadReading.FalsyIff | adapters/model-providers/src/yggdrasil_model_providers/gateway.py:427-458 | the values that count as false are null, false, the zeros and the empty string, list and dictionary |
| StreamReader.DataLineIs | adapters/model-providers/src/yggdrasil_model_providers/gateway.py:731-741 | a data line is written `data: `, the payload and a newline, and `[DONE]` ends the stream |
| StreamReader.OtherLinesAreForeign | adapters/model-providers/src/yggdrasil_model_providers/gateway.py:731-733 | a line that begins with anything but white space or a d is no data |
| StreamReader.MergeCalls | adapters/model-providers/src/yggdrasil_model_providers/gateway.py:768-772 | the calls of one event are normalised and merged in order |
| StreamReader.BlankLineIgnored | adapters/model-providers/src/yggdrasil_model_providers/gateway.py:728-730 | a blank line anywhere before a foreign line has no effect |
| StreamReader.DoneEndsTheStream | adapters/model-providers/src/yggdrasil_model_providers/gateway.py:738-739 | nothing after the first `[DONE]` has an effect |
| StreamReader.ForeignLineTakesOver | adapters/model-providers/src/yggdrasil_model_providers/gateway.py:731-733 | a line that is no data turns itself and all remaining input into one plain body; events before it are discarded |
| StreamReader.FramingRoundTrip | adapters/model-providers/src/yggdrasil_model_providers/gateway.py:723-741 | payloads written as server-sent events and ended with `[DONE]` are read back as exactly those payloads in order, whatever bytes follow |
| ToolAliases.PrepareProviderTools | adapters/model-providers/src/yggdrasil_model_providers/gateway.py:221-242 | the loop returns the prepared names and the alias map of the stripped originals; other providers get the names unchanged and no alias, no tools give none |
| ToolAliases.PreparedNamesAreSafe | adapters/model-providers/src/yggdrasil_model_providers/gateway.py:232-236 | every prepared name uses only `[A-Za-z0-9_-]` and is empty only for an empty original |
| ToolAliases.AliasForm | adapters/model-providers/src/yggdrasil_model_providers/gateway.py:232-236 | a name of ASCII letters, digits, underscores and hyphens is sent as it is; any other as `deepseek_tool_`, its number and what is left of it once every run of other characters is an underscore and the ends are free of them |
| ToolAliases.AliasIndexUnique | adapters/model-providers/src/yggdrasil_model_providers/gateway.py:234-236 | aliases made for different tools are different |
| ToolAliases.RoundTripIff | adapters/model-providers/src/yggdrasil_model_providers/gateway.py:229-242 | decoding every prepared name gives back its original if and only if no tool already bears the alias made for another |
| ToolAliases.CollisionExists | adapters/model-providers/src/yggdrasil_model_providers/gateway.py:234-241 | a concrete pair of tool names for which the round trip fails |
| ToolAliases.NoAliasLikeNameNoCollision | adapters/model-providers/src/yggdrasil_model_providers/gateway.py:234-241 | names that do not begin like an alias cannot collide |
| ToolAliases.StreamedNameDecodes | adapters/model-providers/src/yggdrasil_model_providers/gateway.py:693-703 | a prepared name cut into fragments and interleaved with other calls is reassembled and decoded to the original name |
| EmbeddedCalls.LiftLongcat | adapters/model-providers/src/yggdrasil_model_providers/gateway.py:509-539 | the substitution loop over longcat blocks returns the text around the blocks, tidied, and the call of each named block in order |
| EmbeddedCalls.LiftContainers | adapters/model-providers/src/yggdrasil_model_providers/gateway.py:570-602 | the substitution loop over containers returns what the second pass is proved to read (`TagRoundTrip.ContainerPassRoundTrip`) |
| EmbeddedCalls.LiftInline | adapters/model-providers/src/yggdrasil_model_providers/gateway.py:540-569 | the loop over self-closing tags returns what the third pass is proved to read (`TagRoundTrip.InlineRoundTrip`) |
| EmbeddedCalls.ExtractEmbedded | adapters/model-providers/src/yggdrasil_model_providers/gateway.py:603-607 | the three passes run each on what the one before it left, their calls in pass order |
| TagArguments.ArgumentsAreRead | adapters/model-providers/src/yggdrasil_model_providers/gateway.py:459-607 | the calls lifted out of a text with tags of all three kinds: under the written names, with each argument once, where it is written first and under the name its key stands for, and with the value its last text stands for: what that decodes to, or the stripped text where it is no JSON |
| EmbeddedRoundTrip.EmbeddedCallRoundTrip | adapters/model-providers/src/yggdrasil_model_providers/gateway.py:509-607 | any alternation of `<`-free texts and longcat blocks with `<`-free non-empty names, keys and values is read back as exactly those calls in order, and as the plain text with newline runs collapsed and ends trimmed; passes two and three add nothing |
| EmbeddedRoundTrip.DistinctArgumentsKept | adapters/model-providers/src/yggdrasil_model_providers/gateway.py:520-523 | arguments whose keys differ after aliasing are all kept, in order |
| EmbeddedRoundTrip.FindToken | adapters/model-providers/src/yggdrasil_model_providers/gateway.py:537 | in rendered text a tag is found exactly where its first token is |
| EmbeddedRoundTrip.CollapseMeaning | adapters/model-providers/src/yggdrasil_model_providers/gateway.py:538 | collapsing newline runs leaves every other character in place and at most two newlines in a row |
| TagRoundTrip.ContainerPassRoundTrip | adapters/model-providers/src/yggdrasil_model_providers/gateway.py:570-602 | a text with `<tool_calls>` containers is read back as one call for each dotted tool tag, with its dotless fields as arguments, in order, and as the text around the containers, tidied; dotless tools and dotted fields are dropped. A field value may hold any tag but those that end the field, its tool or its container or begin a longcat block |
| TagRoundTrip.ContainerRoundTrip | adapters/model-providers/src/yggdrasil_model_providers/gateway.py:603-607 | all three passes read such a text so: nothing in it is taken for a longcat block and nothing is left for the third pass |
| TagRoundTrip.InlineRoundTrip | adapters/model-providers/src/yggdrasil_model_providers/gateway.py:540-569 | all three passes read a text with self-closing tags back as one call for each dotted tag, with its attributes as arguments, in order; exactly those tags leave the text, which is tidied, and tags without a dot stay in it |
| TagRoundTrip.TagArgumentsKept | adapters/model-providers/src/yggdrasil_model_providers/gateway.py:551-586 | arguments of a tag whose names differ after aliasing are all kept, in order |
| MixedPasses.StageRead | adapters/model-providers/src/yggdrasil_model_providers/gateway.py:509-602 | in a text that mixes longcat blocks, containers and self-closing tags in any order, each of the first two passes takes out exactly the items of its kind, in order, and the text closes up around them |
| MixedRoundTrip.MixedRoundTrip | adapters/model-providers/src/yggdrasil_model_providers/gateway.py:509-607 | such a text is read back by all three passes as the calls of its longcat blocks, then of its containers, then of its self-closing tags, each kind in the order of the text, and as the text between them with the undotted self-closing tags, tidied once. Items read after a tidying pass hold no three newlines in a row |
| MixedRoundTrip.TidyingCanChangeAnArgument | adapters/model-providers/src/yggdrasil_model_providers/gateway.py:509-607 | a concrete text whose call loses a newline of its argument, because the pass before tidied the text |
| Tidying.TidyIdempotent | adapters/model-providers/src/yggdrasil_model_providers/gateway.py:509-602 | tidying a text twice is tidying it once |
| TagRoundTrip.MatchOnly | adapters/model-providers/src/yggdrasil_model_providers/gateway.py:540-602 | in a text of pieces and tags, a tag matches only at a piece that is that tag, up to case |
| ProviderResults.ResultFromRaw | adapters/model-providers/src/yggdrasil_model_providers/gateway.py:818-858 | the loop returns the calls of the message, else of the choice, else of the body, else those tagged in the text, each with its alias undone and its argument text stripped; nothing where the first choice or its message makes reading raise |
| ResultReading.ResultFields | adapters/model-providers/src/yggdrasil_model_providers/gateway.py:818-858 | a body can be read if and only if its first choice is a dictionary and its message one too, or false; then text, reasoning, finish reason and calls are the first that the message, the choice, the body or the text give, in the order of the code, with aliases undone and arguments stripped |
| ProviderResults.StreamedResult | adapters/model-providers/src/yggdrasil_model_providers/gateway.py:776-858 | reading back the body of any assembled stream gives its text without tags, its reasoning, its finish reason and each assembled call once, in order, decoded; only a stream without calls falls back to tagged ones |
| ProviderResults.BodySays | adapters/model-providers/src/yggdrasil_model_providers/gateway.py:776-806 | the body an assembled stream is handed on as, key by key |
| ProviderResults.MessageSays | adapters/model-providers/src/yggdrasil_model_providers/gateway.py:776-786 | its message: role, content, and reasoning and calls only where there are any |
| ProviderResults.StreamedCallsReachCaller | adapters/model-providers/src/yggdrasil_model_providers/gateway.py:654-858 | end to end: streamed calls, however cut and interleaved, reach the caller in index order under the tools' original names when no tool bears another's alias, with their argument fragments joined as they arrived |
| ProviderResults.TaggedCallsReachCaller | adapters/model-providers/src/yggdrasil_model_providers/gateway.py:818-858 | end to end: calls sent as longcat blocks in the streamed text reach the caller as those calls in order, with the tidied text |
| RetryLoop.InvokeModel | adapters/model-providers/src/yggdrasil_model_providers/gateway.py:1061-1131 | the attempt loop returns what the first decisive outcome determines, or an answer left over when all attempts fail; it makes exactly the attempts up to it, sleeps before each further one, and raises when the body of an HTTP error cannot be read |
| RetryLoop.LiveIff | adapters/model-providers/src/yggdrasil_model_providers/gateway.py:1067-1131 | a live result comes back if and only if a readable dictionary is the answer that counts: one after nothing but 429s or 5xxs with a body that can be read and non-HTTP failures, or one left over although every attempt failed; it carries that answer and the failures before it, and is streamed at the first attempt or for another provider than deepseek_direct |
| RetryLoop.LeftOverExists | adapters/model-providers/src/yggdrasil_model_providers/gateway.py:1078-1128 | a concrete run in which every attempt fails and an earlier answer is still returned as live |
| RetryLoop.CanWaitIff | adapters/model-providers/src/yggdrasil_model_providers/gateway.py:1091-1119 | which delays can be waited for: all for a non-negative base, otherwise only the first |
| RetryLoop.RetriedIff | adapters/model-providers/src/yggdrasil_model_providers/gateway.py:1082-1121 | what invites another attempt: a non-HTTP failure, an HTTP error of code 429 or at least 500 whose body can be read, or, after a non-HTTP failure, an answer whose `streamReconnect` is no dictionary |
| RetryLoop.ClientErrorEnds | adapters/model-providers/src/yggdrasil_model_providers/gateway.py:1087-1103 | an HTTP error of any other code ends the call at that attempt, with that error as the reason of the fallback or of the exception |
| RetryLoop.ExhaustedCall | adapters/model-providers/src/yggdrasil_model_providers/gateway.py:1122-1131 | a call that runs out of attempts without any answer gives up for the reason of the last one |
| RetryLoop.NullAnswer | adapters/model-providers/src/yggdrasil_model_providers/gateway.py:1122-1131 | a null answer gives up for the reason of the attempt before it |
| RetryLoop.WaitedDelays | adapters/model-providers/src/yggdrasil_model_providers/gateway.py:1093-1119 | the delays waited for are the first powers of the backoff base, each cut to 60 seconds |
| RetryLoop.DoublingDelays | adapters/model-providers/src/yggdrasil_model_providers/gateway.py:1093-1119 | with base 2 they are 1, 2, 4, 8, 16 and 32 seconds, and 60 from then on |
| RetryLoop.TotalDelayBound | adapters/model-providers/src/yggdrasil_model_providers/gateway.py:1093-1119 | the delays of one call add up to at most 60 seconds per retry |
| RetryLoop.RaisesIff | adapters/model-providers/src/yggdrasil_model_providers/gateway.py:1087-1131 | with fallback allowed, exactly when the call still raises: the base is negative, two retries are left and the first two attempts fail, or an attempt that is reached ends in an HTTP error whose body cannot be read, or the answer that counts is not null and cannot be read |
| RetryLoop.NeverRaises | adapters/model-providers/src/yggdrasil_model_providers/gateway.py:1087-1131 | with fallback allowed, a non-negative base, HTTP errors whose bodies can be read and answers that are null or readable it never raises |
| RetryLoop.ReconnectsAreTheFailures | adapters/model-providers/src/yggdrasil_model_providers/gateway.py:1104-1121 | the reconnect log lists exactly the non-HTTP failures before the answer, in order, each with its attempt number, whether it streamed, and the error's type and text |
| ContextPruning.CompressionRangeBounds | modules/context-pruning/src/yggdrasil_context_pruning/plugin.py:58-73 | the range starts after the longest foundation prefix and ends before the last n+1 entries |
| ContextPruning.MakePlan | modules/context-pruning/src/yggdrasil_context_pruning/plugin.py:139-252 | the loop returns the plan of the greedy selection over the ranked items: reference lists, token totals, reasons, discards |
| ContextPruning.RankedContents | modules/context-pruning/src/yggdrasil_context_pruning/plugin.py:187 | ranking is a permutation of the items |
| ContextPruning.RankedInOrder | modules/context-pruning/src/yggdrasil_context_pruning/plugin.py:187 | items are ranked by falling score, ties by reference id, and by position where both agree |
| ContextPruning.SelectionPartitions | modules/context-pruning/src/yggdrasil_context_pruning/plugin.py:195-225 | retained, compressed and dropped split the items exactly and their tokens add up |
| ContextPruning.OutcomesFit | modules/context-pruning/src/yggdrasil_context_pruning/plugin.py:195-219 | guarded items are always retained; compressed items score at least 1.0, dropped ones less |
| ContextPruning.FittingWithinBudget | modules/context-pruning/src/yggdrasil_context_pruning/plugin.py:200-202 | items kept only because they fit never exceed the budget together |
| ContextPruning.SelectionIsMaximal | modules/context-pruning/src/yggdrasil_context_pruning/plugin.py:200-219 | adding any compressed or dropped item back to the final retained total would exceed the budget |
| ContextPruning.InversionOnlyForSmaller | modules/context-pruning/src/yggdrasil_context_pruning/plugin.py:195-219 | an unguarded item is kept past a higher-ranked discarded one only if it is strictly smaller |
| ContextPruning.GuardedEntriesRetained | modules/context-pruning/src/yggdrasil_context_pruning/plugin.py:147-200 | every protected entry, the foundation prefix and the last n+1 entries are retained, whatever the budget |
| ContextPruning.NothingDroppedYet | modules/context-pruning/src/yggdrasil_context_pruning/plugin.py:203-225 | no item scored 1.0 or more comes after a dropped one, so all compressed discards precede all dropped ones |
| ContextPruning.PlanNamesEntry | modules/context-pruning/src/yggdrasil_context_pruning/plugin.py:171-246 | every entry has one outcome, and the plan names its reference there, with the reason: kept because it is protected, else because of where it stands, else because it fits; compressed or dropped otherwise |
| ContextPruning.RankFollowsBase | modules/context-pruning/src/yggdrasil_context_pruning/plugin.py:171-186 | the ranking follows importance plus overlap, less a quarter for a summary, plus ten for a protected entry |
| ContextPruning.BetterEntryStays | modules/context-pruning/src/yggdrasil_context_pruning/plugin.py:171-222 | of two entries left to the budget, the one with more importance plus overlap, less a quarter for a summary, is never discarded while the other is kept, unless it is the larger one |
| ContextPruning.MoreOverlapStays | modules/context-pruning/src/yggdrasil_context_pruning/plugin.py:171-222 | all else being equal, neither more overlap with the objective nor more importance makes an entry lose its place to another |
| ContextPruning.CompressedIff | modules/context-pruning/src/yggdrasil_context_pruning/plugin.py:205-222 | a discarded entry is left to the budget, and is compressed if and only if importance plus overlap, less a quarter for a summary, reaches 1.0 |
| ContextPruning.GuardedIff | modules/context-pruning/src/yggdrasil_context_pruning/plugin.py:33-72 | kept whatever the budget is exactly what the request names, what the contract words of an id, kind or title mark, entries of the same name, the foundation the context begins with, and the last entries, one more than the tail asked for |
| ContextPruning.TokensSay | modules/context-pruning/src/yggdrasil_context_pruning/plugin.py:26-31 | an entry counts as given, or by a quarter of its content, but as one token at least |
| ContextPruning.CompressedEstimateExactIff | modules/context-pruning/src/yggdrasil_context_pruning/plugin.py:246-248 | the compressed-token estimate is never too low, and exact if and only if no item outside the compressed ones shares a reference with one of them |
| ContextPruning.EstimateCanBeTooHigh | modules/context-pruning/src/yggdrasil_context_pruning/plugin.py:246-248 | two entries with one reference, one kept and one compressed, for which the estimate is too high |
| ContextPruning.Execute | modules/context-pruning/src/yggdrasil_context_pruning/plugin.py:260-289 | executing looks retained references up by id (last entry wins), skips unknown ones and keeps the plan's order |
| ContextPruning.ExecutionSays | modules/context-pruning/src/yggdrasil_context_pruning/plugin.py:260-300 | a compressed reference is summarised from the content of the last entry of its name, else from its title, else from nothing; dropped references are handed on |
| ContextPruning.ExecuteReplaysPlan | modules/context-pruning/src/yggdrasil_context_pruning/plugin.py:260-300 | with distinct reference ids execute returns precisely the retained items, and their tokens sum to the plan's estimate |
| ConversationRebuild.UpsertIsInsert | scripts/rebuild_task_conversations_from_state.py:58-70 | filter, append and sort is removal of the id and insertion into the sorted list |
| ConversationRebuild.UpsertsCommute | scripts/rebuild_task_conversations_from_state.py:50-82 | upserts of different ids commute |
| ConversationRebuild.OrderIrrelevant | scripts/rebuild_task_conversations_from_state.py:50-82 | entries with distinct ids give the same list in every order |
| ConversationRebuild.OverwrittenEntriesVanish | scripts/rebuild_task_conversations_from_state.py:58-63 | entries whose ids come again later leave no trace: the last entry wins |
| ConversationRebuild.MergedList | scripts/rebuild_task_conversations_from_state.py:58-70 | the merged list is sorted and holds exactly the last entry of each new id and the old entries with other ids |
| ConversationRebuild.MergedListDistinct | scripts/rebuild_task_conversations_from_state.py:58-63 | no id occurs twice in the merged list |
| ConversationRebuild.UpsertAllIdempotent | scripts/rebuild_task_conversations_from_state.py:50-82 | upserting the same entries again changes nothing, repeated ids included |
| ConversationRebuild.RecordOf | scripts/rebuild_task_conversations_from_state.py:50-82 | a record after any upserts: the merged list, its length, the pointers to its last entry, the first creation time and the last update time |
| ConversationRebuild.RecordRunsByWindow | scripts/rebuild_task_conversations_from_state.py:64-78 | after any upserts the list runs by rising window index, none counting as 0, then by rising end time, then by rising id, and what the record calls its latest invocation is the last one, with the greatest window index |
| Ordering.LessIff | scripts/rebuild_task_conversations_from_state.py:64-70 | strings compare at the first place where they differ, and a beginning of a string comes before it |
| ConversationRebuild.RecordFixpoint | scripts/rebuild_task_conversations_from_state.py:50-82 | rerunning all upserts of a task on the file they left changes nothing |
| ConversationRebuild.RecordOrderIrrelevant | scripts/rebuild_task_conversations_from_state.py:50-82 | list, count and latest pointers agree for every order; the whole record does if and only if the last entries ended at the same time and, for a new file, so did the first |
| ConversationRebuild.OrderCanChangeTimes | scripts/rebuild_task_conversations_from_state.py:50-82 | two entries with different end times give records that differ in their update time when handled in the other order |
| ConversationRebuild.Workspace.Rebuild | scripts/rebuild_task_conversations_from_state.py:85-160 | the loop over the request files leaves both directories as the upserts of the entries determine and writes an index that holds exactly the rows of the tasks seen, by falling update time; it stops without writing the index at the first response that cannot be read, request without messages whose body is no dictionary, or window index that is no number |
| ConversationRebuild.EntriesAreDescribed | scripts/rebuild_task_conversations_from_state.py:94-136 | a run completes if and only if every request file is unreadable or without a task, or leads to an entry; the entries are those of the files that do, up to the first that does neither, in order, each with status error exactly for a response with an error, the window index of the response, and its end time or else the request's creation time |
| ConversationRebuild.RowsTell | scripts/rebuild_task_conversations_from_state.py:142-150 | an index row tells how many invocations the task's record lists, which is the last of them, and when the task's last entry ended |
| ConversationRebuild.RowsSorted | scripts/rebuild_task_conversations_from_state.py:152-156 | the index is a stable rearrangement of the rows by falling update time, and its own time is the latest of them |
| ConversationRebuild.FileAfterRun | scripts/rebuild_task_conversations_from_state.py:94-141 | each task's file depends only on what it was and on that task's own entries |
| ConversationRebuild.RebuildFixpoint | scripts/rebuild_task_conversations_from_state.py:85-160 | running again over unchanged files leaves every record in both directories unchanged |
| ResourceHook.Hook.constructor | apps/web/app/lib/use-api-resource.ts:19-69 | mounting is the initial state followed by the first effect |
| ResourceHook.Hook.RunEffect | apps/web/app/lib/use-api-resource.ts:26-69 | cleanup of the previous effect, then the effect for the path: reference, data, error, loading flag and new request |
| ResourceHook.EffectSays | apps/web/app/lib/use-api-resource.ts:20-62 | a missing or empty path requests nothing and shows nothing, any other starts exactly one request for that path and keeps data only of the same path; the request of the effect before is cancelled either way |
| ResourceHook.Hook.OnRender | apps/web/app/lib/use-api-resource.ts:26-69 | a render reruns the effect exactly when the path changed |
| ResourceHook.Hook.OnReload | apps/web/app/lib/use-api-resource.ts:75-78 | a reload reruns the effect for the same path |
| ResourceHook.Hook.OnReply | apps/web/app/lib/use-api-resource.ts:45-62 | a reply changes data or error and the loading flag exactly when its request is not cancelled |
| ResourceHook.Hook.OnUnmount | apps/web/app/lib/use-api-resource.ts:66-68 | unmounting cancels the pending request |
| ResourceHook.HookSafeOverAllRuns | apps/web/app/lib/use-api-resource.ts:26-69 | over every run of renders, reloads, replies and unmounts: data came from the path in the reference, loading holds exactly while the live request is outstanding, an error is the live request's |
| ResourceHook.AtMostOneLive | apps/web/app/lib/use-api-resource.ts:35-68 | at most one request is not cancelled, in every reachable state |
| ResourceHook.SourceNeverGoesBack | apps/web/app/lib/use-api-resource.ts:45-62 | the request number behind the data never goes backwards, however replies are reordered |
| ResourceHook.StaleRepliesInvisible | apps/web/app/lib/use-api-resource.ts:51-61 | any number of replies to cancelled requests, in any order, changes nothing the component sees |
| ResourceHook.RepliesCommute | apps/web/app/lib/use-api-resource.ts:45-62 | replies to different requests commute |
| ResourceHook.ReplyOrderIrrelevant | apps/web/app/lib/use-api-resource.ts:45-62 | the same replies lead to the same state in every order |
| ResourceHook.LiveReplyWins | apps/web/app/lib/use-api-resource.ts:45-62 | once the live request is answered the component sees that answer, whatever older replies come before or after |
| WorkTree.UnfinishedWorkNodes | modules/task-takeover/src/yggdrasil_task_takeover/plugin.py:417-492 | the report built from the two indexes of a work tree payload is the one found by looking at every node |
| WorkTree.IndexChildren | modules/task-takeover/src/yggdrasil_task_takeover/plugin.py:422-426 | the child index holds for every parent exactly the children a naive scan finds, in order |
| WorkTree.IndexById | modules/task-takeover/src/yggdrasil_task_takeover/plugin.py:421 | looking an id up gives the status of the last node that bears it, and of no node that of an empty one |
| WorkTree.ReportIsExact | modules/task-takeover/src/yggdrasil_task_takeover/plugin.py:428-474 | the report lists exactly the named nodes with a non-terminal status, in tree order, and suggests exactly the open placeholders |
| WorkTree.ReportTells | modules/task-takeover/src/yggdrasil_task_takeover/plugin.py:400-474 | the report in terms of the payload's own fields: which nodes it lists, in which order, and what it says of id, title, status, parent, children, open children, placeholder, action and reason of each |
| WorkTree.SuggestionsAreLeavesBelowRoot | modules/task-takeover/src/yggdrasil_task_takeover/plugin.py:444-457 | a suggested id is never the root nor one with children, and is always reported |
| WorkTree.DescribedAfter | modules/task-takeover/src/yggdrasil_task_takeover/plugin.py:435-474 | pruning changes nothing in the report of an unpruned node but its unfinished children, which lose exactly the pruned ones |
| WorkTree.PruningSuggestsNothingMore | modules/task-takeover/src/yggdrasil_task_takeover/plugin.py:417-492 | after all suggested nodes are marked skipped, nothing is suggested any more |
| WorkTree.PruningCountsExactlyIff | modules/task-takeover/src/yggdrasil_task_takeover/plugin.py:417-492 | the count falls by exactly the number suggested if and only if no other open node bears a suggested id |
| WorkTree.PruningCanCountMore | modules/task-takeover/src/yggdrasil_task_takeover/plugin.py:417-492 | two open nodes with one suggested id, for which the count falls by more than the number suggested |
| WorkTree.DistinctIdsUnshared | modules/task-takeover/src/yggdrasil_task_takeover/plugin.py:417-492 | with distinct ids that condition holds |
| Delivery.HeadingIff | modules/task-takeover/src/yggdrasil_task_takeover/plugin.py:172-183 | a line is a heading if and only if, normalised, it starts with a heading word; a line that is a heading word finds a section owning that very word |
| Delivery.HeadingTells | modules/task-takeover/src/yggdrasil_task_takeover/plugin.py:172-183 | the heading a line stands for: its title without white space, number signs and colons around it is a word of the first such section, or else begins with a word of the first such section |
| Delivery.LinesAreTheText | modules/task-takeover/src/yggdrasil_task_takeover/plugin.py:221 | splitting into lines loses nothing but the line breaks |
| Delivery.SplitLinesSay | modules/task-takeover/src/yggdrasil_task_takeover/plugin.py:221 | the lines are what stands between the line breaks, a carriage return and a line feed being one, and what follows the last break unless that is nothing |
| Delivery.ParseDelivery | modules/task-takeover/src/yggdrasil_task_takeover/plugin.py:213-248 | the line loop, the inference in place and the final loop return the four sections determined by governing headings and destinations |
| Delivery.Buckets.InferMissing | modules/task-takeover/src/yggdrasil_task_takeover/plugin.py:191-210 | the inference on the buckets in place sends every result line to its destination |
| Delivery.LineInOneSection | modules/task-takeover/src/yggdrasil_task_takeover/plugin.py:225-233 | each line that is no heading is in exactly the section of the last heading above it (the result, if none), in document order; headings are in none |
| Delivery.PlacementConserves | modules/task-takeover/src/yggdrasil_task_takeover/plugin.py:225-233 | the four buckets together hold exactly the lines that are no headings, each as often as the text |
| Delivery.PromotionsInfer | modules/task-takeover/src/yggdrasil_task_takeover/plugin.py:193-210 | done section by section, the inference equals sending each result line to the first empty section whose words it contains, keeping order |
| Delivery.InferenceConserves | modules/task-takeover/src/yggdrasil_task_takeover/plugin.py:191-210 | inference preserves the overall multiset of lines |
| Delivery.SectionFilledIff | modules/task-takeover/src/yggdrasil_task_takeover/plugin.py:193-210 | a section other than the result changes if and only if it has no lines and some result line has a word of it and of no empty section before it |
| Delivery.HitsIff | modules/task-takeover/src/yggdrasil_task_takeover/plugin.py:186-210 | a line is taken for one of a section when it contains, in lower case, one of the section's words |
| Delivery.InferenceIdempotent | modules/task-takeover/src/yggdrasil_task_takeover/plugin.py:191-210 | a second inference changes nothing |
| Delivery.ParsingConserves | modules/task-takeover/src/yggdrasil_task_takeover/plugin.py:221-237 | parsing and inference together keep every line that is no heading, each once |
| Delivery.SectionPresentIff | modules/task-takeover/src/yggdrasil_task_takeover/plugin.py:213-248 | a section is reported present if and only if some line that is neither blank nor a heading ends up in it; there are always four, in order |
| Delivery.EntrySays | modules/task-takeover/src/yggdrasil_task_takeover/plugin.py:236-248 | a section delivers its lines that are not blank, one a line, stripped, and is present if and only if that is not empty |
| SoftForgetting.NodeConverges | modules/memory-organizer/src/yggdrasil_memory_organizer/plugin.py:118-121 | from any thousandth-grid values and any rounding of ties, a computable number of passes takes a node to stability 0.1, forget rate and float score 1.0 and access score 0, or 0.001 if it was positive, for good |
| SoftForgetting.AtLimitStays | modules/memory-organizer/src/yggdrasil_memory_organizer/plugin.py:114-121 | at its limits a further pass changes only the content |
| SoftForgetting.ForgetSays | modules/memory-organizer/src/yggdrasil_memory_organizer/plugin.py:111-125 | what a pass writes for a node, to the thousandth: nine tenths of the stability but not below 0.1, six tenths of the access score, 0.15 more forgetting and 0.2 more float score up to 1, and nothing else but the excerpt |
| SoftForgetting.RankedIsStable | modules/memory-organizer/src/yggdrasil_memory_organizer/plugin.py:95 | the ranking rearranges the candidates by rising score, in listing order where scores are equal |
| SoftForgetting.SelectionIff | modules/memory-organizer/src/yggdrasil_memory_organizer/plugin.py:95-96 | a set of nodes is the selection if and only if it has the right size and its nodes come before all others by score, then by listing order |
| SoftForgetting.ForgottenAre | modules/memory-organizer/src/yggdrasil_memory_organizer/plugin.py:15-97 | a pass forgets as many as asked for, four for none or zero and all but so many for a negative number, of the nodes among the first 300 that are no root: those with the least weighted sum of importance, stability, access score, feedforward score and edge share, the first listed of equal ones |
| SoftForgetting.ScoreNeverRises | modules/memory-organizer/src/yggdrasil_memory_organizer/plugin.py:15-22 | from stability 0.1 and access score 0 upwards no pass raises a score |
| SoftForgetting.NextSelectionIff | modules/memory-organizer/src/yggdrasil_memory_organizer/plugin.py:90-125 | the next pass selects the same nodes if and only if, after forgetting, each still scores below every other listed node, or the same and is listed before it |
| SoftForgetting.ReselectsIff | modules/memory-organizer/src/yggdrasil_memory_organizer/plugin.py:90-125 | every later pass selects the nodes of the first if and only if that condition holds, which is checkable before any pass |
| SoftForgetting.SettledStaysFirst | modules/memory-organizer/src/yggdrasil_memory_organizer/plugin.py:90-125 | it holds whenever the selected nodes have stability at least 0.1 and access score at least 0 |
| SoftForgetting.SameNodesEveryPass | modules/memory-organizer/src/yggdrasil_memory_organizer/plugin.py:90-125 | under that condition the selected nodes forget once a pass and no other node ever changes |
| SoftForgetting.BranchConverges | modules/memory-organizer/src/yggdrasil_memory_organizer/plugin.py:90-125 | under that condition, after enough passes every selected node is at its limits and only contents may still change |
| SoftForgetting.BelowTheFloorSelectionMoves | modules/memory-organizer/src/yggdrasil_memory_organizer/plugin.py:15-22 | below either floor the condition can fail: concrete nodes for which the next pass selects another node |
| SoftForgetting.NodeRepository.AppendVersion | packages/python-sdk/src/yggdrasil_sdk/persistence/repositories/memory.py:187-256 | the written values replace those of the node with that id and of no other; an unknown id changes nothing |
| SoftForgetting.NodeRepository.ApplySoftForgetting | modules/memory-organizer/src/yggdrasil_memory_organizer/plugin.py:80-139 | a dry run changes nothing, any other run makes exactly one pass; the adjusted ids are the selection in rank order |
| LatentEdges.ProposedEdges | modules/relation-discovery/src/yggdrasil_relation_discovery/plugin.py:23-44 | the nested loops with early return give the first qualifying pairs up to the limit |
| LatentEdges.RowsExact | modules/relation-discovery/src/yggdrasil_relation_discovery/plugin.py:27-32 | the enumerated pairs are exactly those with enough shared words, in index order |
| LatentEdges.ProposedAreFirst | modules/relation-discovery/src/yggdrasil_relation_discovery/plugin.py:27-44 | a qualifying pair goes unproposed only when the limit was used up by earlier pairs |
| LatentEdges.NoPairTwice | modules/relation-discovery/src/yggdrasil_relation_discovery/plugin.py:23-44 | with distinct ids no unordered pair of nodes is proposed twice |
| LatentEdges.ProposalEndsExist | modules/relation-discovery/src/yggdrasil_relation_discovery/plugin.py:143-145 | both ends of a proposal are among the scanned nodes |
| EdgeRules.QualifiesIff | modules/relation-discovery/src/yggdrasil_relation_discovery/plugin.py:19-31 | two nodes qualify if and only if they share at least as many words as asked for: lower-cased stretches of letters, digits, underscores, hyphens and ideographs of title and content |
| EdgeRules.ProposalSays | modules/relation-discovery/src/yggdrasil_relation_discovery/plugin.py:23-44 | a proposal runs from an earlier to a later node, weighs 0.2 and a tenth for each shared word, at most 1, and gives the shared words for a reason; there are no more than asked for, or one |
| EdgeRules.StoredSays | modules/relation-discovery/src/yggdrasil_relation_discovery/plugin.py:141-168 | a stored edge is the proposal, in the project and space of its source node, with the work tree node of source or else target noted in the reason |
| LatentEdges.EdgeRepository.ScanBranch | modules/relation-discovery/src/yggdrasil_relation_discovery/plugin.py:111-175 | a dry run reports the missing edges and stores nothing; any other run appends exactly them |
| LatentEdges.CreatedWereUnlinked | modules/relation-discovery/src/yggdrasil_relation_discovery/plugin.py:126-135 | created are exactly the proposals whose unordered pair is not linked among the edges seen |
| LatentEdges.SecondScanCreates | modules/relation-discovery/src/yggdrasil_relation_discovery/plugin.py:125-169 | a second scan of the same nodes creates exactly those edges of the first that lie beyond the 500 listed |
| LatentEdges.SecondScanIdleIff | modules/relation-discovery/src/yggdrasil_relation_discovery/plugin.py:125-169 | it creates nothing if and only if the first created nothing or all edges fit among the 500 listed |
| LatentEdges.OneScanSuffices | modules/relation-discovery/src/yggdrasil_relation_discovery/plugin.py:125-169 | with that room, any number of scans does what one does |
| LatentEdges.FullBranchGrows | modules/relation-discovery/src/yggdrasil_relation_discovery/plugin.py:126-169 | on a branch with 500 edges every scan creates the same unseen edges again |
| LatentEdges.ScansRepeatThemselves | modules/relation-discovery/src/yggdrasil_relation_discovery/plugin.py:126-169 | a concrete branch, two nodes sharing two words and 500 edges between other nodes, where every scan creates the same edge again |
| LatentEdges.OnlyFirstProposals | modules/relation-discovery/src/yggdrasil_relation_discovery/plugin.py:23-44 | however often a branch is scanned, only pairs among the first proposals are ever linked |
| Permissions.IsAllowed | modules/shared-memory/src/yggdrasil_shared_memory/plugin.py:121-147 | the loop grants if and only if some matching tuple allows and no matching tuple denies |
| PermissionRules.GrantedIff | modules/shared-memory/src/yggdrasil_shared_memory/plugin.py:34-60 | a request is granted if and only if some tuple that applies allows and none that applies denies; it applies by subject or `*`, by relation, `admin` or `*`, by resource, pattern or prefix before a colon, and by every value its condition expects |
| Permissions.SameTuplesSameDecision | modules/shared-memory/src/yggdrasil_shared_memory/plugin.py:121-147 | order and repetition of the tuples do not matter |
| Permissions.NewDenyGrantsIff | modules/shared-memory/src/yggdrasil_shared_memory/plugin.py:131-147 | with the newest 500 listed, exactly when a new deny turns a refusal into a grant: it does not match and pushes the one deny in force out of the list |
| Permissions.NewAllowRevokesIff | modules/shared-memory/src/yggdrasil_shared_memory/plugin.py:131-147 | exactly when a new allow turns a grant into a refusal: it does not match, the 500th tuple is a matching allow, and no tuple listed before that one allows or denies and matches |
| Permissions.NewDenyCanGrant | modules/shared-memory/src/yggdrasil_shared_memory/plugin.py:131-147 | 500 different tuples for which a deny about somebody else grants |
| Permissions.NewAllowCanRevoke | modules/shared-memory/src/yggdrasil_shared_memory/plugin.py:131-147 | 500 different tuples for which an allow for somebody else revokes |
| Permissions.SubjectCandidates | modules/shared-memory/src/yggdrasil_shared_memory/plugin.py:16-32 | the candidates are the explicit subject, the owner's profile, the actor and `*`, first occurrences only |
| PermissionRules.SpeaksIff | modules/shared-memory/src/yggdrasil_shared_memory/plugin.py:16-32 | a request is made for the subject it names, its owner's profile, its actor by type and id, and `*` |
| Permissions.DeduplicatedExact | modules/shared-memory/src/yggdrasil_shared_memory/plugin.py:28-32 | deduplication keeps every candidate exactly once |
| Permissions.ValidateWrite | modules/shared-memory/src/yggdrasil_shared_memory/plugin.py:284-389 | every verdict under exactly its conditions: host space, no mount, readonly, copy-on-write, refusal, no branch, write |
| PermissionRules.VerdictTells | modules/shared-memory/src/yggdrasil_shared_memory/plugin.py:284-389 | the verdict from the request's own fields and the rows of the three tables: the first active mount of the target in the host decides by its mode, the newest 500 tuples of the project by the question put to them, and the first 32 active branches by the wanted one |
| Permissions.WrittenOnlyIf | modules/shared-memory/src/yggdrasil_shared_memory/plugin.py:284-389 | a write reaches another space only through an active first mount that is neither readonly nor copy-on-write, with a positive decision, into an active branch of that space, the wanted one whenever listed |
| Permissions.NewestMountDecides | modules/shared-memory/src/yggdrasil_shared_memory/plugin.py:296-332 | the newest active mount of the target in the host decides alone; a mount of another pair, or one not active, changes nothing |
| Permissions.NewTupleMonotone | modules/shared-memory/src/yggdrasil_shared_memory/plugin.py:284-389 | below 500 tuples a new deny never opens a write and a new allow never closes one |

## Left out

- HTTP, environment variables, provider tables and keys, clocks, latency and sleeping: inputs, or an arbitrary sequence of attempt outcomes.
- JSON and UTF-8 decoding, `repr`, `int` of a string, full Unicode case mapping, `fnmatchcase`, excerpts and id generation: arbitrary functions. How many terms of the objective an entry holds (`_keyword_overlap`) is an input.
- Usage and cost of a result (`_normalize_usage`), and the parsing of its argument text into a dictionary: arithmetic and heuristics on single values.
- Values that make Python raise outside the modelled branches: an infinite float as a call index or token count, a backoff power too large for a float or a base that is no number, record and candidate lists that are no lists, a window index in an existing record that is no number, nesting beyond the recursion limit, interrupts.
- A window index given as a fraction or a numeric string: the model has whole numbers, or no number at all.
- The two retry branches for transport errors do the same and are one in the model.
- MixedRoundTrip.MixedRoundTrip: containers and self-closing tags with three newlines in a row inside are covered only where no earlier pass tidies the text; elsewhere tidying can change their arguments (`MixedRoundTrip.TidyingCanChangeAnArgument`).
- Floating point: scores are reals and rounded quantities whole thousandths, so ties that only rounding makes do not appear.
- Python's built-in sorts are one stable insertion function with proved order, contents and stability, not in-place loops.
- React rendering: state updates are atomic steps, and a reload runs at once.
- Database repositories beyond the rows they list: sessions, locks, edge counts, version history, and the raising on a duplicate tuple or mount.
- Listing and expanding accessible mounts, the term ranking of `_embedding_payload` and `rerank_retrieval`: filters and sorts that would only add easy members.
- ProviderResults.ResultFromRaw: reports calls with their argument text, without the dictionary read from it, and leaves out usage, cost and the copies of request and response.
- ConversationRebuild.Workspace.Rebuild: list entries that are no dictionaries are absent from record files, since the code discards them at the first upsert.
- Report prose, hints and directives, heading and marker word lists: constants, kept as parameters or enumerations.
- User interface, migrations, schemas, report renderers, benchmark scripts and the remaining modules.
