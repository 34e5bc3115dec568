# PrivAiTe, modelled and proved in Dafny

PrivAiTe replaces detected values in a request by placeholders and restores them in the reply.
This project models the string, interval and stream algorithms behind that, each in the form the
code has (classes and loops where the code updates state, functions where it computes), and proves
what they are for. `dafny verify dfyconfig.toml` checks everything. Automatic induction is off in
every lemma, so each proof is the one that is written.

## What is proved

**Substitution and its inverse** (`Literals`, `Containers`, `Mapping`, `Anonymizer`,
`SentText`, `DeAnonymizer`, `RoundTrip`, `Invariants`). One mapping is shared by all the texts of a request.
What the request holds already is reserved first, however its containers are shared or hold
themselves (`Reserve`). For any sequence of texts with any disjoint detections, restoring each
sent text with the final mapping gives the text back, in one piece or streamed, even when texts
hold strings that look like placeholders, before or after such a string was issued
(`RequestRoundTrip`). This needs the placeholder method and a type name of 1 to 100 characters
without angle brackets. Entity type names are free-form in the configuration, so the condition is
not vacuous: `RoundTripExact` shows that it is exactly what is needed. For every mix of methods,
and with no hypothesis on types or generator, each sent text is laid out as it should be: a mask or
a type name in the place of a masked or redacted value, its fake in the place of any other, and
every other character where it was (`RunIsLaidOut`). A value that is only ever masked never enters
the maps, unless it looks like a placeholder itself (`RunKeeps`, `MaskedNeverComesBack`). The two maps
stay mutual inverses provided the fake generator proposes no empty string;
`IssueKeepsMutualExactly` names the one step at which an empty fake would break the inverse, and
`EmptyFakeBreaksRun` a run with that step. No value is its own fake, provided the names of
placeholder types have the recognised shape; `NeverSelfExact` shows that this too is exactly what
is needed.

**Streaming** (`Streaming`, `TrieBuffer`, `JsonText`, `JsonReading`). The hold-back buffer over a
heap trie is the batch restore for every way of cutting the text. `feed` emits a match as soon as
it has one, so this is false for arbitrary fakes; `StreamEqualsBatchExact` and
`ChunkInvarianceExact` give the exact conditions, which issued placeholders meet. Restoring JSON
source text with escaped originals commutes with escaping, so accumulated tool arguments stay
parseable; with any other way of escaping, a client reads the restored text exactly where the
fakes themselves are written without escapes (`ReadsRestoredExactly`). A whole document of arguments
then reads as itself, with every string in it restored (`DocumentIsRead`).

**Detection and the policy gate** (`Merge`, `AllowList`, `Engine`, `Policy`, `Propagation`,
`Walker`, `ScrubbedLeaves`). The merge covers
exactly the detected positions, by spans that do not depend on the order of detection. The allow
list is exact, bisection included. The gate rejects every text with a blocked detection that
counts and that no rule naming its type admits, through merge, allow list and propagation of known
values; under the union strategy every detection counts, under intersection those that a second
detector overlaps. Known values are found again wherever no earlier occurrence overlaps them; the
scan jumps over each occurrence, so `ScanIsCompleteExact` gives the values of which it misses
none. Which values a text teaches is said without the loop (`LearnedExactly`), and so is what
becomes of them in later texts (`LearnedIsReplaced`). A merged span is never of a weaker type than a
detection in it (`StrictestWins`); where scores decide, it carries the best label
(`HighestWins`), and with priority for Presidio it need not (`PresidioCanLose`). A scrubbed
JSON document has every leaf scanned (`EveryLeafIsScanned`) and comes back as it was.

**Windows, stitching, decoding** (`Windows`, `Stitching`, `TextCoverage`, `SpanDecoding`,
`LabelReading`, `WholeWords`, `Chunks`, `Scanners`, `Boundaries`, `RefinedValues`, `Unescaping`,
`SecretSpans`). Overlapping
windows are stitched without loss: exactly, when tokens can be told apart or none is dropped, and
up to copies of one offset otherwise; `StitchingKeepsCopies` says at which seams a copy is lost.
After the text check every character that may not be left out is in a token, and if the token is
labelled, in a reported span of the type in its label (`LabelledTextIsReported`). `OverlapIsEnough` shows when chunking keeps every short value whole:
with room for two overlaps in a chunk, and not otherwise. (The code's own description does not
state that condition; its callers, with 1200 or 1500 characters and 200 of overlap, meet it.) A
refined span gives back nothing but structure, which depends on its type: line breaks, the name on
its own line, delimiters, punctuation after an address, and what the rule for URI userinfo names
(`RefinedKeepsValue`), and all of that (`BoundaryExactly`). Secrets in literals
are reported exactly where their values stand in the source, at both depths of quoting.

**Stream restorers** (`Channels`, `ChatChannels`, `ChatStream`, `Protocols`, `EventPlans`,
`ServerEvents`, `EventLines`, `RestoreTree`, `RestoredLeaves`, `SoundCodec`, `Renaming`, `Gateway`, `Guardrail`,
`ArgumentStreams`). Three event-driven machines with
one buffer per channel. In the guardrail each channel receives its own text, restored, whatever
the events and their order; nothing is dropped or mixed. All three send every event on once, in its
place and as it is to be, but for chat chunks of which nothing is left. In the gateway that holds if and only if
no event that is restored as a whole turns into a delta with text of its own: one whose type name
holds a fake can, and `GainIsRead` says exactly which do (`RestoreStream`,
`RenamedEventGainsText`). In the chat handler two things can go wrong, and the exact conditions
are proved: text that comes after a finish chunk and ends in the beginning of a placeholder loses
that ending (`SentIsWhole`, `LateBeginningIsCut`), and the held remainder of a call that is absent
from a finish entry is sent ahead of the other entries of its choice in the same chunk
(`InOrderExact`, `OneEarlyRemainder`, `RemainderOvertakes`).

**Caches** (`Lru`, `Cache`, `CachedDetection`, `WindowCache`). Under any interleaving of requests
the detection cache changes no place and no label of a report, and nothing else of one that quotes
its text. Both caches evict the least recently used entry only, and serve what was stored last; the
detection cache serves nothing too old, and a closed window cache stays empty.

## Hypotheses a reader should know

- Foreign code is a parameter: detectors, tokenizers, the fake generator, Python's character
  classes, the patterns of the secret rules, and the JSON library of the gateway. That library is
  required to return no key twice and numbers as it prints them, no value larger than its source,
  and to dump such values on one line that parses back, an object with a brace first.
  `SoundCodecExists` shows that these demands can be met.
- What counts as white space is a parameter; where a result says both directions, the blank and the
  tab are white space and no character of a URI scheme is.
- The lines of an upstream response hold no line break, as the HTTP client delivers them.
- Detections lie in their text, and need not quote it. The cache keeps places only and takes values
  from the text again, so a report comes back as it was exactly when all it lists quotes the text
  (`ReportIsRebuiltExactly`). Detections that quote are enough for that (`ReportQuotes`). Those of
  a Hugging Face pipeline need not, where the reported word is stripped and its offsets are not
  (`StrippedIsNotRebuilt`, `privaite/pii/detector_base.py:106-119`).
- Cache keys are injective, clocks are arbitrary, and a locked method is one step.

## Model

| member | source | states |
|---|---|---|
| Literals.SplitIsUnique | privaite/pii/mapping.py:11 | A placeholder-shaped string has one type part and one number, whatever order the expression is matched in |
| Literals.FindLiteralsExact | privaite/pii/mapping.py:11 | The scan finds every placeholder-shaped substring of a text and nothing else |
| Literals.LiteralsApart | privaite/pii/mapping.py:11 | Two placeholder-shaped strings of one text are the same occurrence or do not overlap |
| Literals.NumberedInjective | privaite/pii/anonymizer.py:144-151 | Different numbers give different placeholders of a type |
| Literals.NumberedIsLiteral | privaite/pii/anonymizer.py:144-151 | A numbered placeholder has the recognised shape if and only if its type name has 1 to 100 characters and no bracket |
| Mapping.LiteralsOf | privaite/pii/mapping.py:52-73 | The reserved strings of a text are exactly the placeholder-shaped substrings of it |
| Mapping.MapState.AheadShrinks | privaite/pii/anonymizer.py:144-151 | Passing a taken number leaves strictly fewer taken placeholders ahead, so the number search ends |
| Mapping.MapState.FreshFrom | privaite/pii/anonymizer.py:144-151 | The search answers with the first number whose placeholder is neither reserved nor issued |
| Mapping.PIIMapping.NumberedPlaceholder | privaite/pii/anonymizer.py:144-151 | The loop computes that first free placeholder and terminates |
| Mapping.PIIMapping.Add | privaite/pii/mapping.py:27-31 | New state: both maps, the type and the count of the type |
| Mapping.PIIMapping.Note | privaite/pii/mapping.py:33-42 | New state: a lossy detection touches no map, and counts once per original |
| Mapping.PIIMapping.AddLiteral | privaite/pii/mapping.py:44-50 | New state: both maps, and no count |
| Mapping.PIIMapping.Reserve | privaite/pii/mapping.py:52-73 | A value on the heap, shared or holding itself: the reserved set gains exactly the literals of the texts that can be reached from it |
| Mapping.PIIMapping.ReserveFrom | privaite/pii/mapping.py:52-73 | The recursion enters every container once, so it ends, and walks each it enters to its end |
| Containers.WalkReachesAll | privaite/pii/mapping.py:59-73 | A walk that has entered nothing before and is through with a value is through with all that can be reached from it |
| RoundTrip.ReservedIsFresh | privaite/pii/mapping.py:52-73 | What is reserved for a request is what the texts of its body hold, as the round trip takes it |
| Mapping.PIIMapping.Remember | privaite/pii/mapping.py:96-100 | New state: the first type of a known value stays |
| Anonymization.Anonymizer.MakePlaceholder | privaite/pii/anonymizer.py:115-142 | The proposal of each method, for fake replacement the first usable of eleven or none; the SentText rows say what it is |
| Anonymization.Anonymizer.ShieldLiterals | privaite/pii/anonymizer.py:73-107 | Untaken literals are reserved, late ones swapped unless a detection touches them, numbered in text order |
| Anonymization.SwapsAreLiterals | privaite/pii/anonymizer.py:73-107 | The swaps stand on literals that no detection touches, apart from each other |
| Anonymization.PiecesDescend | privaite/pii/anonymizer.py:46-51 | Detections and swaps sorted for the pass are disjoint and go from right to left |
| Anonymization.Anonymizer.IssueFake | privaite/pii/anonymizer.py:56-69 | One span: reuse, issue or note, with the whole new mapping |
| Anonymization.Anonymizer.Anonymize | privaite/pii/anonymizer.py:35-71 | Any detections: one splice after the other, from the right, on the text as it is by then; where they are apart and not empty, the text in which every span is replaced |
| Anonymization.SplicedIsReplaced | privaite/pii/anonymizer.py:44-71 | From right to left and apart, every offset still points into the untouched part, so splicing in place is replacing every span |
| SentText.IssuedStands | privaite/pii/anonymizer.py:56-69 | A masked value becomes its mask character by character, over and over, a redacted one the bracketed name of its type, and any other the fake the mapping has for it |
| SentText.MaskingNeverFails | privaite/pii/anonymizer.py:115-122 | A mask or a type name is always there to give, and leaves both maps alone |
| SentText.NewFakeIs | privaite/pii/anonymizer.py:123-142 | A value without a fake gets the next free number of its type, or a proposal that is neither the value nor taken |
| SentText.OldFakeStays | privaite/pii/anonymizer.py:60-62 | A value that has a fake is given that fake, and nothing changes |
| SentText.SentIsLaidOut | privaite/pii/anonymizer.py:35-71 | A sent text is the text with, in the place of each detection and swapped literal, what stands for it, and every other character where it was |
| SentText.RunIsLaidOut | privaite/pii/anonymizer.py:35-107 | The same for every text of any run: masks and type names in the place of masked and redacted values, fakes of the final mapping in the place of the others |
| DeAnonymizer.LongestIs | privaite/pii/deanonymizer.py:36-45 | The alternation takes the longest fake that starts at a position |
| DeAnonymizer.RestoreSplit | privaite/pii/deanonymizer.py:36-45 | The batch restore works piece by piece wherever no fake is cut |
| DeAnonymizer.RestoreFixes | privaite/pii/deanonymizer.py:36-45 | A text in which no fake occurs is left as it is |
| DeAnonymizer.RestoreAround | privaite/pii/deanonymizer.py:36-45 | An issued placeholder is restored on its own, and so is the text on both sides of it |
| RoundTrip.IssueIsSound | privaite/pii/anonymizer.py:56-69 | Issuing a placeholder keeps the maps inverse, issues nothing reserved, and the fake restores to the value |
| RoundTrip.SwapLiteralsIsSound | privaite/pii/anonymizer.py:73-107 | Every late literal not touched by a detection is swapped, for a fake that restores to the literal |
| RoundTrip.AnonymizedRestores | privaite/pii/anonymizer.py:35-107 | One text under any consistent mapping: what is sent restores to the text under this and every later mapping |
| RoundTrip.RequestRoundTrip | privaite/pii/anonymizer.py:35-107 | A whole request: every sent text restored with the final mapping, at once or streamed in any chunks, is the text; reserved text relayed as it is stays as it is |
| RoundTrip.RoundTripExact | privaite/pii/mapping.py:11 | Under the placeholder method all texts round-trip if and only if the type name has the recognised shape |
| Invariants.RetryIsExact | privaite/pii/anonymizer.py:123-138 | The retries take the first usable of the eleven variants and fail only when none is usable |
| Invariants.IssueKeepsMutualExactly | privaite/pii/anonymizer.py:56-67 | The maps stay mutual inverses at every step but one: a value whose fake was empty is issued another |
| Invariants.EmptyFakeBreaksRun | privaite/pii/anonymizer.py:56-67 | The failing run: a value whose first fake is empty is detected twice |
| Invariants.RunKeeps | privaite/pii/anonymizer.py:35-71 | Every run, any mix of methods, no hypothesis: whatever stands in either map was there before, looks like a placeholder, or was detected under a method that can be undone; the maps stay mutual inverses if the generator proposes no empty fake, and no value is its own fake if placeholder types have names of the recognised shape |
| Invariants.MaskedNeverComesBack | privaite/pii/anonymizer.py:26-30 | A value that is only ever masked or redacted is in neither map at the end of any run |
| Invariants.NeverSelfExact | privaite/pii/anonymizer.py:144-151 | No value of a placeholder type is ever its own fake if and only if the type name has the recognised shape |
| Invariants.CountedWhenFirst | privaite/pii/mapping.py:27-42 | A detection is counted for its own type only, and only when its value is not on record |
| Invariants.CountedOnce | privaite/pii/mapping.py:33-42 | So the same value is not counted again, unless its fake is empty |
| Invariants.OwnFakeIsSent | privaite/pii/anonymizer.py:144-151 | The failing input for any other name: a text that is its own first placeholder is sent as itself |
| Streaming.DrainSplit | privaite/streaming/buffer.py:79-97 | Feeding two pieces one after the other is feeding them together, for prefix-free fakes |
| Streaming.DrainIsRestore | privaite/streaming/buffer.py:79-102 | Emitted text plus held text is the batch restore when no fake sits inside the start of another |
| Streaming.StreamEqualsBatch | privaite/streaming/buffer.py:79-102 | For every way of cutting a text, the fed outputs and the flush are the batch restore of the whole text |
| Streaming.ChunkInvarianceExact | privaite/streaming/buffer.py:79-97 | The output does not depend on the chunks if and only if no fake starts another |
| Streaming.StreamEqualsBatchExact | privaite/streaming/buffer.py:79-102 | Streaming is the batch restore if and only if no fake starts another and none sits inside the start of another |
| Streaming.BracketingSuffices | privaite/streaming/buffer.py:36-102 | Issued placeholders (one bracket at either end) meet both conditions |
| TrieBuffer.StreamingDeAnonymizer.InsertTrie | privaite/streaming/buffer.py:48-54 | The heap trie stays a tree that indexes exactly the fakes inserted |
| TrieBuffer.StreamingDeAnonymizer.TrieLookup | privaite/streaming/buffer.py:56-69 | The walk returns the longest fake that starts the text, with its original |
| TrieBuffer.StreamingDeAnonymizer.HasPrefix | privaite/streaming/buffer.py:71-77 | True if and only if some fake starts with the text |
| TrieBuffer.StreamingDeAnonymizer.Feed | privaite/streaming/buffer.py:79-97 | The loop emits what is decided and keeps the rest: the state machine of the streaming theorems |
| TrieBuffer.StreamingDeAnonymizer.Flush | privaite/streaming/buffer.py:99-102 | Gives up and clears the held text |
| JsonText.DecodeEscape | privaite/streaming/buffer.py:8-13 | Escaping is undone by a parse of the string body, section 7 of RFC 8259 |
| JsonText.RestoreCommutesExact | privaite/streaming/buffer.py:8-25 | Restoring escaped text with escaped originals is escaping the restored text if and only if no fake holds a character that is escaped |
| JsonText.FragmentsDecodeToRestored | privaite/streaming/buffer.py:8-25 | However an escaped text is cut, the streamed fragments parse to the restored text |
| JsonText.RestoredBodyIsValid | privaite/streaming/buffer.py:16-25 | Any valid string body stays valid when restored with escaped originals |
| JsonReading.ReadsRestoredExactly | privaite/streaming/buffer.py:8-25 | However the provider escapes: for all originals a client reads the restored text if and only if every fake it would have read is written without escapes |
| JsonReading.FragmentsAreRead | privaite/streaming/buffer.py:8-25 | Then it does not matter how the literal is cut into chunks |
| JsonReading.EscapedIsSpelled | privaite/streaming/buffer.py:8-13 | The form the code itself writes is one in which they are |
| JsonText.JsonEscapedMapping | privaite/streaming/buffer.py:16-25 | The escaped mapping has the same fakes, with every original escaped |
| Merge.UnionIsMerge | privaite/pii/entity.py:39-87 | The union covers exactly the detected positions with disjoint ordered spans; each detection lies in one that ranks at least as high, and each label comes from a detection under it |
| Merge.UnionSpansUnique | privaite/pii/entity.py:39-87 | The spans do not depend on order, repetition, scores, resolution or policy |
| Merge.UnionIdempotent | privaite/pii/entity.py:39-87 | Merging a merge changes nothing |
| Merge.UnionQuotes | privaite/pii/entity.py:71-85 | Merged spans quote the text they cover when the detections do |
| Merge.WidenDominates | privaite/pii/entity.py:123-147 | The winner of an overlap keeps one of the two labels and has at least the priority of both |
| Policy.OverlapIsDecided | privaite/pii/entity.py:58-85 | Of two overlapping detections the later wins the label exactly when its type ranks higher, or ranks the same and it has the higher score, the longer span, or comes from Presidio, as configured |
| Policy.PresidioCanLose | privaite/pii/entity.py:137-147 | The failing input for three: the one from Presidio gives way to a higher score of its own type, and that to a third type |
| Policy.HighestWins | privaite/pii/entity.py:39-87 | Where the score decides, a merged span carries the label of a detection in it, and none that starts in it ranks higher, or as high with a higher score |
| Merge.MergeUnion | privaite/pii/entity.py:39-87 | The loop computes the union merge |
| Merge.ConfirmPairs | privaite/pii/entity.py:90-118 | The two loops with their seen set compute the confirmed detections in the order in which they are noted |
| Merge.ConfirmedExactly | privaite/pii/entity.py:90-118 | Confirmed are exactly the detections overlapped from another detector, each once |
| Merge.MergeEntities | privaite/pii/entity.py:21-36 | Union under the configured resolution, or the union by score of the confirmed detections |
| Merge.MergedIsMerge | privaite/pii/entity.py:21-36 | Under either strategy the result covers exactly the detections that count (all, or those another detector agrees with), which it outranks |
| AllowList.BisectRight | privaite/pii/allow_list.py:168-171 | The binary search on ends finds the first span that ends after the detection starts |
| AllowList.BisectLeft | privaite/pii/allow_list.py:168-171 | The binary search on starts finds the first span that starts at or after the end of the detection |
| AllowList.Touched | privaite/pii/allow_list.py:164-174 | The index range found by bisection is the set of spans that overlap the detection, as the linear scan would find it |
| AllowList.JudgeLetsThrough | privaite/pii/allow_list.py:156-186 | A span is let through if and only if some detection overlaps it and every one that does is admitted by a rule |
| Policy.OverlapsExactly | privaite/pii/allow_list.py:164-174 | Two detections overlap if and only if some place lies in both |
| Policy.AllowedExactly | privaite/pii/allow_list.py:187-193 | A span counts as partly allowed if and only if a detection that overlaps it is admitted |
| AllowList.SelectPartitions | privaite/pii/allow_list.py:187-193 | Every merged span is redacted or allowed, never both and never neither, and both lists keep the merged order |
| AllowList.SelectElements | privaite/pii/allow_list.py:187-193 | A merged span is allowed or redacted by the verdict on it, and nothing else is in either list |
| AllowList.RefusedInTheWay | privaite/pii/allow_list.py:187-193 | Of the refused detections exactly those over a partly allowed span are reported |
| AllowList.ApplyAllowList | privaite/pii/allow_list.py:141-193 | The loops compute the three lists of the verdict |
| Engine.RefusedIsRedacted | privaite/pii/engine.py:821-834 | Under either merge strategy: a detection that counts and that no rule admits lies whole in a redacted span, of a blocked type if it is blocked |
| Policy.TypeOrder | privaite/pii/engine.py:436-444 | One type outranks another exactly when it is blocked and the other is not, or is masked or redacted and the other is neither that nor blocked |
| Policy.StrictestWins | privaite/pii/engine.py:821-834 | A detection that counts lies in a merged span no weaker than itself: blocked if it is blocked; blocked, masked or redacted if it is masked or redacted |
| Policy.AdmittedExactly | privaite/pii/allow_list.py:92-98 | A rule admits a value of at most 1024 characters that it matches, of a type it names, or without names of any type but SECRET and the blocked ones |
| Policy.ProtectedIsRedacted | privaite/pii/allow_list.py:18-20 | A secret, or a detection of a blocked type, lies in a redacted span unless a rule names its type |
| Engine.KnownIsCovered | privaite/pii/engine.py:446-486 | Every occurrence of a known value that stands alone and that no earlier occurrence overlaps ends up inside a span that is replaced |
| Propagation.TeachesExactly | privaite/pii/engine.py:32-37 | A match is remembered if and only if it lies in a detected span and has eight or more characters, a digit and something else |
| Propagation.LearnedExactly | privaite/pii/engine.py:460-465 | A value is known after a text if and only if it was known before, or such a match of the text has it |
| Propagation.LearnedType | privaite/pii/engine.py:460-465 | Under the type of the first such match |
| Propagation.LearnedOnce | privaite/pii/mapping.py:96-100 | No value is known twice, so none has two types |
| Propagation.CopiesExactly | privaite/pii/engine.py:466-480 | The copies are exactly the occurrences the scan reaches that have no letter or digit next to a letter or digit at an end, and that no detection of the same type covers |
| Propagation.LearnedIsReplaced | privaite/pii/engine.py:446-486 | What a text teaches is replaced in any later text: where the value stands apart and no earlier occurrence reaches into it, it lies in a span given to the anonymizer |
| Engine.ScanIsCompleteExact | privaite/pii/engine.py:466-480 | The scan reaches every occurrence of a value in every text if and only if no end of the value is also a beginning of it |
| Engine.ScannedExactly | privaite/pii/engine.py:466-480 | In one text it reaches exactly the occurrences that overlap no earlier one it reached |
| Engine.OverlappedIsMissed | privaite/pii/engine.py:466-480 | The failing input: a token-shaped value of which an occurrence that stands alone lies in no span |
| Engine.RefusedIsReplaced | privaite/pii/engine.py:414-486 | Such a detection lies whole in a span given to the anonymizer, after merge, allow list and propagation |
| Engine.FinalSeparate | privaite/pii/engine.py:446-486 | What the anonymizer is given is disjoint, non-empty and in bounds |
| Engine.GateIsSafe | privaite/pii/engine.py:414-434 | Under either strategy: a blocked detection that counts and that no rule naming its type admits makes the gate reject the text, whatever else was detected and however spans merge |
| Engine.GateIsExact | privaite/pii/engine.py:414-434 | The gate rejects if and only if a span that is not let through holds a blocked detection that counts, or a propagated copy has a blocked type |
| Engine.PIIEngine.DetectAll | privaite/pii/engine.py:784-834 | Merge by the configured strategy, and allow list, of the raw detections |
| Engine.PIIEngine.FindCopies | privaite/pii/engine.py:466-480 | The scan collects every occurrence of a known value that is not covered and stands alone |
| Engine.PIIEngine.AddKnownValues | privaite/pii/engine.py:446-486 | The loops compute the remembered values and the merge with their copies, of which the Propagation rows say what they are |
| Engine.PIIEngine.AnonymizeText | privaite/pii/engine.py:414-434 | Rejected, failed or forwarded, as the gate and the anonymizer say |
| Walker.WalkReturns | privaite/pii/engine.py:572-600 | A scrubbed document comes back under the mapping of any later time: same keys, lengths and leaves, up to long numbers that come back as their digits |
| ScrubbedLeaves.EveryLeafIsScanned | privaite/pii/engine.py:572-600 | At the end of every path of a scrubbed document: the same keys and lengths, every string scanned, a number scanned exactly when it has seven digits or more and a string only where that changed it |
| ScrubbedLeaves.DigitsAreCounted | privaite/pii/engine.py:589 | What is compared with seven is the number of its digits |
| Walker.DocumentWalker.WalkAnonymize | privaite/pii/engine.py:572-600 | The recursive walk on the shared mapping computes the scrubbed document |
| Channels.FlushedLastIsWhole | privaite/gateway/restore.py:97-107 | A channel that is flushed only once its text is complete is restored as one text |
| Channels.FollowsFeed | privaite/gateway/restore.py:87-95 | A fed piece keeps what a channel has sent and holds in step with its own text |
| Channels.FollowsFlush | privaite/gateway/restore.py:97-107 | A flush sends the rest of the open stretch, so that all of it has been sent, restored |
| Channels.BufferStore.Feed | privaite/gateway/restore.py:87-95 | Feeding one channel moves that channel by one step and no other |
| Channels.BufferStore.Flush | privaite/gateway/restore.py:97-107 | Flushing one channel empties that channel and no other |
| ChatStream.ChatRestorer.FeedSlots | privaite/streaming/handler.py:179-262 | Every slot of a delta goes through the buffer of its channel, in order |
| ChatStream.ChatRestorer.FlushIntoDelta | privaite/streaming/handler.py:113-177 | On a finish chunk every held remainder of the choice goes out: behind the text of its slot, or early in a chunk of its own exactly where an argument has no slot |
| ChatStream.ChatRestorer.RestoreChunk | privaite/streaming/handler.py:179-291 | One provider chunk, with any entries: each channel sends its early remainders, then its outputs; the chunk goes out with only its text changed, unless it had content and nothing at all is left of it |
| ChatStream.ChatRestorer.DrainBuffers | privaite/streaming/handler.py:50-65 | After the stream each unfinished choice gets what it still holds |
| ChatStream.StreamResponse | privaite/streaming/handler.py:179-308 | Every stream whatever it holds: each channel is sent what its own entries give alone; in order and with no text after a finish, the batch restore of its text; every chunk goes out once, in its place and with only its text changed, unless nothing is left of it |
| ChatStream.HeldBackExactly | privaite/streaming/handler.py:241-268 | An entry counts as held back exactly when it had content, none is left, and no other text or place, further field, finish or other payload rides on it |
| ChatStream.OrderlyIsReceived | privaite/streaming/handler.py:179-308 | A channel that reads in order and has no text after a finish is received as the batch restore of its text |
| ArgumentStreams.ChatIsRead | privaite/streaming/handler.py:179-308 | Such a channel of arguments reads as the same JSON document with every string in it restored, any other as the restored text |
| ChatStream.SentIsWhole | privaite/streaming/handler.py:222-308 | Every stream: a channel in order is received as its stretches between finishes, each restored, if and only if it never finished or its text since then does not end in the beginning of a fake |
| ChatStream.LateBeginningIsCut | privaite/streaming/handler.py:295-308 | The failing input: a finish chunk and then the beginning of a placeholder |
| ChatStream.InOrderExact | privaite/streaming/handler.py:147-180 | A channel is received in the order of its entries if and only if no chunk sends a remainder early past other text |
| ChatStream.TextIsInOrder | privaite/streaming/handler.py:113-177 | Channels that carry no arguments are always in order |
| ChatStream.SinglesAreInOrder | privaite/streaming/handler.py:113-177 | So are arguments where each chunk has at most one entry of the choice |
| ChatStream.RemainderOvertakes | privaite/streaming/handler.py:147-180 | The failing input: an argument and its finish in two entries of one chunk |
| ChatChannels.OneEarlyRemainder | privaite/streaming/handler.py:147-180 | A chunk with one early remainder is in order if and only if there is none held, or the text before it is that remainder over and over |
| ChatChannels.HeldExactly | privaite/streaming/buffer.py:79-97 | For issued placeholders a buffer holds text back if and only if the text ends in the beginning of a fake |
| Protocols.ProtocolsAreLawful | privaite/gateway/protocols.py:57-169 | Both protocols: a delta names one channel for good, a flush event reads back as its channel and text and can be dumped, and rewriting keeps the channel |
| Protocols.FlushEventReclassified | privaite/gateway/protocols.py:85-91 | A flush event classifies as a delta of the channel it was made for, with the held text at the end of its path |
| Protocols.RewrittenReclassified | privaite/gateway/protocols.py:57-82 | Replacing the fragment of a delta leaves its plan as it was |
| Protocols.DoneFlushesItsDelta | privaite/gateway/protocols.py:113-159 | An event flushes a delta channel by name if and only if it is the done twin of that delta |
| EventPlans.AnthropicCarries | privaite/gateway/protocols.py:57-82 | An event carries text for a block, as its text or as its JSON, exactly when it is a delta of that type with a string there |
| EventPlans.AnthropicFinishes | privaite/gateway/protocols.py:77-82 | A channel is finished by the stop of its own block or of the message, and by no other event |
| EventPlans.ThinkingIsLeft | privaite/gateway/protocols.py:73-76 | Exactly thinking and signature deltas go out as they came |
| EventPlans.ResponsesCarries | privaite/gateway/protocols.py:97-151 | An event carries text exactly when it is the delta of one of seven streams, for its item or else its output index |
| EventPlans.ResponsesFinishes | privaite/gateway/protocols.py:111-159 | A channel is finished by the done event of its own stream and output or by the end of the response, and by no other event |
| EventPlans.ReasoningIsLeft | privaite/gateway/protocols.py:128-153 | Exactly reasoning events and three binary payloads go out as they came |
| EventPlans.JsonExactly | privaite/gateway/protocols.py:57-151 | A channel carries JSON source text exactly when it is the arguments of a tool |
| EventPlans.OpaqueStays | privaite/gateway/protocols.py:172-190 | A thinking, redacted thinking, reasoning or compaction block reaches the client as it came, whatever is in it |
| EventPlans.OtherTextIsRestored | privaite/gateway/protocols.py:172-190 | Every string in no such block is restored |
| WholeValues.ArgumentsAreRestored | privaite/gateway/restore.py:54-70 | Arguments that are JSON parse to the restored tree if and only if their raw text holds a fake or restoring the tree changes nothing; RestoredLeaves says what that tree holds |
| WholeValues.EscapedFakeStays | privaite/gateway/restore.py:54-70 | The failing input: a placeholder whose bracket is written as an escape |
| WholeValues.RestoredTree | privaite/gateway/restore.py:27-51 | A restored document is again one that a parser returns, no key twice and numbers as printed; RestoredLeaves says what it holds |
| RestoredLeaves.TreeIsRestored | privaite/gateway/restore.py:27-51 | At the end of every path: a string that lies in no object of a skipped type is restored, as arguments under that key; keys, lengths, numbers and what is skipped are unchanged |
| RestoredLeaves.ArgumentsBecome | privaite/gateway/restore.py:54-70 | Arguments without a fake stay, those that are not JSON are restored as text, and all others parse to the document with every string in it restored |
| RestoredLeaves.PutTextElsewhere | privaite/gateway/restore.py:143-150 | A rewritten delta differs from the event only at the place of its text |
| SoundCodec.SoundCodecExists | privaite/gateway/restore.py:119-150 | What is asked of the JSON library can be had, for any way of printing numbers |
| ServerEvents.ReplacedReadsBack | privaite/gateway/restore.py:152-166 | The rewritten event holds the new payload and its other lines are unchanged |
| EventLines.DataExactly | privaite/gateway/restore.py:112-117 | The data of an event is what its data lines hold, in order, a space behind the colon left out |
| EventLines.DataIsJoined | privaite/gateway/restore.py:117 | The data of several lines is joined by line breaks |
| EventLines.DoneExactly | privaite/gateway/restore.py:118-119 | An event is the end of the stream if and only if its data, white space around it aside, is the mark for that |
| EventLines.ParsedExactly | privaite/gateway/restore.py:120-125 | Otherwise it is read as the object its data parses to, if it does to one |
| EventLines.EndClosesAll | privaite/gateway/restore.py:118-119 | The end of the stream closes every channel, and an event without data none |
| ServerEvents.FlushBlockIsRead | privaite/gateway/restore.py:97-107 | A client reads a flush block as the held text of its channel |
| ServerEvents.RewrittenDelta | privaite/gateway/restore.py:134-150 | A rewritten delta is read as the new text for the same channel |
| Renaming.GainIsRead | privaite/gateway/restore.py:134-141 | Restoring a whole event gives it text if and only if its type names restore to those of a delta, are not skipped, and the string of such a delta is there; the text is that string restored |
| Renaming.PlainNamesGainNothing | privaite/gateway/restore.py:134-141 | So an event that is no delta and whose type names hold no fake gains none |
| ServerEvents.RestoredIsRead | privaite/gateway/restore.py:134-141 | An event restored as a whole carried no text, and its rewritten form carries exactly what it gains |
| ServerEvents.RenamedEventGainsText | privaite/gateway/restore.py:134-141 | The failing input where one does: an event restored into a delta of its own |
| Gateway.SSERestorer.Flush | privaite/gateway/restore.py:97-107 | The channels named, or all, are emptied and what each held is in a delta event of its own |
| Gateway.SSERestorer.FeedDelta | privaite/gateway/restore.py:143-150 | The fragment is fed to the buffer of its channel and replaced by the output |
| Gateway.SSERestorer.Rewrite | privaite/gateway/restore.py:109-141 | The event itself: a delta with new text in the place of its text, a whole value restored leaf by leaf, or as it came; its other lines kept, and no text but its own and what it gains |
| Gateway.SSERestorer.RewriteWhole | privaite/gateway/restore.py:134-141 | A whole event: every string in it restored that the protocol does not skip, and everything else as it was |
| Gateway.SSERestorer.ProcessEvent | privaite/gateway/restore.py:109-132 | Every channel moves by one event, whatever the event; flushes come before the event that closes the channel |
| Gateway.RunsNext | privaite/gateway/restore.py:109-132 | One more event, of any kind, keeps every channel in step with its own text |
| Gateway.SentEventsAreRead | privaite/gateway/restore.py:73-74 | A client that splits the sent lines at blank lines finds the events that were sent |
| Gateway.EmittedReadsBack | privaite/gateway/restore.py:73-74 | A client that splits the text of the stream into lines and the lines into events finds the events that were sent, section 9.2.6 of the WHATWG HTML standard |
| Gateway.RestoreStream | privaite/gateway/restore.py:169-201 | Every event sequence: in the text sent, a channel reads its own text, each stretch between flushes restored as one, nothing dropped and nothing mixed, if and only if no event gains text for it; and every event goes out once, in its place and as it is to be, with only flushes besides |
| Gateway.QuietExactly | privaite/gateway/restore.py:109-141 | No channel gains text if and only if no event that is restored as a whole has one to gain |
| Gateway.DeliveredExactly | privaite/gateway/restore.py:169-201 | A channel that carries its own text and what it gained is delivered exactly when it gained none |
| Guardrail.StreamRestorer.Restore | integrations/litellm/privaite_guardrail.py:179-190 | One piece through its buffer; a finished channel is flushed and dropped |
| Guardrail.StreamRestorer.CloseChoice | integrations/litellm/privaite_guardrail.py:192-215 | All open channels of a finished choice are closed and their tails put on its delta |
| Guardrail.StreamRestorer.DrainOpen | integrations/litellm/privaite_guardrail.py:217-223 | Every tail still held goes out in a clone of the last chunk of its choice, which is always there |
| Guardrail.RestoreStream | integrations/litellm/privaite_guardrail.py:150-223 | Every stream, with or without finish reasons: each channel receives its text restored, nothing dropped; every chunk goes out in order with only its text changed, and then the tails |
| ArgumentStreams.DocumentIsRead | privaite/streaming/buffer.py:8-25 | JSON source text whose strings write out their fakes, restored with escaped originals: the same text between the strings, and every string parses to itself restored |
| ArgumentStreams.GuardrailIsRead | integrations/litellm/privaite_guardrail.py:150-223 | In the guardrail, a channel finished no earlier than it is complete: arguments read as the document restored, any other as the restored text |
| ArgumentStreams.GatewayIsRead | privaite/gateway/restore.py:87-107 | In the gateway the same, where the arguments are those of a tool in either protocol |
| Windows.WindowRanges | privaite/pii/detector_onnx.py:70-81 | None unless 0 <= overlap < window; otherwise full windows that share exactly the overlap, up to the first that reaches the end |
| Windows.CheckWindowCoverage | privaite/pii/detector_onnx.py:84-92 | Accepts if and only if each window is one of the tokens, starts no later than the ones before reach, and the end is reached |
| Windows.GaplessCovers | privaite/pii/detector_onnx.py:84-92 | Windows that pass the check leave no token out |
| Windows.WindowsPass | privaite/pii/detector_onnx.py:70-92 | The windows always pass the check |
| Windows.SharedRunLength | privaite/pii/detector_onnx.py:123-140 | The expected run if it is one, otherwise the longest |
| Windows.SharesCut | privaite/pii/detector_onnx.py:143-170 | The head and tail cuts of a row never cross |
| Windows.StitchWindows | privaite/pii/detector_onnx.py:143-170 | The loops join the pieces that are left of the rows |
| Stitching.StitchingIsExact | privaite/pii/detector_onnx.py:143-170 | For distinct offsets, or no dropped tokens and a positive overlap: each token once and in order, with the prediction of a window that holds it, and half the overlap of context where no token is dropped |
| Stitching.StitchingLosesNoText | privaite/pii/detector_onnx.py:143-170 | For offsets that go forward: exactly the offsets of the tokens, in order; only copies can be dropped |
| Stitching.StitchingKeepsCopies | privaite/pii/detector_onnx.py:123-170 | No copy is dropped if and only if at every seam the windows share the whole overlap or the kept tokens around it do not repeat |
| Stitching.RepeatsIsConstant | privaite/pii/detector_onnx.py:123-140 | For offsets that go forward, they repeat exactly where the shared tokens, one before and one behind lie on the same characters |
| Stitching.StitchingCanDropCopies | privaite/pii/detector_onnx.py:123-140 | The failing input, for every window and overlap: the same token twice with none between that stands for text is taken for one |
| TextCoverage.CheckTextCoverage | privaite/pii/detector_onnx.py:95-120 | Accepts if and only if the tokens lie in the text, go forward, and every character outside them is ignorable |
| TextCoverage.ScanLosesNoText | privaite/pii/detector_onnx.py:95-170 | After the check and the stitching every character that is not ignorable still lies in a token |
| SpanDecoding.EveryMarkInOneGroup | privaite/pii/detector_onnx.py:262-311 | Every token with a mark lies in exactly one group, of its own type, each group as long as it can be; other tokens lie in none |
| SpanDecoding.SnapKeepsTheValue | privaite/pii/detector_onnx.py:196-259 | Snapping drops nothing but blanks and leading separators, drops the span only when all is blank, and adds only the rest of a word |
| SpanDecoding.SnapExactly | privaite/pii/detector_onnx.py:196-259 | Where a snapped span starts, which blanks and separators it leaves out, and where the word at its end is completed, each an if and only if |
| SpanDecoding.MeanBetween | privaite/pii/detector_onnx.py:262-311 | The score of a group lies between its least and its greatest |
| SpanDecoding.AppendSpan | privaite/pii/detector_onnx.py:196-259 | The loops append the snapped span, if there is one |
| SpanDecoding.DecodeBioesSpans | privaite/pii/detector_onnx.py:262-311 | None for an unreadable label; otherwise one snapped span per group, with the mean score; the LabelReading rows say which groups the labels make |
| SpanDecoding.MarkedTextIsReported | privaite/pii/detector_onnx.py:196-311 | Every character of a marked token lies in a reported span of the type it was marked with, but for blanks and separators before the span |
| LabelReading.MarksExactly | privaite/pii/detector_onnx.py:173-177 | A label marks something exactly when it is S, B, I or E, a dash and a type |
| LabelReading.TakenExactly | privaite/pii/detector_onnx.py:173-177 | And is taken for that letter and that type, of which there is one each |
| LabelReading.GroupsAreRuns | privaite/pii/detector_onnx.py:262-311 | The groups are the runs of the labels: a mark and all that go on with its type, up to one that closes it, in order and with every mark in one |
| LabelReading.MarkOpensOrJoins | privaite/pii/detector_onnx.py:262-311 | A single is a group of its own, a begin opens one, an inside or end joins an open group of its type or opens one, and an end closes the group it joins |
| LabelReading.LabelledTextIsReported | privaite/pii/detector_onnx.py:173-311 | Every character of a token labelled S-, B-, I- or E- and a type is reported under that type, but for blanks and separators before the span |
| LabelReading.ScanIsReported | privaite/pii/detector_onnx.py:594-617 | The whole scan: a character that is not ignorable lies in a token without such a label, or is reported under the type of its label |
| SpanDecoding.EverySpanComesFromAGroup | privaite/pii/detector_onnx.py:196-311 | Every reported span is the text of one group, and perhaps the rest of the word it ends in |
| SpanDecoding.ScanReports | privaite/pii/detector_onnx.py:594-617 | The whole scan: a character that is not ignorable is in an unmarked token, or reported |
| WholeWords.ExtendedOnlyGrows | privaite/pii/detector_minilm.py:72-119 | Spans only grow, over marks and word characters, and then cut no word but one that reaches too far |
| WholeWords.ExtendedExactly | privaite/pii/detector_minilm.py:72-119 | What a span becomes: over all the marks right behind it, and from an end that cuts a word to the edge of that word, if that is no more than 64 characters away |
| WholeWords.ExtendSpans | privaite/pii/detector_minilm.py:72-119 | The in-place pass extends every span so |
| Chunks.ChunkText | privaite/pii/detector_base.py:26-48 | The loop terminates and computes the chunks, for any overlap |
| Chunks.ChunksTile | privaite/pii/detector_base.py:26-48 | Each chunk is the text at its offset and fits; chunks move forward, leave no gap and reach the end |
| Chunks.ChunksAreCut | privaite/pii/detector_base.py:35-47 | Where chunks are cut: at the last blank within the overlap, full where there is none, or at the end; the next goes back by the overlap, or on by one character where that is no way forward |
| Chunks.OverlapIsEnough | privaite/pii/detector_base.py:26-48 | Every stretch as long as the overlap is whole in some chunk, for all texts, if and only if a chunk has room for two overlaps (or both are single characters) |
| DetectionCaching.RunInOrder | privaite/pii/cache.py:104-141 | Over every run the entries are ordered by their last use and bounded in number |
| DetectionCaching.ServedIsLastPut | privaite/pii/cache.py:104-118 | What is served was stored last under its key and is no older than the limit |
| DetectionCaching.PutLeavesNoExpired | privaite/pii/cache.py:120-141 | A store leaves no expired entry |
| DetectionCaching.RecentStays | privaite/pii/cache.py:104-141 | An entry stays as long as fewer than the bound of other keys are used since, and no store finds it too old |
| DetectionCaching.GotExactly | privaite/pii/cache.py:104-118 | A lookup serves exactly an entry of its key that is no older than the limit |
| DetectionCaching.GetLosesExactly | privaite/pii/cache.py:104-118 | It loses an entry of its key that is older and no other, and what it serves is used last |
| DetectionCaching.RecentIsServed | privaite/pii/cache.py:104-141 | What was stored is served again as long as it is young enough, fewer than the bound of other keys were used since, and no store found it too old |
| DetectionCaching.DetectionCache.Get | privaite/pii/cache.py:104-118 | Hit, miss and expiry, with the new order and the counters |
| DetectionCaching.DetectionCache.PurgeExpired | privaite/pii/cache.py:129-141 | Exactly the expired entries go |
| DetectionCaching.DetectionCache.Put | privaite/pii/cache.py:120-127 | Purge, store last, evict from the front |
| CachedDetection.RebuiltIffQuoting | privaite/pii/cache.py:25-47 | Entities are rebuilt as they were if and only if each quotes the text it lies on |
| CachedDetection.ReportIsRebuiltExactly | privaite/pii/cache.py:25-47 | A report is rebuilt as it was if and only if all it lists quotes the text; its places and labels always are |
| CachedDetection.StrippedIsNotRebuilt | privaite/pii/detector_base.py:106-119 | The failing input: a blank stripped off the reported word and not off its offsets |
| CachedDetection.ReportQuotes | privaite/pii/engine.py:821-834 | A report quotes its text when the detections do |
| CachedDetection.CacheIsTransparent | privaite/pii/engine.py:792-853 | After any interleaving of lookups and stores, in any languages and configurations, what is served for a query has the places and labels of its report, and is its report if and only if that quotes the text |
| CachedDetection.DetectAllDetailed | privaite/pii/engine.py:784-853 | With the cache the report is the report without it, failures included, unless it was served and does not quote its text; places and labels agree in any case |
| WindowCaching.ClosedStaysEmpty | privaite/pii/window_cache.py:43-64 | Under any interleaving, late stores included, a closed cache stays empty; and it stays bounded |
| WindowCaching.FoundIsStoredLast | privaite/pii/window_cache.py:43-59 | A window that is found was stored last under its key, in a cache never closed |
| WindowCaching.StoredIsThere | privaite/pii/window_cache.py:50-59 | A window just stored is there, unless the cache is closed |
| WindowCaching.RecentIsFound | privaite/pii/window_cache.py:43-59 | A window stored or found is found again as long as fewer than the bound of other keys are used since and the cache is not closed |
| WindowCaching.WindowCache.PutWindow | privaite/pii/window_cache.py:50-59 | Nothing once closed; otherwise stored last, the oldest evicted |
| WindowCaching.WindowCache.GetWindow | privaite/pii/window_cache.py:43-48 | A window that is found is used last |
| WindowCaching.WindowCache.CloseCache | privaite/pii/window_cache.py:61-64 | Closing empties the cache for good |
| Boundaries.PasswordTrims | privaite/pii/boundaries.py:81-111 | Exactly what is given back: the separator a span starts with, or all from the last at-sign of the authority it starts in when no query follows |
| Scanners.AuthoritiesAre | privaite/pii/boundaries.py:40 | The authorities found each stand behind a scheme and two slashes, reach as far as their characters go, and lie apart |
| Scanners.AuthoritiesExactly | privaite/pii/boundaries.py:40 | They are those of all URIs in the range, whose scheme begins with a letter and has at most 32 characters, but those whose colon lies in another authority |
| Scanners.AssignedExactly | privaite/pii/boundaries.py:28-36 | An assignment is found on a line if and only if it stands there behind blanks and perhaps a line number with its mark, a sign and a keyword |
| Boundaries.NamedExactly | privaite/pii/boundaries.py:62-78 | A value start is given if and only if an upper-case name that does not look like a token is assigned there, on the line of the index, which begins no more than 512 characters back |
| Boundaries.RefinedIsOrdered | privaite/pii/boundaries.py:114-220 | A refined span is in pieces: ordered, disjoint, non-empty, inside the span |
| RefinedValues.RefinedKeepsValue | privaite/pii/boundaries.py:114-220 | What a refined secret, address or URL leaves out of a stretch is line breaks at its end, the assigned name on its line, and: of a secret what a URI gives back; of an address the ending run of punctuation, what is in front of the value of its field, or a delimiter; of a URL what is outside the path, or a delimiter |
| RefinedValues.BoundaryKeepsValue | privaite/pii/boundaries.py:159-220 | The same for one span of any type: a telephone number leaves out delimiters only, and all other types nothing |
| RefinedValues.BoundaryExactly | privaite/pii/boundaries.py:159-220 | Both directions for every type: a span loses exactly what each step takes from what the step before has left, unless nothing would be left of it |
| RefinedValues.PiecesExactly | privaite/pii/boundaries.py:131-139 | A span is cut at a line break if and only if the line behind it assigns a name |
| RefinedValues.AssignsExactly | privaite/pii/boundaries.py:134-138 | For the stretches of a span, that is a line that assigns an upper-case name |
| RefinedValues.DroppedExactly | privaite/pii/boundaries.py:142-154 | A stretch is dropped if and only if, without the breaks at its end, nothing is left, it ends in the name on its line, or it is a secret that is all given back |
| RefinedValues.StretchIsRefined | privaite/pii/boundaries.py:155-156 | Any other stretch is refined as one span |
| RefinedValues.OthersAreNotCut | privaite/pii/boundaries.py:124-129 | Only secrets, addresses and URLs are cut into stretches, and an empty span is dropped |
| RefinedValues.TrimExactly | privaite/pii/boundaries.py:143-144 | The breaks at the end of a stretch are all that is trimmed |
| RefinedValues.PairTrims | privaite/pii/boundaries.py:209-219 | What is taken off for a pair of delimiters is the two delimiters at or next to the ends of the span, matching, unescaped and on one line, if and only if they are there |
| RefinedValues.EndingTrims | privaite/pii/boundaries.py:184-188 | What is taken off the end of an address is exactly the run of commas, semicolons and full stops behind its first character |
| RefinedValues.FieldTrims | privaite/pii/boundaries.py:190-197 | What is taken off its start is exactly what is in front of the value of an address field that has its at-sign in the span |
| RefinedValues.UnescapedExactly | privaite/pii/boundaries.py:49-53 | A delimiter is unescaped if and only if an even number of backslashes stands before it |
| RefinedValues.LineExactly | privaite/pii/boundaries.py:56-59 | The line of a span goes from the break before it to the first break behind it |
| Boundaries.RefineSpans | privaite/pii/boundaries.py:114-156 | The loops cut, trim, drop and refine the pieces; the RefinedValues rows say what they may leave out |
| Unescaping.MiddleUnescapes | privaite/pii/recognizer_secret.py:118-137 | What stands between two character cuts unescapes to what is between them |
| Unescaping.EscapedTimesUnescapes | privaite/pii/recognizer_secret.py:118-137 | Unescaping undoes a backslash before every quote and backslash, as often as it was put there |
| Unescaping.OthersStay | privaite/pii/recognizer_secret.py:118-137 | A string without such an escape is left as it is |
| Unescaping.LiteralViews | privaite/pii/recognizer_secret.py:118-137 | Unescaping a literal once more keeps the source map contiguous and true at every depth |
| Unescaping.MapTiles | privaite/pii/recognizer_secret.py:118-137 | The map of a literal starts and ends where the literal does |
| Unescaping.DecodeLiteral | privaite/pii/recognizer_secret.py:118-137 | The loop computes the unescaped literal and its source map |
| SecretSpans.ReportedIsMatched | privaite/pii/recognizer_secret.py:199-228 | A source range is reported if and only if a value stands there that matches in a literal nested in the source, one or two levels deep |
| SecretSpans.ChildExactly | privaite/pii/recognizer_secret.py:209-216 | A literal is gone into if and only if it is there and holds an option name, and it is read unescaped |
| SecretSpans.MatchUnescapes | privaite/pii/recognizer_secret.py:118-137 | Such a range unescapes, once per level, to exactly the value |
| SecretSpans.CliLiteralResults | privaite/pii/recognizer_secret.py:199-228 | The recursion over literals, matches and depth |
| SecretSpans.KeepComplete | privaite/pii/recognizer_secret.py:236-246 | Kept results have strictly increasing starts and ends, and every result lies inside a kept one |

## Left out

- Fuzzy restore by similarity scores, and round trips under fake replacement: the code gives no exact contract there beyond the map invariants.
- Numbers in placeholders are read with ASCII digits, where the expression also accepts other decimal digits; no issued placeholder has any.
- What the splice makes of empty or overlapping detections is computed and not judged: the round trip is stated for detections that are apart and not empty, which is what `Engine.FinalSeparate` shows of non-empty raw ones. Negative offsets are not modelled.
- Scores are real numbers: no rounding and no NaN.
- Requests: message roles, content parts, tool-call arguments parsed from JSON, media parts and the strict mode are dispatch around the modelled text and document walkers.
- The chat handler keeps one dictionary per kind of channel; the model keeps one keyed by choice and channel, so the order in which channels are drained is not modelled, only what each receives. The plain text stream and the pass-through without restore are not modelled.
- The fields of a chat delta are a list of slots; deltas, choices and calls that are not objects are not modelled.
- The gateway's transport, and errors inside it, are not modelled; an event whose type is not a string reads as an event without a type.
- Gateway request scrubbing, guardrail request hooks, configuration, HTTP endpoints and initialisation are not part of this model.
- The merge of model spans with label mappings and thresholds, and the deduplication of windowed detections by place and type, would only add easy members.
- Label text is read at its first dash; scores per token come with the labels and are not computed.
- The patterns behind address fields, paths, literals and secret values are parameters; their vocabulary is not modelled, nor is the order in which a pattern finds overlapping literals. What counts as white space is a parameter of the two patterns that are modelled, assigned names and URI authorities.
- Chunks.ChunksAreCut: speaks of overlaps no longer than a chunk; with a longer one the search for a blank can begin at a negative place, which counts from the end of the text.
- Engine.KnownIsCovered: promises nothing of an occurrence that an earlier one overlaps, because the scan can miss it (`OverlappedIsMissed`).
- Hash digests, salts, locks and threads: keys are injective and locked methods atomic.
- ChatChannels.OneEarlyRemainder: speaks of chunks with one early remainder; where a choice finishes twice in one chunk, the condition stays `KeepsOrder` itself.
