# Memory subsystem of the Gossip AI chat server, in Dafny

This project models the deterministic core of the memory subsystem in `server/llms/`. It proves
what that core promises. The subsystem turns chat sessions into *episodic memories*: a short
story, an emotion, an importance in [0,1] and a journal label. It distils recent episodes into
*semantic memories*: traits, preferences, facts, patterns and relationships, each with a
confidence. It assembles both into a *working memory* context for the language model. On top of
that sit the chat endpoints: a per-user session buffer flushed by an idle timer, the journal
listing, and the keyword router that picks a reflection agent.

Each Python file has a module of its own:

- `memory_models.dfy` (`MemoryModels`): the enums, with parsing that can fail; the [0,1] field
  bounds and the defaults; `WorkingMemory.to_context_string`.
- `episodic_memory.dfy` (`Episodic`): the set of existing labels, the cleanup of the label
  reply with its "General Journal" fallback, fence stripping, episode construction with its
  defaults and validation, and `create_episodic_memory`.
- `semantic_memory.dfy` (`Semantic`): the lookback filter, the minimum-episode gate, the
  30-story prompt, per-item conversion with skipping, `get_semantic_context` with its fixed type
  order and cap of five lines per type.
- `working_memory.dfy` (`Working`): rank scores, the score map, and the high-importance merge.
- `chat.dfy` (`Chat`): the agent router, the conversation text, the idle flush, the session
  table (a class), `get_journals` and `reflect`.
- Helpers: `wrappers.dfy` (`Option`, `Result`); `py_text.dfy` (`PyText`, the Python string
  operations used: `strip`, `lower`, `split`, `join`, slicing, `int`/`str`); `sorting.dfy`
  (`Sorting`, Python's stable `list.sort(key=..., reverse=True)`).

External services become inputs and outputs:

- What a Qdrant scroll or search returns is a parameter `Option<seq<Point>>`. `None` means the
  call raised.
- A completion call's reply is an `Option<string>`.
- `json.loads` is a parameter `parse`.
- `uuid4`, `datetime.now()` and `strftime` are parameters.
- Each upsert is an output, the list of points written. "Nothing is stored on failure" is then
  stated on that output.

The loops of the source are `method`s with invariants. Each is proved equal to a function, and
the properties are proved about that function. The session table, which the source updates in
place, is a `class` with `modifies` clauses.

Points where the code behaves differently from what its names or comments suggest:

- Idle processing never stores anything as written (see Findings).
- The episode payload never carries the journal label as written (see Findings).
- Out-of-range importance or confidence is rejected, not clamped or defaulted: pydantic rejects a
  value outside [0,1], so the episode is discarded
  (episodic_memory.py:163-170, caught at 203-207) and the semantic item is skipped
  (semantic_memory.py:140-151, caught at 180-182).
- `get_journals` fails with a 500 on a journal of two or more entries when one of them has no
  timestamp. The `x.get("timestamp", 0)` default never applies, because every entry dict has the
  key.

## Model

| member | source | states |
|---|---|---|
| MemoryModels.EmotionValue | server/llms/memory_models.py:17-25 | every emotion's value is one of the eight listed strings |
| MemoryModels.ParseEmotion | server/llms/memory_models.py:17-25 | `EmotionType(s)` succeeds exactly on the eight values, and then yields the member with value `s` |
| MemoryModels.EmotionRoundTrip | server/llms/memory_models.py:17-25 | parsing a member's value gives that member back |
| MemoryModels.SemanticTypeValue | server/llms/memory_models.py:59-64 | every semantic type's value is one of the five listed strings |
| MemoryModels.ParseSemanticType | server/llms/memory_models.py:59-64 | `SemanticMemoryType(s)` succeeds exactly on the five values, and then yields the member with value `s` |
| MemoryModels.SemanticTypeRoundTrip | server/llms/memory_models.py:59-64 | parsing a type's value gives that type back |
| MemoryModels.SemanticTypeValuesDistinct | server/llms/memory_models.py:59-64 | the five type values are pairwise different |
| MemoryModels.CheckUnit | server/llms/memory_models.py:39 | a `ge=0.0, le=1.0` field accepts a value exactly when it lies in [0,1], and keeps it unchanged |
| MemoryModels.NewEpisodicMemory | server/llms/memory_models.py:29-41 | an `EpisodicMemory` exists exactly when the importance lies in [0,1], and then holds the given fields |
| MemoryModels.NewSemanticMemory | server/llms/memory_models.py:67-79 | a `SemanticMemory` exists exactly when the confidence lies in [0,1], and then holds the given fields |
| MemoryModels.OrDefault | server/llms/episodic_memory.py:166-170 | `data.get(key, default)`: a missing key gives the default, a present value is kept, and a malformed one fails |
| MemoryModels.EmotionTag | server/llms/memory_models.py:122 | the ` [emotion]` marker is empty exactly when the episode has no emotion, and otherwise brackets its value |
| MemoryModels.FactLines | server/llms/memory_models.py:115-116 | one line per semantic fact, in order: the i-th line is the bullet followed by the i-th fact's content |
| MemoryModels.EpisodeLines | server/llms/memory_models.py:120-123 | one line per episode, in order: the i-th line is the bullet, the i-th episode's formatted date, its emotion tag, ": " and its story |
| MemoryModels.ToContextString | server/llms/memory_models.py:107-125 | the two appending loops build the parts list, and the result is that list joined with newlines |
| MemoryModels.BuildFactLines | server/llms/memory_models.py:113-116 | the fact loop appends one bullet line per fact, in order |
| MemoryModels.BuildEpisodeLines | server/llms/memory_models.py:118-123 | the episode loop appends one dated bullet line per episode, in order |
| MemoryModels.ContextStringSections | server/llms/memory_models.py:111-125 | the context is the facts section (header and lines), then a newline and the episodes section, each present only when nonempty; "" when both are empty |
| MemoryModels.ContextStringEmpty | server/llms/memory_models.py:111-125 | the context string is empty exactly when there are no facts and no episodes |
| Episodic.CollectExistingLabels | server/llms/episodic_memory.py:73-77 | the set loop collects exactly the truthy `journal_label` values of the scanned points, none of them empty |
| Episodic.ExistingLabels | server/llms/episodic_memory.py:64-82 | the label list has no duplicates and holds exactly the scanned labels; a scroll that raised gives none |
| Episodic.LabelListText | server/llms/episodic_memory.py:79-82 | the text is the placeholder exactly when there are no labels; a single label gives exactly its "- label" line, and a longer list starts with the first label's line |
| Episodic.LabelListTextSnoc | server/llms/episodic_memory.py:79 | each further label adds its own "- label" line at the end, after a newline |
| Episodic.PlaceholderIffNoLabels | server/llms/episodic_memory.py:64-82 | the placeholder is shown exactly when the scroll raised or found no label |
| Episodic.CleanLabel | server/llms/episodic_memory.py:109-110 | the cleaned label is a contiguous piece of the reply from which only white space, `"` and `'` were cut, and only at the two ends; it has no white space at either end |
| Episodic.CleanLabelKeepsCleanLabel | server/llms/episodic_memory.py:109-110 | a reply with no surrounding white space or quotes is kept unchanged |
| Episodic.JournalLabel | server/llms/episodic_memory.py:102-117 | the label is the cleaned reply, or "General Journal" when the completion raised; it is trimmed either way |
| Episodic.GetOrCreateJournalLabel | server/llms/episodic_memory.py:53-117 | returns that label; the prompt gets the first 1500 characters of the conversation and the distinct existing labels, rendered as their lines, and the placeholder exactly when there are none |
| Episodic.StripFence | server/llms/episodic_memory.py:153-157 | a reply that does not start with three backticks is unchanged; one that does loses every fence |
| Episodic.StripFenceInner | server/llms/episodic_memory.py:153-157 | a fenced reply becomes the text between the opening fence and the next fence (or the end), which holds no fence, with one leading "json" dropped |
| Episodic.FencePieceHasNoFence | server/llms/episodic_memory.py:155 | the piece taken after the opening fence contains no fence |
| Episodic.StripFenceRoundTrip | server/llms/episodic_memory.py:151-157 | fence stripping recovers a body (without backticks) wrapped in a json fence, whatever follows the closing fence |
| Episodic.EmotionOf | server/llms/episodic_memory.py:167 | a missing emotion defaults to neutral; a present one is parsed and may fail |
| Episodic.IntentOf | server/llms/episodic_memory.py:169 | a missing (or null) intent is none; a string is kept; any other value fails the type check |
| Episodic.BuildEpisode | server/llms/episodic_memory.py:163-174 | an episode is built exactly when the reply is an object whose fields convert and whose importance (default 0.5) lies in [0,1]; it then has the given id and time, the label as its only tag, the first 500 characters of the conversation as raw context, and the reply's story (default ""), emotion (default neutral), key entities (default none), intent (default none) and importance |
| Episodic.BuildEpisodeDefaults | server/llms/episodic_memory.py:163-174 | an object with every field missing gives an empty story, neutral, no entities, no intent and importance 0.5 |
| Episodic.StoredLabelIsFound | server/llms/episodic_memory.py:73-77 | once an episode is stored with its label, the next label scan finds that label (unless it is empty) and nothing else new |
| Episodic.CreateEpisodicMemory | server/llms/episodic_memory.py:120-207 | returns the episode built from the reply, or `None`; nothing is upserted when it returns `None`, and the one point upserted otherwise carries the label; the label prompt is filled as for `GetOrCreateJournalLabel` |
| Episodic.StoreAsWrittenReturnsNone | server/llms/episodic_memory.py:163-192 | as written, no episode is ever returned, whatever was drafted |
| Semantic.LookbackThreshold | server/llms/semantic_memory.py:67 | for a nonnegative lookback, the threshold is no later than now |
| Semantic.RecentEpisodes | server/llms/semantic_memory.py:76-86 | the kept points are exactly the scanned points whose timestamp (default 0) is at or after the threshold |
| Semantic.RecentEpisodesAppend | server/llms/semantic_memory.py:76-86 | the filter keeps scan order: filtering a concatenation filters each part in turn |
| Semantic.CollectRecentEpisodes | server/llms/semantic_memory.py:76-86 | the filter loop yields exactly those points, in scan order |
| Semantic.OldEpisodesIgnored | server/llms/semantic_memory.py:78 | a point older than the threshold changes nothing |
| Semantic.SummaryLines | server/llms/semantic_memory.py:93 | one "- story" line for each of the first 30 recent episodes, and no more |
| Semantic.EpisodeIds | server/llms/semantic_memory.py:138 | the ids of the recent episodes, in order |
| Semantic.KindOf | server/llms/semantic_memory.py:144 | a missing type defaults to fact; a present one is parsed and may fail |
| Semantic.ConvertItem | server/llms/semantic_memory.py:142-152 | an item becomes a memory exactly when it is an object whose fields convert and whose confidence (default 0.7) lies in [0,1]; the memory has the given id, sources, count and times, and the item's type (default fact), content (default ""), confidence and tags (default none) |
| Semantic.ConvertItemDefaults | server/llms/semantic_memory.py:142-152 | an item with every field missing is a fact with empty content, confidence 0.7 and no tags |
| Semantic.Converted | server/llms/semantic_memory.py:140-182 | no more memories than items, and none without items (what they are, and their order, is stated by the lemmas below) |
| Semantic.ConvertedShared | server/llms/semantic_memory.py:142-152 | every kept memory has the shared sources, occurrence count and times |
| Semantic.ConvertedMembers | server/llms/semantic_memory.py:140-182 | a memory is kept exactly when some item converts into it under its own id and is stored |
| Semantic.ConvertedSnoc | server/llms/semantic_memory.py:140-182 | one more item adds its memory at the end exactly when it converts and is stored, and otherwise changes nothing; with the empty case this fixes the whole list in item order |
| Semantic.ConvertedSkipsBadItem | server/llms/semantic_memory.py:180-182 | an item that does not convert is skipped without disturbing the others |
| Semantic.ExtractionGate | server/llms/semantic_memory.py:88-90 | with fewer recent episodes than the minimum, no prompt is sent and nothing is returned |
| Semantic.ExtractionSources | server/llms/semantic_memory.py:137-152 | every extracted memory cites the ids of the first ten recent episodes in scan order, counts all recent episodes (at least the minimum), and was first observed and updated at the extraction time |
| Semantic.ExtractionProvenance | server/llms/semantic_memory.py:137-147 | every id an extracted memory cites (at most ten) is that of a scanned episode inside the window |
| Semantic.ExtractSemanticMemories | server/llms/semantic_memory.py:53-190 | the loops yield the extraction's memories and request, and one upserted point per memory |
| Semantic.StoreItems | server/llms/semantic_memory.py:137-184 | the item loop keeps the converted items that were stored, each upserted as its own point |
| Semantic.LinesOfKind | server/llms/semantic_memory.py:212-220 | a type has at most one line per point |
| Semantic.LinesOfKindAppend | server/llms/semantic_memory.py:212-220 | a type's lines keep scan order: those of a concatenation are the first part's followed by the second part's |
| Semantic.LinesOfKindMembers | server/llms/semantic_memory.py:212-220 | a line is among a type's lines exactly when some point of that type renders as it |
| Semantic.LinesOfKindEmpty | server/llms/semantic_memory.py:212-220 | a type has no lines exactly when no point has that type |
| Semantic.Heading | server/llms/semantic_memory.py:234-236 | a type's heading is empty exactly when it has no lines; otherwise it is the title line followed by the first five of its lines (all of them when fewer) |
| Semantic.Headings | server/llms/semantic_memory.py:225-236 | there is one heading per type, in the order of the title table |
| Semantic.GroupPartsEmpty | server/llms/semantic_memory.py:233-241 | the parts list is empty exactly when every heading is; it never starts with "" |
| Semantic.GroupPartsInOrder | server/llms/semantic_memory.py:225-236 | the parts are the trait, preference, fact, pattern and relationship headings, in that order |
| Semantic.GetSemanticContext | server/llms/semantic_memory.py:193-245 | the grouping and rendering loops give the context of the scan |
| Semantic.GroupByKind | server/llms/semantic_memory.py:212-220 | `memories_by_type` maps exactly the types that occur, each to its lines in scan order |
| Semantic.GroupStep | server/llms/semantic_memory.py:218-220 | appending one point's line to its type's list keeps that correspondence |
| Semantic.GroupStepKinds | server/llms/semantic_memory.py:218-219 | after the step, the keys are exactly the types with lines |
| Semantic.GroupStepLines | server/llms/semantic_memory.py:220 | after the step, each key maps to its type's lines |
| Semantic.RenderGroups | server/llms/semantic_memory.py:223-236 | the rendering loop yields the headings in the fixed order |
| Semantic.SemanticContextEmpty | server/llms/semantic_memory.py:199-245 | the context is "" exactly when the scroll raised or no point has one of the five types |
| Semantic.NoKnownKind | server/llms/semantic_memory.py:233-236 | no heading is produced exactly when no point has one of the five types |
| Semantic.UnknownKindIgnored | server/llms/semantic_memory.py:212-236 | in a nonempty scan, a point of an unknown type changes nothing |
| Semantic.SemanticTypeIndex | server/llms/semantic_memory.py:225-231 | each type has its position in the title table |
| Semantic.StoredMemoryLine | server/llms/semantic_memory.py:214-220 | a stored memory's line shows its content and its confidence as a truncated percentage, under its type |
| Semantic.SingleMemoryParts | server/llms/semantic_memory.py:223-236 | a single stored memory gives its type's title line followed by its line |
| Semantic.SingleMemoryContext | server/llms/semantic_memory.py:199-241 | a single stored memory renders as its title and its line, joined by a newline |
| Working.RankScoreBounds | server/llms/working_memory.py:55 | the first result scores 1, and every result scores in (0,1] |
| Working.RankScoreDecreasing | server/llms/working_memory.py:55 | scores strictly decrease with rank |
| Working.RankWritesMeaning | server/llms/working_memory.py:54-58 | the score loop adds exactly the written ids as keys; a written id holds the score of its last position; other keys keep their values |
| Working.RelevanceScoresMeaning | server/llms/working_memory.py:52-58 | the keys are the union of the episode and fact ids; a fact id holds its semantic score, overwriting any episodic one; other ids hold their episodic score; all scores lie in (0,1] |
| Working.AssembleWorkingMemory | server/llms/working_memory.py:12-67 | the working memory holds the retrieved episodes and facts in order, with those scores |
| Working.AppendedMembers | server/llms/working_memory.py:113-116 | a high-importance episode is appended exactly when its id is not among the base ids |
| Working.AppendedConcat | server/llms/working_memory.py:114-116 | the filter keeps the order of the list |
| Working.DuplicatesAppended | server/llms/working_memory.py:113-116 | the ids are computed once, so two copies of a new episode are both appended |
| Working.HighWritesMeaning | server/llms/working_memory.py:117 | appended ids score 0.9 afterwards, and every other key keeps its value |
| Working.MergeMeaning | server/llms/working_memory.py:112-117 | the base episodes form an unchanged prefix, the facts are unchanged, the appended episodes are exactly the new ones and score 0.9, other scores are kept |
| Working.GetDetailedWorkingMemory | server/llms/working_memory.py:84-119 | the base working memory, merged with the high-importance episodes when that flag is set; `include_recent` has no effect |
| Working.AddHighImportance | server/llms/working_memory.py:113-117 | the append-and-score loop gives the merge |
| Chat.AnyInMeaning | server/llms/chat.py:390 | `any(k in s ...)` holds exactly when some keyword occurs in `s` |
| Chat.DetectAgentTypeMeaning | server/llms/chat.py:384-399 | resume exactly when a resume keyword occurs in the lower-cased query; meeting exactly when none does and a meeting keyword does; personal exactly when neither kind occurs |
| Chat.DetectAgentTypeIgnoresCase | server/llms/chat.py:384-386 | the route is one of the three names, and it depends on the query only through its lower-cased form |
| Chat.TurnExtendsConversation | server/llms/chat.py:189-191 | a chat turn adds a "user: " line and then an "assistant: " line to the conversation text |
| Chat.BuildConversationText | server/llms/chat.py:189-191 | the loop writes one "role: content" line per buffered message, in order |
| Chat.IdleFlushAsWrittenRaises | server/llms/chat.py:194-209 | as written, the idle flush raises on every conversation |
| Chat.CreateKeywordsBind | server/llms/episodic_memory.py:120 | the keywords `conversation_summary`, `qdrant_client` and `collection_name` bind to create_episodic_memory's parameters |
| Chat.ExtractKeywordsBind | server/llms/semantic_memory.py:53-59 | the three collection keywords bind to extract_semantic_memories' parameters |
| Chat.IdleFlushSucceedsIffStored | server/llms/chat.py:187-216 | with keywords that bind, the flush succeeds exactly when an episode was stored, and yields it |
| Chat.SessionTable.constructor | server/llms/chat.py:31-35 | the table starts with no sessions and no live timers |
| Chat.SessionTable.AtMostOneLiveTimer | server/llms/chat.py:273-278 | each user has at most one live idle timer |
| Chat.SessionTable.Chat | server/llms/chat.py:225-285 | the completion gets the persona prompt (with the semantic context when nonempty), the history and the stripped message; a failed completion raises and changes nothing; otherwise the turn is recorded and the reply returned with no episode id |
| Chat.SessionTable.RecordTurn | server/llms/chat.py:268-278 | the two messages are appended to the user's buffer, the previous timer is cancelled, a fresh one started, and no other user's session changes |
| Chat.SessionTable.TimerFires | server/llms/chat.py:175-221 | a cancelled timer does nothing; a live one ends; an empty buffer is left alone; otherwise the conversation is flushed with the given keywords, and the buffer and timer are cleared only on success (never, with the keywords as written) |
| Chat.GroupOrderMeaning | server/llms/chat.py:341-350 | each journal name is inserted once, and the names inserted are those of the scan |
| Chat.EntriesUnderOthers | server/llms/chat.py:352-358 | a name no point is filed under has no entries |
| Chat.GroupedMeaning | server/llms/chat.py:341-359 | there is a journal for each name of the scan, holding the entries of its points in scan order with their count |
| Chat.GroupValues | server/llms/chat.py:366 | the values list holds the journals in key order |
| Chat.GroupCountsSum | server/llms/chat.py:341-359 | the entry counts add up to the number of points scanned |
| Chat.GroupCountsStep | server/llms/chat.py:352-359 | filing one more point adds one to the total of the counts |
| Chat.SortAllMeaning | server/llms/chat.py:361-363 | the sorting loop raises exactly when some journal cannot be sorted; otherwise each journal keeps its place with its entries newest first |
| Chat.SortAllRaises | server/llms/chat.py:361-363 | the raising half of that statement |
| Chat.SortAllValues | server/llms/chat.py:361-363 | the value half of that statement |
| Chat.SortedGroupsLength | server/llms/chat.py:361-366 | one sorted journal per name |
| Chat.SortedGroupAt | server/llms/chat.py:361-366 | the k-th sorted journal's entries are exactly the stable descending-by-timestamp sort of the entries filed under the k-th name (newest first, ties in scan order), with their count |
| Chat.JournalsRaises | server/llms/chat.py:331-375 | the listing fails exactly when the scroll fails or a journal of two or more entries has one without a timestamp |
| Chat.JournalsCounts | server/llms/chat.py:365-372 | a successful listing has one journal per name, ordered by entry count, largest first, and reports their number |
| Chat.JournalsCountsSum | server/llms/chat.py:359-372 | the listed counts add up to the number of points scanned |
| Chat.JournalsEntries | server/llms/chat.py:341-367 | each listed journal's entries are exactly the stable descending-by-timestamp sort of those filed under its name (newest first, ties in scan order), and it counts them |
| Chat.JournalsListEveryName | server/llms/chat.py:341-371 | every journal name of the scan is listed |
| Chat.GetJournals | server/llms/chat.py:328-375 | the grouping and sorting loops give that listing |
| Chat.GroupPoints | server/llms/chat.py:341-359 | the grouping loop gives the journals dict and its key order |
| Chat.SortJournals | server/llms/chat.py:361-363 | the in-place sorting loop fails exactly when some journal cannot be sorted, and otherwise gives the sorted journals |
| Chat.HitLineStart | server/llms/chat.py:427-431 | every hit line starts with its bullet |
| Chat.ReflectionContextMeaning | server/llms/chat.py:425-434 | with no hits the context is the fresh-start text; otherwise it is one line per hit, in order |
| Chat.BuildReflectionContext | server/llms/chat.py:425-434 | the context loop gives that context |
| Chat.Reflect | server/llms/chat.py:401-508 | the prompt gets the routed agent, the stripped query and the context; the response succeeds exactly when the search and completion both do, and carries the stripped reply and the agent's name |
| PyText.StripLeft | server/llms/episodic_memory.py:110 | what remains is a suffix that does not start with a stripped character |
| PyText.StripRight | server/llms/episodic_memory.py:110 | what remains is a prefix that does not end with a stripped character |
| PyText.StripLeftRemovesOnly | server/llms/episodic_memory.py:110 | every character removed from the left is a stripped character |
| PyText.StripRightRemovesOnly | server/llms/episodic_memory.py:110 | every character removed from the right is a stripped character |
| PyText.Strip | server/llms/episodic_memory.py:110 | `strip(chars)` gives a contiguous piece from which only characters of `chars` were cut, and only at the two ends; neither end of it is in `chars`, and a trimmed string is left unchanged |
| PyText.StripSpace | server/llms/chat.py:236 | `strip()` gives a contiguous piece from which only white space was cut, and only at the two ends; it has no white space at either end, and a trimmed string is left unchanged |
| PyText.Lower | server/llms/chat.py:386 | `lower()` lower-cases each character in place |
| PyText.Take | server/llms/episodic_memory.py:91 | `s[:n]` is the prefix of length `min(n, len(s))` |
| PyText.FindFrom | server/llms/episodic_memory.py:155 | the first position at or after `from` where the separator occurs, or none |
| PyText.Join | server/llms/memory_models.py:125 | joining nothing gives ""; joining one part gives that part; a join starts with its first part |
| PyText.JoinEmpty | server/llms/memory_models.py:125 | a join is "" exactly when there are no parts or the only part is "" |
| PyText.IntToString | server/llms/semantic_memory.py:220 | `str(i)` starts with '-' exactly for negative numbers, the rest is the numeral of the magnitude, and the string reads back as `i` |
| PyText.NatToString | server/llms/semantic_memory.py:220 | `str(n)` is a decimal numeral that denotes `n`, with no leading zero unless `n` is 0 |
| PyText.NatToStringDigits | server/llms/semantic_memory.py:220 | every character of `str(n)` is a digit |
| PyText.StripUnique | server/llms/episodic_memory.py:110 | any trimmed piece that is left after cutting characters of `chars` off the two ends is `strip(chars)`, so `Strip`'s contract fixes its result |
| PyText.CutFromTrans | server/llms/episodic_memory.py:109-110 | cutting characters off the ends in two steps is one such cut, with the union of the characters |
| PyText.TruncBounds | server/llms/semantic_memory.py:220 | `int(x)` truncates toward zero |
| Sorting.Insert | server/llms/chat.py:363 | inserting adds exactly that element |
| Sorting.InsertSorted | server/llms/chat.py:363 | inserting into a list sorted newest first keeps it sorted |
| Sorting.SortDesc | server/llms/chat.py:363 | `sort(key, reverse=True)` gives a permutation ordered by key, largest first |
| Sorting.SortDescStable | server/llms/chat.py:367 | elements with equal keys keep their relative order |
| Sorting.SortDescSum | server/llms/chat.py:367 | sorting keeps the sum of any measure of the elements |

## Left out

- Network and I/O: the OpenAI completion and embedding calls, Qdrant collection set-up, scroll,
  search and upsert, and `print`/traceback output. Their results are parameters, and the points
  upserted are outputs.
- The prompt texts themselves. The model records what each prompt is filled with. `SYSTEM_PROMPT`
  is the `persona` parameter of `Chat.SessionTable.Chat`.
- `uuid.uuid4()`, `datetime.now()` and `strftime("%b %d, %Y")`: these are parameters.
- asyncio: `asyncio.sleep` and task scheduling are reduced to task handles. A timer fires only
  while live, and `cancel()` removes it from the live set. Real concurrency is not modelled.
- Qdrant scroll limits (100, 10, 1000) and search sizes (20): the page returned is a parameter.
- JSON values: a present `null` in a reply is `Malformed`, like any value of the wrong type,
  because `float(None)`, `EmotionType(None)`, `SemanticMemoryType(None)` and the pydantic
  `str`/`List[str]` checks raise on it. The one exception is `user_intent`, where `Optional[str]`
  accepts `null` and it reads as absent. In stored payloads, `None` stands for an absent key.
- The clock: `datetime.now()` is read three times in `extract_semantic_memories`
  (semantic_memory.py:67, 149 and 150). The model passes one `now` for all three, so
  `firstObserved == lastUpdated == now` holds only under that abstraction.
- MemoryModels.NewEpisodicMemory, MemoryModels.NewSemanticMemory: the pydantic field defaults
  (memory_models.py:34-41 and 74-79, among them `occurrence_count=1`) are not modelled, because
  every construction in the core passes every field. The defaults the core relies on are those of
  the `get` calls (importance 0.5, confidence 0.7, type fact, neutral), and those are modelled.
- Chat.SessionTable.TimerFires: the semantic extraction the flush starts (chat.py:204-209) is
  modelled only as the keyword binding that decides whether that call raises. Its memories and
  upserts are those of `Semantic.ExtractSemanticMemories` and are not returned by `TimerFires`.
- PyText.Lower: ASCII letters only. Python's full Unicode case mapping is not modelled.
- Semantic.StoredMemoryLine: confidences are exact reals. The float rounding of `confidence*100`
  before `int()` is not modelled.
- Episodic.ExistingLabels: Python's set iteration order is unspecified. The model proves only
  that the list is duplicate-free and holds exactly the labels.
- `get_memory_context_for_llm` (working_memory.py:70-81) is `ToContextString` applied to
  `AssembleWorkingMemory`. It has no member of its own.
- The `search_memory` and `get_stats` endpoints (chat.py:287-326): they only relay Qdrant results.
- `memory_api.py`, `calendar_mcp.py` and `memory_functions.py` (a re-export only) are not part of
  this model.
- `retrieve_episodes` and `retrieve_semantic_memories` are not part of this model. Their results
  are parameters of `Working.AssembleWorkingMemory` and `Working.GetDetailedWorkingMemory`.
- Label scoring, reinforcement, pruning and retry are not part of this model: the core does not
  perform them.
- FastAPI plumbing: request models, CORS, `HTTPException`. Any exception that becomes an HTTP 500
  is `Raised`.

## Findings

| source | as written | input that shows it | evidently intended | confidence | as-written member | corrected member |
|---|---|---|---|---|---|---|
| server/llms/chat.py:194-209 | the idle flush calls `create_episodic_memory(conversation_text=...)`, whose parameter is `conversation_summary` (episodic_memory.py:120), and `extract_semantic_memories(limit=20)`, which has no `limit` parameter (semantic_memory.py:53-59); the `TypeError` is caught, so the buffer is never cleared | any nonempty session buffer when its idle timer fires | pass `conversation_summary=` and drop `limit`; the flush then stores the episode and clears the buffer | not executed | Chat.IdleFlushAsWrittenRaises | Chat.IdleFlushSucceedsIffStored |
| server/llms/episodic_memory.py:172-192 | `EpisodicMemory` declares no `journal_label` field (memory_models.py:29-41), so the keyword at line 172 is dropped and reading `episode.journal_label` at line 192 raises; the `except` returns `None` and nothing is upserted | any reply that decodes into a valid episode | store the label computed at line 127 in the payload, so that the next label scan finds it | not executed | Episodic.StoreAsWrittenReturnsNone | Episodic.StoredLabelIsFound |

`Episodic.CreateEpisodicMemory` uses the corrected behaviour. `Chat.SessionTable.TimerFires`
takes the keywords as parameters, so it covers both the written and the corrected flush.
