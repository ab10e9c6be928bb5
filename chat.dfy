/** The chat service of server/llms/chat.py: the keyword router that picks a reflection agent, the
    per-user session buffer that is flushed into episodic memory once the user has been idle, the
    journal listing and the context handed to the reflection agents. The OpenAI, embedding and
    Qdrant calls are inputs (`None` when the call raises); the asyncio timer is a task handle. */
module Chat {
  import opened Wrappers
  import opened PyText
  import opened Sorting
  import opened MemoryModels
  import Semantic

  // ---------------------------------------------------------------- agent routing

  datatype AgentType = Resume | Meeting | Personal

  function AgentTypeName(a: AgentType): string {
    match a
    case Resume => "resume"
    case Meeting => "meeting"
    case Personal => "personal"
  }

  const ResumeKeywords: seq<string> :=
    ["resume", "bullet", "job", "application", "cv", "skills required", "position", "role requiring"]

  const MeetingKeywords: seq<string> :=
    ["meeting", "manager", "year-end", "review", "talking points", "1:1", "performance", "update"]

  /** `any(keyword in s for keyword in keywords)` */
  function AnyIn(s: string, keywords: seq<string>): bool
    decreases |keywords|
  {
    |keywords| > 0 && (Contains(s, keywords[0]) || AnyIn(s, keywords[1..]))
  }

  lemma {:induction false} AnyInMeaning(s: string, keywords: seq<string>)
    ensures AnyIn(s, keywords) <==> exists k :: k in keywords && Contains(s, k)
    decreases |keywords|
  {
    if |keywords| > 0 {
      AnyInMeaning(s, keywords[1..]);
      assert forall k :: k in keywords <==> k == keywords[0] || k in keywords[1..];
    }
  }

  /** `detect_agent_type`: the agent chosen from keywords in the lower-cased query. */
  function DetectAgentType(query: string): AgentType {
    var q := Lower(query);
    if AnyIn(q, ResumeKeywords) then Resume
    else if AnyIn(q, MeetingKeywords) then Meeting
    else Personal
  }

  /** A resume keyword anywhere in the query wins, even over meeting keywords; otherwise a
      meeting keyword routes to the meeting agent; everything else is a personal reflection. */
  lemma DetectAgentTypeMeaning(query: string)
    ensures DetectAgentType(query) == Resume <==>
            exists k :: k in ResumeKeywords && Contains(Lower(query), k)
    ensures DetectAgentType(query) == Meeting <==>
            (forall k :: k in ResumeKeywords ==> !Contains(Lower(query), k))
            && exists k :: k in MeetingKeywords && Contains(Lower(query), k)
    ensures DetectAgentType(query) == Personal <==>
            forall k :: k in ResumeKeywords + MeetingKeywords ==> !Contains(Lower(query), k)
  {
    AnyInMeaning(Lower(query), ResumeKeywords);
    AnyInMeaning(Lower(query), MeetingKeywords);
  }

  /** The route depends on the query only through its lower-cased form. */
  lemma DetectAgentTypeIgnoresCase(query: string)
    ensures AgentTypeName(DetectAgentType(query)) in {"resume", "meeting", "personal"}
    ensures DetectAgentType(Lower(query)) == DetectAgentType(query)
  {
    assert Lower(Lower(query)) == Lower(query);
  }

  // ---------------------------------------------------------------- the conversation text

  datatype Role = System | User | Assistant

  function RoleName(r: Role): string {
    match r
    case System => "system"
    case User => "user"
    case Assistant => "assistant"
  }

  datatype Message = Message(role: Role, content: string)

  function MessageLine(m: Message): string {
    RoleName(m.role) + ": " + m.content + "\n"
  }

  /** The text lines 189-191 build from the buffered messages, one line per message in order. */
  function ConversationText(messages: seq<Message>): string {
    ConcatMap(messages, MessageLine)
  }

  /** A chat turn adds a user line and then an assistant line to the conversation text. */
  lemma TurnExtendsConversation(buffer: seq<Message>, userMessage: string, reply: string)
    ensures ConversationText(buffer + [Message(User, userMessage), Message(Assistant, reply)])
            == ConversationText(buffer) + ("user: " + userMessage + "\n") + ("assistant: " + reply + "\n")
  {
    var u := Message(User, userMessage);
    var r := Message(Assistant, reply);
    var tb := ConversationText(buffer);
    assert ConversationText(buffer + [u, r]) == tb + MessageLine(u) + MessageLine(r) by {
      assert buffer + [u, r] == (buffer + [u]) + [r];
      ConcatMapSnoc(buffer + [u], r, MessageLine);
      ConcatMapSnoc(buffer, u, MessageLine);
    }
    assert MessageLine(u) == "user: " + userMessage + "\n";
    assert MessageLine(r) == "assistant: " + reply + "\n";
  }

  method BuildConversationText(messages: seq<Message>) returns (text: string)
    ensures text == ConversationText(messages)
  {
    text := "";
    var i := 0;
    while i < |messages|
      invariant 0 <= i <= |messages|
      invariant text == ConversationText(messages[..i])
    {
      assert messages[..i + 1][..i] == messages[..i];
      text := text + MessageLine(messages[i]);
      i := i + 1;
    }
    assert messages[..i] == messages;
  }

  // ---------------------------------------------------------------- the idle flush

  /** A Python parameter: its name and whether it has a default value. */
  datatype Param = Param(name: string, optional: bool)

  /** Calling with keyword arguments binds when every keyword names a parameter and every
      parameter without a default receives one; otherwise Python raises a `TypeError`. */
  predicate Binds(params: seq<Param>, keywords: seq<string>) {
    (forall k :: k in keywords ==> exists p :: p in params && p.name == k)
    && (forall p :: p in params && !p.optional ==> p.name in keywords)
  }

  /** The parameters of create_episodic_memory (episodic_memory.py:120). */
  const CreateEpisodicParams: seq<Param> :=
    [Param("conversation_summary", false), Param("qdrant_client", false), Param("collection_name", false)]

  /** The parameters of extract_semantic_memories (semantic_memory.py:53-59). */
  const ExtractSemanticParams: seq<Param> :=
    [Param("qdrant_client", false), Param("episodic_collection", false),
     Param("semantic_collection", false), Param("lookback_days", true), Param("min_episodes", true)]

  /** The keywords the idle flush passes to the two calls (lines 194-198 and 204-209). */
  const IdleCreateKeywords: seq<string> := ["conversation_text", "qdrant_client", "collection_name"]
  const IdleExtractKeywords: seq<string> :=
    ["qdrant_client", "episodic_collection", "semantic_collection", "limit"]

  /** The keywords the two calls accept for the same arguments. */
  const CreateKeywords: seq<string> := ["conversation_summary", "qdrant_client", "collection_name"]
  const ExtractKeywords: seq<string> := ["qdrant_client", "episodic_collection", "semantic_collection"]

  /** The `try` block of process_idle_session (lines 187-216) with the given keywords: the stored
      episode, or `Raised`. `create` is create_episodic_memory applied to the conversation text;
      reading `episode.id` raises when it returned `None`, and extract_semantic_memories catches
      its own exceptions. */
  function IdleFlush(createKeywords: seq<string>, extractKeywords: seq<string>, text: string,
                     create: string -> Option<EpisodicMemory>): Result<EpisodicMemory> {
    if !Binds(CreateEpisodicParams, createKeywords) then Raised
    else if create(text).None? then Raised
    else if !Binds(ExtractSemanticParams, extractKeywords) then Raised
    else Ok(create(text).value)
  }

  /** As written, the flush raises on every conversation: `conversation_text` is not a parameter
      of create_episodic_memory (and `limit` is not one of extract_semantic_memories). */
  lemma IdleFlushAsWrittenRaises(text: string, create: string -> Option<EpisodicMemory>)
    ensures IdleFlush(IdleCreateKeywords, IdleExtractKeywords, text, create) == Raised
  {
    assert "conversation_text" in IdleCreateKeywords;
    assert forall p :: p in CreateEpisodicParams ==> p.name != "conversation_text";
  }

  lemma CreateKeywordsBind()
    ensures Binds(CreateEpisodicParams, CreateKeywords)
  {
    var ps := CreateEpisodicParams;
    forall k | k in CreateKeywords
      ensures exists p :: p in ps && p.name == k
    {
      if k == "conversation_summary" {
        assert ps[0] in ps;
      } else if k == "qdrant_client" {
        assert ps[1] in ps;
      } else {
        assert ps[2] in ps;
      }
    }
  }

  lemma ExtractKeywordsBind()
    ensures Binds(ExtractSemanticParams, ExtractKeywords)
  {
    var ps := ExtractSemanticParams;
    forall k | k in ExtractKeywords
      ensures exists p :: p in ps && p.name == k
    {
      if k == "qdrant_client" {
        assert ps[0] in ps;
      } else if k == "episodic_collection" {
        assert ps[1] in ps;
      } else {
        assert ps[2] in ps;
      }
    }
  }

  /** With the keywords the functions accept, the flush succeeds exactly when an episode was
      stored, and yields that episode. */
  lemma IdleFlushSucceedsIffStored(text: string, create: string -> Option<EpisodicMemory>)
    ensures IdleFlush(CreateKeywords, ExtractKeywords, text, create).Ok? <==> create(text).Some?
    ensures create(text).Some? ==>
            IdleFlush(CreateKeywords, ExtractKeywords, text, create) == Ok(create(text).value)
  {
    CreateKeywordsBind();
    ExtractKeywordsBind();
  }

  // ---------------------------------------------------------------- the session buffer

  /** One entry of `user_sessions`: the buffered messages, the last activity time and the pending
      idle timer, a task handle. */
  datatype Session = Session(messages: seq<Message>, lastActivity: Option<real>, timer: Option<nat>)

  /** What the defaultdict creates for a user seen for the first time (lines 31-35). */
  const FreshSession := Session([], None, None)

  datatype ChatResponse = ChatResponse(reply: string, episodeId: Option<string>)

  const FactsHint := "Use these facts naturally in your responses when relevant."

  /** The system prompt of line 246-248: the persona prompt, followed by the semantic context
      when there is one. */
  function SystemPromptWith(persona: string, semanticContext: string): string {
    if semanticContext == "" then persona
    else persona + "\n\n" + semanticContext + "\n\n" + FactsHint
  }

  /** The messages sent to the completion call (lines 251-255). */
  function CompletionMessages(persona: string, semanticContext: string, history: seq<Message>,
                              userMessage: string): seq<Message> {
    [Message(System, SystemPromptWith(persona, semanticContext))] + history + [Message(User, userMessage)]
  }

  /** The module-level `user_sessions` table together with the scheduler's view of the idle
      tasks: `live` holds the tasks created and neither cancelled nor finished, `owner` the user
      each task was created for, and `nextTask` the next fresh handle. */
  class SessionTable {
    var sessions: map<string, Session>
    var live: set<nat>
    var owner: map<nat, string>
    var nextTask: nat

    /** Every live task is the pending timer of its user. */
    ghost predicate Valid()
      reads this
    {
      (forall t :: t in owner ==> t < nextTask)
      && (forall t :: t in live ==> t in owner && owner[t] in sessions && sessions[owner[t]].timer == Some(t))
    }

    /** `user_sessions[user]`, with the defaultdict's fresh entry for an unseen user. */
    function SessionOf(user: string): Session
      reads this
    {
      if user in sessions then sessions[user] else FreshSession
    }

    constructor ()
      ensures Valid()
      ensures sessions == map[] && live == {} && owner == map[] && nextTask == 0
    {
      sessions := map[];
      live := {};
      owner := map[];
      nextTask := 0;
    }

    /** Each user has at most one live idle timer. */
    lemma AtMostOneLiveTimer(t1: nat, t2: nat)
      requires Valid()
      requires t1 in live && t2 in live && owner[t1] == owner[t2]
      ensures t1 == t2
    {
    }

    /** The `chat` endpoint (lines 235-285). The reply comes from the completion call, `None`
        when it raises (an HTTP 500, with nothing buffered). Otherwise the stripped user message
        and the stripped reply are appended to that user's buffer, the old timer is cancelled and a
        new one is created; no other user's session changes. */
    method Chat(user: string, message: string, history: seq<Message>, persona: string,
                semanticScan: Option<seq<SemanticPoint>>, now: real, completion: Option<string>)
      returns (r: Result<ChatResponse>, request: seq<Message>)
      requires Valid()
      modifies this
      ensures Valid()
      ensures request == CompletionMessages(persona, Semantic.SemanticContextOf(semanticScan), history,
                                            StripSpace(message))
      ensures completion.None? ==> r == Raised && unchanged(this)
      ensures completion.Some? ==> r == Ok(ChatResponse(StripSpace(completion.value), None))
      ensures completion.Some? ==>
                sessions == old(sessions)[user := Session(
                  old(SessionOf(user)).messages
                    + [Message(User, StripSpace(message)), Message(Assistant, StripSpace(completion.value))],
                  Some(now), Some(old(nextTask)))]
      ensures completion.Some? ==>
                live == (if old(SessionOf(user)).timer.Some? then old(live) - {old(SessionOf(user)).timer.value}
                         else old(live)) + {old(nextTask)}
                && owner == old(owner)[old(nextTask) := user] && nextTask == old(nextTask) + 1
      ensures forall u :: u != user ==> SessionOf(u) == old(SessionOf(u))
    {
      var userMessage := StripSpace(message);
      var semanticContext := Semantic.GetSemanticContext(semanticScan);
      request := CompletionMessages(persona, semanticContext, history, userMessage);
      if completion.None? {
        return Raised, request;
      }
      var reply := StripSpace(completion.value);
      RecordTurn(user, userMessage, reply, now);
      r := Ok(ChatResponse(reply, None));
    }

    /** Lines 268-278: the two messages are appended to the user's buffer, the previous timer is
        cancelled and a fresh one installed. */
    method RecordTurn(user: string, userMessage: string, reply: string, now: real)
      requires Valid()
      modifies this
      ensures Valid()
      ensures sessions == old(sessions)[user := Session(
                old(SessionOf(user)).messages + [Message(User, userMessage), Message(Assistant, reply)],
                Some(now), Some(old(nextTask)))]
      ensures live == (if old(SessionOf(user)).timer.Some? then old(live) - {old(SessionOf(user)).timer.value}
                       else old(live)) + {old(nextTask)}
      ensures owner == old(owner)[old(nextTask) := user] && nextTask == old(nextTask) + 1
      ensures forall u :: u != user ==> SessionOf(u) == old(SessionOf(u))
    {
      var session := SessionOf(user);
      var buffer := session.messages + [Message(User, userMessage), Message(Assistant, reply)];
      var pending := live;
      if session.timer.Some? {
        pending := pending - {session.timer.value};
      }
      var task := nextTask;
      assert forall t :: t in pending ==> t in owner && owner[t] != user && t != task;
      live := pending + {task};
      owner := owner[task := user];
      sessions := sessions[user := Session(buffer, Some(now), Some(task))];
      nextTask := nextTask + 1;
    }

    /** The idle timer `task` fires (process_idle_session after its sleep). A cancelled or
        finished task does nothing. Otherwise it finishes: an empty buffer is left alone; else
        the buffer is flushed into episodic memory, and it is cleared and its timer reset only when
        the flush succeeds — on an exception the messages stay buffered. The flush passes
        `createKeywords` and `extractKeywords` to the two calls: `IdleCreateKeywords` and
        `IdleExtractKeywords` as written, `CreateKeywords` and `ExtractKeywords` as intended. */
    method TimerFires(task: nat, createKeywords: seq<string>, extractKeywords: seq<string>,
                      create: string -> Option<EpisodicMemory>)
      returns (flushed: Option<Result<EpisodicMemory>>)
      requires Valid()
      modifies this
      ensures Valid()
      ensures task !in old(live) ==> unchanged(this) && flushed.None?
      ensures task in old(live) ==>
                live == old(live) - {task} && owner == old(owner) && nextTask == old(nextTask)
      ensures task in old(live) && old(sessions[owner[task]]).messages == [] ==>
                flushed.None? && sessions == old(sessions)
      ensures task in old(live) && old(sessions[owner[task]]).messages != [] ==>
                flushed == Some(IdleFlush(createKeywords, extractKeywords,
                                          ConversationText(old(sessions[owner[task]]).messages), create))
                && sessions == if flushed.value.Ok?
                               then old(sessions)[owner[task] := old(sessions[owner[task]]).(messages := [], timer := None)]
                               else old(sessions)
    {
      if task !in live {
        return None;
      }
      var user := owner[task];
      var session := sessions[user];
      live := live - {task};
      if session.messages == [] {
        return None;
      }
      var text := BuildConversationText(session.messages);
      var outcome := IdleFlush(createKeywords, extractKeywords, text, create);
      if outcome.Ok? {
        sessions := sessions[user := session.(messages := [], timer := None)];
      }
      flushed := Some(outcome);
    }
  }

  // ---------------------------------------------------------------- journals

  /** One entry of a journal (lines 352-358); absent payload keys are `None`. */
  datatype JournalEntry = JournalEntry(id: string, story: Option<string>, emotion: Option<string>,
                                       timestamp: Option<real>, importance: Option<real>)

  datatype Journal = Journal(name: string, entries: seq<JournalEntry>, entryCount: nat)

  const Uncategorized := "Uncategorized"

  /** The journal a point is filed under (line 343). */
  function JournalOf(p: EpisodePoint): string {
    if p.payload.journalLabel.Some? then p.payload.journalLabel.value else Uncategorized
  }

  function EntryOf(p: EpisodePoint): JournalEntry {
    JournalEntry(p.id, p.payload.story, p.payload.emotion, p.payload.timestamp, p.payload.importance)
  }

  /** The journal names of a scan. */
  function JournalNames(points: seq<EpisodePoint>): set<string> {
    set p | p in points :: JournalOf(p)
  }

  /** The entries of the points filed under `name`, in scan order. */
  function EntriesUnder(points: seq<EpisodePoint>, name: string): seq<JournalEntry>
    decreases |points|
  {
    if |points| == 0 then []
    else EntriesUnder(points[..|points| - 1], name)
         + (if JournalOf(points[|points| - 1]) == name then [EntryOf(points[|points| - 1])] else [])
  }

  /** The `journals` dict of lines 341-359 after the given points: each point's entry is appended
      to its journal, which is created empty when its name is first seen. */
  function Grouped(points: seq<EpisodePoint>): map<string, Journal>
    decreases |points|
  {
    if |points| == 0 then map[]
    else
      var m := Grouped(points[..|points| - 1]);
      var p := points[|points| - 1];
      var j := if JournalOf(p) in m then m[JournalOf(p)] else Journal(JournalOf(p), [], 0);
      m[JournalOf(p) := j.(entries := j.entries + [EntryOf(p)], entryCount := j.entryCount + 1)]
  }

  /** The insertion order of the dict's keys: the journal names by first appearance. */
  function GroupOrder(points: seq<EpisodePoint>): seq<string>
    decreases |points|
  {
    if |points| == 0 then []
    else
      var o := GroupOrder(points[..|points| - 1]);
      if JournalOf(points[|points| - 1]) in o then o else o + [JournalOf(points[|points| - 1])]
  }

  lemma JournalNamesSnoc(points: seq<EpisodePoint>, p: EpisodePoint)
    ensures JournalNames(points + [p]) == JournalNames(points) + {JournalOf(p)}
  {
    assert forall q :: q in points + [p] <==> q in points || q == p;
  }

  /** Each journal name is inserted once, and the names inserted are those of the scan. */
  lemma {:induction false} GroupOrderMeaning(points: seq<EpisodePoint>)
    ensures Distinct(GroupOrder(points))
    ensures ToSet(GroupOrder(points)) == JournalNames(points)
    decreases |points|
  {
    if |points| > 0 {
      var init := points[..|points| - 1];
      var p := points[|points| - 1];
      assert points == init + [p];
      GroupOrderMeaning(init);
      JournalNamesSnoc(init, p);
      ToSetAppend(GroupOrder(init), JournalOf(p));
    }
  }

  /** A name no point is filed under has no entries. */
  lemma {:induction false} EntriesUnderOthers(points: seq<EpisodePoint>, name: string)
    requires name !in JournalNames(points)
    ensures EntriesUnder(points, name) == []
    decreases |points|
  {
    if |points| > 0 {
      var init := points[..|points| - 1];
      var p := points[|points| - 1];
      assert points == init + [p];
      JournalNamesSnoc(init, p);
      EntriesUnderOthers(init, name);
    }
  }

  /** Every point lands in exactly one journal, the one of its name: there is a journal for each
      name of the scan and for no other, it holds the entries filed under that name in scan
      order, and its `entry_count` is their number. */
  lemma {:induction false} GroupedMeaning(points: seq<EpisodePoint>)
    ensures Grouped(points).Keys == JournalNames(points)
    ensures forall name :: name in Grouped(points) ==>
              Grouped(points)[name] == Journal(name, EntriesUnder(points, name), |EntriesUnder(points, name)|)
    decreases |points|
  {
    if |points| > 0 {
      var init := points[..|points| - 1];
      var p := points[|points| - 1];
      assert points == init + [p];
      GroupedMeaning(init);
      JournalNamesSnoc(init, p);
      if JournalOf(p) !in Grouped(init) {
        EntriesUnderOthers(init, JournalOf(p));
      }
    }
  }

  /** `list(journals.values())`: the journals in insertion order. */
  function GroupValues(m: map<string, Journal>, order: seq<string>): (js: seq<Journal>)
    requires forall n :: n in order ==> n in m
    ensures |js| == |order| && forall k :: 0 <= k < |order| ==> js[k] == m[order[k]]
  {
    seq(|order|, k requires 0 <= k < |order| => m[order[k]])
  }

  /** Replacing the journal of a listed name replaces it in place in the list. */
  lemma GroupValuesUpdate(m: map<string, Journal>, order: seq<string>, k: nat, j: Journal)
    requires Distinct(order) && (forall n :: n in order ==> n in m) && k < |order|
    ensures GroupValues(m[order[k] := j], order) == GroupValues(m, order)[k := j]
  {
    var after, before := GroupValues(m[order[k] := j], order), GroupValues(m, order);
    assert forall t :: 0 <= t < |order| && t != k ==> order[t] != order[k];
    assert forall t :: 0 <= t < |order| ==> after[t] == before[k := j][t];
  }

  /** A journal under a new name is listed last. */
  lemma GroupValuesAppend(m: map<string, Journal>, order: seq<string>, name: string, j: Journal)
    requires (forall n :: n in order ==> n in m) && name !in order
    ensures GroupValues(m[name := j], order + [name]) == GroupValues(m, order) + [j]
  {
    var after, before := GroupValues(m[name := j], order + [name]), GroupValues(m, order);
    assert forall t :: 0 <= t < |order| ==> after[t] == before[t];
  }

  function EntryCount(j: Journal): int {
    j.entryCount
  }

  /** The entry counts of the journals add up to the number of points scanned. */
  lemma {:induction false} GroupCountsSum(points: seq<EpisodePoint>)
    ensures forall n :: n in GroupOrder(points) ==> n in Grouped(points)
    ensures SumBy(GroupValues(Grouped(points), GroupOrder(points)), EntryCount) == |points|
    decreases |points|
  {
    GroupOrderIncluded(points);
    if |points| > 0 {
      var init := points[..|points| - 1];
      GroupCountsSum(init);
      GroupCountsStep(init, points[|points| - 1]);
      assert init + [points[|points| - 1]] == points;
    }
  }

  lemma GroupOrderIncluded(points: seq<EpisodePoint>)
    ensures forall n :: n in GroupOrder(points) ==> n in Grouped(points)
  {
    GroupOrderMeaning(points);
    GroupedMeaning(points);
  }

  /** Filing one more point adds one to the total of the counts. */
  lemma {:induction false} GroupCountsStep(init: seq<EpisodePoint>, p: EpisodePoint)
    requires forall n :: n in GroupOrder(init) ==> n in Grouped(init)
    requires SumBy(GroupValues(Grouped(init), GroupOrder(init)), EntryCount) == |init|
    ensures forall n :: n in GroupOrder(init + [p]) ==> n in Grouped(init + [p])
    ensures SumBy(GroupValues(Grouped(init + [p]), GroupOrder(init + [p])), EntryCount) == |init| + 1
  {
    var points := init + [p];
    assert points[..|points| - 1] == init;
    GroupOrderIncluded(points);
    var m, o := Grouped(init), GroupOrder(init);
    var name := JournalOf(p);
    assert Distinct(o) && (name in m <==> name in o) by {
      GroupOrderMeaning(init);
      GroupedMeaning(init);
    }
    var before := GroupValues(m, o);
    var j := Grouped(points)[name];
    assert Grouped(points) == m[name := j];
    if name in o {
      var k :| 0 <= k < |o| && o[k] == name;
      assert GroupOrder(points) == o;
      GroupValuesUpdate(m, o, k, j);
      SumByUpdate(before, k, j, EntryCount);
    } else {
      assert GroupOrder(points) == o + [name];
      GroupValuesAppend(m, o, name, j);
      SumByAppend(before, j, EntryCount);
    }
  }

  function TimestampKey(e: JournalEntry): real {
    if e.timestamp.Some? then e.timestamp.value else 0.0
  }

  function CountKey(j: Journal): real {
    j.entryCount as real
  }

  /** Sorting a list of two or more elements compares every element's key at least once, and a
      `None` timestamp cannot be compared: line 363 then raises a `TypeError`. */
  predicate Unsortable(entries: seq<JournalEntry>) {
    |entries| >= 2 && exists e :: e in entries && e.timestamp.None?
  }

  /** Line 363 on one journal: its entries newest first. */
  function SortEntries(j: Journal): Result<Journal> {
    if Unsortable(j.entries) then Raised else Ok(j.(entries := SortDesc(j.entries, TimestampKey)))
  }

  /** Lines 362-363 over the journals in insertion order, collected as line 366 lists them. */
  function SortAll(m: map<string, Journal>, order: seq<string>): Result<seq<Journal>>
    requires forall n :: n in order ==> n in m
    decreases |order|
  {
    if |order| == 0 then Ok([])
    else
      match SortAll(m, order[..|order| - 1])
      case Raised => Raised
      case Ok(js) =>
        match SortEntries(m[order[|order| - 1]])
        case Raised => Raised
        case Ok(j) => Ok(js + [j])
  }

  /** The sorting loop raises exactly when some journal cannot be sorted; otherwise it yields each
      journal of `order`, in that order, with its entries newest first. */
  lemma SortAllMeaning(m: map<string, Journal>, order: seq<string>)
    requires forall n :: n in order ==> n in m
    ensures SortAll(m, order).Raised? <==> exists n :: n in order && Unsortable(m[n].entries)
    ensures SortAll(m, order).Ok? ==>
              |SortAll(m, order).value| == |order|
              && forall k :: 0 <= k < |order| ==>
                   SortAll(m, order).value[k] == m[order[k]].(entries := SortDesc(m[order[k]].entries, TimestampKey))
  {
    SortAllRaises(m, order);
    SortAllValues(m, order);
  }

  lemma {:induction false} SortAllRaises(m: map<string, Journal>, order: seq<string>)
    requires forall n :: n in order ==> n in m
    ensures SortAll(m, order).Raised? <==> exists n :: n in order && Unsortable(m[n].entries)
    decreases |order|
  {
    if |order| > 0 {
      var init, last := order[..|order| - 1], order[|order| - 1];
      assert order == init + [last];
      SortAllRaises(m, init);
      if SortAll(m, init).Raised? {
        var w :| w in init && Unsortable(m[w].entries);
        assert w in order;
      } else if !Unsortable(m[last].entries) {
        forall w | w in order
          ensures !Unsortable(m[w].entries)
        {
          if w != last {
            assert w in init;
          }
        }
      }
    }
  }

  lemma {:induction false} SortAllValues(m: map<string, Journal>, order: seq<string>)
    requires forall n :: n in order ==> n in m
    ensures SortAll(m, order).Ok? ==>
              |SortAll(m, order).value| == |order|
              && forall k :: 0 <= k < |order| ==>
                   SortAll(m, order).value[k] == m[order[k]].(entries := SortDesc(m[order[k]].entries, TimestampKey))
    decreases |order|
  {
    if |order| > 0 && SortAll(m, order).Ok? {
      var init, last := order[..|order| - 1], order[|order| - 1];
      SortAllValues(m, init);
      var js := SortAll(m, init).value;
      var j := m[last].(entries := SortDesc(m[last].entries, TimestampKey));
      assert SortAll(m, order) == Ok(js + [j]);
      forall k | 0 <= k < |order|
        ensures (js + [j])[k] == m[order[k]].(entries := SortDesc(m[order[k]].entries, TimestampKey))
      {
        if k < |init| {
          assert order[k] == init[k];
        }
      }
    }
  }

  /** The journals of a scan in insertion order, each with its entries sorted. */
  function SortedGroups(points: seq<EpisodePoint>): Result<seq<Journal>> {
    GroupCountsSum(points);
    SortAll(Grouped(points), GroupOrder(points))
  }

  lemma SortedGroupsLength(points: seq<EpisodePoint>)
    requires SortedGroups(points).Ok?
    ensures |SortedGroups(points).value| == |GroupOrder(points)|
  {
    GroupCountsSum(points);
    SortAllMeaning(Grouped(points), GroupOrder(points));
  }

  /** The k-th sorted journal holds the entries filed under the k-th name, newest first; entries
      with equal timestamps keep their scan order (`SortDesc` is stable). */
  lemma SortedGroupAt(points: seq<EpisodePoint>, k: nat)
    requires SortedGroups(points).Ok? && k < |GroupOrder(points)|
    ensures k < |SortedGroups(points).value|
    ensures var j := SortedGroups(points).value[k];
            j.name == GroupOrder(points)[k] && j.name in JournalNames(points)
            && j.entryCount == |j.entries| && SortedDesc(j.entries, TimestampKey)
            && multiset(j.entries) == multiset(EntriesUnder(points, j.name))
            && j.entries == SortDesc(EntriesUnder(points, j.name), TimestampKey)
  {
    var m, o := Grouped(points), GroupOrder(points);
    GroupOrderMeaning(points);
    GroupedMeaning(points);
    SortAllMeaning(m, o);
    var n := o[k];
    assert n in ToSet(o);
    var entries := EntriesUnder(points, n);
    assert m[n] == Journal(n, entries, |entries|);
  }

  datatype JournalListing = JournalListing(journals: seq<Journal>, totalJournals: nat)

  /** The `get_journals` endpoint (lines 331-375). `scan` is the page the scroll call returns,
      `None` when it raises; any exception becomes an HTTP 500, here `Raised`. */
  function Journals(scan: Option<seq<EpisodePoint>>): Result<JournalListing> {
    match scan
    case None => Raised
    case Some(points) =>
      match SortedGroups(points)
      case Raised => Raised
      case Ok(js) =>
        var list := SortDesc(js, CountKey);
        Ok(JournalListing(list, |list|))
  }

  /** The listing fails exactly when the scroll fails or some journal of two or more entries has an
      entry without a timestamp. */
  lemma JournalsRaises(scan: Option<seq<EpisodePoint>>)
    ensures Journals(scan).Raised? <==>
            scan.None? || exists n :: n in JournalNames(scan.value) && Unsortable(EntriesUnder(scan.value, n))
  {
    if scan.Some? {
      var points := scan.value;
      GroupOrderMeaning(points);
      GroupedMeaning(points);
      SortAllMeaning(Grouped(points), GroupOrder(points));
    }
  }

  /** A successful listing has one journal per name of the scan, ordered by entry count, largest
      first, and `total_journals` counts them. */
  lemma JournalsCounts(points: seq<EpisodePoint>)
    requires Journals(Some(points)).Ok?
    ensures Journals(Some(points)).value.totalJournals == |Journals(Some(points)).value.journals|
    ensures |Journals(Some(points)).value.journals| == |JournalNames(points)|
    ensures SortedDesc(Journals(Some(points)).value.journals, CountKey)
  {
    var o := GroupOrder(points);
    GroupCountsSum(points);
    SortAllMeaning(Grouped(points), o);
    assert |o| == |JournalNames(points)| by {
      GroupOrderMeaning(points);
      DistinctCard(o);
    }
  }

  /** The entry counts of a successful listing add up to the number of points scanned. */
  lemma JournalsCountsSum(points: seq<EpisodePoint>)
    requires Journals(Some(points)).Ok?
    ensures SumBy(Journals(Some(points)).value.journals, EntryCount) == |points|
  {
    var js := SortedGroups(points).value;
    assert Journals(Some(points)).value.journals == SortDesc(js, CountKey);
    assert SumBy(js, EntryCount) == |points| by {
      var m, o := Grouped(points), GroupOrder(points);
      GroupCountsSum(points);
      SortAllMeaning(m, o);
      SumByPointwise(js, GroupValues(m, o), EntryCount);
    }
    SortDescSum(js, CountKey, EntryCount);
  }

  /** Each listed journal holds exactly the entries filed under its name, newest first (equal
      timestamps in scan order), and counts them. */
  lemma JournalsEntries(points: seq<EpisodePoint>)
    requires Journals(Some(points)).Ok?
    ensures forall j :: j in Journals(Some(points)).value.journals ==>
              j.name in JournalNames(points) && j.entryCount == |j.entries|
              && SortedDesc(j.entries, TimestampKey)
              && multiset(j.entries) == multiset(EntriesUnder(points, j.name))
              && j.entries == SortDesc(EntriesUnder(points, j.name), TimestampKey)
  {
    var js := SortedGroups(points).value;
    var list := Journals(Some(points)).value.journals;
    assert list == SortDesc(js, CountKey);
    SortedGroupsLength(points);
    forall j | j in list
      ensures j.name in JournalNames(points) && j.entryCount == |j.entries|
              && SortedDesc(j.entries, TimestampKey)
              && multiset(j.entries) == multiset(EntriesUnder(points, j.name))
              && j.entries == SortDesc(EntriesUnder(points, j.name), TimestampKey)
    {
      assert j in multiset(js) by {
        assert j in multiset(list);
      }
      var k :| 0 <= k < |js| && js[k] == j;
      SortedGroupAt(points, k);
    }
  }

  /** Every journal name of the scan is listed. */
  lemma JournalsListEveryName(points: seq<EpisodePoint>)
    requires Journals(Some(points)).Ok?
    ensures forall n :: n in JournalNames(points) ==>
              exists j :: j in Journals(Some(points)).value.journals && j.name == n
  {
    var o := GroupOrder(points);
    var js := SortedGroups(points).value;
    var list := Journals(Some(points)).value.journals;
    assert list == SortDesc(js, CountKey);
    GroupOrderMeaning(points);
    SortedGroupsLength(points);
    forall n | n in JournalNames(points)
      ensures exists j :: j in list && j.name == n
    {
      assert n in ToSet(o);
      var k :| 0 <= k < |o| && o[k] == n;
      SortedGroupAt(points, k);
      assert js[k] in multiset(list) by {
        assert js[k] in multiset(js);
      }
      assert js[k] in list;
    }
  }

  /** Lines 333-372: the dict is filled point by point, the entries of each journal are sorted in
      place, and the journals are listed and sorted by entry count. */
  method GetJournals(scan: Option<seq<EpisodePoint>>) returns (r: Result<JournalListing>)
    ensures r == Journals(scan)
  {
    if scan.None? {
      return Raised;
    }
    var points := scan.value;
    var journals, order := GroupPoints(points);
    GroupCountsSum(points);
    GroupOrderMeaning(points);
    SortAllMeaning(journals, order);
    var sorted := SortJournals(journals, order);
    if sorted.None? {
      return Raised;
    }
    var list := SortDesc(GroupValues(sorted.value, order), CountKey);
    r := Ok(JournalListing(list, |list|));
  }

  /** Lines 341-359: filing each point under its journal. */
  method GroupPoints(points: seq<EpisodePoint>) returns (journals: map<string, Journal>, order: seq<string>)
    ensures journals == Grouped(points) && order == GroupOrder(points)
  {
    journals, order := map[], [];
    var i := 0;
    while i < |points|
      invariant 0 <= i <= |points|
      invariant journals == Grouped(points[..i]) && order == GroupOrder(points[..i])
    {
      assert points[..i + 1][..i] == points[..i];
      var p := points[i];
      var name := JournalOf(p);
      assert name in journals <==> name in order by {
        GroupOrderMeaning(points[..i]);
        GroupedMeaning(points[..i]);
      }
      if name !in journals {
        journals := journals[name := Journal(name, [], 0)];
        order := order + [name];
      }
      var j := journals[name];
      journals := journals[name := j.(entries := j.entries + [EntryOf(p)], entryCount := j.entryCount + 1)];
      i := i + 1;
    }
    assert points[..i] == points;
  }

  /** Lines 362-363: sorting the entries of each journal in place, newest first; `None` when a sort
      raises. */
  method SortJournals(grouped: map<string, Journal>, order: seq<string>) returns (sorted: Option<map<string, Journal>>)
    requires Distinct(order) && forall n :: n in order ==> n in grouped
    ensures sorted.None? <==> SortAll(grouped, order).Raised?
    ensures sorted.Some? ==> (forall n :: n in order ==> n in sorted.value)
                             && SortAll(grouped, order) == Ok(GroupValues(sorted.value, order))
  {
    var journals := grouped;
    var k := 0;
    while k < |order|
      invariant 0 <= k <= |order|
      invariant journals.Keys == grouped.Keys
      invariant forall t :: k <= t < |order| ==> journals[order[t]] == grouped[order[t]]
      invariant SortAll(grouped, order[..k]) == Ok(GroupValues(journals, order[..k]))
    {
      var name := order[k];
      var j := journals[name];
      if Unsortable(j.entries) {
        assert SortAll(grouped, order).Raised? by {
          SortAllMeaning(grouped, order);
        }
        return None;
      }
      var sortedJ := j.(entries := SortDesc(j.entries, TimestampKey));
      SortAllSnoc(grouped, order, k, GroupValues(journals, order[..k]));
      GroupValuesSnoc(journals, order, k, sortedJ);
      journals := journals[name := sortedJ];
      k := k + 1;
    }
    assert order[..k] == order;
    sorted := Some(journals);
  }

  /** One step of the sorting loop: a journal that can be sorted extends the sorted prefix. */
  lemma SortAllSnoc(grouped: map<string, Journal>, order: seq<string>, k: nat, done: seq<Journal>)
    requires (forall n :: n in order ==> n in grouped) && k < |order|
    requires !Unsortable(grouped[order[k]].entries)
    requires SortAll(grouped, order[..k]) == Ok(done)
    ensures SortAll(grouped, order[..k + 1]) ==
            Ok(done + [grouped[order[k]].(entries := SortDesc(grouped[order[k]].entries, TimestampKey))])
  {
    var extended := order[..k + 1];
    assert extended[..k] == order[..k] && extended[k] == order[k];
  }

  /** Replacing the journal of the k-th name leaves the journals of the earlier names in place. */
  lemma GroupValuesSnoc(m: map<string, Journal>, order: seq<string>, k: nat, j: Journal)
    requires Distinct(order) && (forall n :: n in order ==> n in m) && k < |order|
    ensures GroupValues(m[order[k] := j], order[..k + 1]) == GroupValues(m, order[..k]) + [j]
  {
    var after := GroupValues(m[order[k] := j], order[..k + 1]);
    var before := GroupValues(m, order[..k]);
    forall t | 0 <= t < k
      ensures after[t] == before[t]
    {
      assert order[t] != order[k];
    }
  }

  // ---------------------------------------------------------------- reflection

  const FreshStart := "No previous conversations found. This is a fresh start!"

  /** The line lines 427-431 write for one search hit; absent payload keys take their defaults. */
  function HitLine(p: EpisodePoint): string {
    var story := if p.payload.story.Some? then p.payload.story.value else "";
    var emotion := if p.payload.emotion.Some? then p.payload.emotion.value else "";
    var tags := if p.payload.tags.Some? then p.payload.tags.value else [];
    "- " + story + (if emotion != "" then " [" + emotion + "]" else "") + " [Tags: " + Join(tags, ", ") + "]\n"
  }

  /** The context of lines 425-434: the hit lines, or the fresh-start text when there are none. */
  function ReflectionContext(hits: seq<EpisodePoint>): string {
    var lines := ConcatMap(hits, HitLine);
    if lines == "" then FreshStart else lines
  }

  lemma HitLineStart(p: EpisodePoint)
    ensures |HitLine(p)| > 0 && HitLine(p)[0] == '-'
  {
  }

  /** With no hits the context is the fresh-start text; otherwise it is one line per hit in hit
      order, and it starts with the first hit's bullet. */
  lemma {:induction false} ReflectionContextMeaning(hits: seq<EpisodePoint>)
    ensures hits == [] ==> ReflectionContext(hits) == FreshStart
    ensures hits != [] ==> ReflectionContext(hits) == ConcatMap(hits, HitLine)
    ensures hits != [] ==> ReflectionContext(hits)[0] == '-'
  {
    if hits != [] {
      ConcatMapHead(hits, HitLine);
      HitLineStart(hits[0]);
    }
  }

  method BuildReflectionContext(hits: seq<EpisodePoint>) returns (context: string)
    ensures context == ReflectionContext(hits)
  {
    context := "";
    var i := 0;
    while i < |hits|
      invariant 0 <= i <= |hits|
      invariant context == ConcatMap(hits[..i], HitLine)
    {
      assert hits[..i + 1][..i] == hits[..i];
      context := context + HitLine(hits[i]);
      i := i + 1;
    }
    assert hits[..i] == hits;
    if context == "" {
      context := FreshStart;
    }
  }

  /** What the reflection agent's prompt is built from (lines 437-488): the agent, the question
      and the context. */
  datatype ReflectPrompt = ReflectPrompt(agent: AgentType, query: string, context: string)

  datatype ReflectResponse = ReflectResponse(response: string, agentType: string)

  /** The `reflect` endpoint (lines 410-508). `hits` are the search results, `None` when the
      embedding or the search raises; `completion` is the agent's reply, `None` when it raises. */
  method Reflect(query: string, hits: Option<seq<EpisodePoint>>, completion: Option<string>)
    returns (r: Result<ReflectResponse>, prompt: Option<ReflectPrompt>)
    ensures hits.None? ==> prompt.None?
    ensures hits.Some? ==>
              prompt == Some(ReflectPrompt(DetectAgentType(StripSpace(query)), StripSpace(query),
                                           ReflectionContext(hits.value)))
    ensures r.Ok? <==> hits.Some? && completion.Some?
    ensures r.Ok? ==>
              r.value == ReflectResponse(StripSpace(completion.value), AgentTypeName(DetectAgentType(StripSpace(query))))
  {
    var q := StripSpace(query);
    var agent := DetectAgentType(q);
    if hits.None? {
      return Raised, None;
    }
    var context := BuildReflectionContext(hits.value);
    prompt := Some(ReflectPrompt(agent, q, context));
    if completion.None? {
      return Raised, prompt;
    }
    r := Ok(ReflectResponse(StripSpace(completion.value), AgentTypeName(agent)));
  }
}
