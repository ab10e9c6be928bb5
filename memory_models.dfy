/** The records of the memory subsystem (server/llms/memory_models.py): the emotion and
    semantic-kind enumerations, episodic and semantic memories with their bounded scores,
    working memory and its rendering into prompt context, and the payloads kept with each
    point of the vector store. Timestamps are seconds since the epoch, as `real`. */
module MemoryModels {
  import opened Wrappers
  import opened PyText

  // ---------------------------------------------------------------- enumerations

  datatype Emotion = Happy | Sad | Anxious | Excited | Frustrated | Neutral | Confused | Proud

  /** The values of `EmotionType`, in declaration order. */
  const EmotionValues: seq<string> :=
    ["happy", "sad", "anxious", "excited", "frustrated", "neutral", "confused", "proud"]

  /** `EmotionType.X.value` */
  function EmotionValue(e: Emotion): (s: string)
    ensures s in EmotionValues
  {
    match e
    case Happy => "happy"
    case Sad => "sad"
    case Anxious => "anxious"
    case Excited => "excited"
    case Frustrated => "frustrated"
    case Neutral => "neutral"
    case Confused => "confused"
    case Proud => "proud"
  }

  /** `EmotionType(s)`: succeeds exactly on the eight values (case-sensitively) and then gives
      the member whose value is `s`; anything else raises `ValueError` (here `None`). */
  function ParseEmotion(s: string): (r: Option<Emotion>)
    ensures r.Some? <==> s in EmotionValues
    ensures r.Some? ==> EmotionValue(r.value) == s
  {
    if s == "happy" then Some(Happy)
    else if s == "sad" then Some(Sad)
    else if s == "anxious" then Some(Anxious)
    else if s == "excited" then Some(Excited)
    else if s == "frustrated" then Some(Frustrated)
    else if s == "neutral" then Some(Neutral)
    else if s == "confused" then Some(Confused)
    else if s == "proud" then Some(Proud)
    else None
  }

  /** Parsing the value of a member gives that member back. */
  lemma EmotionRoundTrip(e: Emotion)
    ensures ParseEmotion(EmotionValue(e)) == Some(e)
  {
  }

  datatype SemanticType = Trait | Preference | Fact | Pattern | Relationship

  /** The values of `SemanticMemoryType`, in declaration order. */
  const SemanticTypeValues: seq<string> := ["trait", "preference", "fact", "pattern", "relationship"]

  /** The five values are different strings (they even differ in length). */
  lemma SemanticTypeValuesDistinct()
    ensures Distinct(SemanticTypeValues)
  {
    var lengths := seq(|SemanticTypeValues|, i requires 0 <= i < |SemanticTypeValues| => |SemanticTypeValues[i]|);
    assert lengths == [5, 10, 4, 7, 12];
  }

  /** `SemanticMemoryType.X.value` */
  function SemanticTypeValue(t: SemanticType): (s: string)
    ensures s in SemanticTypeValues
  {
    match t
    case Trait => "trait"
    case Preference => "preference"
    case Fact => "fact"
    case Pattern => "pattern"
    case Relationship => "relationship"
  }

  /** `SemanticMemoryType(s)`: succeeds exactly on the five values. */
  function ParseSemanticType(s: string): (r: Option<SemanticType>)
    ensures r.Some? <==> s in SemanticTypeValues
    ensures r.Some? ==> SemanticTypeValue(r.value) == s
  {
    if s == "trait" then Some(Trait)
    else if s == "preference" then Some(Preference)
    else if s == "fact" then Some(Fact)
    else if s == "pattern" then Some(Pattern)
    else if s == "relationship" then Some(Relationship)
    else None
  }

  lemma SemanticTypeRoundTrip(t: SemanticType)
    ensures ParseSemanticType(SemanticTypeValue(t)) == Some(t)
  {
  }

  // ---------------------------------------------------------------- bounded scores

  /** A score constrained by `Field(ge=0.0, le=1.0)`. */
  type Unit = r: real | 0.0 <= r <= 1.0

  const DefaultImportance: Unit := 0.5
  const DefaultConfidence: Unit := 0.7

  /** Pydantic's check of a `ge=0.0, le=1.0` field: the value is kept when in range and the
      construction fails otherwise. */
  function CheckUnit(x: real): (r: Option<Unit>)
    ensures r.Some? <==> 0.0 <= x <= 1.0
    ensures r.Some? ==> r.value == x
  {
    if 0.0 <= x <= 1.0 then Some(x) else None
  }

  // ---------------------------------------------------------------- memories

  /** `EpisodicMemory`. It declares no `journal_label` field. */
  datatype EpisodicMemory = EpisodicMemory(
    id: string,
    timestamp: real,
    story: string,
    emotion: Option<Emotion>,
    keyEntities: seq<string>,
    userIntent: Option<string>,
    importance: Unit,
    tags: seq<string>,
    rawContext: Option<string>)

  /** The attribute names `EpisodicMemory` declares; reading any other raises `AttributeError`. */
  const EpisodicMemoryFields: set<string> :=
    {"id", "timestamp", "story", "emotion", "key_entities", "user_intent", "importance", "tags",
     "raw_context"}

  /** Constructing an `EpisodicMemory`: it exists exactly when the importance is in [0,1], and
      then holds the given fields unchanged. */
  function NewEpisodicMemory(id: string, timestamp: real, story: string, emotion: Option<Emotion>,
                             keyEntities: seq<string>, userIntent: Option<string>, importance: real,
                             tags: seq<string>, rawContext: Option<string>): (r: Option<EpisodicMemory>)
    ensures r.Some? <==> 0.0 <= importance <= 1.0
    ensures r.Some? ==> r.value.importance == importance
    ensures r.Some? ==> r.value == EpisodicMemory(id, timestamp, story, emotion, keyEntities,
                                                  userIntent, r.value.importance, tags, rawContext)
  {
    match CheckUnit(importance)
    case None => None
    case Some(u) => Some(EpisodicMemory(id, timestamp, story, emotion, keyEntities, userIntent, u, tags, rawContext))
  }

  /** `SemanticMemory` */
  datatype SemanticMemory = SemanticMemory(
    id: string,
    kind: SemanticType,
    content: string,
    confidence: Unit,
    sourceEpisodes: seq<string>,
    firstObserved: real,
    lastUpdated: real,
    occurrenceCount: int,
    tags: seq<string>)

  /** Constructing a `SemanticMemory`: it exists exactly when the confidence is in [0,1].
      `occurrence_count` carries no bound. */
  function NewSemanticMemory(id: string, kind: SemanticType, content: string, confidence: real,
                             sourceEpisodes: seq<string>, firstObserved: real, lastUpdated: real,
                             occurrenceCount: int, tags: seq<string>): (r: Option<SemanticMemory>)
    ensures r.Some? <==> 0.0 <= confidence <= 1.0
    ensures r.Some? ==> r.value.confidence == confidence
    ensures r.Some? ==> r.value == SemanticMemory(id, kind, content, r.value.confidence, sourceEpisodes,
                                                  firstObserved, lastUpdated, occurrenceCount, tags)
  {
    match CheckUnit(confidence)
    case None => None
    case Some(u) => Some(SemanticMemory(id, kind, content, u, sourceEpisodes, firstObserved, lastUpdated, occurrenceCount, tags))
  }

  // ---------------------------------------------------------------- stored payloads

  /** A JSON value as code reading it sees it: the key is absent, the value is of the expected
      kind, or it is present but rejected by the conversion (`float()`, an enum or a pydantic type
      check). A present `null` is rejected like any other wrong value, except for `user_intent`,
      where it reads as absent. */
  datatype Raw<+T> = Missing | Given(value: T) | Malformed

  /** `data.get(key, default)` followed by a conversion that rejects a malformed value. */
  function OrDefault<T>(r: Raw<T>, default: T): (o: Option<T>)
    ensures r.Missing? ==> o == Some(default)
    ensures r.Given? ==> o == Some(r.value)
    ensures r.Malformed? ==> o.None?
  {
    match r
    case Missing => Some(default)
    case Given(v) => Some(v)
    case Malformed => None
  }

  /** The payload dictionary of a point in the episodic collection; `None` is an absent key. */
  datatype EpisodePayload = EpisodePayload(
    story: Option<string>,
    emotion: Option<string>,
    keyEntities: Option<seq<string>>,
    userIntent: Option<string>,
    importance: Option<real>,
    tags: Option<seq<string>>,
    journalLabel: Option<string>,
    timestamp: Option<real>,
    rawContext: Option<string>)

  datatype EpisodePoint = EpisodePoint(id: string, payload: EpisodePayload)

  /** The payload dictionary of a point in the semantic collection. */
  datatype SemanticPayload = SemanticPayload(
    kind: Option<string>,
    content: Option<string>,
    confidence: Option<real>,
    sourceEpisodes: Option<seq<string>>,
    firstObserved: Option<real>,
    lastUpdated: Option<real>,
    occurrenceCount: Option<int>,
    tags: Option<seq<string>>)

  datatype SemanticPoint = SemanticPoint(id: string, payload: SemanticPayload)

  // ---------------------------------------------------------------- working memory

  /** `WorkingMemory`: the retrieved episodes and facts and a score per memory id. */
  datatype WorkingMemory = WorkingMemory(
    episodicMemories: seq<EpisodicMemory>,
    semanticFacts: seq<SemanticMemory>,
    relevanceScores: map<string, real>)

  const KnowHeader := "=== WHAT I KNOW ABOUT YOU ==="
  const PastHeader := "\n=== RELEVANT PAST CONVERSATIONS ==="
  const Bullet := "\U{2022} "

  function FactLine(f: SemanticMemory): string {
    Bullet + f.content
  }

  /** The ` [emotion]` marker of an episode line: present exactly when the episode has an emotion. */
  function EmotionTag(e: Option<Emotion>): (r: string)
    ensures r == "" <==> e.None?
    ensures e.Some? ==> r == " [" + EmotionValue(e.value) + "]"
  {
    if e.Some? then " [" + EmotionValue(e.value) + "]" else ""
  }

  /** An episode line; `formatDate` stands for `strftime("%b %d, %Y")`. */
  function EpisodeLine(m: EpisodicMemory, formatDate: real -> string): string {
    Bullet + formatDate(m.timestamp) + EmotionTag(m.emotion) + ": " + m.story
  }

  function FactLines(facts: seq<SemanticMemory>): (r: seq<string>)
    ensures |r| == |facts| && forall i :: 0 <= i < |r| ==> r[i] == FactLine(facts[i])
    decreases |facts|
  {
    if |facts| == 0 then [] else FactLines(facts[..|facts| - 1]) + [FactLine(facts[|facts| - 1])]
  }

  function EpisodeLines(eps: seq<EpisodicMemory>, formatDate: real -> string): (r: seq<string>)
    ensures |r| == |eps| && forall i :: 0 <= i < |r| ==> r[i] == EpisodeLine(eps[i], formatDate)
    decreases |eps|
  {
    if |eps| == 0 then [] else EpisodeLines(eps[..|eps| - 1], formatDate) + [EpisodeLine(eps[|eps| - 1], formatDate)]
  }

  /** The `context_parts` list that `to_context_string` joins with newlines. */
  function ContextParts(wm: WorkingMemory, formatDate: real -> string): seq<string> {
    (if |wm.semanticFacts| > 0 then [KnowHeader] + FactLines(wm.semanticFacts) else [])
    + (if |wm.episodicMemories| > 0 then [PastHeader] + EpisodeLines(wm.episodicMemories, formatDate) else [])
  }

  /** `WorkingMemory.to_context_string`: builds the parts list by appending in two loops. */
  method ToContextString(wm: WorkingMemory, formatDate: real -> string) returns (s: string)
    ensures s == Join(ContextParts(wm, formatDate), "\n")
  {
    var parts: seq<string> := [];
    if |wm.semanticFacts| > 0 {
      var lines := BuildFactLines(wm.semanticFacts);
      parts := parts + [KnowHeader] + lines;
    }
    ghost var factParts := parts;
    assert factParts == if |wm.semanticFacts| > 0 then [KnowHeader] + FactLines(wm.semanticFacts) else [];
    if |wm.episodicMemories| > 0 {
      var lines := BuildEpisodeLines(wm.episodicMemories, formatDate);
      parts := parts + [PastHeader] + lines;
    }
    assert parts == ContextParts(wm, formatDate);
    s := Join(parts, "\n");
  }

  /** The first loop of `to_context_string`: one bullet line per fact. */
  method BuildFactLines(facts: seq<SemanticMemory>) returns (lines: seq<string>)
    ensures lines == FactLines(facts)
  {
    lines := [];
    var i := 0;
    while i < |facts|
      invariant 0 <= i <= |facts|
      invariant lines == FactLines(facts[..i])
    {
      assert facts[..i + 1][..i] == facts[..i];
      lines := lines + [FactLine(facts[i])];
      i := i + 1;
    }
    assert facts[..i] == facts;
  }

  /** The second loop of `to_context_string`: one dated bullet line per episode. */
  method BuildEpisodeLines(eps: seq<EpisodicMemory>, formatDate: real -> string) returns (lines: seq<string>)
    ensures lines == EpisodeLines(eps, formatDate)
  {
    lines := [];
    var i := 0;
    while i < |eps|
      invariant 0 <= i <= |eps|
      invariant lines == EpisodeLines(eps[..i], formatDate)
    {
      assert eps[..i + 1][..i] == eps[..i];
      lines := lines + [EpisodeLine(eps[i], formatDate)];
      i := i + 1;
    }
    assert eps[..i] == eps;
  }

  /** `header` followed by one newline-prefixed line per element: a section of the context. */
  function Section(header: string, lines: seq<string>): string
    decreases |lines|
  {
    if |lines| == 0 then header else Section(header, lines[..|lines| - 1]) + "\n" + lines[|lines| - 1]
  }

  lemma {:induction false} JoinSection(header: string, lines: seq<string>)
    ensures Join([header] + lines, "\n") == Section(header, lines)
    decreases |lines|
  {
    if |lines| > 0 {
      var p := lines[..|lines| - 1];
      JoinSection(header, p);
      assert [header] + lines == ([header] + p) + [lines[|lines| - 1]];
      JoinAppend([header] + p, [lines[|lines| - 1]], "\n");
    }
  }

  /** The rendered context, section by section: the facts section with its header comes first,
      the episodes section follows after a newline (its header starts with another), and a
      working memory with neither renders as the empty string. */
  lemma ContextStringSections(wm: WorkingMemory, formatDate: real -> string)
    ensures var facts := Section(KnowHeader, FactLines(wm.semanticFacts));
            var past := Section(PastHeader, EpisodeLines(wm.episodicMemories, formatDate));
            Join(ContextParts(wm, formatDate), "\n") ==
              if |wm.semanticFacts| > 0 && |wm.episodicMemories| > 0 then facts + "\n" + past
              else if |wm.semanticFacts| > 0 then facts
              else if |wm.episodicMemories| > 0 then past
              else ""
  {
    var fs := [KnowHeader] + FactLines(wm.semanticFacts);
    var es := [PastHeader] + EpisodeLines(wm.episodicMemories, formatDate);
    JoinSection(KnowHeader, FactLines(wm.semanticFacts));
    JoinSection(PastHeader, EpisodeLines(wm.episodicMemories, formatDate));
    if |wm.semanticFacts| > 0 && |wm.episodicMemories| > 0 {
      JoinAppend(fs, es, "\n");
    } else if |wm.semanticFacts| > 0 {
      assert ContextParts(wm, formatDate) == fs;
    } else if |wm.episodicMemories| > 0 {
      assert ContextParts(wm, formatDate) == es;
    }
  }

  /** The context string is empty exactly when there are no facts and no episodes. */
  lemma ContextStringEmpty(wm: WorkingMemory, formatDate: real -> string)
    ensures Join(ContextParts(wm, formatDate), "\n") == "" <==> wm.semanticFacts == [] && wm.episodicMemories == []
  {
    var parts := ContextParts(wm, formatDate);
    if |parts| > 0 {
      assert parts[0] == KnowHeader || parts[0] == PastHeader;
    }
    JoinEmpty(parts, "\n");
  }
}
