/** Episode construction (server/llms/episodic_memory.py): choosing the journal label, cleaning
    the model's replies, building and validating the episode, and the point upserted for it.
    The vector-store scroll, the two chat completions, `json.loads`, the embedding and the upsert
    are inputs: a scroll result or reply of `None` stands for a call that raised. */
module Episodic {
  import opened Wrappers
  import opened PyText
  import opened MemoryModels

  // ---------------------------------------------------------------- existing journal labels

  /** Python truthiness of `payload.get("journal_label")`: present and non-empty. */
  predicate IsLabel(l: Option<string>) {
    l.Some? && l.value != ""
  }

  /** The labels carried by a list of points. */
  function LabelSet(points: seq<EpisodePoint>): set<string> {
    set p | p in points && IsLabel(p.payload.journalLabel) :: p.payload.journalLabel.value
  }

  /** The labels a scroll yields; a scroll that raised yields none. */
  function ScannedLabels(scan: Option<seq<EpisodePoint>>): set<string> {
    if scan.Some? then LabelSet(scan.value) else {}
  }

  /** Lines 73-77: the `existing_labels` set filled point by point. */
  method CollectExistingLabels(points: seq<EpisodePoint>) returns (labels: set<string>)
    ensures labels == LabelSet(points)
    ensures forall l :: l in labels ==> l != ""
  {
    labels := {};
    var i := 0;
    while i < |points|
      invariant 0 <= i <= |points|
      invariant labels == LabelSet(points[..i])
    {
      assert points[..i + 1] == points[..i] + [points[i]];
      var journal := points[i].payload.journalLabel;
      if journal.Some? && journal.value != "" {
        labels := labels + {journal.value};
      }
      i := i + 1;
    }
    assert points[..i] == points;
  }

  /** Lines 64-82: the existing labels in the (unspecified) iteration order of the set, or none
      when the scroll raised. */
  method ExistingLabels(scan: Option<seq<EpisodePoint>>) returns (order: seq<string>)
    ensures Distinct(order)
    ensures ToSet(order) == ScannedLabels(scan)
  {
    order := [];
    if scan.None? {
      return;
    }
    var rest := CollectExistingLabels(scan.value);
    ghost var all := rest;
    while rest != {}
      invariant ToSet(order) + rest == all
      invariant ToSet(order) !! rest
      invariant Distinct(order)
      decreases |rest|
    {
      var l :| l in rest;
      assert l !in order by {
        assert l !in ToSet(order);
      }
      DistinctAppend(order, l);
      ToSetAppend(order, l);
      assert (ToSet(order) + {l}) + (rest - {l}) == all;
      order := order + [l];
      rest := rest - {l};
    }
  }

  const NoLabelsText := "No existing labels yet"

  /** One "- label" line per label, in order. */
  function LabelLines(labels: seq<string>): (r: seq<string>)
    ensures |r| == |labels| && forall i :: 0 <= i < |r| ==> r[i] == "- " + labels[i]
  {
    seq(|labels|, i requires 0 <= i < |labels| => "- " + labels[i])
  }

  /** Lines 79-82, `existing_labels_str`: the label lines joined by newlines, or the placeholder
      exactly when there is no label; a non-empty list starts with the first label's line. */
  function LabelListText(labels: seq<string>): (r: string)
    ensures r == NoLabelsText <==> labels == []
    ensures |labels| == 1 ==> r == "- " + labels[0]
    ensures labels != [] ==> StartsWith(r, "- " + labels[0])
  {
    if labels == [] then NoLabelsText
    else
      var r := Join(LabelLines(labels), "\n");
      assert r[0] == '-' != NoLabelsText[0];
      r
  }

  /** Each further label adds one line at the end. */
  lemma LabelListTextSnoc(labels: seq<string>, l: string)
    requires labels != []
    ensures LabelListText(labels + [l]) == LabelListText(labels) + "\n- " + l
  {
    assert LabelLines(labels + [l]) == LabelLines(labels) + LabelLines([l]);
    JoinAppend(LabelLines(labels), LabelLines([l]), "\n");
  }

  /** The placeholder is shown exactly when the scroll yielded no label (or raised). */
  lemma PlaceholderIffNoLabels(order: seq<string>, scan: Option<seq<EpisodePoint>>)
    requires ToSet(order) == ScannedLabels(scan)
    ensures LabelListText(order) == NoLabelsText <==> ScannedLabels(scan) == {}
  {
    if order != [] {
      assert order[0] in ToSet(order);
    }
  }

  /** What the labelling prompt is filled with: the existing labels, their rendering and the
      conversation. The fixed instruction text around them is not modelled. */
  datatype LabelRequest = LabelRequest(existingLabels: seq<string>, labelText: string, conversation: string)

  // ---------------------------------------------------------------- cleaning the label reply

  const QuoteChars: set<char> := {'"'}
  const ApostropheChars: set<char> := {'\''}
  const GeneralJournal := "General Journal"

  /** What the label cleanup may remove from the ends of the reply. */
  const LabelJunk: set<char> := Whitespace + QuoteChars + ApostropheChars

  /** Lines 109-110: `strip()`, `strip('"')`, `strip("'")`, `strip()`. The label is a piece of the
      reply from which only white space and quote characters were cut, at the two ends, and it has
      no white space at either end. */
  function CleanLabel(reply: string): (r: string)
    ensures IsInfix(r, reply)
    ensures CutFrom(r, reply, LabelJunk)
    ensures Trimmed(r, Whitespace)
  {
    var a := StripSpace(reply);
    var b := Strip(a, QuoteChars);
    var c := Strip(b, ApostropheChars);
    var d := StripSpace(c);
    assert IsInfix(d, reply) by {
      InfixChain(d, c, b, a, reply);
    }
    assert CutFrom(d, reply, LabelJunk) by {
      CutFromTrans(b, a, reply, QuoteChars, Whitespace, LabelJunk);
      CutFromTrans(c, b, reply, ApostropheChars, LabelJunk, LabelJunk);
      CutFromTrans(d, c, reply, Whitespace, LabelJunk, LabelJunk);
    }
    d
  }

  lemma InfixChain<T>(d: seq<T>, c: seq<T>, b: seq<T>, a: seq<T>, s: seq<T>)
    requires IsInfix(d, c) && IsInfix(c, b) && IsInfix(b, a) && IsInfix(a, s)
    ensures IsInfix(d, s)
  {
    InfixTrans(d, c, b);
    InfixTrans(d, b, a);
    InfixTrans(d, a, s);
  }

  lemma InfixTrans<T>(a: seq<T>, b: seq<T>, c: seq<T>)
    requires IsInfix(a, b) && IsInfix(b, c)
    ensures IsInfix(a, c)
  {
    var i :| MatchAt(b, a, i);
    var j :| MatchAt(c, b, j);
    forall k | 0 <= k < |a|
      ensures c[j + i + k] == a[k]
    {
      assert c[j + i + k] == b[i + k];
    }
    assert c[j + i..j + i + |a|] == a;
    assert MatchAt(c, a, j + i);
  }

  /** Lines 102-117: the cleaned reply, or "General Journal" when the labelling call raised. */
  function JournalLabel(reply: Option<string>): (r: string)
    ensures reply.None? ==> r == GeneralJournal
    ensures reply.Some? ==> r == CleanLabel(reply.value)
    ensures Trimmed(r, Whitespace)
  {
    if reply.None? then GeneralJournal else CleanLabel(reply.value)
  }

  /** A reply that is already a clean label (no surrounding white space or quotes) is kept as is. */
  lemma CleanLabelKeepsCleanLabel(reply: string)
    requires Trimmed(reply, Whitespace) && Trimmed(reply, QuoteChars) && Trimmed(reply, ApostropheChars)
    ensures CleanLabel(reply) == reply
  {
    assert StripSpace(reply) == reply;
    assert Strip(reply, QuoteChars) == reply;
    assert Strip(reply, ApostropheChars) == reply;
    assert CleanLabel(reply) == StripSpace(Strip(Strip(StripSpace(reply), QuoteChars), ApostropheChars));
  }

  /** `get_or_create_journal_label`: the label and what the labelling prompt was filled with; the
      prompt holds at most the first 1500 characters of the conversation. */
  method GetOrCreateJournalLabel(conversation: string, scan: Option<seq<EpisodePoint>>, reply: Option<string>)
    returns (journal: string, request: LabelRequest)
    ensures journal == JournalLabel(reply)
    ensures request.conversation == Take(conversation, 1500)
    ensures |request.conversation| <= 1500
    ensures Distinct(request.existingLabels) && ToSet(request.existingLabels) == ScannedLabels(scan)
    ensures request.labelText == LabelListText(request.existingLabels)
    ensures request.labelText == NoLabelsText <==> ScannedLabels(scan) == {}
  {
    var labels := ExistingLabels(scan);
    PlaceholderIffNoLabels(labels, scan);
    request := LabelRequest(labels, LabelListText(labels), Take(conversation, 1500));
    journal := JournalLabel(reply);
  }

  // ---------------------------------------------------------------- fence stripping

  const Fence := "```"

  lemma FindFromFirst(s: string, p: string, k: nat)
    requires MatchAt(s, p, k)
    requires forall i :: 0 <= i < k ==> !MatchAt(s, p, i)
    ensures FindFrom(s, p, 0) == Some(k)
  {
  }

  /** A text that starts with a fence splits into at least two pieces, the first of them empty. */
  lemma SplitAfterFence(s: string)
    requires StartsWith(s, Fence)
    ensures |Split(s, Fence)| >= 2
    ensures Split(s, Fence)[1] == Split(s[3..], Fence)[0]
  {
    assert MatchAt(s, Fence, 0);
    FindFromFirst(s, Fence, 0);
  }

  /** Lines 154-157 (and semantic_memory.py:128-131): for a reply that starts with three
      backticks, the text up to the next fence with one leading "json" dropped; anything else
      unchanged. */
  function StripFence(content: string): (r: string)
    ensures !StartsWith(content, Fence) ==> r == content
    ensures StartsWith(content, Fence) ==> !Contains(r, Fence)
  {
    if StartsWith(content, Fence) then
      SplitAfterFence(content);
      var inner := Split(content, Fence)[1];
      FencePieceHasNoFence(content[3..]);
      if StartsWith(inner, "json") then
        InfixNoContains(inner[4..], inner, 4);
        inner[4..]
      else inner
    else content
  }

  /** The first piece of a split contains no separator. */
  lemma FencePieceHasNoFence(t: string)
    ensures !Contains(Split(t, Fence)[0], Fence)
  {
    var piece := Split(t, Fence)[0];
    match FindFrom(t, Fence, 0)
    case None =>
    case Some(k) =>
      forall i | 0 <= i <= |piece| && MatchAt(piece, Fence, i)
        ensures false
      {
        assert t[i..i + 3] == piece[i..i + 3];
        assert MatchAt(t, Fence, i);
      }
  }

  lemma InfixNoContains(r: string, s: string, k: nat)
    requires k <= |s| && r == s[k..]
    requires !Contains(s, Fence)
    ensures !Contains(r, Fence)
  {
    forall i | 0 <= i <= |r| && MatchAt(r, Fence, i)
      ensures false
    {
      assert s[k + i..k + i + 3] == r[i..i + 3];
      assert MatchAt(s, Fence, k + i);
    }
  }

  /** Fence stripping undoes a ```json fence around a body without backticks, whatever follows
      the closing fence. */
  lemma {:induction false} StripFenceRoundTrip(body: string, rest: string)
    requires forall i :: 0 <= i < |body| ==> body[i] != '`'
    ensures StripFence(Fence + "json" + body + Fence + rest) == body
  {
    var s := Fence + "json" + body + Fence + rest;
    var t := s[3..];
    assert t == "json" + body + Fence + rest;
    var k := 4 + |body|;
    assert MatchAt(t, Fence, k);
    forall i | 0 <= i < k
      ensures !MatchAt(t, Fence, i)
    {
      if i < 4 {
        assert t[i] == "json"[i];
      } else {
        assert t[i] == body[i - 4];
      }
      assert t[i] != Fence[0];
      assert t[i..i + 3][0] == t[i];
    }
    FindFromFirst(t, Fence, k);
    SplitAfterFence(s);
    assert Split(t, Fence)[0] == t[..k];
    assert t[..k] == "json" + body;
    assert StartsWith(s, Fence);
  }

  /** A fence found in a suffix is a fence of the whole text, shifted by the suffix's start. */
  lemma FenceInSuffix(s: string, k: nat, i: nat)
    requires k <= |s|
    ensures MatchAt(s[k..], Fence, i) <==> MatchAt(s, Fence, k + i)
  {
    if i + 3 <= |s| - k {
      assert s[k..][i..i + 3] == s[k + i..k + i + 3];
    }
  }

  /** For a fenced text, what is kept is the text between the opening fence and the first fence
      after it (`j`), or the end of the text when there is none; it holds no fence, and one leading
      "json" is dropped from it. */
  lemma StripFenceInner(content: string, j: nat)
    requires StartsWith(content, Fence)
    requires 3 <= j <= |content|
    requires j == |content| || MatchAt(content, Fence, j)
    requires forall k :: 3 <= k < j ==> !MatchAt(content, Fence, k)
    ensures !Contains(content[3..j], Fence)
    ensures StripFence(content) ==
              if StartsWith(content[3..j], "json") then content[3..j][4..] else content[3..j]
  {
    var t := content[3..];
    forall i | 0 <= i < j - 3
      ensures !MatchAt(t, Fence, i)
    {
      FenceInSuffix(content, 3, i);
    }
    if j < |content| {
      FenceInSuffix(content, 3, j - 3);
      FindFromFirst(t, Fence, j - 3);
    } else {
      assert FindFrom(t, Fence, 0).None?;
    }
    assert Split(t, Fence)[0] == content[3..j];
    SplitAfterFence(content);
    FencePieceHasNoFence(t);
  }

  // ---------------------------------------------------------------- building the episode

  /** The decoded reply: a JSON object with the five fields the prompt asks for, or some other
      JSON value (for which `.get` raises). */
  datatype EpisodeJson =
    | EpisodeObject(story: Raw<string>, emotion: Raw<string>, keyEntities: Raw<seq<string>>,
                    userIntent: Raw<string>, importance: Raw<real>)
    | NotAnObject

  /** `EmotionType(data.get("emotion", "neutral"))` */
  function EmotionOf(r: Raw<string>): (o: Option<Emotion>)
    ensures r.Missing? ==> o == Some(Neutral)
    ensures r.Given? ==> o == ParseEmotion(r.value)
    ensures r.Malformed? ==> o.None?
  {
    match OrDefault(r, "neutral")
    case None => None
    case Some(s) => ParseEmotion(s)
  }

  /** `data.get("user_intent")` checked against `Optional[str]`. */
  function IntentOf(r: Raw<string>): (o: Option<Option<string>>)
    ensures r.Missing? ==> o == Some(None)
    ensures r.Given? ==> o == Some(Some(r.value))
    ensures r.Malformed? ==> o.None?
  {
    match r
    case Missing => Some(None)
    case Given(s) => Some(Some(s))
    case Malformed => None
  }

  /** Lines 163-174: the episode built from the decoded reply. It exists exactly when the reply is
      an object whose fields all convert and whose importance lies in [0,1]; it is tagged with the
      journal label alone and keeps the first 500 characters of the conversation. */
  function BuildEpisode(data: EpisodeJson, id: string, now: real, journal: string, conversation: string)
    : (r: Option<EpisodicMemory>)
    ensures r.Some? <==>
              && data.EpisodeObject?
              && !data.story.Malformed?
              && EmotionOf(data.emotion).Some?
              && !data.keyEntities.Malformed?
              && !data.userIntent.Malformed?
              && OrDefault(data.importance, DefaultImportance as real).Some?
              && 0.0 <= OrDefault(data.importance, DefaultImportance as real).value <= 1.0
    ensures r.Some? ==>
              && r.value.id == id && r.value.timestamp == now
              && r.value.tags == [journal]
              && r.value.rawContext == Some(Take(conversation, 500))
              && r.value.emotion == EmotionOf(data.emotion)
              && r.value.story == OrDefault(data.story, "").value
              && r.value.importance == OrDefault(data.importance, DefaultImportance as real).value
              && r.value.keyEntities == OrDefault(data.keyEntities, []).value
              && r.value.userIntent == (if data.userIntent.Given? then Some(data.userIntent.value) else None)
  {
    match data
    case NotAnObject => None
    case EpisodeObject(story, emotion, keyEntities, userIntent, importance) =>
      var s := OrDefault(story, "");
      var e := EmotionOf(emotion);
      var k := OrDefault(keyEntities, []);
      var u := IntentOf(userIntent);
      var imp := OrDefault(importance, DefaultImportance as real);
      if s.None? || e.None? || k.None? || u.None? || imp.None? then None
      else NewEpisodicMemory(id, now, s.value, e, k.value, u.value, imp.value, [journal], Some(Take(conversation, 500)))
  }

  /** An object with every field missing gives the defaults: empty story, neutral, no entities,
      no intent, importance 0.5. */
  lemma BuildEpisodeDefaults(id: string, now: real, journal: string, conversation: string)
    ensures BuildEpisode(EpisodeObject(Missing, Missing, Missing, Missing, Missing), id, now, journal, conversation)
            == Some(EpisodicMemory(id, now, "", Some(Neutral), [], None, DefaultImportance, [journal],
                                   Some(Take(conversation, 500))))
  {
  }

  /** The reply after `strip()` and fence stripping, decoded by `parse` (`json.loads`) and built
      into an episode; `None` when the completion raised, the text does not decode or the episode
      does not validate. */
  function EpisodeFromReply(reply: Option<string>, parse: string -> Option<EpisodeJson>, id: string,
                            now: real, journal: string, conversation: string): Option<EpisodicMemory>
  {
    if reply.None? then None
    else
      match parse(StripFence(StripSpace(reply.value)))
      case None => None
      case Some(data) => BuildEpisode(data, id, now, journal, conversation)
  }

  // ---------------------------------------------------------------- storing the episode

  /** The payload upserted for an episode, with its journal label. */
  function StoredPayload(e: EpisodicMemory, journal: string): EpisodePayload {
    EpisodePayload(
      Some(e.story),
      if e.emotion.Some? then Some(EmotionValue(e.emotion.value)) else None,
      Some(e.keyEntities),
      e.userIntent,
      Some(e.importance as real),
      Some(e.tags),
      Some(journal),
      Some(e.timestamp),
      e.rawContext)
  }

  /** A stored episode's label is an existing label at the next scan, unless it is empty. */
  lemma StoredLabelIsFound(points: seq<EpisodePoint>, e: EpisodicMemory, journal: string)
    ensures LabelSet(points + [EpisodePoint(e.id, StoredPayload(e, journal))]) ==
            LabelSet(points) + (if journal != "" then {journal} else {})
  {
    var p := EpisodePoint(e.id, StoredPayload(e, journal));
    var both := LabelSet(points + [p]);
    forall l | l in both ensures l in LabelSet(points) + (if journal != "" then {journal} else {}) {
      var q :| q in points + [p] && IsLabel(q.payload.journalLabel) && q.payload.journalLabel.value == l;
      if q != p {
        assert q in points;
      }
    }
    forall l | l in LabelSet(points) ensures l in both {
      var q :| q in points && IsLabel(q.payload.journalLabel) && q.payload.journalLabel.value == l;
      assert q in points + [p];
    }
    if journal != "" {
      assert p in points + [p];
    }
  }

  /** `create_episodic_memory`, with the payload carrying the label computed at line 127. The
      episode exists only when the reply builds into a valid episode and the embedding and upsert
      succeed (`stored`); exactly one point is written then and none otherwise. */
  method CreateEpisodicMemory(conversation: string, scan: Option<seq<EpisodePoint>>, labelReply: Option<string>,
                              episodeReply: Option<string>, parse: string -> Option<EpisodeJson>,
                              id: string, now: real, stored: bool)
    returns (episode: Option<EpisodicMemory>, writes: seq<EpisodePoint>, request: LabelRequest)
    ensures request.conversation == Take(conversation, 1500)
    ensures Distinct(request.existingLabels) && ToSet(request.existingLabels) == ScannedLabels(scan)
    ensures request.labelText == LabelListText(request.existingLabels)
    ensures request.labelText == NoLabelsText <==> ScannedLabels(scan) == {}
    ensures episode == if stored then EpisodeFromReply(episodeReply, parse, id, now, JournalLabel(labelReply), conversation) else None
    ensures episode.Some? ==> episode.value.tags == [JournalLabel(labelReply)]
    ensures episode.None? ==> writes == []
    ensures episode.Some? ==> writes == [EpisodePoint(id, StoredPayload(episode.value, JournalLabel(labelReply)))]
  {
    var journal;
    journal, request := GetOrCreateJournalLabel(conversation, scan, labelReply);
    episode := EpisodeFromReply(episodeReply, parse, id, now, journal, conversation);
    writes := [];
    if episode.None? {
      return;
    }
    if !stored {
      episode := None;
      return;
    }
    writes := [EpisodePoint(episode.value.id, StoredPayload(episode.value, journal))];
  }

  // ---------------------------------------------------------------- the code as written

  /** The attributes lines 186-194 read from the episode to build the payload. */
  const PayloadAttributes: seq<string> :=
    ["story", "emotion", "key_entities", "user_intent", "importance", "tags", "journal_label",
     "timestamp", "raw_context"]

  /** Building the payload raises unless every attribute it reads is a declared field. */
  predicate PayloadReadRaises() {
    !(forall a | a in PayloadAttributes :: a in EpisodicMemoryFields)
  }

  /** Lines 176-201 as written: the episode that is returned, given the drafted one and whether
      the embedding succeeded. The payload is built only when the episode has no missing
      attribute; otherwise `AttributeError` sends the call to the `None` return. */
  function StoreAsWritten(drafted: Option<EpisodicMemory>, embedded: bool): Option<EpisodicMemory> {
    if drafted.Some? && embedded && !PayloadReadRaises() then drafted else None
  }

  /** As written, `create_episodic_memory` never returns an episode and never upserts: the model
      drops `journal_label=` at construction and the read at line 192 raises. */
  lemma StoreAsWrittenReturnsNone(drafted: Option<EpisodicMemory>, embedded: bool)
    ensures StoreAsWritten(drafted, embedded) == None
  {
    assert "journal_label" in PayloadAttributes && "journal_label" !in EpisodicMemoryFields;
  }
}
