/** Semantic memory (server/llms/semantic_memory.py): extracting facts from the recent episodes
    and rendering the stored facts for the system prompt. The scrolls, the chat completion,
    `json.loads`, `uuid4`, the clock, the embedding and the upserts are inputs; a scroll or reply
    of `None` stands for a call that raised, which the outer handler turns into `[]` or `""`. */
module Semantic {
  import opened Wrappers
  import opened PyText
  import opened MemoryModels
  import Episodic

  // ---------------------------------------------------------------- recent episodes

  /** Seconds in the `timedelta(days=lookback_days)` window. */
  const SecondsPerDay := 86400.0

  /** Line 67: the oldest timestamp still counted as recent. */
  function LookbackThreshold(now: real, lookbackDays: int): (t: real)
    ensures lookbackDays >= 0 ==> t <= now
  {
    now - lookbackDays as real * SecondsPerDay
  }

  /** `point.payload.get("timestamp", 0)` */
  function Timestamp(p: EpisodePoint): real {
    if p.payload.timestamp.Some? then p.payload.timestamp.value else 0.0
  }

  /** `point.payload.get("story", "")` */
  function StoryOf(p: EpisodePoint): string {
    if p.payload.story.Some? then p.payload.story.value else ""
  }

  /** Lines 76-86: the scrolled points at or after the threshold, in scroll order. */
  function RecentEpisodes(points: seq<EpisodePoint>, threshold: real): (r: seq<EpisodePoint>)
    ensures |r| <= |points|
    ensures forall p :: p in r <==> p in points && Timestamp(p) >= threshold
    decreases |points|
  {
    if points == [] then []
    else
      var init := points[..|points| - 1];
      var last := points[|points| - 1];
      assert points == init + [last];
      RecentEpisodes(init, threshold) + (if Timestamp(last) >= threshold then [last] else [])
  }

  /** Filtering a concatenation filters each half and keeps them in order. */
  lemma {:induction false} RecentEpisodesAppend(a: seq<EpisodePoint>, b: seq<EpisodePoint>, threshold: real)
    ensures RecentEpisodes(a + b, threshold) == RecentEpisodes(a, threshold) + RecentEpisodes(b, threshold)
    decreases |b|
  {
    if b != [] {
      var init := b[..|b| - 1];
      assert (a + b)[..|a + b| - 1] == a + init;
      RecentEpisodesAppend(a, init, threshold);
    } else {
      assert a + b == a;
    }
  }

  /** The filter loop of lines 76-86. */
  method CollectRecentEpisodes(points: seq<EpisodePoint>, threshold: real) returns (episodes: seq<EpisodePoint>)
    ensures episodes == RecentEpisodes(points, threshold)
  {
    episodes := [];
    var i := 0;
    while i < |points|
      invariant 0 <= i <= |points|
      invariant episodes == RecentEpisodes(points[..i], threshold)
    {
      assert points[..i + 1][..i] == points[..i];
      if Timestamp(points[i]) >= threshold {
        episodes := episodes + [points[i]];
      }
      i := i + 1;
    }
    assert points[..i] == points;
  }

  /** Episodes older than the window, or without a timestamp, are never counted. */
  lemma OldEpisodesIgnored(points: seq<EpisodePoint>, p: EpisodePoint, threshold: real)
    requires Timestamp(p) < threshold
    ensures RecentEpisodes(points + [p], threshold) == RecentEpisodes(points, threshold)
  {
    assert (points + [p])[..|points|] == points;
  }

  /** Line 93: one "- story" line for each of the first 30 recent episodes. */
  function SummaryLines(episodes: seq<EpisodePoint>): (r: seq<string>)
    ensures |r| == if |episodes| <= 30 then |episodes| else 30
    ensures forall i :: 0 <= i < |r| ==> r[i] == "- " + StoryOf(episodes[i])
  {
    var shown := Take(episodes, 30);
    seq(|shown|, i requires 0 <= i < |shown| => "- " + StoryOf(shown[i]))
  }

  /** `episode_ids` */
  function EpisodeIds(episodes: seq<EpisodePoint>): (r: seq<string>)
    ensures |r| == |episodes| && forall i :: 0 <= i < |r| ==> r[i] == episodes[i].id
  {
    seq(|episodes|, i requires 0 <= i < |episodes| => episodes[i].id)
  }

  // ---------------------------------------------------------------- the extraction reply

  /** One element of the decoded array: an object with the four fields the prompt asks for, or
      some other value (for which `item.get` raises and the item is skipped). */
  datatype ItemJson =
    | ItemObject(kind: Raw<string>, content: Raw<string>, confidence: Raw<real>, tags: Raw<seq<string>>)
    | NotAnItem

  /** The decoded reply: something iterable yielding items, or a value that is not iterable
      (which raises out of the loop). */
  datatype SemanticJson = Items(items: seq<ItemJson>) | NotIterable

  /** `SemanticMemoryType(item.get("type", "fact"))` */
  function KindOf(r: Raw<string>): (o: Option<SemanticType>)
    ensures r.Missing? ==> o == Some(Fact)
    ensures r.Given? ==> o == ParseSemanticType(r.value)
    ensures r.Malformed? ==> o.None?
  {
    match OrDefault(r, "fact")
    case None => None
    case Some(s) => ParseSemanticType(s)
  }

  /** Lines 142-152: the memory built from one item. It exists exactly when the item is an object
      whose type is one of the five, whose fields convert and whose confidence lies in [0,1]; it
      cites the first ten episode ids and counts every recent episode. */
  function ConvertItem(item: ItemJson, id: string, now: real, sources: seq<string>, count: int)
    : (r: Option<SemanticMemory>)
    ensures r.Some? <==>
              && item.ItemObject?
              && KindOf(item.kind).Some?
              && !item.content.Malformed?
              && !item.tags.Malformed?
              && OrDefault(item.confidence, DefaultConfidence as real).Some?
              && 0.0 <= OrDefault(item.confidence, DefaultConfidence as real).value <= 1.0
    ensures r.Some? ==>
              && r.value.id == id
              && r.value.kind == KindOf(item.kind).value
              && r.value.content == OrDefault(item.content, "").value
              && r.value.confidence == OrDefault(item.confidence, DefaultConfidence as real).value
              && r.value.sourceEpisodes == sources
              && r.value.firstObserved == now && r.value.lastUpdated == now
              && r.value.occurrenceCount == count
              && r.value.tags == OrDefault(item.tags, []).value
  {
    match item
    case NotAnItem => None
    case ItemObject(kind, content, confidence, tags) =>
      var k := KindOf(kind);
      var c := OrDefault(content, "");
      var f := OrDefault(confidence, DefaultConfidence as real);
      var t := OrDefault(tags, []);
      if k.None? || c.None? || f.None? || t.None? then None
      else NewSemanticMemory(id, k.value, c.value, f.value, sources, now, now, count, t.value)
  }

  /** An item with every field missing is a fact with empty content and confidence 0.7. */
  lemma ConvertItemDefaults(id: string, now: real, sources: seq<string>, count: int)
    ensures ConvertItem(ItemObject(Missing, Missing, Missing, Missing), id, now, sources, count)
            == Some(SemanticMemory(id, Fact, "", DefaultConfidence, sources, now, now, count, []))
  {
  }

  /** Item `i` under id `uuid(i)`: its memory when it converts and `stored(i)` holds. */
  function KeepItem(now: real, sources: seq<string>, count: int, uuid: nat -> string, stored: nat -> bool)
    : (nat, ItemJson) -> Option<SemanticMemory>
  {
    (i: nat, item: ItemJson) => if stored(i) then ConvertItem(item, uuid(i), now, sources, count) else None
  }

  /** Lines 140-182: the memories kept, in item order; item `i` gets the id `uuid(i)` and is
      kept when it converts and its embedding and upsert succeed (`stored(i)`). */
  function Converted(items: seq<ItemJson>, now: real, sources: seq<string>, count: int,
                     uuid: nat -> string, stored: nat -> bool): (r: seq<SemanticMemory>)
    ensures |r| <= |items|
    ensures items == [] ==> r == []
  {
    FilterMap(items, KeepItem(now, sources, count, uuid, stored))
  }

  /** A memory is kept exactly when some item converts into it under its own id and is stored. */
  lemma ConvertedMembers(items: seq<ItemJson>, now: real, sources: seq<string>, count: int,
                         uuid: nat -> string, stored: nat -> bool, m: SemanticMemory)
    ensures m in Converted(items, now, sources, count, uuid, stored) <==>
              exists i :: 0 <= i < |items| && stored(i) && ConvertItem(items[i], uuid(i), now, sources, count) == Some(m)
  {
    FilterMapMembers(items, KeepItem(now, sources, count, uuid, stored), m);
  }

  /** Every kept memory has the shared sources, count and times. */
  lemma ConvertedShared(items: seq<ItemJson>, now: real, sources: seq<string>, count: int,
                        uuid: nat -> string, stored: nat -> bool, m: SemanticMemory)
    requires m in Converted(items, now, sources, count, uuid, stored)
    ensures m.sourceEpisodes == sources && m.occurrenceCount == count
    ensures m.firstObserved == now && m.lastUpdated == now
  {
    ConvertedMembers(items, now, sources, count, uuid, stored, m);
    var i :| 0 <= i < |items| && stored(i) && ConvertItem(items[i], uuid(i), now, sources, count) == Some(m);
  }

  /** One more item adds its memory at the end when it converts and is stored; with the empty
      case of `Converted` this fixes the kept memories item by item, in item order. */
  lemma ConvertedSnoc(items: seq<ItemJson>, x: ItemJson, now: real, sources: seq<string>, count: int,
                      uuid: nat -> string, stored: nat -> bool)
    ensures var m := ConvertItem(x, uuid(|items|), now, sources, count);
            Converted(items + [x], now, sources, count, uuid, stored) ==
              Converted(items, now, sources, count, uuid, stored) + (if stored(|items|) && m.Some? then [m.value] else [])
  {
    FilterMapSnoc(items, x, KeepItem(now, sources, count, uuid, stored));
  }

  /** Skipped items do not disturb the others: appending an item that does not convert leaves
      the kept memories as they were. */
  lemma ConvertedSkipsBadItem(items: seq<ItemJson>, bad: ItemJson, now: real, sources: seq<string>,
                              count: int, uuid: nat -> string, stored: nat -> bool)
    requires ConvertItem(bad, uuid(|items|), now, sources, count).None?
    ensures Converted(items + [bad], now, sources, count, uuid, stored) == Converted(items, now, sources, count, uuid, stored)
  {
    ConvertedSnoc(items, bad, now, sources, count, uuid, stored);
  }

  /** The point upserted for a memory (lines 160-173). */
  function SemanticPointFor(m: SemanticMemory): SemanticPoint {
    SemanticPoint(m.id, SemanticPayload(
      Some(SemanticTypeValue(m.kind)), Some(m.content), Some(m.confidence as real), Some(m.sourceEpisodes),
      Some(m.firstObserved), Some(m.lastUpdated), Some(m.occurrenceCount), Some(m.tags)))
  }

  /** What the extraction prompt is filled with: the summary lines, joined by newlines. */
  function ExtractionRequest(scan: Option<seq<EpisodePoint>>, now: real, lookbackDays: int, minEpisodes: int)
    : Option<seq<string>>
  {
    if scan.None? then None
    else
      var episodes := RecentEpisodes(scan.value, LookbackThreshold(now, lookbackDays));
      if |episodes| < minEpisodes then None else Some(SummaryLines(episodes))
  }

  /** `extract_semantic_memories`: the memories returned. */
  function Extraction(scan: Option<seq<EpisodePoint>>, now: real, lookbackDays: int, minEpisodes: int,
                      reply: Option<string>, parse: string -> Option<SemanticJson>,
                      uuid: nat -> string, stored: nat -> bool): seq<SemanticMemory>
  {
    if scan.None? then []
    else
      var episodes := RecentEpisodes(scan.value, LookbackThreshold(now, lookbackDays));
      if |episodes| < minEpisodes || reply.None? then []
      else
        match parse(Episodic.StripFence(StripSpace(reply.value)))
        case Some(Items(items)) => Converted(items, now, Take(EpisodeIds(episodes), 10), |episodes|, uuid, stored)
        case _ => []
  }

  /** Too few recent episodes: nothing is asked and nothing is returned. */
  lemma ExtractionGate(scan: Option<seq<EpisodePoint>>, now: real, lookbackDays: int, minEpisodes: int,
                       reply: Option<string>, parse: string -> Option<SemanticJson>,
                       uuid: nat -> string, stored: nat -> bool)
    requires scan.Some? ==> |RecentEpisodes(scan.value, LookbackThreshold(now, lookbackDays))| < minEpisodes
    ensures ExtractionRequest(scan, now, lookbackDays, minEpisodes).None?
    ensures Extraction(scan, now, lookbackDays, minEpisodes, reply, parse, uuid, stored) == []
  {
  }

  /** Every extracted memory cites the ids of the first ten recent episodes, in scroll order, and
      counts all of the recent episodes, of which there are at least `minEpisodes`. */
  lemma ExtractionSources(scan: Option<seq<EpisodePoint>>, now: real, lookbackDays: int, minEpisodes: int,
                          reply: Option<string>, parse: string -> Option<SemanticJson>,
                          uuid: nat -> string, stored: nat -> bool, m: SemanticMemory)
    requires m in Extraction(scan, now, lookbackDays, minEpisodes, reply, parse, uuid, stored)
    ensures scan.Some?
    ensures var episodes := RecentEpisodes(scan.value, LookbackThreshold(now, lookbackDays));
            && m.sourceEpisodes == Take(EpisodeIds(episodes), 10)
            && m.occurrenceCount == |episodes| >= minEpisodes
            && m.firstObserved == now && m.lastUpdated == now
  {
    assert scan.Some?;
    var episodes := RecentEpisodes(scan.value, LookbackThreshold(now, lookbackDays));
    assert |episodes| >= minEpisodes && reply.Some?;
    var data := parse(Episodic.StripFence(StripSpace(reply.value)));
    assert data.Some? && data.value.Items?;
    ConvertedShared(data.value.items, now, Take(EpisodeIds(episodes), 10), |episodes|, uuid, stored, m);
  }

  /** `id` is the id of a scrolled episode inside the window. */
  ghost predicate IsRecentId(points: seq<EpisodePoint>, threshold: real, id: string) {
    exists p :: p in points && p.id == id && Timestamp(p) >= threshold
  }

  /** Every id an extracted memory cites is that of a scrolled episode inside the window. */
  lemma ExtractionProvenance(scan: Option<seq<EpisodePoint>>, now: real, lookbackDays: int, minEpisodes: int,
                             reply: Option<string>, parse: string -> Option<SemanticJson>,
                             uuid: nat -> string, stored: nat -> bool, m: SemanticMemory)
    requires m in Extraction(scan, now, lookbackDays, minEpisodes, reply, parse, uuid, stored)
    ensures scan.Some? && |m.sourceEpisodes| <= 10
    ensures forall j :: 0 <= j < |m.sourceEpisodes| ==>
              IsRecentId(scan.value, LookbackThreshold(now, lookbackDays), m.sourceEpisodes[j])
  {
    ExtractionSources(scan, now, lookbackDays, minEpisodes, reply, parse, uuid, stored, m);
    var threshold := LookbackThreshold(now, lookbackDays);
    var ids := EpisodeIds(RecentEpisodes(scan.value, threshold));
    forall j | 0 <= j < |m.sourceEpisodes|
      ensures IsRecentId(scan.value, threshold, m.sourceEpisodes[j])
    {
      RecentEpisodeAt(scan.value, threshold, j);
      assert m.sourceEpisodes[j] == ids[j];
    }
  }

  /** The `j`-th recent episode is a scanned point inside the window. */
  lemma RecentEpisodeAt(points: seq<EpisodePoint>, threshold: real, j: nat)
    requires j < |RecentEpisodes(points, threshold)|
    ensures var p := RecentEpisodes(points, threshold)[j];
            p in points && Timestamp(p) >= threshold && EpisodeIds(RecentEpisodes(points, threshold))[j] == p.id
  {
    var r := RecentEpisodes(points, threshold);
    assert r[j] in r;
  }

  /** Lines 65-184 with the loops as written. `request` is what the prompt was filled with, or
      `None` when no completion was requested; `writes` are the upserted points. */
  method ExtractSemanticMemories(scan: Option<seq<EpisodePoint>>, now: real, lookbackDays: int, minEpisodes: int,
                                 reply: Option<string>, parse: string -> Option<SemanticJson>,
                                 uuid: nat -> string, stored: nat -> bool)
    returns (memories: seq<SemanticMemory>, writes: seq<SemanticPoint>, request: Option<seq<string>>)
    ensures request == ExtractionRequest(scan, now, lookbackDays, minEpisodes)
    ensures memories == Extraction(scan, now, lookbackDays, minEpisodes, reply, parse, uuid, stored)
    ensures |writes| == |memories| && forall k :: 0 <= k < |writes| ==> writes[k] == SemanticPointFor(memories[k])
  {
    memories, writes, request := [], [], None;
    if scan.None? {
      return;
    }
    var episodes := CollectRecentEpisodes(scan.value, LookbackThreshold(now, lookbackDays));
    if |episodes| < minEpisodes {
      return;
    }
    request := Some(SummaryLines(episodes));
    if reply.None? {
      return;
    }
    var data := parse(Episodic.StripFence(StripSpace(reply.value)));
    if !(data.Some? && data.value.Items?) {
      return;
    }
    memories, writes := StoreItems(data.value.items, now, Take(EpisodeIds(episodes), 10), |episodes|, uuid, stored);
  }

  /** Lines 137-184: the item loop, where a failing item is skipped. */
  method StoreItems(items: seq<ItemJson>, now: real, sources: seq<string>, count: int,
                    uuid: nat -> string, stored: nat -> bool)
    returns (memories: seq<SemanticMemory>, writes: seq<SemanticPoint>)
    ensures memories == Converted(items, now, sources, count, uuid, stored)
    ensures |writes| == |memories| && forall k :: 0 <= k < |writes| ==> writes[k] == SemanticPointFor(memories[k])
  {
    memories, writes := [], [];
    var i := 0;
    while i < |items|
      invariant 0 <= i <= |items|
      invariant memories == Converted(items[..i], now, sources, count, uuid, stored)
      invariant |writes| == |memories| && forall k :: 0 <= k < |writes| ==> writes[k] == SemanticPointFor(memories[k])
    {
      assert items[..i + 1] == items[..i] + [items[i]];
      ConvertedSnoc(items[..i], items[i], now, sources, count, uuid, stored);
      var m := ConvertItem(items[i], uuid(i), now, sources, count);
      if m.Some? && stored(i) {
        memories := memories + [m.value];
        writes := writes + [SemanticPointFor(m.value)];
      }
      i := i + 1;
    }
    assert items[..i] == items;
  }

  // ---------------------------------------------------------------- the semantic context

  /** `point.payload.get("type", "fact")` */
  function KindText(p: SemanticPayload): string {
    if p.kind.Some? then p.kind.value else "fact"
  }

  /** Line 220: "- content (confidence: N%)" with `N` the confidence times 100, truncated. */
  function ContextLine(p: SemanticPayload): string {
    var content := if p.content.Some? then p.content.value else "";
    var confidence := if p.confidence.Some? then p.confidence.value else DefaultConfidence as real;
    "- " + content + " (confidence: " + IntToString(Trunc(confidence * 100.0)) + "%)"
  }

  /** The title of each type, in the order of lines 225-231; that order is the order of
      `SemanticTypeValues`. */
  const TypeTitles: seq<string> := [
    "Personality Traits", "Preferences & Values", "Key Facts", "Behavioral Patterns", "Important Relationships"
  ]

  /** `memories_by_type[kind]`: the lines of the points of one type, in scroll order. */
  function LinesOfKind(points: seq<SemanticPoint>, kind: string): (r: seq<string>)
    ensures |r| <= |points|
    decreases |points|
  {
    if points == [] then []
    else
      var last := points[|points| - 1];
      LinesOfKind(points[..|points| - 1], kind) + (if KindText(last.payload) == kind then [ContextLine(last.payload)] else [])
  }

  /** The lines of a concatenation are those of the first part followed by those of the second. */
  lemma {:induction false} LinesOfKindAppend(a: seq<SemanticPoint>, b: seq<SemanticPoint>, kind: string)
    ensures LinesOfKind(a + b, kind) == LinesOfKind(a, kind) + LinesOfKind(b, kind)
    decreases |b|
  {
    if b == [] {
      assert a + b == a;
    } else {
      var n := |b| - 1;
      assert (a + b)[..|a + b| - 1] == a + b[..n];
      LinesOfKindAppend(a, b[..n], kind);
    }
  }

  /** A line belongs to a type exactly when some point of that type renders as it. */
  lemma {:induction false} LinesOfKindMembers(points: seq<SemanticPoint>, kind: string, line: string)
    ensures line in LinesOfKind(points, kind) <==>
              exists p :: p in points && KindText(p.payload) == kind && ContextLine(p.payload) == line
    decreases |points|
  {
    if points != [] {
      var init := points[..|points| - 1];
      assert points == init + [points[|points| - 1]];
      LinesOfKindMembers(init, kind, line);
    }
  }

  lemma LinesOfKindSnoc(points: seq<SemanticPoint>, i: nat)
    requires i < |points|
    ensures forall t :: LinesOfKind(points[..i + 1], t) == LinesOfKind(points[..i], t) +
              (if KindText(points[i].payload) == t then [ContextLine(points[i].payload)] else [])
  {
    assert points[..i + 1][..i] == points[..i];
  }

  /** A type has no lines exactly when no point has it. */
  lemma {:induction false} LinesOfKindEmpty(points: seq<SemanticPoint>, kind: string)
    ensures LinesOfKind(points, kind) == [] <==> forall p :: p in points ==> KindText(p.payload) != kind
    decreases |points|
  {
    if points != [] {
      var init := points[..|points| - 1];
      assert points == init + [points[|points| - 1]];
      LinesOfKindEmpty(init, kind);
    }
  }

  /** Lines 234-236 for one type: its title and at most five of its lines, or nothing when no
      point has that type. */
  function Heading(points: seq<SemanticPoint>, kind: string, title: string): (r: seq<string>)
    ensures r == [] <==> LinesOfKind(points, kind) == []
    ensures r != [] ==> r[0] == "\n" + title + ":" && 2 <= |r| <= 6
    ensures r != [] ==> r[1..] == Take(LinesOfKind(points, kind), 5)
  {
    var lines := LinesOfKind(points, kind);
    if lines == [] then [] else ["\n" + title + ":"] + Take(lines, 5)
  }

  /** The heading of every type, in the order of `SemanticTypeValues`. */
  function Headings(points: seq<SemanticPoint>): (hs: seq<seq<string>>)
    ensures |hs| == |SemanticTypeValues|
    ensures forall k :: 0 <= k < |hs| ==> hs[k] == Heading(points, SemanticTypeValues[k], TypeTitles[k])
  {
    seq(|SemanticTypeValues|, k requires 0 <= k < |SemanticTypeValues| => Heading(points, SemanticTypeValues[k], TypeTitles[k]))
  }

  /** Lines 233-236: the headings of all types, one after the other. */
  function GroupParts(points: seq<SemanticPoint>): seq<string> {
    Flatten(Headings(points))
  }

  /** Nothing is rendered exactly when no type has a heading; what is rendered starts with a
      title, never with an empty line. */
  lemma GroupPartsEmpty(points: seq<SemanticPoint>)
    ensures GroupParts(points) == [] <==> forall k :: 0 <= k < |SemanticTypeValues| ==> Headings(points)[k] == []
    ensures GroupParts(points) == [] || GroupParts(points)[0] != ""
  {
    var hs := Headings(points);
    FlattenEmpty(hs);
    forall k | 0 <= k < |hs|
      ensures hs[k] == [] || hs[k][0] != ""
    {
      if hs[k] != [] {
        assert |hs[k][0]| > 0;
      }
    }
    FlattenHead(hs, "");
  }

  /** `get_semantic_context` */
  function SemanticContextOf(scan: Option<seq<SemanticPoint>>): string {
    if scan.None? || scan.value == [] then ""
    else
      var parts := GroupParts(scan.value);
      if parts == [] then "" else Join(parts, "\n")
  }

  /** Lines 199-245 with the loops as written. */
  method GetSemanticContext(scan: Option<seq<SemanticPoint>>) returns (context: string)
    ensures context == SemanticContextOf(scan)
  {
    if scan.None? || scan.value == [] {
      return "";
    }
    var groups := GroupByKind(scan.value);
    var parts := RenderGroups(scan.value, groups);
    context := if parts != [] then Join(parts, "\n") else "";
  }

  /** `groups` maps exactly the types that have lines to those lines. */
  ghost predicate GroupsOf(groups: map<string, seq<string>>, points: seq<SemanticPoint>) {
    (forall kind :: kind in groups <==> LinesOfKind(points, kind) != [])
    && (forall kind :: kind in groups ==> groups[kind] == LinesOfKind(points, kind))
  }

  /** Lines 212-220: `memories_by_type`, filled point by point. */
  method GroupByKind(points: seq<SemanticPoint>) returns (groups: map<string, seq<string>>)
    ensures GroupsOf(groups, points)
  {
    groups := map[];
    var i := 0;
    while i < |points|
      invariant 0 <= i <= |points|
      invariant GroupsOf(groups, points[..i])
    {
      var kind := KindText(points[i].payload);
      var line := ContextLine(points[i].payload);
      var old_lines := if kind in groups then groups[kind] else [];
      GroupStep(groups, points, i, kind, line);
      groups := groups[kind := old_lines + [line]];
      i := i + 1;
    }
    assert points[..i] == points;
  }

  /** Appending the next point's line to its type's list keeps `GroupsOf`. */
  lemma GroupStep(groups: map<string, seq<string>>, points: seq<SemanticPoint>, i: nat, kind: string, line: string)
    requires i < |points| && GroupsOf(groups, points[..i])
    requires kind == KindText(points[i].payload) && line == ContextLine(points[i].payload)
    ensures GroupsOf(groups[kind := (if kind in groups then groups[kind] else []) + [line]], points[..i + 1])
  {
    var next := groups[kind := (if kind in groups then groups[kind] else []) + [line]];
    GroupStepKinds(groups, points, i, kind, line, next);
    GroupStepLines(groups, points, i, kind, line, next);
  }

  lemma GroupStepKinds(groups: map<string, seq<string>>, points: seq<SemanticPoint>, i: nat, kind: string, line: string,
                       next: map<string, seq<string>>)
    requires i < |points| && GroupsOf(groups, points[..i])
    requires kind == KindText(points[i].payload) && line == ContextLine(points[i].payload)
    requires next == groups[kind := (if kind in groups then groups[kind] else []) + [line]]
    ensures forall t :: t in next <==> LinesOfKind(points[..i + 1], t) != []
  {
    LinesOfKindSnoc(points, i);
  }

  lemma GroupStepLines(groups: map<string, seq<string>>, points: seq<SemanticPoint>, i: nat, kind: string, line: string,
                       next: map<string, seq<string>>)
    requires i < |points| && GroupsOf(groups, points[..i])
    requires kind == KindText(points[i].payload) && line == ContextLine(points[i].payload)
    requires next == groups[kind := (if kind in groups then groups[kind] else []) + [line]]
    ensures forall t :: t in next ==> next[t] == LinesOfKind(points[..i + 1], t)
  {
    LinesOfKindSnoc(points, i);
    forall t | t in next
      ensures next[t] == LinesOfKind(points[..i + 1], t)
    {
      if t != kind {
        assert LinesOfKind(points[..i], t) + [] == LinesOfKind(points[..i], t);
      }
    }
  }

  /** Lines 223-236: the headings in their fixed order. */
  method RenderGroups(points: seq<SemanticPoint>, groups: map<string, seq<string>>) returns (parts: seq<string>)
    requires GroupsOf(groups, points)
    ensures parts == GroupParts(points)
  {
    ghost var hs := Headings(points);
    parts := [];
    var k := 0;
    while k < |SemanticTypeValues|
      invariant 0 <= k <= |SemanticTypeValues|
      invariant parts == Flatten(hs[..k])
    {
      FlattenSnoc(hs, k);
      var kind := SemanticTypeValues[k];
      if kind in groups {
        parts := parts + (["\n" + TypeTitles[k] + ":"] + Take(groups[kind], 5));
      } else {
        assert parts + hs[k] == parts;
      }
      k := k + 1;
    }
    assert hs[..k] == hs;
  }

  /** The context lists the types in the fixed order of `SemanticTypeValues` (traits,
      preferences, facts, patterns, relationships), whatever order the points were scrolled in. */
  lemma GroupPartsInOrder(points: seq<SemanticPoint>)
    ensures GroupParts(points) ==
              Heading(points, SemanticTypeValues[0], TypeTitles[0])
              + Heading(points, SemanticTypeValues[1], TypeTitles[1])
              + Heading(points, SemanticTypeValues[2], TypeTitles[2])
              + Heading(points, SemanticTypeValues[3], TypeTitles[3])
              + Heading(points, SemanticTypeValues[4], TypeTitles[4])
  {
    var hs := Headings(points);
    assert hs[..0] == [];
    FlattenSnoc(hs, 0);
    assert [] + hs[0] == hs[0];
    FlattenSnoc(hs, 1);
    FlattenSnoc(hs, 2);
    FlattenSnoc(hs, 3);
    FlattenSnoc(hs, 4);
    assert hs[..5] == hs;
  }

  /** The context is empty exactly when the scroll raised or no point has one of the five types. */
  lemma SemanticContextEmpty(scan: Option<seq<SemanticPoint>>)
    ensures SemanticContextOf(scan) == "" <==>
              scan.None? || forall p :: p in scan.value ==> KindText(p.payload) !in SemanticTypeValues
  {
    if scan.Some? && scan.value != [] {
      var parts := GroupParts(scan.value);
      JoinEmpty(parts, "\n");
      GroupPartsEmpty(scan.value);
      assert SemanticContextOf(scan) == "" <==> parts == [];
      NoKnownKind(scan.value);
    }
  }

  /** No type has a heading exactly when no point has one of the five types. */
  lemma NoKnownKind(points: seq<SemanticPoint>)
    ensures (forall k :: 0 <= k < |SemanticTypeValues| ==> Headings(points)[k] == [])
            <==> forall p :: p in points ==> KindText(p.payload) !in SemanticTypeValues
  {
    var hs := Headings(points);
    forall k | 0 <= k < |hs|
      ensures hs[k] == [] <==> forall p :: p in points ==> KindText(p.payload) != SemanticTypeValues[k]
    {
      LinesOfKindEmpty(points, SemanticTypeValues[k]);
    }
    if !forall k :: 0 <= k < |hs| ==> hs[k] == [] {
      var k :| 0 <= k < |hs| && hs[k] != [];
      var p :| p in points && KindText(p.payload) == SemanticTypeValues[k];
      assert KindText(p.payload) in SemanticTypeValues;
    }
  }

  /** A point whose type is not one of the five changes nothing in a non-empty scroll. */
  lemma UnknownKindIgnored(points: seq<SemanticPoint>, p: SemanticPoint)
    requires points != []
    requires KindText(p.payload) !in SemanticTypeValues
    ensures SemanticContextOf(Some(points + [p])) == SemanticContextOf(Some(points))
  {
    assert (points + [p])[..|points|] == points;
    var before, after := Headings(points), Headings(points + [p]);
    forall k | 0 <= k < |SemanticTypeValues|
      ensures after[k] == before[k]
    {
      assert KindText(p.payload) != SemanticTypeValues[k];
      assert LinesOfKind(points + [p], SemanticTypeValues[k]) == LinesOfKind(points, SemanticTypeValues[k]);
    }
    assert after == before;
  }

  /** The position of a type in `SemanticTypeValues`. */
  function SemanticTypeIndex(t: SemanticType): (k: nat)
    ensures k < |SemanticTypeValues| && SemanticTypeValues[k] == SemanticTypeValue(t)
  {
    match t
    case Trait => 0
    case Preference => 1
    case Fact => 2
    case Pattern => 3
    case Relationship => 4
  }

  /** A stored memory's line shows its content and its confidence as a truncated percentage. */
  lemma StoredMemoryLine(m: SemanticMemory)
    ensures ContextLine(SemanticPointFor(m).payload) ==
              "- " + m.content + " (confidence: " + IntToString(Trunc(m.confidence as real * 100.0)) + "%)"
    ensures KindText(SemanticPointFor(m).payload) == SemanticTypeValue(m.kind)
  {
  }

  /** A single stored memory renders as its type's title followed by its line. */
  lemma SingleMemoryContext(m: SemanticMemory)
    ensures SemanticContextOf(Some([SemanticPointFor(m)])) ==
              Join(["\n" + TypeTitles[SemanticTypeIndex(m.kind)] + ":", ContextLine(SemanticPointFor(m).payload)], "\n")
  {
    SingleMemoryParts(m);
  }

  lemma SingleMemoryParts(m: SemanticMemory)
    ensures GroupParts([SemanticPointFor(m)]) ==
              ["\n" + TypeTitles[SemanticTypeIndex(m.kind)] + ":", ContextLine(SemanticPointFor(m).payload)]
  {
    var points := [SemanticPointFor(m)];
    var hs := Headings(points);
    var k := SemanticTypeIndex(m.kind);
    var line := ContextLine(SemanticPointFor(m).payload);
    assert points[..0] == [];
    assert hs[k] == ["\n" + TypeTitles[k] + ":", line] by {
      assert LinesOfKind(points, SemanticTypeValues[k]) == [line];
      HeadingOfOne(points, SemanticTypeValues[k], TypeTitles[k], line);
    }
    SemanticTypeValuesDistinct();
    forall j | 0 <= j < |hs| && j != k
      ensures hs[j] == []
    {
      assert SemanticTypeValues[j] != SemanticTypeValues[k];
      assert LinesOfKind(points, SemanticTypeValues[j]) == [];
    }
    FlattenSingle(hs, k);
  }

  lemma HeadingOfOne(points: seq<SemanticPoint>, kind: string, title: string, line: string)
    requires LinesOfKind(points, kind) == [line]
    ensures Heading(points, kind, title) == ["\n" + title + ":", line]
  {
    assert Take([line], 5) == [line];
  }
}
