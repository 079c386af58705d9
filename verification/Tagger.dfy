/**
 Concept tagging: every table is scored against every concept, and its tags are
 rewritten in place while the same table slice serves as context for the next ones.
 */
module Tagger {
  import opened Schema
  import opened Sequences
  import opened Signals

  datatype SignalDef = SignalDef(name: string, weight: real, detect: Detector)

  datatype ConceptDef = ConceptDef(tag: string, threshold: real, signals: seq<SignalDef>)

  datatype SignalHit = SignalHit(signalName: string, weight: real)

  /** The signals that fire, in order. */
  function Hits(t: TableInfo, all: seq<TableInfo>, signals: seq<SignalDef>): seq<SignalHit> {
    if signals == [] then []
    else
      var sig := Last(signals);
      Hits(t, all, Init(signals)) + if Fires(sig.detect, t, all) then [SignalHit(sig.name, sig.weight)] else []
  }

  function TotalWeight(hits: seq<SignalHit>): real {
    if hits == [] then 0.0 else TotalWeight(Init(hits)) + Last(hits).weight
  }

  function Score(t: TableInfo, all: seq<TableInfo>, c: ConceptDef): real {
    TotalWeight(Hits(t, all, c.signals))
  }

  predicate Earns(t: TableInfo, all: seq<TableInfo>, c: ConceptDef) {
    Score(t, all, c) >= c.threshold
  }

  // ----- What a score is -----

  function Weight(h: SignalHit): real {
    h.weight
  }

  /** A score is the sum of its hit weights. */
  lemma {:induction false} ScoreIsSumOfHits(hits: seq<SignalHit>)
    ensures TotalWeight(hits) == Sum(Map(hits, Weight))
  {
    if hits != [] {
      ScoreIsSumOfHits(Init(hits));
      MapInit(hits, Weight);
    }
  }

  function FiresOn(t: TableInfo, all: seq<TableInfo>): SignalDef -> bool {
    (s: SignalDef) => Fires(s.detect, t, all)
  }

  function AsHit(s: SignalDef): SignalHit {
    SignalHit(s.name, s.weight)
  }

  function SignalWeight(s: SignalDef): real {
    s.weight
  }

  /** The hits are the signals that fire, each with its own name and weight, in order. */
  lemma {:induction false} HitsAreFiring(t: TableInfo, all: seq<TableInfo>, signals: seq<SignalDef>)
    ensures Hits(t, all, signals) == Map(Filter(signals, FiresOn(t, all)), AsHit)
  {
    hide Fires;
    if signals != [] {
      var sig, before := Last(signals), Filter(Init(signals), FiresOn(t, all));
      HitsAreFiring(t, all, Init(signals));
      if Fires(sig.detect, t, all) {
        MapConcat(before, [sig], AsHit);
        assert Map([sig], AsHit) == [AsHit(sig)];
      }
    }
  }

  /** The weights of the concept's firing signals, summed. */
  function FiringWeight(t: TableInfo, all: seq<TableInfo>, c: ConceptDef): real {
    Sum(Map(Filter(c.signals, FiresOn(t, all)), SignalWeight))
  }

  lemma OneMoreFiring(signals: seq<SignalDef>, sig: SignalDef, fires: SignalDef -> bool)
    ensures Sum(Map(Filter(signals + [sig], fires), SignalWeight))
            == Sum(Map(Filter(signals, fires), SignalWeight)) + if fires(sig) then sig.weight else 0.0
  {
    assert Map([sig], SignalWeight) == [sig.weight];
    hide Sum, Map, Filter;
    var firing := Filter(signals, fires);
    FilterOneMore(signals, sig, fires);
    MapConcat(firing, [sig], SignalWeight);
    SumOneMore(Map(firing, SignalWeight), sig.weight);
  }

  lemma {:induction false} FiringWeights(t: TableInfo, all: seq<TableInfo>, signals: seq<SignalDef>)
    ensures TotalWeight(Hits(t, all, signals)) == Sum(Map(Filter(signals, FiresOn(t, all)), SignalWeight))
  {
    hide Fires;
    if signals != [] {
      var sig, before := Last(signals), Init(signals);
      FiringWeights(t, all, before);
      OneMoreHit(t, all, before, sig);
      assert before + [sig] == signals;
      OneMoreFiring(before, sig, FiresOn(t, all));
      hide Hits, TotalWeight, Sum, Map, Filter;
    }
  }

  lemma ScoreIsFiringWeight(t: TableInfo, all: seq<TableInfo>, c: ConceptDef)
    ensures Score(t, all, c) == FiringWeight(t, all, c)
  {
    FiringWeights(t, all, c.signals);
  }

  lemma OneMoreHit(t: TableInfo, all: seq<TableInfo>, signals: seq<SignalDef>, sig: SignalDef)
    ensures TotalWeight(Hits(t, all, signals + [sig]))
            == TotalWeight(Hits(t, all, signals)) + if Fires(sig.detect, t, all) then sig.weight else 0.0
  {
    hide Fires;
    assert Init(signals + [sig]) == signals;
    var hits, hit := Hits(t, all, signals), SignalHit(sig.name, sig.weight);
    assert Init(hits + [hit]) == hits;
    assert hits + [] == hits;
  }

  /** One more signal adds its weight if it fires, and nothing if it does not. */
  lemma OneMoreSignal(t: TableInfo, all: seq<TableInfo>, c: ConceptDef, sig: SignalDef)
    ensures Score(t, all, c.(signals := c.signals + [sig]))
            == Score(t, all, c) + if Fires(sig.detect, t, all) then sig.weight else 0.0
  {
    OneMoreHit(t, all, c.signals, sig);
    hide Hits, TotalWeight, Fires;
  }

  /** The order in which a concept lists its signals changes no score. */
  lemma SignalOrderIrrelevant(t: TableInfo, all: seq<TableInfo>, c: ConceptDef, c': ConceptDef)
    requires multiset(c.signals) == multiset(c'.signals)
    ensures Score(t, all, c) == Score(t, all, c')
  {
    hide Sum, Map, Filter, Score, FiresOn;
    ScoreIsFiringWeight(t, all, c);
    ScoreIsFiringWeight(t, all, c');
    var firing, firing' := Filter(c.signals, FiresOn(t, all)), Filter(c'.signals, FiresOn(t, all));
    FilterPermuted(c.signals, c'.signals, FiresOn(t, all));
    MapPermuted(firing, firing', SignalWeight);
    SumPermuted(Map(firing, SignalWeight), Map(firing', SignalWeight));
  }

  method ScoreTable(t: TableInfo, all: seq<TableInfo>, concept: ConceptDef) returns (score: real, hits: seq<SignalHit>)
    ensures hits == Hits(t, all, concept.signals)
    ensures score == Sum(Map(hits, Weight)) == Score(t, all, concept)
  {
    score, hits := 0.0, [];
    var signals := concept.signals;
    for i := 0 to |signals|
      invariant hits == Hits(t, all, signals[..i]) && score == TotalWeight(hits)
    {
      var sig := signals[i];
      assert Init(signals[..i + 1]) == signals[..i];
      if Fires(sig.detect, t, all) {
        var hit := SignalHit(sig.name, sig.weight);
        assert Init(hits + [hit]) == hits;
        score := score + sig.weight;
        hits := hits + [hit];
      }
    }
    assert signals[..|signals|] == signals;
    ScoreIsSumOfHits(hits);
  }

  function Tags(t: TableInfo, all: seq<TableInfo>, concepts: seq<ConceptDef>): seq<string> {
    if concepts == [] then []
    else
      var c := Last(concepts);
      Tags(t, all, Init(concepts)) + if Earns(t, all, c) then [c.tag] else []
  }

  /** Positive scores, by tag. */
  function Scores(t: TableInfo, all: seq<TableInfo>, concepts: seq<ConceptDef>): map<string, real> {
    if concepts == [] then map[]
    else
      var before, c := Scores(t, all, Init(concepts)), Last(concepts);
      if Score(t, all, c) > 0.0 then before[c.tag := Score(t, all, c)] else before
  }

  function SignalAudit(t: TableInfo, all: seq<TableInfo>, concepts: seq<ConceptDef>): map<string, seq<SignalHit>> {
    if concepts == [] then map[]
    else
      var before, c := SignalAudit(t, all, Init(concepts)), Last(concepts);
      if Score(t, all, c) > 0.0 then before[c.tag := Hits(t, all, c.signals)] else before
  }

  method AssignTags(t: TableInfo, all: seq<TableInfo>, concepts: seq<ConceptDef>)
    returns (tags: seq<string>, scores: map<string, real>, signals: map<string, seq<SignalHit>>)
    ensures tags == Tags(t, all, concepts)
    ensures scores == Scores(t, all, concepts) && signals == SignalAudit(t, all, concepts)
  {
    hide Score, Hits;
    tags, scores, signals := [], map[], map[];
    for i := 0 to |concepts|
      invariant tags == Tags(t, all, concepts[..i])
      invariant scores == Scores(t, all, concepts[..i]) && signals == SignalAudit(t, all, concepts[..i])
    {
      var concept := concepts[i];
      assert Init(concepts[..i + 1]) == concepts[..i];
      var score, hits := ScoreTable(t, all, concept);
      if score > 0.0 {
        scores := scores[concept.tag := score];
        signals := signals[concept.tag := hits];
      }
      if score >= concept.threshold {
        tags := tags + [concept.tag];
      }
    }
    assert concepts[..|concepts|] == concepts;
  }

  ghost predicate DistinctTags(concepts: seq<ConceptDef>) {
    forall i, j :: 0 <= i < j < |concepts| ==> concepts[i].tag != concepts[j].tag
  }

  /** The positive score of one concept, and its hits. */
  predicate IsAudited(t: TableInfo, all: seq<TableInfo>, c: ConceptDef, score: real, hits: seq<SignalHit>) {
    score == Score(t, all, c) > 0.0 && hits == Hits(t, all, c.signals)
  }

  /** Each reported score is the weight of the concept's own hits, and positive; each tag was earned. */
  lemma {:induction false} ScoresAreHitWeights(t: TableInfo, all: seq<TableInfo>, concepts: seq<ConceptDef>,
                                               tag: string)
    ensures tag in Scores(t, all, concepts) <==> tag in SignalAudit(t, all, concepts)
    ensures tag in Scores(t, all, concepts) <==> exists c :: c in concepts && c.tag == tag && Score(t, all, c) > 0.0
    ensures tag in Scores(t, all, concepts) ==>
              exists c :: c in concepts && c.tag == tag && IsAudited(t, all, c, Scores(t, all, concepts)[tag],
                                                                     SignalAudit(t, all, concepts)[tag])
    ensures tag in Tags(t, all, concepts) <==> exists c :: c in concepts && c.tag == tag && Earns(t, all, c)
  {
    if concepts != [] {
      ScoresAreHitWeights(t, all, Init(concepts), tag);
      assert forall c :: c in concepts <==> c in Init(concepts) || c == Last(concepts);
      hide Hits, TotalWeight;
    }
  }

  lemma {:induction false} TagsDistinct(t: TableInfo, all: seq<TableInfo>, concepts: seq<ConceptDef>)
    requires DistinctTags(concepts)
    ensures forall i, j :: 0 <= i < j < |Tags(t, all, concepts)| ==>
              Tags(t, all, concepts)[i] != Tags(t, all, concepts)[j]
  {
    if concepts != [] {
      TagsDistinct(t, all, Init(concepts));
      ScoresAreHitWeights(t, all, Init(concepts), Last(concepts).tag);
      hide Score;
    }
  }

  // ----- The loop over the manifest -----

  /** The slice after the first `n` tables were rewritten, each seeing the slice as it was then. */
  function Rewritten(ts: seq<TableInfo>, concepts: seq<ConceptDef>, n: nat): (us: seq<TableInfo>)
    requires n <= |ts|
    ensures |us| == |ts| && forall i :: 0 <= i < |ts| ==> Untagged(us[i]) == Untagged(ts[i])
  {
    if n == 0 then ts
    else
      var s := Rewritten(ts, concepts, n - 1);
      s[n - 1 := s[n - 1].(nouiTags := Tags(s[n - 1], s, concepts))]
  }

  datatype TableTagResult = TableTagResult(tableName: string, tags: seq<string>, scores: map<string, real>,
                                           signals: map<string, seq<SignalHit>>)

  datatype TagSummary = TagSummary(totalTables: nat, taggedTables: nat, tagCounts: map<string, nat>,
                                   taggedNames: map<string, seq<string>>)

  datatype TagReport = TagReport(summary: TagSummary, tables: seq<TableTagResult>)

  /** The table's name once per occurrence of `tag` among its tags. */
  function NamesFor(name: string, tags: seq<string>, tag: string): seq<string> {
    if tags == [] then [] else NamesFor(name, Init(tags), tag) + if Last(tags) == tag then [name] else []
  }

  /** The names to report under `tag`, in manifest order. */
  function NamesTagged(ts: seq<TableInfo>, tag: string): seq<string> {
    if ts == [] then [] else NamesTagged(Init(ts), tag) + NamesFor(Last(ts).name, Last(ts).nouiTags, tag)
  }

  function HasTags(): TableInfo -> bool {
    (t: TableInfo) => t.nouiTags != []
  }

  function Carries(tag: string): TableInfo -> bool {
    (t: TableInfo) => tag in t.nouiTags
  }

  type NameMap = map<string, seq<string>>

  /** What the summary holds under one tag, given the names to list. */
  ghost predicate ListsTag(counts: map<string, nat>, names: NameMap, listed: seq<string>, tag: string) {
    && (tag in counts <==> listed != []) && (tag in names <==> listed != [])
    && (tag in counts ==> counts[tag] == |listed| && names[tag] == listed)
  }

  ghost predicate Lists(counts: map<string, nat>, names: NameMap, ts: seq<TableInfo>, name: string, tags: seq<string>) {
    forall tag :: ListsTag(counts, names, NamesTagged(ts, tag) + NamesFor(name, tags, tag), tag)
  }

  /** Counts and name lists agree with the tables `ts` as tagged. */
  ghost predicate Summarizes(counts: map<string, nat>, names: NameMap, ts: seq<TableInfo>) {
    forall tag :: ListsTag(counts, names, NamesTagged(ts, tag), tag)
  }

  lemma NamesForOneMore(name: string, tags: seq<string>, tag: string, t: string)
    ensures NamesFor(name, tags + [tag], t) == NamesFor(name, tags, t) + if t == tag then [name] else []
  {
    assert Init(tags + [tag]) == tags;
  }

  lemma ListsOneMore(counts: map<string, nat>, names: NameMap, ts: seq<TableInfo>, name: string, tags: seq<string>,
                     tag: string)
    requires Lists(counts, names, ts, name, tags)
    ensures var n, ns := (if tag in counts then counts[tag] else 0), (if tag in names then names[tag] else []);
            Lists(counts[tag := n + 1], names[tag := ns + [name]], ts, name, tags + [tag])
  {
    hide NamesFor, NamesTagged;
    var n, ns := (if tag in counts then counts[tag] else 0), (if tag in names then names[tag] else []);
    var counts', names' := counts[tag := n + 1], names[tag := ns + [name]];
    forall t
      ensures ListsTag(counts', names', NamesTagged(ts, t) + NamesFor(name, tags + [tag], t), t)
    {
      NamesForOneMore(name, tags, tag, t);
      var listed := NamesTagged(ts, t) + NamesFor(name, tags, t);
      assert ListsTag(counts, names, listed, t);
      if t == tag {
        assert NamesTagged(ts, t) + (NamesFor(name, tags, t) + [name]) == listed + [name];
      } else {
        assert NamesTagged(ts, t) + (NamesFor(name, tags, t) + []) == listed;
      }
    }
  }

  method CountTags(counts: map<string, nat>, names: NameMap, ghost ts: seq<TableInfo>, t: TableInfo)
    returns (counts': map<string, nat>, names': NameMap)
    requires Summarizes(counts, names, ts)
    ensures Summarizes(counts', names', ts + [t])
  {
    counts', names' := counts, names;
    ListsBegin(counts, names, ts, t.name);
    hide Lists, Summarizes;
    assert t.nouiTags[..0] == [];
    for j := 0 to |t.nouiTags|
      invariant Lists(counts', names', ts, t.name, t.nouiTags[..j])
    {
      var tag := t.nouiTags[j];
      ListsOneMore(counts', names', ts, t.name, t.nouiTags[..j], tag);
      assert t.nouiTags[..j + 1] == t.nouiTags[..j] + [tag];
      counts' := counts'[tag := (if tag in counts' then counts'[tag] else 0) + 1];
      names' := names'[tag := (if tag in names' then names'[tag] else []) + [t.name]];
    }
    assert t.nouiTags[..|t.nouiTags|] == t.nouiTags;
    ListsDone(counts', names', ts, t);
  }

  lemma ListsBegin(counts: map<string, nat>, names: NameMap, ts: seq<TableInfo>, name: string)
    requires Summarizes(counts, names, ts)
    ensures Lists(counts, names, ts, name, [])
  {
    hide NamesTagged, ListsTag;
    forall tag
      ensures ListsTag(counts, names, NamesTagged(ts, tag) + NamesFor(name, [], tag), tag)
    {
      assert NamesTagged(ts, tag) + [] == NamesTagged(ts, tag);
    }
  }

  lemma ListsDone(counts: map<string, nat>, names: NameMap, ts: seq<TableInfo>, t: TableInfo)
    requires Lists(counts, names, ts, t.name, t.nouiTags)
    ensures Summarizes(counts, names, ts + [t])
  {
    assert Init(ts + [t]) == ts;
    hide ListsTag;
    forall tag
      ensures ListsTag(counts, names, NamesTagged(ts + [t], tag), tag)
    {
    }
  }

  /** The report lists a table exactly when some concept scored above zero. */
  function ResultFor(t: TableInfo, all: seq<TableInfo>, concepts: seq<ConceptDef>): seq<TableTagResult> {
    var scores := Scores(t, all, concepts);
    if |scores| > 0 then [TableTagResult(t.name, Tags(t, all, concepts), scores, SignalAudit(t, all, concepts))] else []
  }

  function Results(ts: seq<TableInfo>, concepts: seq<ConceptDef>, n: nat): seq<TableTagResult>
    requires n <= |ts|
  {
    if n == 0 then []
    else
      var s := Rewritten(ts, concepts, n - 1);
      Results(ts, concepts, n - 1) + ResultFor(s[n - 1], s, concepts)
  }

  /** One table's turn: rewrites its tags and nothing else. */
  method TagTable(tables: array<TableInfo>, i: nat, concepts: seq<ConceptDef>) returns (found: seq<TableTagResult>)
    requires i < tables.Length
    modifies tables
    ensures tables[..]
            == old(tables[..])[i := old(tables[i]).(nouiTags := Tags(old(tables[i]), old(tables[..]), concepts))]
    ensures found == ResultFor(old(tables[i]), old(tables[..]), concepts)
  {
    var t := tables[i];
    var tags, scores, signals := AssignTags(t, tables[..], concepts);
    tables[i] := t.(nouiTags := tags);
    found := if |scores| > 0 then [TableTagResult(t.name, tags, scores, signals)] else [];
  }

  method TagManifest(tables: array<TableInfo>, concepts: seq<ConceptDef>) returns (report: TagReport)
    modifies tables
    ensures tables[..] == Rewritten(old(tables[..]), concepts, tables.Length)
    ensures report.tables == Results(old(tables[..]), concepts, tables.Length)
    ensures report.summary.totalTables == tables.Length
    ensures report.summary.taggedTables == Count(tables[..], HasTags())
    ensures Summarizes(report.summary.tagCounts, report.summary.taggedNames, tables[..])
  {
    hide Tags, ResultFor, Summarizes;
    ghost var was := tables[..];
    var counts: map<string, nat>, names: NameMap := map[], map[];
    var results: seq<TableTagResult> := [];
    var taggedCount := 0;
    assert Summarizes(counts, names, []) by { EmptySummary(); }
    for i := 0 to tables.Length
      invariant tables[..] == Rewritten(was, concepts, i)
      invariant results == Results(was, concepts, i)
      invariant Summarizes(counts, names, tables[..i])
      invariant taggedCount == Count(tables[..i], HasTags())
    {
      ghost var done := tables[..i];
      var found := TagTable(tables, i, concepts);
      OneMoreTagged(done, tables[..][i]);
      assert tables[..i + 1] == done + [tables[i]];
      results := results + found;
      if |tables[i].nouiTags| > 0 {
        taggedCount := taggedCount + 1;
      }
      counts, names := CountTags(counts, names, done, tables[i]);
    }
    assert tables[..tables.Length] == tables[..];
    report := TagReport(TagSummary(tables.Length, taggedCount, counts, names), results);
  }

  lemma OneMoreTagged(ts: seq<TableInfo>, t: TableInfo)
    ensures Count(ts + [t], HasTags()) == Count(ts, HasTags()) + if t.nouiTags != [] then 1 else 0
  {
    assert Init(ts + [t]) == ts;
  }

  lemma EmptySummary()
    ensures Summarizes(map[], map[], [])
  {
  }

  // ----- In place, but pure -----

  ghost predicate AllStructural(concepts: seq<ConceptDef>) {
    forall c, s :: c in concepts && s in c.signals ==> Structural(s.detect)
  }

  /** No signal reads tags, whatever else of the table and the manifest it reads. */
  ghost predicate AllTagBlind(concepts: seq<ConceptDef>) {
    forall c, s :: c in concepts && s in c.signals ==> TagBlind(s.detect)
  }

  /** As no signal of a structural concept does. */
  lemma StructuralAreTagBlind(concepts: seq<ConceptDef>)
    requires AllStructural(concepts)
    ensures AllTagBlind(concepts)
  {
    forall c, s | c in concepts && s in c.signals
      ensures TagBlind(s.detect)
    {
      StructuralIsTagBlind(s.detect);
    }
  }

  lemma {:induction false} HitsIgnoreTags(t: TableInfo, u: TableInfo, all: seq<TableInfo>, all': seq<TableInfo>,
                                          signals: seq<SignalDef>)
    requires Untagged(t) == Untagged(u) && SameButTags(all, all')
    requires forall s :: s in signals ==> TagBlind(s.detect)
    ensures Hits(t, all, signals) == Hits(u, all', signals)
  {
    if signals != [] {
      assert Last(signals) in signals && forall s :: s in Init(signals) ==> s in signals;
      HitsIgnoreTags(t, u, all, all', Init(signals));
      assert Fires(Last(signals).detect, t, all) == Fires(Last(signals).detect, u, all');
      hide Fires, TagBlind, SameButTags;
    }
  }

  lemma {:induction false} TagsIgnoreTags(t: TableInfo, u: TableInfo, all: seq<TableInfo>, all': seq<TableInfo>,
                                          concepts: seq<ConceptDef>)
    requires Untagged(t) == Untagged(u) && SameButTags(all, all') && AllTagBlind(concepts)
    ensures Tags(t, all, concepts) == Tags(u, all', concepts)
  {
    hide TagBlind, SameButTags;
    if concepts != [] {
      var c := Last(concepts);
      assert c in concepts && forall d :: d in Init(concepts) ==> d in concepts;
      TagsIgnoreTags(t, u, all, all', Init(concepts));
      HitsIgnoreTags(t, u, all, all', c.signals);
      hide Hits;
    }
  }

  lemma {:induction false} HitsSeeShape(t: TableInfo, u: TableInfo, all: seq<TableInfo>, all': seq<TableInfo>,
                                        signals: seq<SignalDef>)
    requires SameShape(t, u) && forall s :: s in signals ==> Structural(s.detect)
    ensures Hits(t, all, signals) == Hits(u, all', signals)
  {
    if signals != [] {
      assert Last(signals) in signals && forall s :: s in Init(signals) ==> s in signals;
      HitsSeeShape(t, u, all, all', Init(signals));
      StructuralSeesShape(Last(signals).detect, t, u, all, all');
      hide Fires, SameShape;
    }
  }

  /** Tags depend on the table's shape alone: not on tags, table order or column order. */
  lemma {:induction false} TagsSeeShape(t: TableInfo, u: TableInfo, all: seq<TableInfo>, all': seq<TableInfo>,
                                        concepts: seq<ConceptDef>)
    requires SameShape(t, u) && AllStructural(concepts)
    ensures Tags(t, all, concepts) == Tags(u, all', concepts)
  {
    if concepts != [] {
      var c := Last(concepts);
      assert c in concepts && forall d :: d in Init(concepts) ==> d in concepts;
      TagsSeeShape(t, u, all, all', Init(concepts));
      HitsSeeShape(t, u, all, all', c.signals);
      hide Hits, SameShape;
    }
  }

  /** The manifest with its first `k` tables already tagged as the original manifest calls for. */
  function Mixed(ts: seq<TableInfo>, concepts: seq<ConceptDef>, k: nat): seq<TableInfo>
    requires k <= |ts|
  {
    seq(|ts|, i requires 0 <= i < |ts| => if i < k then ts[i].(nouiTags := Tags(ts[i], ts, concepts)) else ts[i])
  }

  /** Table `k` gets the same tags whether or not the tables before it have been tagged. */
  predicate UnmovedBefore(ts: seq<TableInfo>, concepts: seq<ConceptDef>, k: nat)
    requires k < |ts|
  {
    Tags(ts[k], Mixed(ts, concepts, k), concepts) == Tags(ts[k], ts, concepts)
  }

  lemma MixedStep(ts: seq<TableInfo>, concepts: seq<ConceptDef>, k: nat)
    requires k < |ts|
    ensures Mixed(ts, concepts, k)[k] == ts[k]
    ensures var m, tags := Mixed(ts, concepts, k), Tags(ts[k], ts, concepts);
            m[k := m[k].(nouiTags := tags)] == Mixed(ts, concepts, k + 1)
  {
    hide Tags;
  }

  lemma {:induction false} UnmovedMeansMixed(ts: seq<TableInfo>, concepts: seq<ConceptDef>, n: nat)
    requires n <= |ts| && forall k: nat :: k < n ==> UnmovedBefore(ts, concepts, k)
    ensures Rewritten(ts, concepts, n) == Mixed(ts, concepts, n)
  {
    hide Tags, Mixed;
    if n > 0 {
      UnmovedMeansMixed(ts, concepts, n - 1);
      MixedStep(ts, concepts, n - 1);
      assert UnmovedBefore(ts, concepts, n - 1);
    } else {
      MixedNone(ts, concepts);
    }
  }

  lemma MixedNone(ts: seq<TableInfo>, concepts: seq<ConceptDef>)
    ensures Mixed(ts, concepts, 0) == ts
  {
    hide Tags;
  }

  /** A table that has had its turn stays, and one that has not is as it was. */
  lemma {:induction false} TurnsAreFinal(ts: seq<TableInfo>, concepts: seq<ConceptDef>, k: nat, n: nat)
    requires k <= n <= |ts|
    ensures forall i :: 0 <= i < k ==> Rewritten(ts, concepts, n)[i] == Rewritten(ts, concepts, k)[i]
    ensures forall i :: n <= i < |ts| ==> Rewritten(ts, concepts, n)[i] == ts[i]
  {
    hide Tags;
    if k < n {
      TurnsAreFinal(ts, concepts, k, n - 1);
    } else if n > 0 {
      TurnsAreFinal(ts, concepts, n - 1, n - 1);
    }
  }

  lemma {:induction false} MixedMeansUnmoved(ts: seq<TableInfo>, concepts: seq<ConceptDef>, k: nat)
    requires k < |ts| && Rewritten(ts, concepts, |ts|) == Mixed(ts, concepts, |ts|)
    ensures UnmovedBefore(ts, concepts, k)
  {
    TurnsAreFinal(ts, concepts, k, |ts|);
    TurnsAreFinal(ts, concepts, k, k);
    AssignedInTurn(ts, concepts, |ts|, k);
    hide Tags, Rewritten;
    assert Mixed(ts, concepts, k) == Rewritten(ts, concepts, k);
  }

  /**
   The in-place loop computes the pure map over the original manifest if and only
   if no table's tags depend on whether the tables before it are tagged yet.
   */
  lemma InPlaceIsPureIff(ts: seq<TableInfo>, concepts: seq<ConceptDef>)
    ensures Rewritten(ts, concepts, |ts|) == Mixed(ts, concepts, |ts|)
            <==> forall k: nat :: k < |ts| ==> UnmovedBefore(ts, concepts, k)
  {
    hide Rewritten, Mixed, UnmovedBefore;
    if Rewritten(ts, concepts, |ts|) == Mixed(ts, concepts, |ts|) {
      forall k: nat | k < |ts|
        ensures UnmovedBefore(ts, concepts, k)
      {
        MixedMeansUnmoved(ts, concepts, k);
      }
    } else if forall k: nat :: k < |ts| ==> UnmovedBefore(ts, concepts, k) {
      UnmovedMeansMixed(ts, concepts, |ts|);
    }
  }

  /** Signals that read no tags meet the condition on every manifest. */
  lemma TagBlindUnmoved(ts: seq<TableInfo>, concepts: seq<ConceptDef>, k: nat)
    requires AllTagBlind(concepts) && k < |ts|
    ensures UnmovedBefore(ts, concepts, k)
  {
    hide Tags, AllTagBlind;
    TagsIgnoreTags(ts[k], ts[k], Mixed(ts, concepts, k), ts, concepts);
  }

  /** So after any number of turns, the tables so far carry the tags computed on the original manifest. */
  lemma InPlaceIsPure(ts: seq<TableInfo>, concepts: seq<ConceptDef>, n: nat)
    requires AllTagBlind(concepts) && n <= |ts|
    ensures Rewritten(ts, concepts, n) == Mixed(ts, concepts, n)
  {
    hide Rewritten, Mixed, UnmovedBefore, AllTagBlind;
    forall k: nat | k < n
      ensures UnmovedBefore(ts, concepts, k)
    {
      TagBlindUnmoved(ts, concepts, k);
    }
    UnmovedMeansMixed(ts, concepts, n);
  }

  /** A signal that reads its own table's tags is not tag-blind, yet does no harm: each table has its turn once. */
  lemma OwnTagsDoNoHarm(ts: seq<TableInfo>, concepts: seq<ConceptDef>)
    requires forall c, s :: c in concepts && s in c.signals ==> OwnTableOnly(s.detect)
    ensures Rewritten(ts, concepts, |ts|) == Mixed(ts, concepts, |ts|)
  {
    InPlaceIsPureIff(ts, concepts);
    forall k: nat | k < |ts|
      ensures UnmovedBefore(ts, concepts, k)
    {
      OwnTableTags(ts[k], Mixed(ts, concepts, k), ts, concepts);
    }
    hide Rewritten, Mixed, UnmovedBefore;
  }

  ghost predicate OwnTableOnly(d: Detector) {
    forall t, all, all' :: Fires(d, t, all) == Fires(d, t, all')
  }

  lemma {:induction false} OwnTableHits(t: TableInfo, all: seq<TableInfo>, all': seq<TableInfo>,
                                        signals: seq<SignalDef>)
    requires forall s :: s in signals ==> OwnTableOnly(s.detect)
    ensures Hits(t, all, signals) == Hits(t, all', signals)
  {
    if signals != [] {
      assert Last(signals) in signals && forall s :: s in Init(signals) ==> s in signals;
      OwnTableHits(t, all, all', Init(signals));
      assert Fires(Last(signals).detect, t, all) == Fires(Last(signals).detect, t, all');
      hide Fires, OwnTableOnly;
    }
  }

  lemma {:induction false} OwnTableTags(t: TableInfo, all: seq<TableInfo>, all': seq<TableInfo>,
                                        concepts: seq<ConceptDef>)
    requires forall c, s :: c in concepts && s in c.signals ==> OwnTableOnly(s.detect)
    ensures Tags(t, all, concepts) == Tags(t, all', concepts)
  {
    hide OwnTableOnly;
    if concepts != [] {
      var c := Last(concepts);
      assert c in concepts && forall d :: d in Init(concepts) ==> d in concepts;
      OwnTableTags(t, all, all', Init(concepts));
      OwnTableHits(t, all, all', c.signals);
      hide Hits;
    }
  }

  /** The table carries what it is about to be given. */
  predicate Settled(ts: seq<TableInfo>, concepts: seq<ConceptDef>, k: nat)
    requires k < |ts|
  {
    ts[k].nouiTags == Tags(ts[k], ts, concepts)
  }

  lemma SettingBack(s: seq<TableInfo>, ts: seq<TableInfo>, concepts: seq<ConceptDef>, k: nat)
    requires k < |s| == |ts| && s[k] == ts[k]
    ensures s[k := s[k].(nouiTags := Tags(s[k], s, concepts))] == ts <==> s == ts && Settled(ts, concepts, k)
  {
    hide Tags;
    var t := s[k := s[k].(nouiTags := Tags(s[k], s, concepts))];
    assert s == t[k := s[k]];
  }

  lemma NotYet(ts: seq<TableInfo>, concepts: seq<ConceptDef>, n: nat)
    requires n < |ts|
    ensures Rewritten(ts, concepts, n)[n] == ts[n]
  {
    TurnsAreFinal(ts, concepts, n, n);
    hide Rewritten;
  }

  lemma NoTurns(ts: seq<TableInfo>, concepts: seq<ConceptDef>)
    ensures Rewritten(ts, concepts, 0) == ts
  {
    hide Tags;
  }

  lemma TurnIsNoOpIff(ts: seq<TableInfo>, concepts: seq<ConceptDef>, n: nat)
    requires n < |ts|
    ensures Rewritten(ts, concepts, n + 1) == ts <==> Rewritten(ts, concepts, n) == ts && Settled(ts, concepts, n)
  {
    RewrittenStep(ts, concepts, n);
    NotYet(ts, concepts, n);
    SettingBack(Rewritten(ts, concepts, n), ts, concepts, n);
    hide Rewritten, Tags, Settled;
  }

  /** Tagging a manifest leaves it alone if and only if each table is settled. */
  lemma {:induction false} NoOpIffSettled(ts: seq<TableInfo>, concepts: seq<ConceptDef>, n: nat)
    requires n <= |ts|
    ensures Rewritten(ts, concepts, n) == ts
            <==> forall k: nat :: k < n ==> Settled(ts, concepts, k)
  {
    hide Tags, Settled, Rewritten;
    if n > 0 {
      NoOpIffSettled(ts, concepts, n - 1);
      TurnIsNoOpIff(ts, concepts, n - 1);
    } else {
      NoTurns(ts, concepts);
    }
  }

  /** Tagging a tagged manifest again changes nothing. */
  lemma {:induction false} SecondRunIsNoOp(ts: seq<TableInfo>, concepts: seq<ConceptDef>)
    requires AllTagBlind(concepts)
    ensures var once := Rewritten(ts, concepts, |ts|); Rewritten(once, concepts, |ts|) == once
  {
    hide Tags, AllTagBlind, Rewritten;
    var once := Rewritten(ts, concepts, |ts|);
    InPlaceIsPure(ts, concepts, |ts|);
    forall k: nat | k < |ts|
      ensures Settled(once, concepts, k)
    {
      TagsIgnoreTags(once[k], ts[k], once, ts, concepts);
    }
    NoOpIffSettled(once, concepts, |ts|);
  }

  lemma {:induction false} ScoresIgnoreTags(t: TableInfo, u: TableInfo, all: seq<TableInfo>, all': seq<TableInfo>,
                                            concepts: seq<ConceptDef>)
    requires Untagged(t) == Untagged(u) && SameButTags(all, all') && AllTagBlind(concepts)
    ensures Scores(t, all, concepts) == Scores(u, all', concepts)
    ensures SignalAudit(t, all, concepts) == SignalAudit(u, all', concepts)
  {
    hide TagBlind, SameButTags;
    if concepts != [] {
      var c := Last(concepts);
      assert c in concepts && forall d :: d in Init(concepts) ==> d in concepts;
      ScoresIgnoreTags(t, u, all, all', Init(concepts));
      HitsIgnoreTags(t, u, all, all', c.signals);
      hide Hits;
    }
  }

  /** Table `i` scores on some concept, and `r` reports it: by name, with tags, positive scores and hits. */
  ghost predicate Reports(ts: seq<TableInfo>, concepts: seq<ConceptDef>, i: nat, r: TableTagResult)
    requires i < |ts|
  {
    && (exists c :: c in concepts && Score(ts[i], ts, c) > 0.0)
    && r == TableTagResult(ts[i].name, Tags(ts[i], ts, concepts), Scores(ts[i], ts, concepts),
                           SignalAudit(ts[i], ts, concepts))
  }

  ghost predicate ReportedWithin(ts: seq<TableInfo>, concepts: seq<ConceptDef>, n: nat, r: TableTagResult)
    requires n <= |ts|
  {
    exists i: nat :: i < n && Reports(ts, concepts, i, r)
  }

  lemma ResultForMeans(ts: seq<TableInfo>, concepts: seq<ConceptDef>, i: nat)
    requires AllTagBlind(concepts) && i < |ts|
    ensures var s := Rewritten(ts, concepts, i);
            forall r :: r in ResultFor(s[i], s, concepts) <==> Reports(ts, concepts, i, r)
  {
    var s := Rewritten(ts, concepts, i);
    InPlaceIsPure(ts, concepts, i);
    TagsIgnoreTags(s[i], ts[i], s, ts, concepts);
    ScoresIgnoreTags(s[i], ts[i], s, ts, concepts);
    var scores := Scores(ts[i], ts, concepts);
    hide Tags, Scores, SignalAudit, Rewritten, AllTagBlind, Score, IsAudited;
    forall tag
      ensures tag in scores <==> exists c :: c in concepts && c.tag == tag && Score(ts[i], ts, c) > 0.0
    {
      ScoresAreHitWeights(ts[i], ts, concepts, tag);
    }
    if c :| c in concepts && Score(ts[i], ts, c) > 0.0 {
      assert c.tag in scores;
    }
    assert |scores| > 0 ==> scores.Keys != {};
  }

  /** The report holds exactly the tables on which some concept scored above zero. */
  lemma {:induction false} ReportIsExact(ts: seq<TableInfo>, concepts: seq<ConceptDef>, n: nat)
    requires AllTagBlind(concepts) && n <= |ts|
    ensures forall r :: r in Results(ts, concepts, n) <==> ReportedWithin(ts, concepts, n, r)
  {
    hide ResultFor, Reports, AllTagBlind, Rewritten;
    if n > 0 {
      ReportIsExact(ts, concepts, n - 1);
      ResultForMeans(ts, concepts, n - 1);
      assert forall r :: ReportedWithin(ts, concepts, n, r)
                         <==> ReportedWithin(ts, concepts, n - 1, r) || Reports(ts, concepts, n - 1, r);
    }
  }

  /** Tables are reported in manifest order, and tags assigned in concept order: more only ever adds at the end. */
  lemma {:induction false} ReportInOrder(ts: seq<TableInfo>, concepts: seq<ConceptDef>, m: nat, n: nat)
    requires m <= n <= |ts|
    ensures Results(ts, concepts, m) <= Results(ts, concepts, n)
  {
    hide ResultFor, Rewritten;
    if m < n {
      ReportInOrder(ts, concepts, m, n - 1);
    }
  }

  lemma {:induction false} TagsInOrder(t: TableInfo, all: seq<TableInfo>, concepts: seq<ConceptDef>, n: nat)
    requires n <= |concepts|
    ensures Tags(t, all, concepts[..n]) <= Tags(t, all, concepts)
  {
    hide Earns;
    if n < |concepts| {
      TagsInOrder(t, all, Init(concepts), n);
      assert Init(concepts)[..n] == concepts[..n];
    } else {
      assert concepts[..n] == concepts;
    }
  }

  /** Reordering tables, and columns within them, reorders the result and nothing else. */
  lemma {:induction false} OrderIrrelevant(ts: seq<TableInfo>, us: seq<TableInfo>, concepts: seq<ConceptDef>, i: nat,
                                           j: nat)
    requires AllStructural(concepts) && i < |ts| && j < |us| && SameShape(ts[i], us[j])
    ensures Rewritten(ts, concepts, |ts|)[i].nouiTags == Rewritten(us, concepts, |us|)[j].nouiTags
  {
    StructuralAreTagBlind(concepts);
    InPlaceIsPure(ts, concepts, |ts|);
    InPlaceIsPure(us, concepts, |us|);
    TagsSeeShape(ts[i], us[j], ts, us, concepts);
  }

  /** After tagging, a table carries exactly the tags whose threshold it meets. */
  lemma {:induction false} CarriedTagsWereEarned(ts: seq<TableInfo>, concepts: seq<ConceptDef>, i: nat, tag: string)
    requires AllTagBlind(concepts) && i < |ts|
    ensures tag in Rewritten(ts, concepts, |ts|)[i].nouiTags
            <==> exists c :: c in concepts && c.tag == tag && FiringWeight(ts[i], ts, c) >= c.threshold
  {
    InPlaceIsPure(ts, concepts, |ts|);
    ScoresAreHitWeights(ts[i], ts, concepts, tag);
    forall c
      ensures Score(ts[i], ts, c) == FiringWeight(ts[i], ts, c)
    {
      ScoreIsFiringWeight(ts[i], ts, c);
    }
    hide Score, FiringWeight, Tags, Scores, SignalAudit;
  }

  /** A signal that looks at the tags of the manifest's first table. */
  function FirstUntagged(): (TableInfo, seq<TableInfo>) -> bool {
    (t: TableInfo, all: seq<TableInfo>) => |all| > 0 && all[0].nouiTags == []
  }

  const FIRST_UNTAGGED_SIGNAL := SignalDef("first", 1.0, Custom(FirstUntagged()))
  const FIRST_UNTAGGED_CONCEPT := ConceptDef("a", 1.0, [FIRST_UNTAGGED_SIGNAL])

  /** A signal that reads other tables' tags breaks this: the second table no longer gets what it earned. */
  lemma ReadingTagsBreaksPurity(t: TableInfo, u: TableInfo)
    requires t.nouiTags == [] && u.nouiTags == []
    ensures var ts := [t, u];
            && Tags(u, ts, [FIRST_UNTAGGED_CONCEPT]) == ["a"]
            && Rewritten(ts, [FIRST_UNTAGGED_CONCEPT], 2)[1].nouiTags == []
  {
    var c, sig := FIRST_UNTAGGED_CONCEPT, FIRST_UNTAGGED_SIGNAL;
    var ts := [t, u];
    var s1 := [t.(nouiTags := ["a"]), u];
    FirstUntaggedFires(t, ts);
    FirstUntaggedFires(u, ts);
    FirstUntaggedFires(u, s1);
    hide Tags, Fires, Rewritten;
    OneSignal(t, ts, c, sig);
    OneSignal(u, ts, c, sig);
    OneSignal(u, s1, c, sig);
    RewrittenStep(ts, [c], 0);
    assert ts[0 := t.(nouiTags := ["a"])] == s1;
    RewrittenStep(ts, [c], 1);
  }

  lemma FirstUntaggedFires(t: TableInfo, all: seq<TableInfo>)
    ensures Fires(FIRST_UNTAGGED_SIGNAL.detect, t, all) == (|all| > 0 && all[0].nouiTags == [])
  {
  }

  lemma RewrittenStep(ts: seq<TableInfo>, concepts: seq<ConceptDef>, n: nat)
    requires n < |ts|
    ensures Rewritten(ts, concepts, 0) == ts
    ensures var s := Rewritten(ts, concepts, n);
            Rewritten(ts, concepts, n + 1) == s[n := s[n].(nouiTags := Tags(s[n], s, concepts))]
  {
    hide Tags;
  }

  lemma OneSignal(t: TableInfo, all: seq<TableInfo>, c: ConceptDef, sig: SignalDef)
    requires c.signals == [sig] && sig.weight == 1.0 && c.threshold == 1.0
    ensures Tags(t, all, [c]) == if Fires(sig.detect, t, all) then [c.tag] else []
  {
    assert Init([sig]) == [] && Init([c]) == [];
    var hit := SignalHit(sig.name, sig.weight);
    assert Init([hit]) == [];
    assert TotalWeight([hit]) == 1.0 && TotalWeight([]) == 0.0;
    assert Hits(t, all, [sig]) == if Fires(sig.detect, t, all) then [hit] else [];
    assert Tags(t, all, []) == [];
    hide Fires;
    assert Earns(t, all, c) <==> Fires(sig.detect, t, all);
  }

  // ----- The summary -----

  lemma {:induction false} NamesForOnce(name: string, tags: seq<string>, tag: string)
    requires forall i, j :: 0 <= i < j < |tags| ==> tags[i] != tags[j]
    ensures NamesFor(name, tags, tag) == if tag in tags then [name] else []
  {
    if tags != [] {
      NamesForOnce(name, Init(tags), tag);
    }
  }

  lemma {:induction false} NamesTaggedCounts(ts: seq<TableInfo>, tag: string)
    requires forall i :: 0 <= i < |ts| ==>
               forall j, k :: 0 <= j < k < |ts[i].nouiTags| ==> ts[i].nouiTags[j] != ts[i].nouiTags[k]
    ensures |NamesTagged(ts, tag)| == Count(ts, Carries(tag))
  {
    if ts != [] {
      NamesTaggedCounts(Init(ts), tag);
      NamesForOnce(Last(ts).name, Last(ts).nouiTags, tag);
    }
  }

  /** With one concept per tag, each count is the number of names listed and of tables that carry the tag. */
  lemma {:induction false} CountsAreTables(ts: seq<TableInfo>, concepts: seq<ConceptDef>, counts: map<string, nat>,
                                           names: NameMap, tag: string)
    requires DistinctTags(concepts)
    requires Summarizes(counts, names, Rewritten(ts, concepts, |ts|))
    ensures var tagged := Rewritten(ts, concepts, |ts|);
            && (tag in counts <==> tag in names)
            && (if tag in counts then counts[tag] == |names[tag]| == Count(tagged, Carries(tag)) > 0
                else Count(tagged, Carries(tag)) == 0)
  {
    hide Tags, Rewritten, NamesTagged, Carries;
    var tagged := Rewritten(ts, concepts, |ts|);
    CarriedTagsDistinct(ts, concepts);
    NamesTaggedCounts(tagged, tag);
  }

  /** What a table carries was assigned in its turn, whatever the signals read. */
  lemma {:induction false} AssignedInTurn(ts: seq<TableInfo>, concepts: seq<ConceptDef>, n: nat, i: nat)
    requires i < n <= |ts|
    ensures var s := Rewritten(ts, concepts, i); Rewritten(ts, concepts, n)[i].nouiTags == Tags(s[i], s, concepts)
  {
    hide Tags;
    if i < n - 1 {
      AssignedInTurn(ts, concepts, n - 1, i);
    }
  }

  lemma CarriedTagsDistinct(ts: seq<TableInfo>, concepts: seq<ConceptDef>)
    requires DistinctTags(concepts)
    ensures var tagged := Rewritten(ts, concepts, |ts|);
            forall i :: 0 <= i < |tagged| ==>
              forall j, k :: 0 <= j < k < |tagged[i].nouiTags| ==> tagged[i].nouiTags[j] != tagged[i].nouiTags[k]
  {
    hide Tags, Rewritten;
    var tagged := Rewritten(ts, concepts, |ts|);
    forall i | 0 <= i < |tagged|
      ensures forall j, k :: 0 <= j < k < |tagged[i].nouiTags| ==> tagged[i].nouiTags[j] != tagged[i].nouiTags[k]
    {
      AssignedInTurn(ts, concepts, |ts|, i);
      var s := Rewritten(ts, concepts, i);
      TagsDistinct(s[i], s, concepts);
    }
  }
}
