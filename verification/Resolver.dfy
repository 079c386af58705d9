/**
 The schema resolver: an index from tag to the best table carrying it, and the
 three-pass search for the column that plays a role.
 */
module Resolver {
  import opened Schema
  import opened Sequences
  import opened Text
  import Tagger

  // ----- Tag to table -----

  /** Manifest position `i` is preferred to `j`: fewer tags, then more rows, then listed first. */
  predicate Preferred(ts: seq<TableInfo>, i: nat, j: nat)
    requires i < |ts| && j < |ts|
  {
    var a, b := ts[i], ts[j];
    || |a.nouiTags| < |b.nouiTags|
    || (|a.nouiTags| == |b.nouiTags| && a.rowCount > b.rowCount)
    || (|a.nouiTags| == |b.nouiTags| && a.rowCount == b.rowCount && i <= j)
  }

  ghost predicate IsBest(ts: seq<TableInfo>, tag: string, i: nat) {
    && i < |ts| && tag in ts[i].nouiTags
    && forall j: nat :: j < |ts| && tag in ts[j].nouiTags ==> Preferred(ts, i, j)
  }

  ghost predicate IsBestTable(ts: seq<TableInfo>, tag: string, t: TableInfo) {
    exists i: nat :: IsBest(ts, tag, i) && t == ts[i]
  }

  /** What the index holds for a tag: its best table, and that table's name. */
  ghost predicate IsEntry(ts: seq<TableInfo>, tag: string, t: TableInfo, name: string) {
    IsBestTable(ts, tag, t) && name == t.name
  }

  predicate Carried(ts: seq<TableInfo>, tag: string) {
    exists j | 0 <= j < |ts| :: tag in ts[j].nouiTags
  }

  /** There is at most one best table. */
  lemma BestUnique(ts: seq<TableInfo>, tag: string, i: nat, j: nat)
    requires IsBest(ts, tag, i) && IsBest(ts, tag, j)
    ensures i == j
  {
    assert Preferred(ts, i, j) && Preferred(ts, j, i);
  }

  /** A table that carries the tag, and how many tags it carries. */
  datatype Candidate = Candidate(table: TableInfo, tagCount: nat)

  type CandidateMap = map<string, seq<Candidate>>

  function CandidateOf(t: TableInfo): Candidate {
    Candidate(t, |t.nouiTags|)
  }

  /** Candidates of `tag` within one table: one per occurrence of the tag. */
  function CandidatesIn(t: TableInfo, tags: seq<string>, tag: string): seq<Candidate> {
    if tags == [] then []
    else CandidatesIn(t, Init(tags), tag) + if Last(tags) == tag then [CandidateOf(t)] else []
  }

  function Candidates(ts: seq<TableInfo>, tag: string): seq<Candidate> {
    if ts == [] then [] else Candidates(Init(ts), tag) + CandidatesIn(Last(ts), Last(ts).nouiTags, tag)
  }

  /** `m` lists exactly `cs` under `tag`, with no key for an empty list. */
  predicate HoldsFor(m: CandidateMap, tag: string, cs: seq<Candidate>) {
    (tag in m <==> cs != []) && (tag in m ==> m[tag] == cs)
  }

  ghost predicate Holds(m: CandidateMap, ts: seq<TableInfo>) {
    forall tag :: HoldsFor(m, tag, Candidates(ts, tag))
  }

  ghost predicate HoldsPartly(m: CandidateMap, ts: seq<TableInfo>, t: TableInfo, tags: seq<string>) {
    forall tag :: HoldsFor(m, tag, Candidates(ts, tag) + CandidatesIn(t, tags, tag))
  }

  lemma AppendCandidate(m: CandidateMap, ts: seq<TableInfo>, t: TableInfo, tags: seq<string>, tag: string)
    requires HoldsPartly(m, ts, t, tags)
    ensures HoldsPartly(m[tag := (if tag in m then m[tag] else []) + [CandidateOf(t)]], ts, t, tags + [tag])
  {
    hide Candidates, CandidatesIn;
    var m' := m[tag := (if tag in m then m[tag] else []) + [CandidateOf(t)]];
    forall u
      ensures HoldsFor(m', u, Candidates(ts, u) + CandidatesIn(t, tags + [tag], u))
    {
      assert HoldsFor(m, u, Candidates(ts, u) + CandidatesIn(t, tags, u));
      OneMoreTag(t, tags, tag, u);
      if u == tag {
        AppendedFor(m, tag, Candidates(ts, u), CandidatesIn(t, tags, u), CandidateOf(t));
      }
    }
  }

  lemma OneMoreTag(t: TableInfo, tags: seq<string>, tag: string, u: string)
    ensures CandidatesIn(t, tags + [tag], u)
            == if u == tag then CandidatesIn(t, tags, u) + [CandidateOf(t)] else CandidatesIn(t, tags, u)
  {
    assert Init(tags + [tag]) == tags;
    if u != tag {
      assert CandidatesIn(t, tags, u) + [] == CandidatesIn(t, tags, u);
    }
  }

  lemma AppendedFor(m: CandidateMap, tag: string, before: seq<Candidate>, cs: seq<Candidate>, c: Candidate)
    requires HoldsFor(m, tag, before + cs)
    ensures HoldsFor(m[tag := (if tag in m then m[tag] else []) + [c]], tag, before + (cs + [c]))
  {
    assert before + (cs + [c]) == (before + cs) + [c];
    if tag !in m {
      assert before + cs == [];
    }
  }

  lemma TableBegins(m: CandidateMap, ts: seq<TableInfo>, t: TableInfo)
    requires Holds(m, ts)
    ensures HoldsPartly(m, ts, t, t.nouiTags[..0])
  {
    forall tag
      ensures Candidates(ts, tag) + CandidatesIn(t, t.nouiTags[..0], tag) == Candidates(ts, tag)
    {
    }
  }

  lemma TableDone(m: CandidateMap, ts: seq<TableInfo>, t: TableInfo)
    requires HoldsPartly(m, ts, t, t.nouiTags)
    ensures Holds(m, ts + [t])
  {
    assert Init(ts + [t]) == ts;
  }

  lemma HoldsNothing()
    ensures Holds(map[], [])
  {
  }

  method CollectCandidates(ts: seq<TableInfo>) returns (m: CandidateMap)
    ensures Holds(m, ts)
  {
    hide Holds, HoldsPartly;
    m := map[];
    HoldsNothing();
    for i := 0 to |ts|
      invariant Holds(m, ts[..i])
    {
      var t := ts[i];
      TableBegins(m, ts[..i], t);
      for j := 0 to |t.nouiTags|
        invariant HoldsPartly(m, ts[..i], t, t.nouiTags[..j])
      {
        var tag := t.nouiTags[j];
        AppendCandidate(m, ts[..i], t, t.nouiTags[..j], tag);
        assert t.nouiTags[..j + 1] == t.nouiTags[..j] + [tag];
        m := m[tag := (if tag in m then m[tag] else []) + [Candidate(t, |t.nouiTags|)]];
      }
      assert t.nouiTags[..|t.nouiTags|] == t.nouiTags;
      TableDone(m, ts[..i], t);
      assert ts[..i + 1] == ts[..i] + [t];
    }
    assert ts[..|ts|] == ts;
  }

  /** The source's comparison: strictly more specific, or as specific with strictly more rows. */
  predicate Better(c: Candidate, best: Candidate) {
    c.tagCount < best.tagCount || (c.tagCount == best.tagCount && c.table.rowCount > best.table.rowCount)
  }

  /** The scan's winner. */
  function Winner(cs: seq<Candidate>): Candidate
    requires cs != []
  {
    if |cs| == 1 then cs[0]
    else
      var best := Winner(Init(cs));
      if Better(Last(cs), best) then Last(cs) else best
  }

  method PickBest(cs: seq<Candidate>) returns (best: Candidate)
    requires cs != []
    ensures best == Winner(cs)
  {
    best := cs[0];
    for i := 1 to |cs|
      invariant best == Winner(cs[..i])
    {
      assert Init(cs[..i + 1]) == cs[..i];
      if Better(cs[i], best) {
        best := cs[i];
      }
    }
    assert cs[..|cs|] == cs;
  }

  lemma {:induction false} CandidatesInAll(t: TableInfo, tags: seq<string>, tag: string)
    ensures CandidatesIn(t, tags, tag) != [] <==> tag in tags
    ensures forall i :: 0 <= i < |CandidatesIn(t, tags, tag)| ==> CandidatesIn(t, tags, tag)[i] == CandidateOf(t)
  {
    if tags != [] {
      CandidatesInAll(t, Init(tags), tag);
    }
  }

  /** Several copies of the same candidate change the winner no more than one copy does. */
  lemma {:induction false} WinnerWithCopies(cs: seq<Candidate>, copies: seq<Candidate>, c: Candidate)
    requires copies != [] && forall i :: 0 <= i < |copies| ==> copies[i] == c
    ensures Winner(cs + copies) == if cs == [] || Better(c, Winner(cs)) then c else Winner(cs)
  {
    var all := cs + copies;
    assert Init(all) == cs + Init(copies) && Last(all) == c;
    if |copies| > 1 {
      WinnerWithCopies(cs, Init(copies), c);
    } else {
      assert Init(all) == cs;
    }
  }

  /** The scan picks the best table of the manifest. */
  lemma {:induction false} WinnerIsBest(ts: seq<TableInfo>, tag: string) returns (i: nat)
    requires Candidates(ts, tag) != []
    ensures IsBest(ts, tag, i) && Winner(Candidates(ts, tag)) == CandidateOf(ts[i])
  {
    var before, t := Init(ts), Last(ts);
    var cs, copies := Candidates(before, tag), CandidatesIn(t, t.nouiTags, tag);
    CandidatesInAll(t, t.nouiTags, tag);
    hide Candidates, CandidatesIn, Winner;
    assert Candidates(ts, tag) == cs + copies by { CandidatesSplit(ts, tag); }
    if cs != [] {
      i := WinnerIsBest(before, tag);
    } else {
      NoneBefore(before, tag);
      i := |ts| - 1;
    }
    if copies != [] {
      WinnerWithCopies(cs, copies, CandidateOf(t));
      if cs == [] || Better(CandidateOf(t), Winner(cs)) {
        i := |ts| - 1;
      }
    } else {
      assert cs + copies == cs;
    }
    forall j: nat | j < |ts| && tag in ts[j].nouiTags
      ensures Preferred(ts, i, j)
    {
      if j < |before| && cs != [] {
        assert before[j] == ts[j];
      }
    }
  }

  lemma CandidatesSplit(ts: seq<TableInfo>, tag: string)
    requires ts != []
    ensures Candidates(ts, tag) == Candidates(Init(ts), tag) + CandidatesIn(Last(ts), Last(ts).nouiTags, tag)
  {
  }

  lemma {:induction false} NoneBefore(ts: seq<TableInfo>, tag: string)
    ensures Candidates(ts, tag) == [] <==> forall j :: 0 <= j < |ts| ==> tag !in ts[j].nouiTags
  {
    if ts != [] {
      NoneBefore(Init(ts), tag);
      CandidatesInAll(Last(ts), Last(ts).nouiTags, tag);
      assert forall j :: 0 <= j < |ts| - 1 ==> Init(ts)[j] == ts[j];
    }
  }

  ghost predicate WinnerEntry(ts: seq<TableInfo>, tag: string, cs: seq<Candidate>)
    requires cs != []
  {
    IsEntry(ts, tag, Winner(cs).table, Winner(cs).table.name)
  }

  /** The collected map knows exactly the carried tags, and each one's winner is its best table. */
  lemma CandidateKeys(m: CandidateMap, ts: seq<TableInfo>)
    requires Holds(m, ts)
    ensures forall tag :: tag in m <==> Carried(ts, tag)
    ensures forall tag :: tag in m ==> m[tag] != [] && WinnerEntry(ts, tag, m[tag])
  {
    hide IsBest, Winner;
    forall tag
      ensures Candidates(ts, tag) != [] <==> Carried(ts, tag)
      ensures Candidates(ts, tag) != [] ==> WinnerEntry(ts, tag, Candidates(ts, tag))
    {
      NoneBefore(ts, tag);
      if Candidates(ts, tag) != [] {
        var i := WinnerIsBest(ts, tag);
      }
    }
  }

  class SchemaResolver {
    const tables: seq<TableInfo>
    var tagToTable: map<string, string>
    var tagToTableInfo: map<string, TableInfo>

    /** Each tag that occurs is mapped to its best table, and no other tag is mapped. */
    ghost predicate Valid()
      reads this
    {
      && tagToTable.Keys == tagToTableInfo.Keys
      && (forall tag :: tag in tagToTableInfo <==> Carried(tables, tag))
      && (forall tag :: tag in tagToTableInfo ==> IsEntry(tables, tag, tagToTableInfo[tag], tagToTable[tag]))
    }

    constructor (tables: seq<TableInfo>)
      ensures this.tables == tables && Valid()
    {
      this.tables := tables;
      tagToTable, tagToTableInfo := map[], map[];
      new;
      hide IsEntry, Holds, Carried, Winner;
      var m := CollectCandidates(tables);
      CandidateKeys(m, tables);
      var rest := m.Keys;
      while rest != {}
        invariant rest <= m.Keys && this.tables == tables
        invariant tagToTable.Keys == tagToTableInfo.Keys == m.Keys - rest
        invariant forall tag :: tag in tagToTableInfo ==>
                    IsEntry(tables, tag, tagToTableInfo[tag], tagToTable[tag])
        decreases rest
      {
        var tag :| tag in rest;
        rest := rest - {tag};
        var best := PickBest(m[tag]);
        tagToTable := tagToTable[tag := best.table.name];
        tagToTableInfo := tagToTableInfo[tag := best.table];
      }
    }

    predicate HasTag(tag: string)
      requires Valid()
      reads this
      ensures HasTag(tag) <==> Carried(tables, tag)
    {
      tag in tagToTable
    }

    /** The name of the tag's best table, "" for a tag that no table carries. */
    function TableName(tag: string): (name: string)
      requires Valid()
      reads this
      ensures if Carried(tables, tag) then exists t :: IsEntry(tables, tag, t, name) else name == ""
    {
      hide IsEntry, Carried;
      assert tag in tagToTableInfo ==> IsEntry(tables, tag, tagToTableInfo[tag], tagToTable[tag]);
      if tag in tagToTable then tagToTable[tag] else ""
    }

    /** "" for a tag that no table carries, otherwise the column search in the tag's best table. */
    method ColumnRole(tag: string, patterns: seq<string>) returns (column: string)
      requires Valid()
      ensures Carried(tables, tag) ==>
                exists t :: IsBestTable(tables, tag, t) && IsResolved(t.columns, patterns, column)
      ensures !Carried(tables, tag) ==> column == ""
    {
      hide IsResolved, IsBestTable, Carried;
      if tag !in tagToTableInfo {
        return "";
      }
      column := ResolveColumn(tagToTableInfo[tag], patterns);
    }
  }

  // ----- Column roles -----

  predicate Exact(column: string, pattern: string) {
    Lower(column) == Lower(pattern)
  }

  predicate Suffix(column: string, pattern: string) {
    HasSuffix(Lower(column), "_" + Lower(pattern))
  }

  predicate Within(column: string, pattern: string) {
    Contains(Lower(column), Lower(pattern))
  }

  predicate MatchesInPass(column: string, patterns: seq<string>, pass: int) {
    exists i | 0 <= i < |patterns| ::
      if pass == 1 then Exact(column, patterns[i])
      else if pass == 2 then Suffix(column, patterns[i])
      else Within(column, patterns[i])
  }

  /** The first pass, of three, in which a column matches; 4 for never. */
  function PassOf(column: string, patterns: seq<string>): int {
    if MatchesInPass(column, patterns, 1) then 1
    else if MatchesInPass(column, patterns, 2) then 2
    else if MatchesInPass(column, patterns, 3) then 3
    else 4
  }

  /** The name ends in an underscore and the pattern, whatever the case. */
  predicate EndsIn(column: string, pattern: string) {
    |pattern| < |column| && column[|column| - |pattern| - 1] == '_'
    && EqualFold(column[|column| - |pattern|..], pattern)
  }

  lemma ExactMeans(column: string, pattern: string)
    ensures Exact(column, pattern) <==> EqualFold(column, pattern)
  {
    LowerIsFold(column, pattern);
  }

  lemma SuffixMeans(column: string, pattern: string)
    ensures Suffix(column, pattern) <==> EndsIn(column, pattern)
  {
    var c, p, n := Lower(column), Lower(pattern), |column| - |pattern|;
    if n > 0 {
      LowerSlice(column, n, |column|);
      LowerIsFold(column[n..], pattern);
      assert c[n - 1] == LowerChar(column[n - 1]);
      assert c[n - 1..] == [c[n - 1]] + c[n..];
      assert Suffix(column, pattern) <==> [c[n - 1]] + c[n..] == ['_'] + p;
      assert [c[n - 1]] + c[n..] == ['_'] + p ==> ([c[n - 1]] + c[n..])[1..] == p && ([c[n - 1]] + c[n..])[0] == '_';
    }
  }

  lemma WithinMeans(column: string, pattern: string)
    ensures Within(column, pattern) <==> exists k: nat :: OccursFold(column, pattern, k)
  {
    ContainsFoldMeans(column, pattern);
  }

  ghost predicate SomeEqual(column: string, patterns: seq<string>) {
    exists i :: 0 <= i < |patterns| && EqualFold(column, patterns[i])
  }

  ghost predicate SomeEnding(column: string, patterns: seq<string>) {
    exists i :: 0 <= i < |patterns| && EndsIn(column, patterns[i])
  }

  ghost predicate SomeWithin(column: string, patterns: seq<string>) {
    exists i, k: nat :: 0 <= i < |patterns| && OccursFold(column, patterns[i], k)
  }

  /** The first pass is for equal names, the second for endings, the third for parts, all whatever the case. */
  lemma PassMeans(column: string, patterns: seq<string>)
    ensures PassOf(column, patterns) == if SomeEqual(column, patterns) then 1
                                        else if SomeEnding(column, patterns) then 2
                                        else if SomeWithin(column, patterns) then 3
                                        else 4
  {
    forall i | 0 <= i < |patterns|
      ensures Exact(column, patterns[i]) <==> EqualFold(column, patterns[i])
      ensures Suffix(column, patterns[i]) <==> EndsIn(column, patterns[i])
      ensures Within(column, patterns[i]) <==> exists k: nat :: OccursFold(column, patterns[i], k)
    {
      ExactMeans(column, patterns[i]);
      SuffixMeans(column, patterns[i]);
      WithinMeans(column, patterns[i]);
    }
    hide Exact, Suffix, Within, EqualFold, EndsIn, OccursFold;
  }

  /** Column `i` comes first by pass, then by position, among the columns that match at all. */
  ghost predicate IsFirst(cols: seq<ColumnInfo>, patterns: seq<string>, i: nat) {
    && i < |cols| && PassOf(cols[i].name, patterns) < 4
    && forall j: nat :: j < |cols| ==>
         || PassOf(cols[i].name, patterns) < PassOf(cols[j].name, patterns)
         || (PassOf(cols[i].name, patterns) == PassOf(cols[j].name, patterns) && i <= j)
  }

  ghost predicate IsResolved(cols: seq<ColumnInfo>, patterns: seq<string>, r: string) {
    if exists i: nat :: i < |cols| && PassOf(cols[i].name, patterns) < 4
    then exists i: nat :: IsFirst(cols, patterns, i) && r == cols[i].name
    else r == ""
  }

  method FirstInPass(cols: seq<ColumnInfo>, patterns: seq<string>, pass: int) returns (found: bool, at: nat)
    ensures found ==> at < |cols| && MatchesInPass(cols[at].name, patterns, pass)
                      && forall j :: 0 <= j < at ==> !MatchesInPass(cols[j].name, patterns, pass)
    ensures !found ==> forall j :: 0 <= j < |cols| ==> !MatchesInPass(cols[j].name, patterns, pass)
  {
    hide MatchesInPass;
    for i := 0 to |cols|
      invariant forall j :: 0 <= j < i ==> !MatchesInPass(cols[j].name, patterns, pass)
    {
      if MatchesInPass(cols[i].name, patterns, pass) {
        return true, i;
      }
    }
    return false, 0;
  }

  method ResolveColumn(t: TableInfo, patterns: seq<string>) returns (r: string)
    ensures IsResolved(t.columns, patterns, r)
  {
    hide MatchesInPass;
    var cols := t.columns;
    for pass := 1 to 4
      invariant forall j: nat :: j < |cols| ==> PassOf(cols[j].name, patterns) >= pass
    {
      var found, at := FirstInPass(cols, patterns, pass);
      if found {
        assert PassOf(cols[at].name, patterns) == pass;
        assert IsFirst(cols, patterns, at);
        return cols[at].name;
      }
    }
    return "";
  }

  lemma FirstUnique(cols: seq<ColumnInfo>, patterns: seq<string>, i: nat, j: nat)
    requires IsFirst(cols, patterns, i) && IsFirst(cols, patterns, j)
    ensures i == j
  {
  }

  lemma ExactIsWithin(column: string, pattern: string)
    requires Exact(column, pattern)
    ensures Within(column, pattern)
  {
    assert OccursAt(Lower(column), Lower(pattern), 0);
  }

  lemma SuffixIsWithin(column: string, pattern: string)
    requires Suffix(column, pattern)
    ensures Within(column, pattern)
  {
    var c, p := Lower(column), Lower(pattern);
    assert c[|c| - |p|..] == c[|c| - (|p| + 1)..][1..] == p;
    assert OccursAt(c, p, |c| - |p|);
  }

  /** Some pass matches exactly when the name contains some pattern. */
  lemma PassIffContained(column: string, patterns: seq<string>)
    ensures PassOf(column, patterns) < 4 <==> exists i :: 0 <= i < |patterns| && Within(column, patterns[i])
  {
    hide Exact, Suffix, Within;
    forall i | 0 <= i < |patterns| && (Exact(column, patterns[i]) || Suffix(column, patterns[i]))
      ensures Within(column, patterns[i])
    {
      if Exact(column, patterns[i]) {
        ExactIsWithin(column, patterns[i]);
      } else {
        SuffixIsWithin(column, patterns[i]);
      }
    }
  }

  ghost predicate SomeColumnContains(cols: seq<ColumnInfo>, patterns: seq<string>) {
    exists i, k :: 0 <= i < |cols| && 0 <= k < |patterns| && Within(cols[i].name, patterns[k])
  }

  /** Only an empty pattern finds a nameless column, and then in the first pass. */
  lemma NamelessColumn(patterns: seq<string>)
    ensures PassOf("", patterns) == if "" in patterns then 1 else 4
  {
    forall i | 0 <= i < |patterns|
      ensures Exact("", patterns[i]) <==> patterns[i] == ""
      ensures !Suffix("", patterns[i])
      ensures Within("", patterns[i]) <==> patterns[i] == ""
    {
      if patterns[i] == "" {
        ExactIsWithin("", patterns[i]);
      }
    }
    if i :| 0 <= i < |patterns| && patterns[i] == "" {
      assert MatchesInPass("", patterns, 1);
    }
  }

  /** Some column matches exactly when some column contains some pattern. */
  lemma SomeMatchIffContained(cols: seq<ColumnInfo>, patterns: seq<string>)
    ensures (exists i: nat :: i < |cols| && PassOf(cols[i].name, patterns) < 4) <==> SomeColumnContains(cols, patterns)
  {
    hide Within, PassOf;
    forall i: nat | i < |cols|
      ensures PassOf(cols[i].name, patterns) < 4
              <==> exists k :: 0 <= k < |patterns| && Within(cols[i].name, patterns[k])
    {
      PassIffContained(cols[i].name, patterns);
    }
  }

  /** A nameless column comes before every column that equals a pattern, and some pattern is empty. */
  predicate FindsNameless(cols: seq<ColumnInfo>, patterns: seq<string>) {
    && "" in patterns
    && exists i | 0 <= i < |cols| ::
         cols[i].name == "" && forall j | 0 <= j < i :: !MatchesInPass(cols[j].name, patterns, 1)
  }

  /** The column found is nameless exactly under that condition. */
  lemma FirstIsNamelessIff(cols: seq<ColumnInfo>, patterns: seq<string>, i: nat)
    requires IsFirst(cols, patterns, i)
    ensures cols[i].name == "" <==> FindsNameless(cols, patterns)
  {
    NamelessColumn(patterns);
    hide MatchesInPass;
    if k: nat :| k < |cols| && "" in patterns && cols[k].name == ""
                 && forall j | 0 <= j < k :: !MatchesInPass(cols[j].name, patterns, 1)
    {
      assert PassOf(cols[k].name, patterns) == 1;
      assert PassOf(cols[i].name, patterns) == 1;
      assert i == k;
    }
  }

  /**
   "" is returned exactly when no column contains any pattern, for patterns that
   are not empty.  For any patterns, that is so if and only if no nameless column is found first.
   */
  lemma EmptyIffNothingContained(cols: seq<ColumnInfo>, patterns: seq<string>, r: string)
    requires IsResolved(cols, patterns, r)
    ensures "" !in patterns ==> (r == "" <==> !SomeColumnContains(cols, patterns))
    ensures (r == "" <==> !SomeColumnContains(cols, patterns)) <==> !FindsNameless(cols, patterns)
  {
    NamelessColumn(patterns);
    if FindsNameless(cols, patterns) {
      var i: nat :| i < |cols| && cols[i].name == "";
      assert PassOf(cols[i].name, patterns) < 4;
    }
    SomeMatchIffContained(cols, patterns);
    if SomeColumnContains(cols, patterns) {
      var i: nat :| IsFirst(cols, patterns, i) && r == cols[i].name;
      FirstIsNamelessIff(cols, patterns, i);
    }
  }

  /** With an empty pattern a nameless column is found, and is indistinguishable from none. */
  lemma NamelessColumnIsFound()
    ensures IsResolved([ColumnInfo("", "int")], [""], "") && SomeColumnContains([ColumnInfo("", "int")], [""])
  {
    var cols, patterns := [ColumnInfo("", "int")], [""];
    NamelessColumn(patterns);
    assert IsFirst(cols, patterns, 0);
    ExactIsWithin("", "");
    assert Within(cols[0].name, patterns[0]);
  }

  // ----- Tagger and resolver together -----

  /** After tagging, the table a tag resolves to met that concept's threshold. */
  lemma {:induction false} ResolvedTableEarnedItsTag(ts: seq<TableInfo>, concepts: seq<Tagger.ConceptDef>,
                                                     tag: string, i: nat)
    requires Tagger.AllTagBlind(concepts)
    requires IsBest(Tagger.Rewritten(ts, concepts, |ts|), tag, i)
    ensures exists c :: c in concepts && c.tag == tag && Tagger.FiringWeight(ts[i], ts, c) >= c.threshold
  {
    hide Tagger.Rewritten, Tagger.FiringWeight, Tagger.AllTagBlind;
    Tagger.CarriedTagsWereEarned(ts, concepts, i, tag);
  }
}
