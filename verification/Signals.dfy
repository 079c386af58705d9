/** The structural detectors that concept signals are made of. */
module Signals {
  import opened Schema
  import opened Sequences
  import opened Text

  /** `s` contains one of the substrings, ignoring case. */
  predicate MatchesAny(s: string, subs: seq<string>) {
    exists i | 0 <= i < |subs| :: Contains(Lower(s), Lower(subs[i]))
  }

  function NameMatches(subs: seq<string>): ColumnInfo -> bool {
    (c: ColumnInfo) => MatchesAny(c.name, subs)
  }

  predicate IsDecimalType(dataType: string) {
    Lower(dataType) in {"decimal", "numeric", "double", "float", "money"}
  }

  function IsDecimal(): ColumnInfo -> bool {
    (c: ColumnInfo) => IsDecimalType(c.dataType)
  }

  /** A date column, unless it is one of the framework's own. */
  predicate IsOwnDate(c: ColumnInfo) {
    Lower(c.name) !in {"creation", "modified"} && Lower(c.dataType) in {"date", "datetime", "timestamp"}
  }

  function IsDate(): ColumnInfo -> bool {
    (c: ColumnInfo) => IsOwnDate(c)
  }

  /** The column is named after one of the entities, bare or with an id or name suffix. */
  predicate LinksTo(column: string, subs: seq<string>) {
    exists i | 0 <= i < |subs| ::
      Lower(column) == Lower(subs[i]) || Lower(column) == Lower(subs[i]) + "_id"
      || Lower(column) == Lower(subs[i]) + "_name"
  }

  predicate HasColumnMatching(t: TableInfo, subs: seq<string>) {
    exists i | 0 <= i < |t.columns| :: MatchesAny(t.columns[i].name, subs)
  }

  predicate TableNameContainsButNot(t: TableInfo, include_: seq<string>, exclude: seq<string>) {
    !MatchesAny(t.name, exclude) && MatchesAny(t.name, include_)
  }

  predicate FkReferencesTableLike(t: TableInfo, subs: seq<string>) {
    exists i | 0 <= i < |t.foreignKeys| :: MatchesAny(t.foreignKeys[i].referencedTable, subs)
  }

  predicate HasColumnLinkToTableLike(t: TableInfo, subs: seq<string>) {
    exists i | 0 <= i < |t.columns| :: LinksTo(t.columns[i].name, subs)
  }

  function ColumnName(c: ColumnInfo): string {
    c.name
  }

  function MatchingNames(cols: seq<ColumnInfo>, subs: seq<string>): seq<string> {
    Map(Filter(cols, NameMatches(subs)), ColumnName)
  }

  lemma OneMoreName(cols: seq<ColumnInfo>, c: ColumnInfo, subs: seq<string>)
    ensures MatchingNames(cols + [c], subs)
            == if MatchesAny(c.name, subs) then MatchingNames(cols, subs) + [c.name] else MatchingNames(cols, subs)
  {
    hide MatchesAny;
    assert Init(cols + [c]) == cols;
    var kept := Filter(cols, NameMatches(subs));
    if MatchesAny(c.name, subs) {
      assert Init(kept + [c]) == kept;
    } else {
      assert kept + [] == kept;
    }
  }

  /** As many names are collected as columns match, so a count of columns is a length. */
  lemma {:induction false} NamesCounted(cols: seq<ColumnInfo>, subs: seq<string>)
    ensures |MatchingNames(cols, subs)| == Count(cols, NameMatches(subs))
  {
    if cols != [] {
      hide MatchesAny;
      NamesCounted(Init(cols), subs);
      assert Init(cols) + [Last(cols)] == cols;
      OneMoreName(Init(cols), Last(cols), subs);
    }
  }

  method CollectColumnsMatching(t: TableInfo, subs: seq<string>) returns (matches: seq<string>)
    ensures matches == MatchingNames(t.columns, subs)
    ensures |matches| == Count(t.columns, NameMatches(subs))
  {
    matches := [];
    assert matches == MatchingNames([], subs);
    hide MatchesAny, Count, MatchingNames;
    for i := 0 to |t.columns|
      invariant matches == MatchingNames(t.columns[..i], subs)
    {
      var col := t.columns[i];
      OneMoreName(t.columns[..i], col, subs);
      assert t.columns[..i + 1] == t.columns[..i] + [col];
      if MatchesAny(col.name, subs) {
        matches := matches + [col.name];
      }
    }
    assert t.columns[..|t.columns|] == t.columns;
    NamesCounted(t.columns, subs);
  }

  /** The fraction of decimal columns, 0 for a table without columns. */
  function DecimalColumnRatio(t: TableInfo): real {
    if t.columns == [] then 0.0 else Count(t.columns, IsDecimal()) as real / |t.columns| as real
  }

  method ComputeDecimalRatio(t: TableInfo) returns (ratio: real)
    ensures ratio == DecimalColumnRatio(t)
  {
    hide IsDecimalType;
    if |t.columns| == 0 {
      return 0.0;
    }
    var count := 0;
    for i := 0 to |t.columns|
      invariant count == Count(t.columns[..i], IsDecimal())
    {
      assert Init(t.columns[..i + 1]) == t.columns[..i];
      if IsDecimalType(t.columns[i].dataType) {
        count := count + 1;
      }
    }
    assert t.columns[..|t.columns|] == t.columns;
    return count as real / |t.columns| as real;
  }

  method DateColumnCount(t: TableInfo) returns (count: nat)
    ensures count == Count(t.columns, IsDate())
  {
    hide IsOwnDate;
    count := 0;
    for i := 0 to |t.columns|
      invariant count == Count(t.columns[..i], IsDate())
    {
      assert Init(t.columns[..i + 1]) == t.columns[..i];
      if IsOwnDate(t.columns[i]) {
        count := count + 1;
      }
    }
    assert t.columns[..|t.columns|] == t.columns;
  }

  const START_PATTERNS := ["from_date", "start_date", "begin_date", "period_start"]
  const END_PATTERNS := ["to_date", "end_date", "finish_date", "period_end"]

  /** A signal's test: a combination of the helpers above, or any function of the table and its manifest. */
  datatype Detector =
    | ColumnMatching(subs: seq<string>)
    | ColumnPair(patternsA: seq<string>, patternsB: seq<string>)
    | ColumnsAtLeast(subs: seq<string>, atLeast: nat)
    | TableName(subs: seq<string>)
    | TableNameButNot(include_: seq<string>, exclude: seq<string>)
    | DecimalsAbove(threshold: real)
    | DatesAtLeast(atLeast: nat)
    | DateRange
    | ForeignKeyTo(subs: seq<string>)
    | ColumnLinkTo(subs: seq<string>)
    | StatusColumn
    | Both(left: Detector, right: Detector)
    | Either(left: Detector, right: Detector)
    | Not(inner: Detector)
    | Custom(detect: (TableInfo, seq<TableInfo>) -> bool)

  predicate Fires(d: Detector, t: TableInfo, all: seq<TableInfo>) {
    match d
    case ColumnMatching(subs) => HasColumnMatching(t, subs)
    case ColumnPair(a, b) => HasColumnMatching(t, a) && HasColumnMatching(t, b)
    case ColumnsAtLeast(subs, n) => Count(t.columns, NameMatches(subs)) >= n
    case TableName(subs) => MatchesAny(t.name, subs)
    case TableNameButNot(inc, exc) => TableNameContainsButNot(t, inc, exc)
    case DecimalsAbove(r) => DecimalColumnRatio(t) > r
    case DatesAtLeast(n) => Count(t.columns, IsDate()) >= n
    case DateRange => HasColumnMatching(t, START_PATTERNS) && HasColumnMatching(t, END_PATTERNS)
    case ForeignKeyTo(subs) => FkReferencesTableLike(t, subs)
    case ColumnLinkTo(subs) => HasColumnLinkToTableLike(t, subs)
    case StatusColumn => HasColumnMatching(t, ["status"])
    case Both(l, r) => Fires(l, t, all) && Fires(r, t, all)
    case Either(l, r) => Fires(l, t, all) || Fires(r, t, all)
    case Not(inner) => !Fires(inner, t, all)
    case Custom(f) => f(t, all)
  }

  /** Made of the helpers only, as every signal of the shipped concepts is. */
  predicate Structural(d: Detector) {
    match d
    case Both(l, r) => Structural(l) && Structural(r)
    case Either(l, r) => Structural(l) && Structural(r)
    case Not(inner) => Structural(inner)
    case Custom(_) => false
    case _ => true
  }

  /** The same table, with columns and foreign keys listed in some other order and any tags. */
  ghost predicate SameShape(t: TableInfo, u: TableInfo) {
    && t.name == u.name && t.rowCount == u.rowCount
    && multiset(t.columns) == multiset(u.columns)
    && multiset(t.foreignKeys) == multiset(u.foreignKeys)
  }

  lemma AnyColumnPermuted(t: TableInfo, u: TableInfo, subs: seq<string>)
    requires SameShape(t, u)
    ensures HasColumnMatching(t, subs) ==> HasColumnMatching(u, subs)
    ensures HasColumnLinkToTableLike(t, subs) ==> HasColumnLinkToTableLike(u, subs)
    ensures FkReferencesTableLike(t, subs) ==> FkReferencesTableLike(u, subs)
  {
    hide MatchesAny, LinksTo;
    if i :| 0 <= i < |t.columns| && MatchesAny(t.columns[i].name, subs) {
      var j := Position(t.columns, u.columns, i);
    }
    if i :| 0 <= i < |t.columns| && LinksTo(t.columns[i].name, subs) {
      var j := Position(t.columns, u.columns, i);
    }
    if i :| 0 <= i < |t.foreignKeys| && MatchesAny(t.foreignKeys[i].referencedTable, subs) {
      var j := Position(t.foreignKeys, u.foreignKeys, i);
    }
  }

  lemma Position<T>(xs: seq<T>, ys: seq<T>, i: nat) returns (j: nat)
    requires multiset(xs) == multiset(ys) && i < |xs|
    ensures j < |ys| && ys[j] == xs[i]
  {
    assert xs[i] in multiset(ys);
    j :| 0 <= j < |ys| && ys[j] == xs[i];
  }

  lemma ShapeSymmetric(t: TableInfo, u: TableInfo)
    requires SameShape(t, u)
    ensures SameShape(u, t)
  {
  }

  /** A structural signal sees neither tags nor the rest of the manifest nor the order of columns. */
  lemma {:induction false} StructuralSeesShape(d: Detector, t: TableInfo, u: TableInfo, all: seq<TableInfo>,
                                               all': seq<TableInfo>)
    requires Structural(d) && SameShape(t, u)
    ensures Fires(d, t, all) == Fires(d, u, all')
  {
    hide HasColumnMatching, HasColumnLinkToTableLike, FkReferencesTableLike, MatchesAny, IsDate, IsDecimal, NameMatches;
    ShapeSymmetric(t, u);
    match d
    case ColumnMatching(subs) =>
      AnyColumnPermuted(t, u, subs);
      AnyColumnPermuted(u, t, subs);
    case ColumnPair(a, b) =>
      AnyColumnPermuted(t, u, a);
      AnyColumnPermuted(u, t, a);
      AnyColumnPermuted(t, u, b);
      AnyColumnPermuted(u, t, b);
    case DateRange =>
      AnyColumnPermuted(t, u, START_PATTERNS);
      AnyColumnPermuted(u, t, START_PATTERNS);
      AnyColumnPermuted(t, u, END_PATTERNS);
      AnyColumnPermuted(u, t, END_PATTERNS);
    case StatusColumn =>
      AnyColumnPermuted(t, u, ["status"]);
      AnyColumnPermuted(u, t, ["status"]);
    case ForeignKeyTo(subs) =>
      AnyColumnPermuted(t, u, subs);
      AnyColumnPermuted(u, t, subs);
    case ColumnLinkTo(subs) =>
      AnyColumnPermuted(t, u, subs);
      AnyColumnPermuted(u, t, subs);
    case ColumnsAtLeast(subs, _) => CountPermuted(t.columns, u.columns, NameMatches(subs));
    case DatesAtLeast(_) => CountPermuted(t.columns, u.columns, IsDate());
    case DecimalsAbove(_) =>
      SameLength(t.columns, u.columns);
      CountPermuted(t.columns, u.columns, IsDecimal());
    case Both(l, r) =>
      StructuralSeesShape(l, t, u, all, all');
      StructuralSeesShape(r, t, u, all, all');
    case Either(l, r) =>
      StructuralSeesShape(l, t, u, all, all');
      StructuralSeesShape(r, t, u, all, all');
    case Not(inner) => StructuralSeesShape(inner, t, u, all, all');
    case _ =>
  }

  // ----- What the helpers look for -----

  ghost predicate Mentions(s: string, subs: seq<string>) {
    exists i, k: nat :: 0 <= i < |subs| && OccursFold(s, subs[i], k)
  }

  lemma MatchesAnyMeans(s: string, subs: seq<string>)
    ensures MatchesAny(s, subs) <==> Mentions(s, subs)
  {
    forall i | 0 <= i < |subs|
      ensures Contains(Lower(s), Lower(subs[i])) <==> exists k: nat :: OccursFold(s, subs[i], k)
    {
      ContainsFoldMeans(s, subs[i]);
    }
    hide Contains, OccursFold;
  }

  ghost predicate SomeColumnMentions(t: TableInfo, subs: seq<string>) {
    exists c :: c in t.columns && Mentions(c.name, subs)
  }

  ghost predicate SomeKeyMentions(t: TableInfo, subs: seq<string>) {
    exists fk :: fk in t.foreignKeys && Mentions(fk.referencedTable, subs)
  }

  ghost predicate NamedAfter(column: string, entity: string) {
    EqualFold(column, entity) || EqualFold(column, entity + "_id") || EqualFold(column, entity + "_name")
  }

  ghost predicate SomeColumnNamedAfter(t: TableInfo, subs: seq<string>) {
    exists c, i :: c in t.columns && 0 <= i < |subs| && NamedAfter(c.name, subs[i])
  }

  lemma LinksToMeans(column: string, subs: seq<string>)
    ensures LinksTo(column, subs) <==> exists i :: 0 <= i < |subs| && NamedAfter(column, subs[i])
  {
    forall i | 0 <= i < |subs|
      ensures Lower(subs[i]) + "_id" == Lower(subs[i] + "_id") && Lower(subs[i]) + "_name" == Lower(subs[i] + "_name")
      ensures NamedAfter(column, subs[i])
              <==> Lower(column) in {Lower(subs[i]), Lower(subs[i] + "_id"), Lower(subs[i] + "_name")}
    {
      LowerAppends(subs[i], "_id");
      LowerAppends(subs[i], "_name");
      LowerIsFold(column, subs[i]);
      LowerIsFold(column, subs[i] + "_id");
      LowerIsFold(column, subs[i] + "_name");
    }
    hide Lower, NamedAfter;
  }

  lemma LowerAppends(s: string, suffix: string)
    requires Lower(suffix) == suffix
    ensures Lower(s) + suffix == Lower(s + suffix)
  {
    var both := Lower(s + suffix);
    forall i | 0 <= i < |both|
      ensures both[i] == (Lower(s) + suffix)[i]
    {
      assert i >= |s| ==> suffix[i - |s|] == Lower(suffix)[i - |s|];
    }
  }

  lemma ColumnMatchingMeans(t: TableInfo, subs: seq<string>)
    ensures HasColumnMatching(t, subs) <==> SomeColumnMentions(t, subs)
  {
    forall c
      ensures c in t.columns ==> (MatchesAny(c.name, subs) <==> Mentions(c.name, subs))
    {
      MatchesAnyMeans(c.name, subs);
    }
    hide MatchesAny, Mentions;
    if c :| c in t.columns && Mentions(c.name, subs) {
      var i :| 0 <= i < |t.columns| && t.columns[i] == c;
    }
  }

  lemma KeyMeans(t: TableInfo, subs: seq<string>)
    ensures FkReferencesTableLike(t, subs) <==> SomeKeyMentions(t, subs)
  {
    forall fk
      ensures fk in t.foreignKeys ==> (MatchesAny(fk.referencedTable, subs) <==> Mentions(fk.referencedTable, subs))
    {
      MatchesAnyMeans(fk.referencedTable, subs);
    }
    hide MatchesAny, Mentions;
    if fk :| fk in t.foreignKeys && Mentions(fk.referencedTable, subs) {
      var i :| 0 <= i < |t.foreignKeys| && t.foreignKeys[i] == fk;
    }
  }

  lemma LinkMeans(t: TableInfo, subs: seq<string>)
    ensures HasColumnLinkToTableLike(t, subs) <==> SomeColumnNamedAfter(t, subs)
  {
    forall c
      ensures c in t.columns ==>
                (LinksTo(c.name, subs) <==> exists i :: 0 <= i < |subs| && NamedAfter(c.name, subs[i]))
    {
      LinksToMeans(c.name, subs);
    }
    hide LinksTo, NamedAfter;
    if c, i :| c in t.columns && 0 <= i < |subs| && NamedAfter(c.name, subs[i]) {
      var k :| 0 <= k < |t.columns| && t.columns[k] == c;
    }
  }

  /** What each helper of the signal catalogue looks for, whatever the case. */
  lemma HelpersMean(t: TableInfo, all: seq<TableInfo>, a: seq<string>, b: seq<string>)
    ensures Fires(ColumnMatching(a), t, all) <==> SomeColumnMentions(t, a)
    ensures Fires(ColumnPair(a, b), t, all) <==> SomeColumnMentions(t, a) && SomeColumnMentions(t, b)
    ensures Fires(TableName(a), t, all) <==> Mentions(t.name, a)
    ensures Fires(TableNameButNot(a, b), t, all) <==> Mentions(t.name, a) && !Mentions(t.name, b)
    ensures Fires(ForeignKeyTo(a), t, all) <==> SomeKeyMentions(t, a)
    ensures Fires(ColumnLinkTo(a), t, all) <==> SomeColumnNamedAfter(t, a)
    ensures Fires(StatusColumn, t, all) <==> SomeColumnMentions(t, ["status"])
    ensures Fires(DateRange, t, all) <==>
            && SomeColumnMentions(t, ["from_date", "start_date", "begin_date", "period_start"])
            && SomeColumnMentions(t, ["to_date", "end_date", "finish_date", "period_end"])
  {
    hide SomeColumnMentions, SomeKeyMentions, SomeColumnNamedAfter, Mentions, MatchesAny, HasColumnMatching,
         FkReferencesTableLike, HasColumnLinkToTableLike;
    ColumnMatchingMeans(t, a);
    ColumnMatchingMeans(t, b);
    ColumnMatchingMeans(t, ["status"]);
    ColumnMatchingMeans(t, START_PATTERNS);
    ColumnMatchingMeans(t, END_PATTERNS);
    MatchesAnyMeans(t.name, a);
    MatchesAnyMeans(t.name, b);
    KeyMeans(t, a);
    LinkMeans(t, a);
  }

  ghost predicate NamesOneOf(s: string, names: seq<string>) {
    exists i :: 0 <= i < |names| && EqualFold(s, names[i])
  }

  /** Lower-cased membership of a list of lower-case names. */
  lemma LowerAmong(s: string, names: seq<string>)
    requires forall i :: 0 <= i < |names| ==> Lower(names[i]) == names[i]
    ensures Lower(s) in names <==> NamesOneOf(s, names)
  {
    forall i | 0 <= i < |names|
      ensures Lower(s) == names[i] <==> EqualFold(s, names[i])
    {
      LowerIsFold(s, names[i]);
    }
    hide Lower, EqualFold;
  }

  /** Which columns count as decimal, and which as dates: a date type, but not one of the framework's own columns. */
  lemma ColumnTypesMean(c: ColumnInfo)
    ensures IsDecimalType(c.dataType) <==> NamesOneOf(c.dataType, ["decimal", "numeric", "double", "float", "money"])
    ensures IsOwnDate(c) <==> NamesOneOf(c.dataType, ["date", "datetime", "timestamp"])
                              && !NamesOneOf(c.name, ["creation", "modified"])
  {
    LowerAmong(c.dataType, ["decimal", "numeric", "double", "float", "money"]);
    LowerAmong(c.dataType, ["date", "datetime", "timestamp"]);
    LowerAmong(c.name, ["creation", "modified"]);
    hide Lower, NamesOneOf;
  }

  /** The counting helpers compare counts of columns with their limits. */
  lemma CountingHelpersMean(t: TableInfo, all: seq<TableInfo>, subs: seq<string>, n: nat, share: real)
    ensures Fires(ColumnsAtLeast(subs, n), t, all) <==> |MatchingNames(t.columns, subs)| >= n
    ensures Fires(DatesAtLeast(n), t, all) <==> Count(t.columns, (c: ColumnInfo) => IsOwnDate(c)) >= n
    ensures t.columns != [] ==>
              var decimals := Count(t.columns, (c: ColumnInfo) => IsDecimalType(c.dataType));
              (Fires(DecimalsAbove(share), t, all) <==> decimals as real / |t.columns| as real > share)
  {
    NamesCounted(t.columns, subs);
    hide Count, MatchingNames, IsOwnDate, IsDecimalType;
    CountSame(t.columns, IsDate(), (c: ColumnInfo) => IsOwnDate(c));
    CountSame(t.columns, IsDecimal(), (c: ColumnInfo) => IsDecimalType(c.dataType));
  }

  // ----- Signals that do not read tags -----

  ghost predicate SameButTags(ts: seq<TableInfo>, us: seq<TableInfo>) {
    |ts| == |us| && forall i :: 0 <= i < |ts| ==> Untagged(ts[i]) == Untagged(us[i])
  }

  /** The signal may read the table and the manifest, but no tags. */
  ghost predicate TagBlind(d: Detector) {
    forall t, u, all, all' | Untagged(t) == Untagged(u) && SameButTags(all, all') ::
      Fires(d, t, all) == Fires(d, u, all')
  }

  /** Structural signals read no tags. */
  lemma StructuralIsTagBlind(d: Detector)
    requires Structural(d)
    ensures TagBlind(d)
  {
    forall t, u, all, all' | Untagged(t) == Untagged(u) && SameButTags(all, all')
      ensures Fires(d, t, all) == Fires(d, u, all')
    {
      UntaggedShape(t);
      UntaggedShape(u);
      hide SameShape, Structural, Fires;
      StructuralSeesShape(d, t, Untagged(t), all, all');
      StructuralSeesShape(d, u, Untagged(u), all', all');
    }
  }

  lemma UntaggedShape(t: TableInfo)
    ensures SameShape(t, Untagged(t))
  {
  }
}
