/**
 The HEALTH_SERVICES parser.  Its results are exactly the well-formed entries, and
 well-formed entries survive printing and parsing, whatever blanks are put around them.
 */
module ServiceRegistry {
  import opened Text

  datatype ServiceEntry = ServiceEntry(name: string, url: string, healthPath: string)

  /** Cuts a custom health path off a URL: at the last ":/" behind the scheme. */
  function CutPath(remainder: string): (string, string) {
    var schemeEnd := Index(remainder, "://");
    if schemeEnd >= 0 then
      var afterScheme := remainder[schemeEnd + 3..];
      var last := LastIndex(afterScheme, ":/");
      if last >= 0 then
        var splitAt := schemeEnd + 3 + last;
        (remainder[..splitAt], remainder[splitAt + 1..])
      else (remainder, "")
    else (remainder, "")
  }

  /** A part yields one entry, or none when it is blank or malformed. */
  function ParsePart(raw: string): seq<ServiceEntry> {
    var part := Trim(raw);
    var idx := Index(part, ":");
    if part == "" || idx < 0 then []
    else
      var name, remainder := Trim(part[..idx]), Trim(part[idx + 1..]);
      if name == "" || remainder == "" then []
      else
        var (url, path) := CutPath(remainder);
        [ServiceEntry(name, url, path)]
  }

  function ParseParts(parts: seq<string>): seq<ServiceEntry> {
    if parts == [] then [] else ParsePart(parts[0]) + ParseParts(parts[1..])
  }

  function Parse(env: string): seq<ServiceEntry> {
    if Trim(env) == "" then [] else ParseParts(Split(Trim(env)))
  }

  lemma {:induction false} ParsePartsConcat(ps: seq<string>, qs: seq<string>)
    ensures ParseParts(ps + qs) == ParseParts(ps) + ParseParts(qs)
  {
    if ps == [] {
      assert ps + qs == qs;
    } else {
      assert (ps + qs)[1..] == ps[1..] + qs;
      ParsePartsConcat(ps[1..], qs);
    }
  }

  lemma {:induction false} ParsePartsOneMore(parts: seq<string>, p: string)
    ensures ParseParts(parts + [p]) == ParseParts(parts) + ParsePart(p)
  {
    ParsePartsConcat(parts, [p]);
    ParseOne(p);
    hide ParseParts, ParsePart;
  }

  lemma ParseOne(p: string)
    ensures ParseParts([p]) == ParsePart(p)
  {
    assert [p][1..] == [];
    hide ParsePart;
  }

  lemma NothingParsed()
    ensures ParseParts([]) == []
  {
  }

  method CutHealthPath(remainder: string) returns (url: string, healthPath: string)
    ensures IsCut(remainder, url, healthPath)
  {
    url, healthPath := remainder, "";
    var schemeEnd := Index(remainder, "://");
    if schemeEnd >= 0 {
      var afterScheme := remainder[schemeEnd + 3..];
      var lastColonSlash := LastIndex(afterScheme, ":/");
      if lastColonSlash >= 0 {
        var splitAt := schemeEnd + 3 + lastColonSlash;
        url := remainder[..splitAt];
        healthPath := remainder[splitAt + 1..];
      }
    }
    assert (url, healthPath) == CutPath(remainder);
    CutJoins(remainder);
    hide Index, LastIndex;
  }

  /** One round of the parser's loop: what it appends for one part. */
  method ParseEntry(raw: string) returns (es: seq<ServiceEntry>)
    ensures es == ParsePart(raw) && |es| <= 1
    ensures ',' !in raw ==> forall e :: e in es <==> Denotes(raw, e)
  {
    if ',' !in raw {
      PartIffDenoted(raw);
    }
    hide Trim, Index, CutPath, IsCut, Denotes;
    var part := Trim(raw);
    if part == "" {
      return [];
    }
    var idx := Index(part, ":");
    if idx < 0 {
      return [];
    }
    var name := Trim(part[..idx]);
    var remainder := Trim(part[idx + 1..]);
    if name == "" || remainder == "" {
      return [];
    }
    var url, healthPath := CutHealthPath(remainder);
    CutUnique(remainder, url, healthPath);
    return [ServiceEntry(name, url, healthPath)];
  }

  method ParseServices(env: string) returns (entries: seq<ServiceEntry>)
    ensures entries == Parse(env)
  {
    var trimmed := Trim(env);
    entries := [];
    if trimmed == "" {
      return;
    }
    var parts := Split(trimmed);
    NothingParsed();
    hide ParsePart, ParseParts, Split, Trim, Denotes;
    for i := 0 to |parts|
      invariant entries == ParseParts(parts[..i])
    {
      assert parts[..i + 1] == parts[..i] + [parts[i]];
      ParsePartsOneMore(parts[..i], parts[i]);
      var es := ParseEntry(parts[i]);
      entries := entries + es;
    }
    assert parts[..|parts|] == parts;
  }

  // ----- Printing -----

  function Attach(url: string, path: string): string {
    if path == "" then url else url + ":" + path
  }

  /** What follows the name's colon. */
  function Remainder(e: ServiceEntry): string {
    Attach(e.url, e.healthPath)
  }

  function Show(e: ServiceEntry): string {
    e.name + ":" + Remainder(e)
  }

  function ShowAll(es: seq<ServiceEntry>): seq<string> {
    if es == [] then [] else [Show(es[0])] + ShowAll(es[1..])
  }

  function Print(es: seq<ServiceEntry>): string {
    Join(ShowAll(es))
  }

  /** No ":/" behind the scheme, if the URL has one. */
  predicate PlainUrl(url: string) {
    var i := Index(url, "://");
    i >= 0 ==> !Contains(url[i + 3..], ":/")
  }

  /** URL and path can be told apart once attached: there is no other place to cut. */
  predicate Separable(url: string, path: string) {
    if path == "" then PlainUrl(url) else Contains(url, "://") && path[0] == '/' && !Contains(path, ":/")
  }

  predicate IsCut(r: string, url: string, path: string) {
    r == Attach(url, path) && Separable(url, path)
  }

  predicate WellFormed(e: ServiceEntry) {
    && e.name != "" && Trimmed(e.name) && ':' !in e.name
    && Remainder(e) != "" && Trimmed(Remainder(e))
    && ',' !in Show(e) && Separable(e.url, e.healthPath)
  }

  // ----- Cutting undoes joining -----

  lemma OccursShift(s: string, t: string, sub: string, i: nat)
    requires i >= |s|
    ensures OccursAt(s + t, sub, i) <==> OccursAt(t, sub, i - |s|)
  {
    if i + |sub| <= |s + t| {
      assert (s + t)[i..i + |sub|] == t[i - |s|..i - |s| + |sub|];
    }
  }

  lemma OccursPrefix(s: string, t: string, sub: string, i: nat)
    requires i + |sub| <= |s|
    ensures OccursAt(s + t, sub, i) <==> OccursAt(s, sub, i)
  {
    assert (s + t)[i..i + |sub|] == s[i..i + |sub|];
  }

  lemma FirstInPrefix(s: string, t: string, sub: string)
    requires Contains(s, sub)
    ensures 0 <= Index(s, sub) && Index(s, sub) + |sub| <= |s| && Index(s + t, sub) == Index(s, sub)
  {
    var i := Index(s, sub);
    OccursPrefix(s, t, sub, i);
    forall j: nat | j < i
      ensures !OccursAt(s + t, sub, j)
    {
      OccursPrefix(s, t, sub, j);
    }
  }

  /** A custom path is cut off again where it was attached. */
  lemma CutAttached(url: string, path: string)
    requires path != "" && path[0] == '/' && Contains(url, "://") && !Contains(path, ":/")
    ensures CutPath(url + ":" + path) == (url, path)
  {
    var r := url + (":" + path);
    assert r == url + ":" + path;
    FirstInPrefix(url, ":" + path, "://");
    var i := Index(url, "://");
    var after, k := r[i + 3..], |url| - (i + 3);
    assert after == url[i + 3..] + (":" + path);
    OccursShift(url[i + 3..], ":" + path, ":/", k);
    assert OccursAt(":" + path, ":/", 0);
    forall j: nat | k < j
      ensures !OccursAt(after, ":/", j)
    {
      OccursShift(url[i + 3..], ":" + path, ":/", j);
      OccursShift(":", path, ":/", j - k);
    }
    assert LastIndex(after, ":/") == k;
    assert r[..|url|] == url && r[|url| + 1..] == path;
  }

  lemma TailHasNone(after: string, k: nat)
    requires k + 1 <= |after| && LastIndex(after, ":/") == k
    ensures !Contains(after[k + 1..], ":/")
  {
    var path := after[k + 1..];
    assert after == after[..k + 1] + path;
    forall j: nat | j <= |path|
      ensures !OccursAt(path, ":/", j)
    {
      OccursShift(after[..k + 1], path, ":/", k + 1 + j);
    }
  }

  lemma PrefixKeeps(r: string, sub: string, i: nat, n: nat)
    requires OccursAt(r, sub, i) && i + |sub| <= n <= |r|
    ensures Contains(r[..n], sub)
  {
    assert r[..n][i..i + |sub|] == r[i..i + |sub|];
    assert OccursAt(r[..n], sub, i);
  }

  /** Cutting gives back the two pieces, and they are of the well-formed shape. */
  lemma CutJoins(r: string)
    ensures var (url, path) := CutPath(r); IsCut(r, url, path)
  {
    var i := Index(r, "://");
    if i >= 0 && LastIndex(r[i + 3..], ":/") >= 0 {
      CutSomewhere(r, i, LastIndex(r[i + 3..], ":/"));
    } else {
      CutNowhere(r);
    }
  }

  lemma CutSomewhere(r: string, i: nat, last: nat)
    requires i == Index(r, "://") && last == LastIndex(r[i + 3..], ":/")
    ensures var (url, path) := CutPath(r); IsCut(r, url, path)
  {
    PiecesAt(r, i, last);
    CutAt(r, i, last);
    hide IsCut, CutPath, Index, LastIndex, OccursAt;
  }

  lemma CutAt(r: string, i: nat, last: nat)
    requires i == Index(r, "://") && i + 3 + last < |r| && last == LastIndex(r[i + 3..], ":/")
    ensures CutPath(r) == (r[..i + 3 + last], r[i + 3 + last + 1..])
  {
  }

  lemma PiecesAt(r: string, i: nat, last: nat)
    requires OccursAt(r, "://", i) && last == LastIndex(r[i + 3..], ":/")
    ensures i + 3 + last < |r| && IsCut(r, r[..i + 3 + last], r[i + 3 + last + 1..])
  {
    assert i + 3 <= |r|;
    hide LastIndex, OccursAt, Contains, IsCut;
    var k := i + 3 + last;
    CutPieces(r, i + 3, last);
    PrefixKeeps(r, "://", i, k);
    TailHasNone(r[i + 3..], last);
    PiecesCut(r, r[..k], r[k + 1..]);
  }

  lemma PiecesCut(r: string, url: string, path: string)
    requires r == url + ":" + path && path != "" && path[0] == '/'
    requires Contains(url, "://") && !Contains(path, ":/")
    ensures IsCut(r, url, path)
  {
    hide Contains;
  }

  lemma CutNowhere(r: string)
    requires Index(r, "://") < 0 || LastIndex(r[Index(r, "://") + 3..], ":/") < 0
    ensures var (url, path) := CutPath(r); IsCut(r, url, path)
  {
    assert CutPath(r) == (r, "");
    hide CutPath;
    if Index(r, "://") >= 0 {
      NoneContained(r[Index(r, "://") + 3..], ":/");
    }
    hide LastIndex, OccursAt, Contains;
  }

  lemma NoneContained(s: string, sub: string)
    requires LastIndex(s, sub) < 0
    ensures !Contains(s, sub)
  {
    hide LastIndex, OccursAt;
  }

  lemma CutPieces(r: string, from: nat, k: nat)
    requires from <= |r| && OccursAt(r[from..], ":/", k)
    ensures from + k + 1 < |r| && r == r[..from + k] + ":" + r[from + k + 1..] && r[from + k + 1] == '/'
    ensures r[from..][k + 1..] == r[from + k + 1..]
  {
    assert r[from..][k..k + 2] == ":/";
    assert r[from..][k] == ':' && r[from..][k + 1] == '/';
  }

  lemma CutPlain(url: string)
    requires PlainUrl(url)
    ensures CutPath(url) == (url, "")
  {
    var i := Index(url, "://");
    if i >= 0 {
      var last := LastIndex(url[i + 3..], ":/");
      assert last < 0;
    }
  }

  // ----- One part -----

  lemma CommaFreePieces(e: ServiceEntry)
    ensures ',' !in Show(e) <==> ',' !in e.name && ',' !in Remainder(e)
  {
    assert Show(e) == e.name + ":" + Remainder(e);
  }

  /** Trimming a padded part strips exactly the outer padding. */
  lemma PaddedPartTrims(name: string, r: string, w1: string, w2: string, w3: string, w4: string)
    requires name != "" && Trimmed(name) && r != "" && Trimmed(r) && Blank(w1) && Blank(w4)
    ensures Trim(w1 + name + w2 + ":" + w3 + r + w4) == name + w2 + ":" + w3 + r
  {
    var core := name + w2 + ":" + w3 + r;
    assert w1 + name + w2 + ":" + w3 + r + w4 == w1 + (core + w4);
    TrimLeading(w1, core + w4);
    TrimTrailing(core, w4);
    assert core[0] == name[0] && core[|core| - 1] == r[|r| - 1];
    TrimTrimmed(core);
    hide Trim;
  }

  lemma PaddedPieceTrims(s: string, before: string, after: string)
    requires Trimmed(s) && Blank(before) && Blank(after)
    ensures Trim(before + s) == s && Trim(s + after) == s
  {
    TrimLeading(before, s);
    TrimTrailing(s, after);
    TrimTrimmed(s);
    hide Trim;
  }

  /** There is only one way to cut. */
  lemma CutUnique(r: string, url: string, path: string)
    requires IsCut(r, url, path)
    ensures CutPath(r) == (url, path)
  {
    hide CutPath;
    if path == "" {
      CutPlain(url);
    } else {
      CutAttached(url, path);
    }
  }

  /** A well-formed entry is read back from its printed form, however it is padded. */
  lemma PartReadsBack(e: ServiceEntry, w1: string, w2: string, w3: string, w4: string)
    requires WellFormed(e) && Blank(w1) && Blank(w2) && Blank(w3) && Blank(w4)
    ensures ParsePart(w1 + e.name + w2 + ":" + w3 + Remainder(e) + w4) == [e]
  {
    hide CutPath, Trim, Index, Trimmed, PlainUrl, Contains, Attach;
    var r := Remainder(e);
    PaddedPartTrims(e.name, r, w1, w2, w3, w4);
    ColonAfterName(e.name, w2, w3 + r);
    var core, idx := e.name + w2 + ":" + w3 + r, |e.name + w2|;
    assert core == e.name + w2 + ":" + (w3 + r);
    assert core[..idx] == e.name + w2 && core[idx + 1..] == w3 + r;
    PaddedPieceTrims(e.name, "", w2);
    PaddedPieceTrims(r, w3, "");
    CutUnique(r, e.url, e.healthPath);
  }

  lemma ColonAfterName(name: string, w: string, rest: string)
    requires ':' !in name && Blank(w)
    ensures Index(name + w + ":" + rest, ":") == |name + w|
  {
    var s, k := name + w + ":" + rest, |name + w|;
    assert OccursAt(s, ":", k);
    forall j: nat | j < k
      ensures !OccursAt(s, ":", j)
    {
      assert s[j] == (name + w)[j];
      assert j >= |name| ==> IsSpace(w[j - |name|]);
      assert s[j] != ':';
      assert s[j..j + 1] == [s[j]];
    }
  }

  lemma NoneBeforeIndex(s: string, c: char)
    requires Index(s, [c]) >= 0
    ensures c !in s[..Index(s, [c])]
  {
    var idx := Index(s, [c]);
    forall j | 0 <= j < idx
      ensures s[j] != c
    {
      assert !OccursAt(s, [c], j);
      assert s[j..j + 1] == [s[j]];
    }
    hide Index;
  }

  lemma TrimKeepsAbsence(s: string, c: char)
    requires c !in s
    ensures c !in Trim(s)
  {
    TrimIsTrimmed(s);
  }

  /** Whatever a comma-free part yields is well-formed. */
  lemma PartYieldsWellFormed(raw: string)
    requires ',' !in raw
    ensures forall e :: e in ParsePart(raw) ==> WellFormed(e)
  {
    hide Trim, Index, Trimmed, CutPath, PlainUrl, Contains;
    if ParsePart(raw) != [] {
      var part, idx := Trim(raw), Index(Trim(raw), ":");
      var name, r := Trim(part[..idx]), Trim(part[idx + 1..]);
      TrimKeepsAbsence(raw, ',');
      NoneBeforeIndex(part, ':');
      TrimIsTrimmed(part[..idx]);
      TrimIsTrimmed(part[idx + 1..]);
      CutJoins(r);
      var e := ParsePart(raw)[0];
      assert Remainder(e) == r;
      CommaFreePieces(e);
    }
  }

  /** The part is the printed entry with blanks around its pieces. */
  predicate Pads(raw: string, e: ServiceEntry, w1: string, w2: string, w3: string, w4: string) {
    && Blank(w1) && Blank(w2) && Blank(w3) && Blank(w4)
    && raw == w1 + e.name + w2 + ":" + w3 + Remainder(e) + w4
  }

  ghost predicate Denotes(raw: string, e: ServiceEntry) {
    WellFormed(e) && exists w1, w2, w3, w4 :: Pads(raw, e, w1, w2, w3, w4)
  }

  /** A comma-free part yields exactly the entry that it denotes, and nothing when it denotes none. */
  lemma PartIffDenoted(raw: string)
    requires ',' !in raw
    ensures forall e :: e in ParsePart(raw) <==> Denotes(raw, e)
  {
    hide ParsePart, WellFormed;
    PartYieldsWellFormed(raw);
    forall e | e in ParsePart(raw)
      ensures Denotes(raw, e)
    {
      PartIsPadded(raw, e);
      hide Pads;
    }
    forall e | Denotes(raw, e)
      ensures e in ParsePart(raw)
    {
      var w1, w2, w3, w4 :| Pads(raw, e, w1, w2, w3, w4);
      PartReadsBack(e, w1, w2, w3, w4);
    }
  }

  lemma PartIsPadded(raw: string, e: ServiceEntry)
    requires e in ParsePart(raw)
    ensures exists w1, w2, w3, w4 :: Pads(raw, e, w1, w2, w3, w4)
  {
    var head, tail := PartSplits(raw, e);
    hide ParsePart, Trim, Remainder, Pads;
    var w1, v4 := TrimPads(raw);
    var v1, w2 := TrimPads(head);
    var w3, w4 := TrimPads(tail);
    Regroup(raw, e, Trim(raw), head, tail, w1, v1, w2, w3, w4, v4);
  }

  lemma {:induction false} PartSplits(raw: string, e: ServiceEntry) returns (head: string, tail: string)
    requires e in ParsePart(raw)
    ensures Trim(raw) == head + ":" + tail && e.name == Trim(head) && Remainder(e) == Trim(tail)
  {
    var part, idx := Trim(raw), Index(Trim(raw), ":");
    head, tail := part[..idx], part[idx + 1..];
    CutJoins(Trim(tail));
    assert part[idx..idx + 1] == ":";
    hide Trim, Index, CutPath, Separable;
  }

  lemma Regroup(raw: string, e: ServiceEntry, part: string, head: string, tail: string, w1: string, v1: string,
                w2: string, w3: string, w4: string, v4: string)
    requires raw == w1 + part + v4 && part == head + ":" + tail
    requires head == v1 + e.name + w2 && tail == w3 + Remainder(e) + w4
    requires Blank(w1) && Blank(v1) && Blank(w2) && Blank(w3) && Blank(w4) && Blank(v4)
    ensures Pads(raw, e, w1 + v1, w2, w3, w4 + v4)
  {
    hide Remainder;
    var before, after := w1 + head, tail + v4;
    assert raw == before + ":" + after;
    assert before == (w1 + v1) + e.name + w2;
    assert after == w3 + Remainder(e) + (w4 + v4);
    Chain(before + ":", w3, Remainder(e), w4 + v4);
  }

  lemma Chain(a: string, b: string, c: string, d: string)
    ensures a + (b + c + d) == a + b + c + d
  {
  }

  // ----- The whole variable -----

  lemma {:induction false} LeadingSpaceIgnored(w: string, env: string)
    requires Blank(w)
    ensures ParseParts(Split(w + env)) == ParseParts(Split(env))
  {
    if w == "" {
      assert w + env == env;
    } else {
      var s := w + env;
      assert s[1..] == w[1..] + env;
      LeadingSpaceIgnored(w[1..], env);
      var rest := Split(s[1..]);
      assert IsSpace(s[0]) && s[0] != ',';
      assert Split(s) == [[s[0]] + rest[0]] + rest[1..];
      TrimLeading([s[0]], rest[0]);
      SameTrimSameEntry([s[0]] + rest[0], rest[0]);
      assert Split(s)[1..] == rest[1..];
      hide ParsePart, Trim;
    }
  }

  lemma {:induction false} TrailingSpaceIgnored(env: string, w: string)
    requires Blank(w)
    ensures ParseParts(Split(env + w)) == ParseParts(Split(env))
  {
    if w == "" {
      assert env + w == env;
    } else {
      var m, c := |w| - 1, w[|w| - 1];
      var s := env + w[..m];
      assert env + w == s + [c];
      TrailingSpaceIgnored(env, w[..m]);
      hide Split, ParseParts;
      SplitSnoc(s, c);
      LastPartTrailingSpace(Split(s), c);
    }
  }

  lemma {:induction false} LastPartTrailingSpace(parts: seq<string>, c: char)
    requires parts != [] && IsSpace(c)
    ensures var n := |parts| - 1; ParseParts(parts[..n] + [parts[n] + [c]]) == ParseParts(parts)
  {
    hide ParseParts, ParsePart, Trim, IsSpace;
    var n := |parts| - 1;
    var before, p := parts[..n], parts[n];
    assert parts == before + [p];
    TrimTrailingOne(p, c);
    SameTrimSameEntry(p, p + [c]);
    ParseOne(p);
    ParseOne(p + [c]);
    ParsePartsConcat(before, [p + [c]]);
    ParsePartsConcat(before, [p]);
  }

  lemma SameTrimSameEntry(p: string, q: string)
    requires Trim(p) == Trim(q)
    ensures ParsePart(p) == ParsePart(q)
  {
    hide Trim, Index, CutPath;
  }

  /** Trimming the variable as a whole changes nothing that its parts do not ignore anyway. */
  lemma {:induction false} ParseIsParseParts(env: string)
    ensures Parse(env) == ParseParts(Split(env))
  {
    TrimmingIgnored(env);
    if Trim(env) == "" {
      ParseOne("");
      assert Split("") == [""];
    }
    hide Trim;
  }

  lemma {:induction false} TrimmingIgnored(env: string)
    ensures ParseParts(Split(Trim(env))) == ParseParts(Split(env))
    decreases |env|
  {
    hide ParseParts, Split;
    if env != "" && IsSpace(env[0]) {
      TrimmingIgnored(env[1..]);
      LeadingSpaceIgnored(env[..1], env[1..]);
      assert env == env[..1] + env[1..];
    } else if env != "" && IsSpace(env[|env| - 1]) {
      var n := |env| - 1;
      TrimmingIgnored(env[..n]);
      TrailingSpaceIgnored(env[..n], env[n..]);
      assert env == env[..n] + env[n..];
    }
  }

  /** Everything the parser returns is well-formed. */
  lemma ParseYieldsWellFormed(env: string)
    ensures forall e :: e in Parse(env) ==> WellFormed(e)
  {
    ParseIsParseParts(env);
    SplitPartsCommaFree(env);
    PartsYieldWellFormed(Split(env));
  }

  lemma {:induction false} PartsYieldWellFormed(parts: seq<string>)
    requires forall i :: 0 <= i < |parts| ==> ',' !in parts[i]
    ensures forall e :: e in ParseParts(parts) ==> WellFormed(e)
  {
    if parts != [] {
      PartYieldsWellFormed(parts[0]);
      PartsYieldWellFormed(parts[1..]);
      hide WellFormed, ParsePart;
    }
  }

  /** What an operator may write: entries padded with white space, and blank parts. */
  datatype Item = Gap(w: string) | Padded(e: ServiceEntry, w1: string, w2: string, w3: string, w4: string)

  predicate ItemOk(item: Item) {
    match item
    case Gap(w) => Blank(w)
    case Padded(e, w1, w2, w3, w4) => WellFormed(e) && Blank(w1) && Blank(w2) && Blank(w3) && Blank(w4)
  }

  function Written(item: Item): string {
    match item
    case Gap(w) => w
    case Padded(e, w1, w2, w3, w4) => w1 + e.name + w2 + ":" + w3 + Remainder(e) + w4
  }

  function WrittenAll(items: seq<Item>): seq<string> {
    if items == [] then [] else [Written(items[0])] + WrittenAll(items[1..])
  }

  function Entries(items: seq<Item>): seq<ServiceEntry> {
    if items == [] then []
    else (if items[0].Gap? then [] else [items[0].e]) + Entries(items[1..])
  }

  lemma ItemReadsBack(item: Item)
    requires ItemOk(item)
    ensures ',' !in Written(item)
    ensures ParsePart(Written(item)) == if item.Gap? then [] else [item.e]
  {
    match item
    case Gap(w) =>
      TrimLeading(w, "");
      assert w + "" == w;
    case Padded(e, w1, w2, w3, w4) =>
      PartReadsBack(e, w1, w2, w3, w4);
      CommaFreePieces(e);
      assert ',' !in w1 && ',' !in w2 && ',' !in w3 && ',' !in w4;
  }

  lemma {:induction false} ItemsReadBack(items: seq<Item>)
    requires forall i :: 0 <= i < |items| ==> ItemOk(items[i])
    ensures |WrittenAll(items)| == |items|
    ensures forall i :: 0 <= i < |items| ==> ',' !in WrittenAll(items)[i]
    ensures ParseParts(WrittenAll(items)) == Entries(items)
  {
    if items != [] {
      ItemReadsBack(items[0]);
      ItemsReadBack(items[1..]);
      assert WrittenAll(items)[1..] == WrittenAll(items[1..]);
      hide ItemOk, Written, ParsePart;
    }
  }

  /** Round trip with any blank parts and white space inserted. */
  lemma {:induction false} PaddedRoundTrip(items: seq<Item>)
    requires forall i :: 0 <= i < |items| ==> ItemOk(items[i])
    ensures Parse(Join(WrittenAll(items))) == Entries(items)
  {
    ItemsReadBack(items);
    ParseIsParseParts(Join(WrittenAll(items)));
    if items == [] {
      ParseOne("");
    } else {
      SplitJoin(WrittenAll(items));
    }
  }

  function Bare(es: seq<ServiceEntry>): seq<Item> {
    if es == [] then [] else [Padded(es[0], "", "", "", "")] + Bare(es[1..])
  }

  lemma {:induction false} BareIsPrint(es: seq<ServiceEntry>)
    ensures WrittenAll(Bare(es)) == ShowAll(es) && Entries(Bare(es)) == es && |Bare(es)| == |es|
    ensures forall i :: 0 <= i < |es| ==> Bare(es)[i] == Padded(es[i], "", "", "", "")
  {
    if es != [] {
      BareIsPrint(es[1..]);
      assert "" + es[0].name + "" + ":" + "" + Remainder(es[0]) + "" == Show(es[0]);
    }
  }

  /** Printing and parsing returns the list exactly when every entry is well-formed. */
  lemma RoundTripIff(es: seq<ServiceEntry>)
    ensures Parse(Print(es)) == es <==> forall e :: e in es ==> WellFormed(e)
  {
    BareIsPrint(es);
    ParseYieldsWellFormed(Print(es));
    if forall e :: e in es ==> WellFormed(e) {
      PaddedRoundTrip(Bare(es));
    }
  }

  /** Whatever the variable holds, its parse can be printed and parsed again without change. */
  lemma ParseIsStable(env: string)
    ensures Parse(Print(Parse(env))) == Parse(env)
  {
    ParseYieldsWellFormed(env);
    RoundTripIff(Parse(env));
  }
}
