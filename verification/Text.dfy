/** The string library functions the sources lean on: searching, trimming, splitting on commas. */
module Text {
  predicate OccursAt(s: string, sub: string, i: nat) {
    i + |sub| <= |s| && s[i..i + |sub|] == sub
  }

  predicate Contains(s: string, sub: string) {
    exists i | 0 <= i <= |s| :: OccursAt(s, sub, i)
  }

  predicate HasSuffix(s: string, suffix: string) {
    |suffix| <= |s| && s[|s| - |suffix|..] == suffix
  }

  /** The first occurrence at or after `from`, or -1. */
  function IndexFrom(s: string, sub: string, from: nat): (i: int)
    requires from <= |s|
    ensures i == -1 || (from <= i && OccursAt(s, sub, i))
    ensures forall j: nat :: from <= j < (if i == -1 then |s| + 1 else i) ==> !OccursAt(s, sub, j)
    decreases |s| - from
  {
    if OccursAt(s, sub, from) then from
    else if from == |s| then -1
    else IndexFrom(s, sub, from + 1)
  }

  function Index(s: string, sub: string): (i: int)
    ensures i == -1 || (0 <= i && OccursAt(s, sub, i))
    ensures forall j: nat :: j < (if i == -1 then |s| + 1 else i) ==> !OccursAt(s, sub, j)
  {
    IndexFrom(s, sub, 0)
  }

  /** The last occurrence at or before `from`, or -1. */
  function LastIndexFrom(s: string, sub: string, from: nat): (i: int)
    ensures i == -1 || (0 <= i <= from && OccursAt(s, sub, i))
    ensures forall j: nat :: i < j <= from ==> !OccursAt(s, sub, j)
  {
    if OccursAt(s, sub, from) then from
    else if from == 0 then -1
    else LastIndexFrom(s, sub, from - 1)
  }

  function LastIndex(s: string, sub: string): (i: int)
    ensures i == -1 || (0 <= i && OccursAt(s, sub, i))
    ensures forall j: nat :: i < j ==> !OccursAt(s, sub, j)
  {
    LastIndexFrom(s, sub, |s|)
  }

  function LowerChar(c: char): char {
    if 'A' <= c <= 'Z' then c + ' ' else c
  }

  /** strings.ToLower on ASCII. */
  function Lower(s: string): (t: string)
    ensures |t| == |s|
  {
    seq(|s|, i requires 0 <= i < |s| => LowerChar(s[i]))
  }

  // ----- White space -----

  /** The same text, but for the case of ASCII letters. */
  predicate EqualFold(a: string, b: string) {
    |a| == |b| && forall i | 0 <= i < |a| :: SameLetter(a[i], b[i])
  }

  /** The same character, or the two cases of one letter. */
  predicate SameLetter(c: char, d: char) {
    c == d || ('A' <= c <= 'Z' && d as int == c as int + 32) || ('A' <= d <= 'Z' && c as int == d as int + 32)
  }

  lemma LowerIsFold(a: string, b: string)
    ensures Lower(a) == Lower(b) <==> EqualFold(a, b)
  {
    assert forall i :: 0 <= i < |a| ==> Lower(a)[i] == LowerChar(a[i]);
    assert forall i :: 0 <= i < |b| ==> Lower(b)[i] == LowerChar(b[i]);
    if Lower(a) == Lower(b) {
      assert |a| == |b|;
      forall i | 0 <= i < |a|
        ensures SameLetter(a[i], b[i])
      {
        assert Lower(a)[i] == Lower(b)[i];
      }
    }
  }

  lemma LowerSlice(s: string, i: nat, j: nat)
    requires i <= j <= |s|
    ensures Lower(s)[i..j] == Lower(s[i..j])
  {
  }

  /** `sub` occurs in `s` at position `k`, whatever the case. */
  predicate OccursFold(s: string, sub: string, k: nat) {
    k + |sub| <= |s| && EqualFold(s[k..k + |sub|], sub)
  }

  lemma OccursFoldMeans(s: string, sub: string, k: nat)
    ensures OccursAt(Lower(s), Lower(sub), k) <==> OccursFold(s, sub, k)
  {
    if k + |sub| <= |s| {
      LowerSlice(s, k, k + |sub|);
      LowerIsFold(s[k..k + |sub|], sub);
    }
  }

  lemma ContainsFoldMeans(s: string, sub: string)
    ensures Contains(Lower(s), Lower(sub)) <==> exists k: nat :: OccursFold(s, sub, k)
  {
    forall k: nat
      ensures OccursAt(Lower(s), Lower(sub), k) <==> OccursFold(s, sub, k)
    {
      OccursFoldMeans(s, sub, k);
    }
    hide Lower, EqualFold;
    if k: nat :| OccursFold(s, sub, k) {
      assert OccursAt(Lower(s), Lower(sub), k);
    }
  }

  /** unicode.IsSpace. */
  predicate IsSpace(c: char) {
    var n := c as int;
    9 <= n <= 13 || n == 32 || n == 0x85 || n == 0xA0 || n == 0x1680 || 0x2000 <= n <= 0x200a
    || n == 0x2028 || n == 0x2029 || n == 0x202f || n == 0x205f || n == 0x3000
  }

  /** The 25 white-space characters of Unicode, by code point. */
  lemma SpacesAre(c: char)
    ensures IsSpace(c) <==>
            c as int in {0x09, 0x0a, 0x0b, 0x0c, 0x0d, 0x20, 0x85, 0xa0, 0x1680, 0x2000, 0x2001, 0x2002, 0x2003, 0x2004,
                         0x2005, 0x2006, 0x2007, 0x2008, 0x2009, 0x200a, 0x2028, 0x2029, 0x202f, 0x205f, 0x3000}
  {
  }

  predicate Blank(s: string) {
    forall i | 0 <= i < |s| :: IsSpace(s[i])
  }

  function Trim(s: string): string {
    if s == "" then ""
    else if IsSpace(s[0]) then Trim(s[1..])
    else if IsSpace(s[|s| - 1]) then Trim(s[..|s| - 1])
    else s
  }

  /** Nothing to trim. */
  predicate Trimmed(s: string) {
    s == "" || (!IsSpace(s[0]) && !IsSpace(s[|s| - 1]))
  }

  lemma {:induction false} TrimIsTrimmed(s: string)
    ensures Trimmed(Trim(s))
    ensures forall c :: c in Trim(s) ==> c in s
  {
    if s != "" {
      if IsSpace(s[0]) {
        TrimIsTrimmed(s[1..]);
      } else if IsSpace(s[|s| - 1]) {
        TrimIsTrimmed(s[..|s| - 1]);
      }
    }
  }

  /** Trimming takes blanks off both ends. */
  lemma {:induction false} TrimPads(s: string) returns (before: string, after: string)
    ensures Blank(before) && Blank(after) && s == before + Trim(s) + after
  {
    before, after := "", "";
    if s != "" && IsSpace(s[0]) {
      var rest := s[1..];
      assert Trim(s) == Trim(rest) && s == [s[0]] + rest;
      hide Trim;
      before, after := TrimPads(rest);
      PadFront(s[0], before, Trim(rest), after);
      before := [s[0]] + before;
    } else if s != "" && IsSpace(s[|s| - 1]) {
      var rest, c := s[..|s| - 1], s[|s| - 1];
      assert Trim(s) == Trim(rest) && s == rest + [c];
      hide Trim;
      before, after := TrimPads(rest);
      PadBack(before, Trim(rest), after, c);
      after := after + [c];
    }
  }

  lemma PadFront(c: char, before: string, s: string, after: string)
    ensures [c] + (before + s + after) == ([c] + before) + s + after
  {
  }

  lemma PadBack(before: string, s: string, after: string, c: char)
    ensures (before + s + after) + [c] == before + s + (after + [c])
  {
  }

  lemma TrimTrimmed(s: string)
    requires Trimmed(s)
    ensures Trim(s) == s
  {
  }

  lemma {:induction false} TrimLeading(w: string, s: string)
    requires Blank(w)
    ensures Trim(w + s) == Trim(s)
  {
    if w == "" {
      assert w + s == s;
    } else {
      assert (w + s)[1..] == w[1..] + s;
      TrimLeading(w[1..], s);
    }
  }

  lemma {:induction false} TrimTrailingOne(s: string, c: char)
    requires IsSpace(c)
    ensures Trim(s + [c]) == Trim(s)
  {
    if s == "" {
      assert (s + [c])[1..] == "";
    } else if IsSpace(s[0]) {
      assert (s + [c])[1..] == s[1..] + [c];
      TrimTrailingOne(s[1..], c);
    } else {
      assert (s + [c])[..|s|] == s;
    }
  }

  lemma {:induction false} TrimTrailing(s: string, w: string)
    requires Blank(w)
    ensures Trim(s + w) == Trim(s)
  {
    if w == "" {
      assert s + w == s;
    } else {
      var n := |w| - 1;
      assert s + w == (s + w[..n]) + [w[n]];
      TrimTrailingOne(s + w[..n], w[n]);
      TrimTrailing(s, w[..n]);
    }
  }

  // ----- Commas -----

  function Split(s: string): (parts: seq<string>)
    ensures parts != []
  {
    if s == "" then [""]
    else
      var rest := Split(s[1..]);
      if s[0] == ',' then [""] + rest else [[s[0]] + rest[0]] + rest[1..]
  }

  function Join(parts: seq<string>): string {
    if parts == [] then ""
    else if |parts| == 1 then parts[0]
    else parts[0] + "," + Join(parts[1..])
  }

  lemma {:induction false} SplitPartsCommaFree(s: string)
    ensures forall i :: 0 <= i < |Split(s)| ==> ',' !in Split(s)[i]
  {
    if s != "" {
      SplitPartsCommaFree(s[1..]);
    }
  }

  lemma {:induction false} SplitFirst(p: string, s: string)
    requires ',' !in p
    ensures Split(p) == [p]
    ensures Split(p + "," + s) == [p] + Split(s)
  {
    var all := p + "," + s;
    if p == "" {
      assert all[1..] == s;
    } else {
      SplitFirst(p[1..], s);
      assert all[1..] == p[1..] + "," + s;
      assert p == [p[0]] + p[1..];
    }
  }

  lemma {:induction false} SplitJoin(parts: seq<string>)
    requires parts != [] && forall i :: 0 <= i < |parts| ==> ',' !in parts[i]
    ensures Split(Join(parts)) == parts
  {
    if |parts| == 1 {
      SplitFirst(parts[0], "");
    } else {
      SplitFirst(parts[0], Join(parts[1..]));
      SplitJoin(parts[1..]);
    }
  }

  lemma {:induction false} SplitSnoc(s: string, c: char)
    requires c != ','
    ensures var parts, n := Split(s), |Split(s)| - 1;
            Split(s + [c]) == parts[..n] + [parts[n] + [c]]
  {
    var all := s + [c];
    if s == "" {
      assert all[1..] == "" && all[0] == c;
      assert [c] + Split("")[0] == [c] && Split("")[0] + [c] == [c];
      assert Split(all) == [[c]];
    } else {
      assert all[1..] == s[1..] + [c];
      SplitSnoc(s[1..], c);
      var rest, m := Split(s[1..]), |Split(s[1..])| - 1;
      if s[0] != ',' && m == 0 {
        assert [s[0]] + (rest[0] + [c]) == ([s[0]] + rest[0]) + [c];
      }
    }
  }
}
