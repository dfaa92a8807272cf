/**
 * The Boyer-Moore search of the recovery updater: two skip tables and an
 * in-place scan from the right end of each window.
 *
 * The methods follow the loops of the program and are proved against the
 * functions of this module.  The lemmas say what those functions mean: the
 * search is sound for every non-empty pattern, and it agrees with the naive
 * leftmost search on all texts exactly when the pattern does not overshift.
 */
module BoyerMoore {
  import opened Wrappers

  type Byte = c: char | c as int < 256 witness 'a'

  const ALPHABET_LEN := 256

  // ----- The reference: naive leftmost search -----

  predicate OccursAt(text: seq<Byte>, pat: seq<Byte>, s: nat) {
    s + |pat| <= |text| && text[s..s + |pat|] == pat
  }

  /** The first occurrence of pat at or after position s. */
  function FirstOccurrence(text: seq<Byte>, pat: seq<Byte>, s: nat): (r: Option<nat>)
    requires |pat| > 0
    decreases |text| - s
  {
    if s + |pat| > |text| then None
    else if OccursAt(text, pat, s) then Some(s)
    else FirstOccurrence(text, pat, s + 1)
  }

  /** The naive search returns the leftmost occurrence from s on, and nothing only when there is none. */
  lemma {:induction false} FirstOccurrenceIsLeftmost(text: seq<Byte>, pat: seq<Byte>, s: nat)
    requires |pat| > 0
    ensures var r := FirstOccurrence(text, pat, s);
            if r.Some? then
              s <= r.value && OccursAt(text, pat, r.value)
              && forall k: nat :: s <= k < r.value ==> !OccursAt(text, pat, k)
            else
              forall k: nat :: s <= k ==> !OccursAt(text, pat, k)
    decreases |text| - s
  {
    if s + |pat| <= |text| && !OccursAt(text, pat, s) {
      FirstOccurrenceIsLeftmost(text, pat, s + 1);
    }
  }

  // ----- The bad-character table -----

  /** The last position below n that holds c, or -1. */
  function LastIndex(pat: seq<Byte>, c: Byte, n: nat): (r: int)
    requires n <= |pat|
    ensures -1 <= r < n
    ensures r >= 0 ==> pat[r] == c
    ensures forall k :: r < k < n ==> pat[k] != c
  {
    if n == 0 then -1 else if pat[n - 1] == c then n - 1 else LastIndex(pat, c, n - 1)
  }

  function Delta1(pat: seq<Byte>, c: Byte): nat
    requires |pat| > 0
  {
    |pat| - 1 - LastIndex(pat, c, |pat| - 1)
  }

  /** The shift brings the last occurrence of the byte before the final position there, or moves past the pattern. */
  lemma Delta1Aligns(pat: seq<Byte>, c: Byte)
    requires |pat| > 0
    ensures var m, k := |pat|, |pat| - 1 - Delta1(pat, c);
            if c in pat[..m - 1] then 0 <= k < m - 1 && pat[k] == c && c !in pat[k + 1..m - 1] else k == -1
  {
    var m, k := |pat|, LastIndex(pat, c, |pat| - 1);
    if k >= 0 {
      assert pat[..m - 1][k] == c;
    }
  }

  function Table1(pat: seq<Byte>): seq<int>
    requires |pat| > 0
  {
    seq(ALPHABET_LEN, c requires 0 <= c < ALPHABET_LEN => Delta1(pat, c as char))
  }

  method MakeDelta1(delta1: array<int>, pat: seq<Byte>)
    requires |pat| > 0 && delta1.Length == ALPHABET_LEN
    modifies delta1
    ensures delta1[..] == Table1(pat)
  {
    var i := 0;
    while i < ALPHABET_LEN
      invariant 0 <= i <= ALPHABET_LEN
      invariant forall k :: 0 <= k < i ==> delta1[k] == |pat|
    {
      delta1[i] := |pat|;
      i := i + 1;
    }
    i := 0;
    while i < |pat| - 1
      invariant 0 <= i <= |pat| - 1
      invariant forall c :: 0 <= c < ALPHABET_LEN ==> delta1[c] == |pat| - 1 - LastIndex(pat, c as char, i)
    {
      delta1[pat[i] as int] := |pat| - 1 - i;
      i := i + 1;
    }
  }

  // ----- The good-suffix table -----

  /** The part of s a C string comparison looks at: up to and including the first NUL byte. */
  function CString(s: seq<Byte>): seq<Byte> {
    if s == [] then []
    else if s[0] == '\0' then ['\0']
    else [s[0]] + CString(s[1..])
  }

  lemma {:induction false} NulFreeCString(s: seq<Byte>)
    requires '\0' !in s
    ensures CString(s) == s
  {
    if s == [] {
    } else {
      NulFreeCString(s[1..]);
    }
  }

  /** strncmp(pat + q, pat, |pat| - q) == 0. */
  predicate ComparesEqual(pat: seq<Byte>, q: nat)
    requires q <= |pat|
  {
    CString(pat[q..]) == CString(pat[..|pat| - q])
  }

  method StrnCmpEqual(pat: seq<Byte>, q: nat) returns (equal: bool)
    requires q <= |pat|
    ensures equal <==> ComparesEqual(pat, q)
  {
    var n, k := |pat| - q, 0;
    while k < n
      invariant 0 <= k <= n
      invariant ComparesEqual(pat, q) <==> CString(pat[q..][k..]) == CString(pat[..n][k..])
    {
      ghost var left, right := pat[q..][k..], pat[..n][k..];
      if pat[q + k] != pat[k] {
        assert CString(left)[0] == left[0] && CString(right)[0] == right[0];
        return false;
      }
      if pat[k] == '\0' {
        return true;
      }
      assert CString(left)[1..] == CString(left[1..]) && CString(right)[1..] == CString(right[1..]);
      assert left[1..] == pat[q..][k + 1..] && right[1..] == pat[..n][k + 1..];
      k := k + 1;
    }
    return true;
  }

  /** The value of last_prefix once the first loop has processed positions p and up. */
  function LastPrefix(pat: seq<Byte>, p: nat): (r: nat)
    requires p <= |pat| && |pat| > 0
    ensures r <= |pat| && (|pat| > 1 ==> r >= 1)
    decreases |pat| - p
  {
    if p == |pat| then |pat| - 1
    else if ComparesEqual(pat, p) then p + 1
    else LastPrefix(pat, p + 1)
  }

  /** It is one past the first tail from p on that compares equal, or |pat| - 1 when there is none. */
  lemma {:induction false} LastPrefixFinds(pat: seq<Byte>, p: nat)
    requires p <= |pat| && |pat| > 0
    ensures var r := LastPrefix(pat, p); r == |pat| - 1 || (p < r && ComparesEqual(pat, r - 1))
    decreases |pat| - p
  {
    if p < |pat| && !ComparesEqual(pat, p) {
      LastPrefixFinds(pat, p + 1);
    }
  }

  lemma {:induction false} LastPrefixAtMost(pat: seq<Byte>, p: nat, q: nat)
    requires p <= q < |pat| && ComparesEqual(pat, q)
    ensures var r := LastPrefix(pat, p); p < r <= q + 1 && ComparesEqual(pat, r - 1)
    decreases |pat| - p
  {
    if !ComparesEqual(pat, p) {
      LastPrefixAtMost(pat, p + 1, q);
    }
  }

  /**
   * Shifting by t re-aligns the suffix after p with an earlier copy of itself
   * that is preceded by a different character.
   */
  predicate Realigns(pat: seq<Byte>, p: nat, t: nat) {
    1 <= t <= p < |pat| && pat[p - t] != pat[p] && pat[p + 1 - t..|pat| - t] == pat[p + 1..]
  }

  /** The least realigning shift of at least t, or 0 when there is none. */
  function LeastRealign(pat: seq<Byte>, p: nat, t: nat): (r: nat)
    requires p < |pat| && t >= 1
    ensures r <= p
    decreases |pat| - t
  {
    if t > p then 0 else if Realigns(pat, p, t) then t else LeastRealign(pat, p, t + 1)
  }

  lemma {:induction false} LeastRealignIsLeast(pat: seq<Byte>, p: nat, t: nat)
    requires p < |pat| && t >= 1
    ensures var r := LeastRealign(pat, p, t);
            if r == 0 then forall u :: t <= u ==> !Realigns(pat, p, u)
            else t <= r && Realigns(pat, p, r) && forall u :: t <= u < r ==> !Realigns(pat, p, u)
    decreases |pat| - t
  {
    if t <= p && !Realigns(pat, p, t) {
      LeastRealignIsLeast(pat, p, t + 1);
    }
  }

  /** The shift stored for a mismatch at p once all suffix ends that give shifts of at least t are done. */
  function ShiftFrom(pat: seq<Byte>, p: nat, t: nat): nat
    requires p < |pat| && t >= 1
  {
    if LeastRealign(pat, p, t) > 0 then LeastRealign(pat, p, t) else LastPrefix(pat, p)
  }

  function Delta2(pat: seq<Byte>, p: nat): nat
    requires p < |pat|
  {
    ShiftFrom(pat, p, 1) + (|pat| - 1 - p)
  }

  lemma SameAt(s: seq<Byte>, a: nat, b: nat, n: nat, i: nat)
    requires a + n <= |s| && b + n <= |s| && i < n
    requires s[a..a + n] == s[b..b + n]
    ensures s[a + i] == s[b + i]
  {
  }

  /** max_suffix_len: the length of the longest suffix ending at p, cut off at p. */
  method MaxSuffixLen(pat: seq<Byte>, p: nat) returns (n: nat)
    requires p < |pat|
    ensures LongestSuffix(pat, p, n)
  {
    n := 0;
    while pat[p - n] == pat[|pat| - 1 - n] && n < p
      invariant n <= p
      invariant pat[p + 1 - n..p + 1] == pat[|pat| - n..]
      decreases p - n
    {
      assert pat[p - n..p + 1] == [pat[p - n]] + pat[p + 1 - n..p + 1];
      assert pat[|pat| - 1 - n..] == [pat[|pat| - 1 - n]] + pat[|pat| - n..];
      n := n + 1;
    }
  }

  /** The n bytes ending at p equal the last n, and no more do unless n has reached p. */
  predicate LongestSuffix(pat: seq<Byte>, p: nat, n: nat) {
    && n <= p < |pat|
    && pat[p + 1 - n..p + 1] == pat[|pat| - n..]
    && (n < p ==> pat[p - n] != pat[|pat| - 1 - n])
  }

  /** One end position e of the second loop decides the realigning shift |pat| - 1 - e for one entry only. */
  lemma RealignsAtEnd(pat: seq<Byte>, e: nat, n: nat, p: nat)
    requires e < |pat| - 1 && p < |pat| && LongestSuffix(pat, e, n)
    ensures Realigns(pat, p, |pat| - 1 - e)
            <==> p == |pat| - 1 - n && pat[e - n] != pat[|pat| - 1 - n]
  {
  }

  function Table2(pat: seq<Byte>): seq<int> {
    seq(|pat|, p requires 0 <= p < |pat| => Delta2(pat, p))
  }

  /** The table once all suffix ends that give shifts of at least t are done. */
  predicate IsTable(delta2: seq<int>, pat: seq<Byte>, t: nat)
    requires t >= 1
  {
    |delta2| == |pat|
    && forall k :: 0 <= k < |pat| ==> delta2[k] == ShiftFrom(pat, k, t) + (|pat| - 1 - k)
  }

  method MakeDelta2(delta2: array<int>, pat: seq<Byte>)
    requires |pat| > 0 && delta2.Length == |pat|
    modifies delta2
    ensures delta2[..] == Table2(pat)
  {
    FillPrefixes(delta2, pat);
    FillRealigns(delta2, pat);
    TableComplete(delta2[..], pat);
  }

  lemma TableComplete(table: seq<int>, pat: seq<Byte>)
    requires IsTable(table, pat, 1)
    ensures table == Table2(pat)
  {
  }

  /** The second loop of bm_make_delta2. */
  method FillRealigns(delta2: array<int>, pat: seq<Byte>)
    requires |pat| > 0 && IsTable(delta2[..], pat, |pat|)
    modifies delta2
    ensures IsTable(delta2[..], pat, 1)
  {
    ghost var t: nat := |pat|;
    var e := 0;
    while e < |pat| - 1
      invariant 0 <= e <= |pat| - 1 && t == |pat| - e
      invariant IsTable(delta2[..], pat, t)
    {
      ghost var table := delta2[..];
      var sufLen := FillRealign(delta2, pat, e);
      EndDecides(table, pat, e, t, sufLen);
      t := t - 1;
      e := e + 1;
    }
  }

  /** One round of that loop. */
  method FillRealign(delta2: array<int>, pat: seq<Byte>, e: nat) returns (sufLen: nat)
    requires delta2.Length == |pat| && e < |pat| - 1
    modifies delta2
    ensures LongestSuffix(pat, e, sufLen) && delta2[..] == TableAfter(old(delta2[..]), pat, e, sufLen)
  {
    sufLen := MaxSuffixLen(pat, e);
    if pat[e - sufLen] != pat[|pat| - 1 - sufLen] {
      delta2[|pat| - 1 - sufLen] := |pat| - 1 - e + sufLen;
    }
  }

  /** The table after the round of the second loop for end e, whose suffix length is n. */
  function TableAfter(table: seq<int>, pat: seq<Byte>, e: nat, n: nat): seq<int>
    requires |table| == |pat| && n <= e < |pat| - 1
  {
    if pat[e - n] != pat[|pat| - 1 - n] then table[|pat| - 1 - n := |pat| - 1 - e + n] else table
  }

  lemma EndDecidesEntry(pat: seq<Byte>, e: nat, t: nat, n: nat, k: nat)
    requires e < |pat| - 1 && t == |pat| - e && LongestSuffix(pat, e, n) && k < |pat|
    ensures ShiftFrom(pat, k, t - 1)
            == if k == |pat| - 1 - n && pat[e - n] != pat[|pat| - 1 - n] then t - 1 else ShiftFrom(pat, k, t)
  {
    RealignsAtEnd(pat, e, n, k);
  }

  lemma EndDecides(table: seq<int>, pat: seq<Byte>, e: nat, t: nat, n: nat)
    requires e < |pat| - 1 && t == |pat| - e && LongestSuffix(pat, e, n)
    requires IsTable(table, pat, t)
    ensures IsTable(TableAfter(table, pat, e, n), pat, t - 1)
  {
    var next := TableAfter(table, pat, e, n);
    forall k | 0 <= k < |pat|
      ensures next[k] == ShiftFrom(pat, k, t - 1) + (|pat| - 1 - k)
    {
      EndDecidesEntry(pat, e, t, n, k);
    }
  }

  /** The first loop of bm_make_delta2. */
  method FillPrefixes(delta2: array<int>, pat: seq<Byte>)
    requires |pat| > 0 && delta2.Length == |pat|
    modifies delta2
    ensures IsTable(delta2[..], pat, |pat|)
  {
    var m := |pat|;
    var lastPrefix := m - 1;
    var p := m - 1;
    while p >= 0
      invariant -1 <= p < m
      invariant lastPrefix == LastPrefix(pat, p + 1)
      invariant forall k :: p < k < m ==> delta2[k] == LastPrefix(pat, k) + (m - 1 - k)
    {
      var equal := StrnCmpEqual(pat, p);
      if equal {
        lastPrefix := p + 1;
      }
      delta2[p] := lastPrefix + (m - 1 - p);
      p := p - 1;
    }
  }

  // ----- The scan -----

  /** The rightmost position at or below j where the window at s disagrees with the pattern, or -1. */
  function Mismatch(text: seq<Byte>, pat: seq<Byte>, s: nat, j: int): (r: int)
    requires s + |pat| <= |text| && -1 <= j < |pat|
    ensures -1 <= r <= j
    ensures r >= 0 ==> text[s + r] != pat[r]
    decreases j + 1
  {
    if j < 0 || text[s + j] != pat[j] then j else Mismatch(text, pat, s, j - 1)
  }

  lemma ExtendMatch(a: seq<Byte>, b: seq<Byte>, from: nat, to: nat)
    requires from <= to < |a| && to < |b|
    requires a[from..to] == b[from..to] && a[to] == b[to]
    ensures a[from..to + 1] == b[from..to + 1]
  {
    assert a[from..to + 1] == a[from..to] + [a[to]];
    assert b[from..to + 1] == b[from..to] + [b[to]];
  }

  lemma {:induction false} MatchedSuffix(text: seq<Byte>, pat: seq<Byte>, s: nat, j: int)
    requires s + |pat| <= |text| && -1 <= j < |pat|
    ensures var r := Mismatch(text, pat, s, j); Window(text, pat, s)[r + 1..j + 1] == pat[r + 1..j + 1]
    decreases j + 1
  {
    if j >= 0 && text[s + j] == pat[j] {
      MatchedSuffix(text, pat, s, j - 1);
      ExtendMatch(Window(text, pat, s), pat, Mismatch(text, pat, s, j - 1) + 1, j);
    }
  }

  function Max(a: int, b: int): int {
    if a > b then a else b
  }

  function Window(text: seq<Byte>, pat: seq<Byte>, s: nat): seq<Byte>
    requires s + |pat| <= |text|
  {
    text[s..s + |pat|]
  }

  /** The position of the mismatch the window at s is given up for, or -1. */
  function MismatchAt(text: seq<Byte>, pat: seq<Byte>, s: nat): (r: int)
    requires |pat| > 0 && s + |pat| <= |text|
    ensures -1 <= r < |pat|
  {
    Mismatch(text, pat, s, |pat| - 1)
  }

  lemma SameTails(a: seq<Byte>, b: seq<Byte>, n: nat)
    requires |a| == |b| && n <= |a| && a[n..|a|] == b[n..|b|]
    ensures a[n..] == b[n..]
    ensures n == 0 ==> a == b
  {
  }

  /** It is the last position that disagrees, and there is none exactly when the pattern occurs at s. */
  lemma MismatchMeaning(text: seq<Byte>, pat: seq<Byte>, s: nat)
    requires |pat| > 0 && s + |pat| <= |text|
    ensures var r := MismatchAt(text, pat, s);
            if r < 0 then OccursAt(text, pat, s)
            else !OccursAt(text, pat, s) && text[s + r] != pat[r]
                 && Window(text, pat, s)[r + 1..] == pat[r + 1..]
  {
    var r := MismatchAt(text, pat, s);
    MatchedSuffix(text, pat, s, |pat| - 1);
    SameTails(Window(text, pat, s), pat, r + 1);
    if r >= 0 {
      assert Window(text, pat, s)[r] == text[s + r];
    }
  }

  /** Table sizes and entries with which every window shift lies between 1 and the pattern length. */
  predicate UsableTables(pat: seq<Byte>, d1: seq<int>, d2: seq<int>) {
    && 0 < |pat| == |d2| && |d1| == ALPHABET_LEN
    && (forall c :: 0 <= c < ALPHABET_LEN ==> d1[c] <= |pat|)
    && (forall p :: 0 <= p < |pat| ==> |pat| - 1 - p < d2[p] <= 2 * |pat| - 1 - p)
  }

  lemma TablesUsable(pat: seq<Byte>)
    requires |pat| > 0
    ensures UsableTables(pat, Table1(pat), Table2(pat))
  {
    forall p | 0 <= p < |pat|
      ensures 1 <= ShiftFrom(pat, p, 1) <= |pat|
    {
      if p == 0 {
        WholeComparesEqual(pat);
      }
    }
  }

  lemma WholeComparesEqual(pat: seq<Byte>)
    ensures ComparesEqual(pat, 0)
  {
    assert pat[0..] == pat[..|pat| - 0];
  }

  /** The window after the mismatched window s. */
  function NextWindow(text: seq<Byte>, pat: seq<Byte>, d1: seq<int>, d2: seq<int>, s: nat): (r: nat)
    requires UsableTables(pat, d1, d2) && s + |pat| <= |text| && MismatchAt(text, pat, s) >= 0
    ensures s < r <= s + |pat|
  {
    var j := MismatchAt(text, pat, s);
    s + j + Max(d1[text[s + j] as int], d2[j]) - (|pat| - 1)
  }

  /** The result of the scan with the given tables from window s on. */
  function Scan(text: seq<Byte>, pat: seq<Byte>, d1: seq<int>, d2: seq<int>, s: nat): Option<nat>
    requires UsableTables(pat, d1, d2)
    decreases |text| - s
  {
    if s + |pat| > |text| then None
    else if MismatchAt(text, pat, s) < 0 then Some(s)
    else Scan(text, pat, d1, d2, NextWindow(text, pat, d1, d2, s))
  }

  function BmSearch(text: seq<Byte>, pat: seq<Byte>): Option<nat>
    requires |pat| > 0
  {
    TablesUsable(pat);
    Scan(text, pat, Table1(pat), Table2(pat), 0)
  }

  /** bm_search: both tables, then the scan. */
  method Search(text: seq<Byte>, pat: seq<Byte>) returns (r: Option<nat>)
    requires |pat| > 0
    ensures r == BmSearch(text, pat)
  {
    var delta1 := new int[ALPHABET_LEN];
    var delta2 := new int[|pat|];
    MakeDelta1(delta1, pat);
    MakeDelta2(delta2, pat);
    TablesUsable(pat);
    r := ScanText(text, pat, delta1, delta2);
  }

  /** One round of the scan. */
  lemma ScanRound(text: seq<Byte>, pat: seq<Byte>, d1: seq<int>, d2: seq<int>, s: nat)
    requires UsableTables(pat, d1, d2) && s + |pat| <= |text|
    ensures var j := MismatchAt(text, pat, s);
            if j < 0 then Scan(text, pat, d1, d2, s) == Some(s)
            else
              var next := NextWindow(text, pat, d1, d2, s);
              next == s + j + Max(d1[text[s + j] as int], d2[j]) - (|pat| - 1)
              && Scan(text, pat, d1, d2, s) == Scan(text, pat, d1, d2, next)
  {
  }

  /** The inner loop of bm_search: compare the window that ends at start from right to left. */
  method CompareBack(text: seq<Byte>, pat: seq<Byte>, start: nat) returns (i: int, j: int)
    requires 0 < |pat| <= start + 1 <= |text|
    ensures j == MismatchAt(text, pat, start + 1 - |pat|) && i == start + 1 - |pat| + j
  {
    ghost var s := start + 1 - |pat|;
    i, j := start, |pat| - 1;
    while j >= 0 && text[i] == pat[j]
      invariant -1 <= j < |pat| && i == s + j
      invariant MismatchAt(text, pat, s) == Mismatch(text, pat, s, j)
      decreases j + 1
    {
      i := i - 1;
      j := j - 1;
    }
  }

  /**
   * The outer loop of bm_search.  Every table and text access is in bounds, i
   * stays below |text| + |pat|, and the window start grows with every round.
   */
  method ScanText(text: seq<Byte>, pat: seq<Byte>, delta1: array<int>, delta2: array<int>) returns (r: Option<nat>)
    requires UsableTables(pat, delta1[..], delta2[..])
    ensures r == Scan(text, pat, delta1[..], delta2[..], 0)
  {
    ghost var d1, d2, s := delta1[..], delta2[..], 0;
    var i := |pat| - 1;
    while i < |text|
      invariant i == s + |pat| - 1 && i < |text| + |pat|
      invariant Scan(text, pat, d1, d2, 0) == Scan(text, pat, d1, d2, s)
      decreases |text| + |pat| - i
    {
      var j;
      i, j := CompareBack(text, pat, i);
      ScanRound(text, pat, d1, d2, s);
      if j < 0 {
        return Some(i + 1);
      }
      i := i + Max(delta1[text[i] as int], delta2[j]);
      s := NextWindow(text, pat, d1, d2, s);
    }
    return None;
  }

  // ----- Soundness, for every non-empty pattern -----

  lemma {:induction false} ScanSound(text: seq<Byte>, pat: seq<Byte>, d1: seq<int>, d2: seq<int>, s: nat)
    requires UsableTables(pat, d1, d2)
    ensures var r := Scan(text, pat, d1, d2, s); r.Some? ==> s <= r.value && OccursAt(text, pat, r.value)
    decreases |text| - s
  {
    if s + |pat| > |text| {
    } else {
      MismatchMeaning(text, pat, s);
      if MismatchAt(text, pat, s) >= 0 {
        ScanSound(text, pat, d1, d2, NextWindow(text, pat, d1, d2, s));
      }
    }
  }

  /** A reported position is a true occurrence, and the reported one is never before the leftmost. */
  lemma SearchSound(text: seq<Byte>, pat: seq<Byte>)
    requires |pat| > 0 && BmSearch(text, pat).Some?
    ensures OccursAt(text, pat, BmSearch(text, pat).value)
    ensures var first := FirstOccurrence(text, pat, 0); first.Some? && first.value <= BmSearch(text, pat).value
  {
    TablesUsable(pat);
    ScanSound(text, pat, Table1(pat), Table2(pat), 0);
    FirstOccurrenceIsLeftmost(text, pat, 0);
  }

  // ----- When the search is complete -----

  /** pat[q..] is both a proper suffix and a prefix of the pattern. */
  predicate Border(pat: seq<Byte>, q: nat) {
    1 <= q < |pat| && pat[q..] == pat[..|pat| - q]
  }

  /**
   * The good-suffix entry for a mismatch at p skips the alignment b: b is the
   * first border the table sees from p on, p itself is none, and no earlier
   * copy of the matched suffix overrides the entry.
   */
  ghost predicate OvershiftsAt(pat: seq<Byte>, p: nat, b: nat) {
    && 1 <= p < b < |pat|
    && Border(pat, b)
    && (forall t :: 1 <= t ==> !Realigns(pat, p, t))
    && (forall q :: p <= q < b ==> !ComparesEqual(pat, q))
  }

  ghost predicate Overshifts(pat: seq<Byte>) {
    exists p: nat, b: nat :: OvershiftsAt(pat, p, b)
  }

  /** A border compares equal under strncmp; without NUL bytes the two notions agree. */
  lemma BorderComparesEqual(pat: seq<Byte>, q: nat)
    requires 1 <= q < |pat|
    ensures Border(pat, q) ==> ComparesEqual(pat, q)
    ensures '\0' !in pat ==> (Border(pat, q) <==> ComparesEqual(pat, q))
  {
    if '\0' !in pat {
      NulFreeCString(pat[q..]);
      NulFreeCString(pat[..|pat| - q]);
    }
  }

  /** The bad-character shift skips no occurrence. */
  lemma BadCharacterSafe(text: seq<Byte>, pat: seq<Byte>, s: nat, p: nat, t: nat)
    requires p < |pat| && s + |pat| <= |text| && 1 <= t
    requires OccursAt(text, pat, s + t)
    ensures Delta1(pat, text[s + p]) - (|pat| - 1 - p) <= t
  {
  }

  /** Any occurrence that overlaps a window mismatched at p re-aligns the pattern or makes a border. */
  lemma OverlapShape(text: seq<Byte>, pat: seq<Byte>, s: nat, p: nat, t: nat)
    requires p < |pat| && s + |pat| <= |text| && 1 <= t < |pat|
    requires text[s + p] != pat[p] && Window(text, pat, s)[p + 1..] == pat[p + 1..]
    requires OccursAt(text, pat, s + t)
    ensures t <= p ==> Realigns(pat, p, t)
    ensures p < t ==> Border(pat, t)
  {
    var m, window := |pat|, Window(text, pat, s);
    assert window[t..] == pat[..m - t] by {
      assert window[t..] == text[s + t..s + m] == text[s + t..s + t + m][..m - t];
    }
    if t <= p {
      assert window[p] == window[t..][p - t] == pat[..m - t][p - t];
      assert window[p + 1..] == window[t..][p + 1 - t..] == pat[p + 1 - t..m - t];
    } else {
      assert pat[t..] == pat[p + 1..][t - p - 1..] == window[p + 1..][t - p - 1..] == window[t..];
    }
  }

  /** The stored shift skips an overlapping alignment t only if the pattern overshifts. */
  lemma GoodSuffixSafe(pat: seq<Byte>, p: nat, t: nat)
    requires p < |pat| && 1 <= t < |pat|
    requires !Overshifts(pat)
    requires if t <= p then Realigns(pat, p, t) else Border(pat, t)
    ensures ShiftFrom(pat, p, 1) <= t
  {
    LeastRealignIsLeast(pat, p, 1);
    if p == 0 {
      WholeComparesEqual(pat);
    } else if LeastRealign(pat, p, 1) == 0 {
      var b := LeastBorder(pat, p, t);
      assert !OvershiftsAt(pat, p, b);
      var q :| p <= q < b && ComparesEqual(pat, q);
      LastPrefixAtMost(pat, p, q);
    }
  }

  /** The first border after p, no later than the border t. */
  lemma LeastBorder(pat: seq<Byte>, p: nat, t: nat) returns (b: nat)
    requires p < t && Border(pat, t)
    ensures p < b <= t && Border(pat, b) && forall q :: p < q < b ==> !Border(pat, q)
  {
    b := p + 1;
    while !Border(pat, b)
      invariant p < b <= t
      invariant forall q :: p < q < b ==> !Border(pat, q)
      decreases t - b
    {
      b := b + 1;
    }
  }

  /** No occurrence lies between a mismatched window and the window the tables move on to. */
  ghost predicate SkipsNothing(pat: seq<Byte>, d1: seq<int>, d2: seq<int>)
    requires UsableTables(pat, d1, d2)
  {
    forall text: seq<Byte>, s: nat, k: nat ::
      s + |pat| <= |text| && MismatchAt(text, pat, s) >= 0 && s <= k && OccursAt(text, pat, k)
      ==> NextWindow(text, pat, d1, d2, s) <= k
  }

  lemma ShiftSkipsNothing(text: seq<Byte>, pat: seq<Byte>, s: nat, k: nat)
    requires |pat| > 0 && !Overshifts(pat) && UsableTables(pat, Table1(pat), Table2(pat))
    requires s + |pat| <= |text| && MismatchAt(text, pat, s) >= 0
    requires s <= k && OccursAt(text, pat, k)
    ensures NextWindow(text, pat, Table1(pat), Table2(pat), s) <= k
  {
    var t, j := k - s, MismatchAt(text, pat, s);
    MismatchMeaning(text, pat, s);
    if 0 < t < |pat| {
      BadCharacterSafe(text, pat, s, j, t);
      OverlapShape(text, pat, s, j, t);
      GoodSuffixSafe(pat, j, t);
    }
  }

  lemma TablesSkipNothing(pat: seq<Byte>)
    requires |pat| > 0 && !Overshifts(pat) && UsableTables(pat, Table1(pat), Table2(pat))
    ensures SkipsNothing(pat, Table1(pat), Table2(pat))
  {
    forall text: seq<Byte>, s: nat, k: nat
      | s + |pat| <= |text| && MismatchAt(text, pat, s) >= 0 && s <= k && OccursAt(text, pat, k)
      ensures NextWindow(text, pat, Table1(pat), Table2(pat), s) <= k
    {
      ShiftSkipsNothing(text, pat, s, k);
    }
  }

  /** With tables that skip nothing the scan is the naive search. */
  lemma {:induction false} ScanComplete(text: seq<Byte>, pat: seq<Byte>, d1: seq<int>, d2: seq<int>, s: nat)
    requires UsableTables(pat, d1, d2) && SkipsNothing(pat, d1, d2)
    ensures Scan(text, pat, d1, d2, s) == FirstOccurrence(text, pat, s)
    decreases |text| - s
  {
    if s + |pat| > |text| {
    } else {
      MismatchMeaning(text, pat, s);
      if MismatchAt(text, pat, s) >= 0 {
        var next := NextWindow(text, pat, d1, d2, s);
        ScanComplete(text, pat, d1, d2, next);
        SkipWithout(text, pat, s, next);
      }
    }
  }

  /** The naive search may start later when nothing occurs in between. */
  lemma {:induction false} SkipWithout(text: seq<Byte>, pat: seq<Byte>, s: nat, next: nat)
    requires |pat| > 0 && s <= next
    requires forall k: nat :: s <= k < next ==> !OccursAt(text, pat, k)
    ensures FirstOccurrence(text, pat, s) == FirstOccurrence(text, pat, next)
    decreases next - s
  {
    if s == next {
    } else {
      SkipWithout(text, pat, s + 1, next);
    }
  }

  /** A text on which an overshifting pattern, though present, is not found. */
  function MissedText(pat: seq<Byte>, p: nat, b: nat): seq<Byte>
    requires p < b < |pat|
  {
    var other: Byte := if pat[p] == 'a' then 'b' else 'a';
    pat[..p] + [other] + pat[p + 1..b] + pat
  }

  /** The last disagreeing position is the one Mismatch finds. */
  lemma {:induction false} MismatchFinds(text: seq<Byte>, pat: seq<Byte>, p: nat, j: nat)
    requires |pat| <= |text| && p <= j < |pat|
    requires text[p] != pat[p] && text[p + 1..j + 1] == pat[p + 1..j + 1]
    ensures Mismatch(text, pat, 0, j) == p
  {
    if p == j {
    } else {
      assert text[p + 1..j + 1][j - p - 1] == pat[p + 1..j + 1][j - p - 1];
      assert text[p + 1..j] == text[p + 1..j + 1][..j - p - 1];
      assert pat[p + 1..j] == pat[p + 1..j + 1][..j - p - 1];
      MismatchFinds(text, pat, p, j - 1);
    }
  }

  lemma MissedTextMismatch(pat: seq<Byte>, p: nat, b: nat)
    requires p < b && Border(pat, b)
    ensures MismatchAt(MissedText(pat, p, b), pat, 0) == p
  {
    var m, text := |pat|, MissedText(pat, p, b);
    assert text[p + 1..m] == pat[p + 1..b] + pat[..m - b];
    assert pat[p + 1..m] == pat[p + 1..b] + pat[b..];
    MismatchFinds(text, pat, p, m - 1);
  }

  /** The entry that overshifts. */
  lemma OvershiftEntry(pat: seq<Byte>, p: nat, b: nat)
    requires OvershiftsAt(pat, p, b)
    ensures Table2(pat)[p] == b + |pat| - p
  {
    BorderComparesEqual(pat, b);
    LastPrefixAtMost(pat, p, b);
    LeastRealignIsLeast(pat, p, 1);
  }

  lemma ScanRunsOff(text: seq<Byte>, pat: seq<Byte>, d1: seq<int>, d2: seq<int>, b: nat)
    requires UsableTables(pat, d1, d2) && |text| == b + |pat|
    requires var p := MismatchAt(text, pat, 0); p >= 0 && d2[p] == b + |pat| - p
    ensures Scan(text, pat, d1, d2, 0) == None
  {
  }

  /** An overshifting pattern has a text that contains it and on which the search returns nothing. */
  lemma OvershiftMisses(pat: seq<Byte>, p: nat, b: nat)
    requires OvershiftsAt(pat, p, b)
    ensures OccursAt(MissedText(pat, p, b), pat, b)
    ensures BmSearch(MissedText(pat, p, b), pat) == None
  {
    var text := MissedText(pat, p, b);
    assert text[b..b + |pat|] == pat;
    MissedTextMismatch(pat, p, b);
    OvershiftEntry(pat, p, b);
    TablesUsable(pat);
    ScanRunsOff(text, pat, Table1(pat), Table2(pat), b);
  }

  /**
   * The search agrees with the naive leftmost search on every text exactly
   * when its pattern does not overshift.
   */
  lemma SearchExactIffNoOvershift(pat: seq<Byte>)
    requires |pat| > 0
    ensures (forall text: seq<Byte> :: BmSearch(text, pat) == FirstOccurrence(text, pat, 0))
            <==> !Overshifts(pat)
  {
    if Overshifts(pat) {
      var p: nat, b: nat :| OvershiftsAt(pat, p, b);
      OvershiftMisses(pat, p, b);
      FirstOccurrenceIsLeftmost(MissedText(pat, p, b), pat, 0);
    } else {
      forall text: seq<Byte>
        ensures BmSearch(text, pat) == FirstOccurrence(text, pat, 0)
      {
        TablesUsable(pat);
        TablesSkipNothing(pat);
        ScanComplete(text, pat, Table1(pat), Table2(pat), 0);
      }
    }
  }

  // ----- NUL-free patterns: the condition in plain terms -----

  predicate Bordered(pat: seq<Byte>) {
    exists q: nat :: q < |pat| && Border(pat, q)
  }

  predicate Constant(pat: seq<Byte>) {
    forall k :: 0 <= k < |pat| ==> pat[k] == pat[0]
  }

  lemma {:induction false} UnitBorderIsConstant(pat: seq<Byte>, k: nat)
    requires k < |pat| && Border(pat, 1)
    ensures pat[k] == pat[0]
  {
    if k == 0 {
    } else {
      UnitBorderIsConstant(pat, k - 1);
      SameAt(pat, 1, 0, |pat| - 1, k - 1);
    }
  }

  lemma ConstantComparesEqual(pat: seq<Byte>, q: nat)
    requires Constant(pat) && q <= |pat|
    ensures ComparesEqual(pat, q)
  {
    assert pat[q..] == pat[..|pat| - q];
  }

  lemma ConstantNeverOvershifts(pat: seq<Byte>)
    requires Constant(pat)
    ensures !Overshifts(pat)
  {
    forall p: nat, b: nat
      ensures !OvershiftsAt(pat, p, b)
    {
      if p < |pat| {
        ConstantComparesEqual(pat, p);
      }
    }
  }

  /** If pat[2..] also stands one place earlier, everything after the first byte is one byte repeated. */
  lemma {:induction false} TailConstant(pat: seq<Byte>, k: nat)
    requires Realigns(pat, 1, 1) && 1 <= k < |pat|
    ensures pat[k] == pat[1]
  {
    if k == 1 {
    } else {
      TailConstant(pat, k - 1);
      SameAt(pat, 1, 2, |pat| - 2, k - 2);
    }
  }

  /** Then the first byte occurs nowhere else, so there is no border. */
  lemma NoRealignAtOne(pat: seq<Byte>, b: nat)
    requires Border(pat, b)
    ensures forall t :: 1 <= t ==> !Realigns(pat, 1, t)
  {
    SameAt(pat, b, 0, |pat| - b, 0);
    if Realigns(pat, 1, 1) {
      TailConstant(pat, b);
    }
  }

  lemma BorderedOvershifts(pat: seq<Byte>, q: nat)
    requires '\0' !in pat && Border(pat, q) && !Constant(pat)
    ensures Overshifts(pat)
  {
    if Border(pat, 1) {
      forall k | 0 <= k < |pat|
        ensures pat[k] == pat[0]
      {
        UnitBorderIsConstant(pat, k);
      }
    } else {
      var b := LeastBorder(pat, 1, q);
      NoRealignAtOne(pat, b);
      forall k | 1 <= k < b
        ensures !ComparesEqual(pat, k)
      {
        BorderComparesEqual(pat, k);
      }
      assert OvershiftsAt(pat, 1, b);
    }
  }

  /**
   * For a NUL-free pattern the search is exact on every text if and only if
   * the pattern has no proper border or repeats a single byte.
   */
  lemma SearchExactIffUnborderedOrConstant(pat: seq<Byte>)
    requires |pat| > 0 && '\0' !in pat
    ensures (forall text: seq<Byte> :: BmSearch(text, pat) == FirstOccurrence(text, pat, 0))
            <==> !Bordered(pat) || Constant(pat)
  {
    SearchExactIffNoOvershift(pat);
    if Constant(pat) {
      ConstantNeverOvershifts(pat);
    } else if Bordered(pat) {
      var q: nat :| q < |pat| && Border(pat, q);
      BorderedOvershifts(pat, q);
    }
  }

  /** For an unbordered pattern every entry past the first is the least realigning shift, or |pat| - 1. */
  lemma UnborderedTable(pat: seq<Byte>, p: nat)
    requires '\0' !in pat && !Bordered(pat) && 1 <= p < |pat|
    ensures var shift := Delta2(pat, p) - (|pat| - 1 - p);
            if exists t :: Realigns(pat, p, t)
            then Realigns(pat, p, shift) && forall t :: Realigns(pat, p, t) ==> shift <= t
            else shift == |pat| - 1
  {
    LeastRealignIsLeast(pat, p, 1);
    LastPrefixFinds(pat, p);
    if LeastRealign(pat, p, 1) == 0 {
      var r := LastPrefix(pat, p);
      if r != |pat| - 1 {
        BorderComparesEqual(pat, r - 1);
      }
    }
  }

  // ----- The pattern the updater searches for -----

  const BASEBAND_VER_STR_START: seq<Byte> := "QC_IMAGE_VERSION_STRING=MPSS.TA."

  /** The version marker of the baseband image is always found at its first occurrence. */
  lemma BasebandSearchExact(text: seq<Byte>)
    ensures BmSearch(text, BASEBAND_VER_STR_START) == FirstOccurrence(text, BASEBAND_VER_STR_START, 0)
  {
    var pat := BASEBAND_VER_STR_START;
    assert |pat| == 32;
    forall q: nat | q < |pat|
      ensures !Border(pat, q)
    {
      if Border(pat, q) {
        SameAt(pat, q, 0, |pat| - q, 0);
      }
    }
    SearchExactIffUnborderedOrConstant(pat);
  }

  /** A bordered pattern of more than one byte value occurs in some text in which the search finds nothing. */
  lemma BorderedIsMissed(pat: seq<Byte>, q: nat)
    requires '\0' !in pat && Border(pat, q) && !Constant(pat)
    ensures exists text: seq<Byte>, k: nat :: OccursAt(text, pat, k) && BmSearch(text, pat) == None
  {
    BorderedOvershifts(pat, q);
    var p: nat, b: nat :| OvershiftsAt(pat, p, b);
    OvershiftMisses(pat, p, b);
  }

  const ABCA: seq<Byte> := "abca"

  lemma AbcaIsMissed()
    ensures exists text: seq<Byte>, k: nat :: OccursAt(text, ABCA, k) && BmSearch(text, ABCA) == None
  {
    assert ABCA[3..] == ABCA[..1];
    assert ABCA[1] != ABCA[0];
    BorderedIsMissed(ABCA, 3);
  }
}
