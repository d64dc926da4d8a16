/** The Boyer-Moore search of the recovery updater: its two shift tables, filled in place,
    and its right-to-left scan.  The scan is proved to return the first occurrence for every
    text exactly when the pattern is `Safe`. */
module BoyerMoore {
  import opened Common

  newtype Byte = x: int | 0 <= x < 256

  const ALPHABET_LEN: nat := 256

  function Max(a: int, b: int): int {
    if a > b then a else b
  }

  // ---------------------------------------------------------------- what is searched for

  ghost predicate OccursAt(text: seq<Byte>, pat: seq<Byte>, s: int) {
    && 0 <= s <= |text| - |pat|
    && forall k :: 0 <= k < |pat| ==> pat[k] == text[s + k]
  }

  /** `r` is the lowest index at which `pat` occurs, or None when there is none. */
  ghost predicate IsFirstOccurrence(text: seq<Byte>, pat: seq<Byte>, r: Option<int>) {
    match r
    case None => forall s :: !OccursAt(text, pat, s)
    case Some(s) => OccursAt(text, pat, s) && forall t :: t < s ==> !OccursAt(text, pat, t)
  }

  // ---------------------------------------------------------------- pattern combinatorics

  /** The proper suffix starting at `q` is also a prefix. */
  ghost predicate BorderStart(pat: seq<Byte>, q: int) {
    0 < q < |pat| && forall k :: 0 <= k < |pat| - q ==> pat[k] == pat[q + k]
  }

  /** strncmp(a, b, |a|) == 0: bytes agree up to the length or up to a NUL in both. */
  predicate StrncmpEq(a: seq<Byte>, b: seq<Byte>)
    requires |a| <= |b|
  {
    |a| == 0 || (a[0] == b[0] && (a[0] == 0 || StrncmpEq(a[1..], b[1..])))
  }

  /** The `l` bytes ending at `p` are the last `l` bytes of `pat`. */
  predicate SuffixEndsAt(pat: seq<Byte>, p: nat, l: nat)
    requires l <= p + 1 && p < |pat|
  {
    forall k :: p - l < k <= p ==> pat[k] == pat[k + (|pat| - 1 - p)]
  }

  /** The suffix after `j` occurs again, ending at `p`, after a byte other than `pat[j]`. */
  predicate ReoccursAt(pat: seq<Byte>, j: int, p: int) {
    && 0 <= j < |pat|
    && |pat| - 1 - j <= p < |pat| - 1
    && pat[p - (|pat| - 1 - j)] != pat[j]
    && SuffixEndsAt(pat, p, |pat| - 1 - j)
  }

  /** Whenever a border starts at `q` after the mismatch position `j` and the prefix test
      succeeds nowhere from `j` up to `q`, the suffix after `j` occurs again. */
  ghost predicate Safe(pat: seq<Byte>) {
    forall j, q :: 0 <= j < q && BorderStart(pat, q) && NoPrefixTest(pat, j, q)
      ==> exists p :: ReoccursAt(pat, j, p)
  }

  ghost predicate NoPrefixTest(pat: seq<Byte>, j: nat, q: nat)
    requires q <= |pat|
  {
    forall k :: j <= k < q ==> !StrncmpEq(pat[k..], pat)
  }

  lemma {:induction false} StrncmpEqOfEqual(a: seq<Byte>, b: seq<Byte>)
    requires |a| <= |b|
    requires forall k :: 0 <= k < |a| ==> a[k] == b[k]
    ensures StrncmpEq(a, b)
  {
    if |a| > 0 && a[0] != 0 {
      StrncmpEqOfEqual(a[1..], b[1..]);
    }
  }

  /** It succeeds exactly if the strings agree up to the end of the first, or up to a NUL in both. */
  lemma {:induction false} StrncmpEqIff(a: seq<Byte>, b: seq<Byte>)
    requires |a| <= |b|
    ensures StrncmpEq(a, b) <==>
            exists n :: 0 <= n <= |a| && a[..n] == b[..n] && (n == |a| || (a[n] == 0 && b[n] == 0))
  {
    if |a| == 0 {
      assert a[..0] == b[..0];
    } else if a[0] == b[0] == 0 {
      assert a[..0] == b[..0];
    } else {
      StrncmpEqIff(a[1..], b[1..]);
      if StrncmpEq(a, b) {
        var n :| 0 <= n <= |a| - 1 && a[1..][..n] == b[1..][..n]
          && (n == |a| - 1 || (a[1..][n] == 0 && b[1..][n] == 0));
        assert a[..n + 1] == [a[0]] + a[1..][..n] && b[..n + 1] == [b[0]] + b[1..][..n];
      }
      if n :| 0 <= n <= |a| && a[..n] == b[..n] && (n == |a| || (a[n] == 0 && b[n] == 0)) {
        if n > 0 {
          assert a[..n][0] == b[..n][0];
          assert a[1..][..n - 1] == a[..n][1..] && b[1..][..n - 1] == b[..n][1..];
        }
      }
    }
  }

  lemma {:induction false} StrncmpEqNulFree(a: seq<Byte>, b: seq<Byte>)
    requires |a| <= |b| && 0 !in a
    requires StrncmpEq(a, b)
    ensures forall k :: 0 <= k < |a| ==> a[k] == b[k]
  {
    if |a| > 0 {
      StrncmpEqNulFree(a[1..], b[1..]);
      forall k | 0 <= k < |a| ensures a[k] == b[k] {
        if k > 0 { assert a[1..][k - 1] == b[1..][k - 1]; }
      }
    }
  }

  // ---------------------------------------------------------------- the two tables

  /** Distance of the rightmost `c` in `pat[..n]` from the last byte; the pattern length if absent. */
  function Delta1(pat: seq<Byte>, c: Byte, n: nat): (d: int)
    requires n < |pat|
  {
    if n == 0 then |pat| else if pat[n - 1] == c then |pat| - n else Delta1(pat, c, n - 1)
  }

  function LastPrefix(pat: seq<Byte>, j: nat): (r: int)
    requires j <= |pat|
    decreases |pat| - j
  {
    if j == |pat| then |pat| - 1
    else if StrncmpEq(pat[j..], pat) then j + 1
    else LastPrefix(pat, j + 1)
  }

  /** The largest `p` below `n` at which the suffix after `j` reoccurs; -1 if there is none. */
  function Rightmost(pat: seq<Byte>, j: nat, n: nat): int {
    if n == 0 then -1
    else if ReoccursAt(pat, j, n - 1) then n - 1
    else Rightmost(pat, j, n - 1)
  }

  lemma {:induction false} RightmostIsLargest(pat: seq<Byte>, j: nat, n: nat)
    ensures var p := Rightmost(pat, j, n);
            && -1 <= p < n
            && (p >= 0 ==> ReoccursAt(pat, j, p))
            && forall k :: p < k < n ==> !ReoccursAt(pat, j, k)
  {
    if n > 0 && !ReoccursAt(pat, j, n - 1) { RightmostIsLargest(pat, j, n - 1); }
  }

  /** The alignment shift after a mismatch at `j`, counting reoccurrences ending before `n`. */
  function AdvanceUpto(pat: seq<Byte>, j: nat, n: nat): int
    requires j < |pat|
  {
    var p := Rightmost(pat, j, n);
    if p >= 0 then |pat| - 1 - p else LastPrefix(pat, j)
  }

  /** By how much the pattern is moved forward after a mismatch at `j`. */
  function Advance(pat: seq<Byte>, j: nat): int
    requires j < |pat|
  {
    AdvanceUpto(pat, j, |pat| - 1)
  }

  function Delta2(pat: seq<Byte>, j: nat): int
    requires j < |pat|
  {
    Advance(pat, j) + (|pat| - 1 - j)
  }

  lemma {:induction false} LastPrefixBounds(pat: seq<Byte>, j: nat)
    requires j < |pat|
    ensures 1 <= LastPrefix(pat, j) <= |pat|
    ensures forall k :: j <= k < |pat| && StrncmpEq(pat[k..], pat) ==> LastPrefix(pat, j) <= k + 1
    decreases |pat| - j
  {
    if j == 0 { StrncmpEqOfEqual(pat[0..], pat); }
    if !StrncmpEq(pat[j..], pat) && j + 1 < |pat| { LastPrefixBounds(pat, j + 1); }
  }

  lemma {:induction false} LastPrefixSkips(pat: seq<Byte>, j: nat, q: nat)
    requires j <= q < |pat| && NoPrefixTest(pat, j, q) && StrncmpEq(pat[q..], pat)
    ensures LastPrefix(pat, j) == q + 1
    decreases q - j
  {
    if j < q { LastPrefixSkips(pat, j + 1, q); }
  }

  /** Both table entries make progress and no entry can leave twice the pattern length. */
  lemma AdvanceBounds(pat: seq<Byte>, j: nat)
    requires j < |pat|
    ensures 1 <= Advance(pat, j) <= |pat|
    ensures |pat| - 1 - j < Delta2(pat, j) <= 2 * |pat|
  {
    LastPrefixBounds(pat, j);
    RightmostIsLargest(pat, j, |pat| - 1);
  }

  /** `d` is the bad-character entry of `c`, over the pattern alone: it leads from the last place back to
      the last `c` before it, and is the whole length if there is none. */
  ghost predicate IsDelta1(pat: seq<Byte>, c: Byte, d: int) {
    var last := |pat| - 1;
    if exists k :: 0 <= k < last && pat[k] == c
    then 1 <= d <= last && pat[last - d] == c && forall k :: last - d < k < last ==> pat[k] != c
    else d == |pat|
  }

  lemma {:induction false} Delta1Exact(pat: seq<Byte>, c: Byte, n: nat)
    requires n < |pat|
    ensures (forall k :: 0 <= k < n ==> pat[k] != c) ==> Delta1(pat, c, n) == |pat|
    ensures (exists k :: 0 <= k < n && pat[k] == c) ==>
              var k := |pat| - 1 - Delta1(pat, c, n);
              0 <= k < n && pat[k] == c && forall i :: k < i < n ==> pat[i] != c
  {
    if n > 0 && pat[n - 1] != c { Delta1Exact(pat, c, n - 1); }
  }

  /** `r` is what the prefix test gives for `j`: one more than the first place from `j` on at which it
      succeeds, and one less than the length if there is none. */
  ghost predicate IsLastPrefix(pat: seq<Byte>, j: nat, r: int)
    requires j <= |pat|
  {
    if exists q :: j <= q < |pat| && StrncmpEq(pat[q..], pat)
    then j < r <= |pat| && StrncmpEq(pat[r - 1..], pat) && NoPrefixTest(pat, j, r - 1)
    else r == |pat| - 1
  }

  lemma {:induction false} LastPrefixExact(pat: seq<Byte>, j: nat)
    requires j <= |pat|
    ensures IsLastPrefix(pat, j, LastPrefix(pat, j))
    decreases |pat| - j
  {
    if j < |pat| && !StrncmpEq(pat[j..], pat) { LastPrefixExact(pat, j + 1); }
  }

  /** `a` is the good-suffix shift after a mismatch at `j`, over the pattern alone: from the last place to
      the end of the last reoccurrence of the suffix, and what the prefix test gives if there is none. */
  ghost predicate IsAdvance(pat: seq<Byte>, j: nat, a: int)
    requires j < |pat|
  {
    if exists p :: ReoccursAt(pat, j, p)
    then ReoccursAt(pat, j, |pat| - 1 - a) && forall p :: |pat| - 1 - a < p ==> !ReoccursAt(pat, j, p)
    else IsLastPrefix(pat, j, a)
  }

  lemma AdvanceExact(pat: seq<Byte>, j: nat)
    requires j < |pat|
    ensures IsAdvance(pat, j, Advance(pat, j))
  {
    RightmostIsLargest(pat, j, |pat| - 1);
    if p :| ReoccursAt(pat, j, p) {
      assert 0 <= p < |pat| - 1 && Rightmost(pat, j, |pat| - 1) >= p;
    } else {
      assert Rightmost(pat, j, |pat| - 1) < 0;
      LastPrefixExact(pat, j);
    }
  }

  lemma {:induction false} Delta1Bounds(pat: seq<Byte>, c: Byte, n: nat)
    requires n < |pat|
    ensures 1 <= Delta1(pat, c, n) <= |pat|
    ensures forall k :: 0 <= k < n && pat[k] == c ==> Delta1(pat, c, n) <= |pat| - 1 - k
  {
    if n > 0 && pat[n - 1] != c { Delta1Bounds(pat, c, n - 1); }
  }

  // ---------------------------------------------------------------- table construction

  method MaxSuffixLen(str: seq<Byte>, p: nat) returns (i: nat)
    requires p < |str|
    ensures i <= p
    ensures SuffixEndsAt(str, p, i)
    ensures i < p ==> str[p - i] != str[|str| - 1 - i]
  {
    i := 0;
    while str[p - i] == str[|str| - 1 - i] && i < p
      invariant i <= p
      invariant SuffixEndsAt(str, p, i)
      decreases p - i
    {
      i := i + 1;
    }
  }

  method BmMakeDelta1(delta1: array<int>, pat: seq<Byte>)
    requires delta1.Length == ALPHABET_LEN && |pat| > 0
    modifies delta1
    ensures forall c :: 0 <= c < ALPHABET_LEN ==> delta1[c] == Delta1(pat, c as Byte, |pat| - 1)
    ensures forall c :: 0 <= c < ALPHABET_LEN ==> IsDelta1(pat, c as Byte, delta1[c])
  {
    for i := 0 to ALPHABET_LEN
      invariant forall k :: 0 <= k < i ==> delta1[k] == |pat|
    {
      delta1[i] := |pat|;
    }
    for i := 0 to |pat| - 1
      invariant forall c :: 0 <= c < ALPHABET_LEN ==> delta1[c] == Delta1(pat, c as Byte, i)
    {
      delta1[pat[i] as int] := |pat| - 1 - i;
    }
    forall c | 0 <= c < ALPHABET_LEN ensures IsDelta1(pat, c as Byte, delta1[c]) {
      Delta1Exact(pat, c as Byte, |pat| - 1);
    }
  }

  method BmMakeDelta2(delta2: array<int>, pat: seq<Byte>)
    requires |pat| > 0 && delta2.Length == |pat|
    modifies delta2
    ensures forall j :: 0 <= j < |pat| ==> delta2[j] == Delta2(pat, j)
    ensures forall j :: 0 <= j < |pat| ==> IsAdvance(pat, j, delta2[j] - (|pat| - 1 - j))
  {
    FillFromPrefixes(delta2, pat);
    for p := 0 to |pat| - 1
      invariant HoldsAdvance(delta2[..], pat, p)
    {
      var sufLen := MaxSuffixLen(pat, p);
      AdvanceStep(delta2[..], pat, p, sufLen);
      if pat[p - sufLen] != pat[|pat| - 1 - sufLen] {
        delta2[|pat| - 1 - sufLen] := |pat| - 1 - p + sufLen;
      }
    }
    forall j | 0 <= j < |pat| ensures IsAdvance(pat, j, delta2[j] - (|pat| - 1 - j)) {
      AdvanceExact(pat, j);
    }
  }

  /** The first of the two loops that fill the good-suffix table. */
  method FillFromPrefixes(delta2: array<int>, pat: seq<Byte>)
    requires |pat| > 0 && delta2.Length == |pat|
    modifies delta2
    ensures HoldsAdvance(delta2[..], pat, 0)
  {
    var lastPrefix := |pat| - 1;
    for p := |pat| downto 0
      invariant lastPrefix == LastPrefix(pat, p)
      invariant forall j :: p <= j < |pat| ==> delta2[j] == LastPrefix(pat, j) + (|pat| - 1 - j)
    {
      if StrncmpEq(pat[p..], pat) {
        lastPrefix := p + 1;
      }
      delta2[p] := lastPrefix + (|pat| - 1 - p);
    }
  }

  /** `table` is the good-suffix table when reoccurrences ending before `n` are considered. */
  ghost predicate HoldsAdvance(table: seq<int>, pat: seq<Byte>, n: nat) {
    |table| == |pat| && forall j :: 0 <= j < |pat| ==> table[j] == AdvanceUpto(pat, j, n) + (|pat| - 1 - j)
  }

  /** The suffix after `j` reoccurs at `p` exactly when it is the longest one that ends there
      and the byte before it differs. */
  lemma ReoccursAtSuffixLen(pat: seq<Byte>, j: nat, p: nat, i: nat)
    requires j < |pat| && p < |pat| - 1 && i <= p && SuffixEndsAt(pat, p, i)
    requires i < p ==> pat[p - i] != pat[|pat| - 1 - i]
    ensures ReoccursAt(pat, j, p) <==> i == |pat| - 1 - j && pat[p - i] != pat[j]
  {
    var l := |pat| - 1 - j;
    if i < l <= p {
      assert pat[p - i] != pat[p - i + (|pat| - 1 - p)];
    } else if l < i {
      assert pat[p - l] == pat[p - l + (|pat| - 1 - p)];
    }
  }

  lemma AdvanceStep(table: seq<int>, pat: seq<Byte>, p: nat, i: nat)
    requires p < |pat| - 1 && i <= p && SuffixEndsAt(pat, p, i)
    requires i < p ==> pat[p - i] != pat[|pat| - 1 - i]
    requires HoldsAdvance(table, pat, p)
    ensures pat[p - i] == pat[|pat| - 1 - i] ==> HoldsAdvance(table, pat, p + 1)
    ensures pat[p - i] != pat[|pat| - 1 - i] ==>
      HoldsAdvance(table[|pat| - 1 - i := |pat| - 1 - p + i], pat, p + 1)
  {
    forall j | 0 <= j < |pat|
      ensures AdvanceUpto(pat, j, p + 1) ==
        if j == |pat| - 1 - i && pat[p - i] != pat[j] then |pat| - 1 - p else AdvanceUpto(pat, j, p)
    {
      ReoccursAtSuffixLen(pat, j, p, i);
    }
  }

  // ---------------------------------------------------------------- the scan

  /** Compares right to left from text position `i` and pattern position `j`; where it stops. */
  function MatchDown(text: seq<Byte>, pat: seq<Byte>, i: int, j: int): (r: int)
    requires -1 <= j < |pat| && 0 <= i - j && i < |text|
    ensures -1 <= r <= j
    decreases j + 1
  {
    if j >= 0 && text[i] == pat[j] then MatchDown(text, pat, i - 1, j - 1) else j
  }

  lemma {:induction false} MatchDownStops(text: seq<Byte>, pat: seq<Byte>, i: int, j: int)
    requires -1 <= j < |pat| && 0 <= i - j && i < |text|
    ensures var r := MatchDown(text, pat, i, j);
            && (forall k :: r < k <= j ==> pat[k] == text[i - j + k])
            && (r >= 0 ==> pat[r] != text[i - j + r])
    decreases j + 1
  {
    if j >= 0 && text[i] == pat[j] { MatchDownStops(text, pat, i - 1, j - 1); }
  }

  /** How far the start of the pattern moves when `text` mismatches at `j`. */
  function Shift(text: seq<Byte>, pat: seq<Byte>, s: nat, j: nat): (d: int)
    requires j < |pat| && s + |pat| <= |text|
    ensures d >= 1
  {
    AdvanceBounds(pat, j);
    Max(Delta1(pat, text[s + j], |pat| - 1), Delta2(pat, j)) - (|pat| - 1 - j)
  }

  /** The pattern moves by the larger of the two shifts, whatever else the tables hold. */
  lemma ShiftIsLarger(text: seq<Byte>, pat: seq<Byte>, s: nat, j: nat, d: int, a: int)
    requires j < |pat| && s + |pat| <= |text|
    requires IsDelta1(pat, text[s + j], d) && IsAdvance(pat, j, a)
    ensures var c := d - (|pat| - 1 - j);
            Shift(text, pat, s, j) >= c && Shift(text, pat, s, j) >= a && Shift(text, pat, s, j) in {c, a}
  {
    Delta1Unique(pat, text[s + j], d);
    AdvanceUnique(pat, j, a);
  }

  lemma Delta1Unique(pat: seq<Byte>, c: Byte, d: int)
    requires |pat| > 0 && IsDelta1(pat, c, d)
    ensures d == Delta1(pat, c, |pat| - 1)
  {
    Delta1Exact(pat, c, |pat| - 1);
  }

  lemma AdvanceUnique(pat: seq<Byte>, j: nat, a: int)
    requires j < |pat| && IsAdvance(pat, j, a)
    ensures a == Advance(pat, j)
  {
    AdvanceExact(pat, j);
    var b := Advance(pat, j);
    if exists p :: ReoccursAt(pat, j, p) {
      assert ReoccursAt(pat, j, |pat| - 1 - a) && ReoccursAt(pat, j, |pat| - 1 - b);
    } else if exists q :: j <= q < |pat| && StrncmpEq(pat[q..], pat) {
      assert StrncmpEq(pat[a - 1..], pat) && StrncmpEq(pat[b - 1..], pat);
    }
  }

  /** The outer loop, entered with the pattern's start at `s`. */
  function Scan(text: seq<Byte>, pat: seq<Byte>, s: nat): (r: Option<int>)
    requires |pat| > 0
    decreases |text| - s
  {
    if s + |pat| > |text| then None
    else
      var j := MatchDown(text, pat, s + |pat| - 1, |pat| - 1);
      if j < 0 then Some(s) else Scan(text, pat, s + Shift(text, pat, s, j))
  }

  /** The inner loop: goes back from text position `end` while text and pattern agree. */
  method CompareBack(text: seq<Byte>, pat: seq<Byte>, end: int) returns (i: int, j: int)
    requires |pat| > 0 && |pat| - 1 <= end < |text|
    ensures j == MatchDown(text, pat, end, |pat| - 1) && i - j == end - (|pat| - 1)
  {
    i, j := end, |pat| - 1;
    while j >= 0 && text[i] == pat[j]
      invariant -1 <= j < |pat| && i - j == end - (|pat| - 1)
      invariant MatchDown(text, pat, i, j) == MatchDown(text, pat, end, |pat| - 1)
      decreases j
    {
      i := i - 1;
      j := j - 1;
    }
  }

  /** A mismatch at `j` moves text position `s + j` to the end of the pattern's next place. */
  lemma ScanMoves(text: seq<Byte>, pat: seq<Byte>, s: nat, j: nat)
    requires |pat| > 0 && s + |pat| <= |text| && j < |pat|
    requires j == MatchDown(text, pat, s + |pat| - 1, |pat| - 1)
    ensures var i := s + j + Max(Delta1(pat, text[s + j], |pat| - 1), Delta2(pat, j));
            i >= s + |pat| && Scan(text, pat, s) == Scan(text, pat, i - (|pat| - 1))
  {
    AdvanceBounds(pat, j);
  }

  /** The outer loop, with the two tables. */
  method ScanText(text: seq<Byte>, pat: seq<Byte>, delta1: array<int>, delta2: array<int>) returns (r: Option<int>)
    requires |pat| > 0 && delta1.Length == ALPHABET_LEN && delta2.Length == |pat|
    requires forall c :: 0 <= c < ALPHABET_LEN ==> delta1[c] == Delta1(pat, c as Byte, |pat| - 1)
    requires forall j :: 0 <= j < |pat| ==> delta2[j] == Delta2(pat, j)
    ensures r == Scan(text, pat, 0)
  {
    var i := |pat| - 1;
    while i < |text|
      invariant i >= |pat| - 1
      invariant Scan(text, pat, 0) == Scan(text, pat, i - (|pat| - 1))
      decreases |text| - i
    {
      ghost var s := i - (|pat| - 1);
      var j;
      i, j := CompareBack(text, pat, i);
      if j < 0 {
        return Some(i + 1);
      }
      ScanMoves(text, pat, s, j);
      i := i + Max(delta1[text[i] as int], delta2[j]);
    }
    return None;
  }

  method BmSearch(text: seq<Byte>, pat: seq<Byte>) returns (r: Option<int>)
    requires |pat| > 0
    ensures r == Scan(text, pat, 0)
    ensures r.Some? ==> OccursAt(text, pat, r.value)
    ensures Safe(pat) ==> IsFirstOccurrence(text, pat, r)
  {
    var delta1 := new int[ALPHABET_LEN];
    var delta2 := new int[|pat|];
    BmMakeDelta1(delta1, pat);
    BmMakeDelta2(delta2, pat);
    r := ScanText(text, pat, delta1, delta2);
    ScanFindsOccurrence(text, pat, 0);
    if Safe(pat) { ScanFindsFirst(text, pat, 0); }
  }

  // ---------------------------------------------------------------- the shifts skip nothing

  /** The bad-character shift is safe for every pattern. */
  lemma Delta1SkipsNothing(text: seq<Byte>, pat: seq<Byte>, s: nat, j: nat, d: nat)
    requires j < |pat| && s + |pat| <= |text|
    requires pat[j] != text[s + j]
    requires 1 <= d && OccursAt(text, pat, s + d)
    ensures Delta1(pat, text[s + j], |pat| - 1) - (|pat| - 1 - j) <= d
  {
    Delta1Bounds(pat, text[s + j], |pat| - 1);
    if d <= j { assert pat[j - d] == text[s + d + (j - d)]; }
  }

  /** The good-suffix shift is safe for every `Safe` pattern. */
  lemma Delta2SkipsNothing(text: seq<Byte>, pat: seq<Byte>, s: nat, j: nat, d: nat)
    requires Safe(pat)
    requires j < |pat| && s + |pat| <= |text|
    requires pat[j] != text[s + j] && forall k :: j < k < |pat| ==> pat[k] == text[s + k]
    requires 1 <= d && OccursAt(text, pat, s + d)
    ensures Advance(pat, j) <= d
  {
    var m := |pat|;
    AdvanceBounds(pat, j);
    RightmostIsLargest(pat, j, m - 1);
    if d <= j {
      assert pat[j - d] == text[s + d + (j - d)];
      forall k | j - d < k <= m - 1 - d ensures pat[k] == pat[k + d] {
        assert pat[k] == text[s + d + k];
        assert pat[k + d] == text[s + (k + d)];
      }
      assert ReoccursAt(pat, j, m - 1 - d);
    } else if d < m {
      forall k | 0 <= k < m - d ensures pat[k] == pat[d + k] {
        assert pat[k] == text[s + d + k];
        assert pat[d + k] == text[s + (d + k)];
      }
      assert BorderStart(pat, d);
      if !NoPrefixTest(pat, j, d) {
        LastPrefixBounds(pat, j);
      }
    }
  }

  lemma {:induction false} ScanFindsFirst(text: seq<Byte>, pat: seq<Byte>, s: nat)
    requires |pat| > 0 && Safe(pat)
    requires forall t :: t < s ==> !OccursAt(text, pat, t)
    ensures IsFirstOccurrence(text, pat, Scan(text, pat, s))
    decreases |text| - s
  {
    if s + |pat| <= |text| {
      var j := MatchDown(text, pat, s + |pat| - 1, |pat| - 1);
      MatchDownStops(text, pat, s + |pat| - 1, |pat| - 1);
      if j >= 0 {
        assert !OccursAt(text, pat, s);
        var next := s + Shift(text, pat, s, j);
        forall t | s < t < next ensures !OccursAt(text, pat, t) {
          if OccursAt(text, pat, t) {
            assert OccursAt(text, pat, s + (t - s));
            Delta1SkipsNothing(text, pat, s, j, t - s);
            Delta2SkipsNothing(text, pat, s, j, t - s);
          }
        }
        ScanFindsFirst(text, pat, next);
      }
    }
  }

  lemma {:induction false} ScanFindsOccurrence(text: seq<Byte>, pat: seq<Byte>, s: nat)
    requires |pat| > 0
    ensures Scan(text, pat, s).Some? ==> OccursAt(text, pat, Scan(text, pat, s).value)
    decreases |text| - s
  {
    if s + |pat| <= |text| {
      var j := MatchDown(text, pat, s + |pat| - 1, |pat| - 1);
      MatchDownStops(text, pat, s + |pat| - 1, |pat| - 1);
      if j >= 0 { ScanFindsOccurrence(text, pat, s + Shift(text, pat, s, j)); }
    }
  }

  // ---------------------------------------------------------------- and Safe is necessary

  /** The text on which an unsafe pattern is missed: the pattern with byte `j` spoilt,
      followed by what completes an occurrence at the border `q`. */
  function MissedText(pat: seq<Byte>, j: nat, q: nat): seq<Byte>
    requires j < q < |pat|
  {
    pat[..j] + [if pat[j] == 0 then 1 else 0] + pat[j + 1..] + pat[|pat| - q..]
  }

  lemma MissedTextOccurrence(pat: seq<Byte>, j: nat, q: nat)
    requires j < q && BorderStart(pat, q)
    ensures OccursAt(MissedText(pat, j, q), pat, q)
  {
    var m, text := |pat|, MissedText(pat, j, q);
    forall k | 0 <= k < m ensures pat[k] == text[q + k] {
      if k < m - q {
        assert text[q + k] == pat[q + k];
      } else {
        assert text[q + k] == pat[m - q..][k - (m - q)];
      }
    }
  }

  lemma MissedTextPrefix(pat: seq<Byte>, j: nat, q: nat)
    requires j < q < |pat|
    ensures var text := MissedText(pat, j, q);
            |text| == |pat| + q && text[j] != pat[j] && forall k :: j < k < |pat| ==> text[k] == pat[k]
  {
    var text := MissedText(pat, j, q);
    forall k | j < k < |pat| ensures text[k] == pat[k] {
      assert text[k] == pat[j + 1..][k - (j + 1)];
    }
  }

  lemma {:induction false} MatchDownMeets(text: seq<Byte>, pat: seq<Byte>, j: nat, i: nat)
    requires j <= i < |pat| <= |text| && text[j] != pat[j]
    requires forall k :: j < k <= i ==> text[k] == pat[k]
    ensures MatchDown(text, pat, i, i) == j
  {
    if j < i { MatchDownMeets(text, pat, j, i - 1); }
  }

  lemma ScanLeavesText(text: seq<Byte>, pat: seq<Byte>, j: nat, q: nat)
    requires j < q < |pat| && |text| == |pat| + q
    requires text[j] != pat[j] && forall k :: j < k < |pat| ==> text[k] == pat[k]
    requires Advance(pat, j) == q + 1
    ensures Scan(text, pat, 0) == None
  {
    MatchDownMeets(text, pat, j, |pat| - 1);
    assert Shift(text, pat, 0, j) >= q + 1;
  }

  lemma UnsafeAdvance(pat: seq<Byte>, j: nat, q: nat)
    requires j < q && BorderStart(pat, q) && NoPrefixTest(pat, j, q)
    requires forall p :: !ReoccursAt(pat, j, p)
    ensures Advance(pat, j) == q + 1
  {
    forall k | 0 <= k < |pat| - q ensures pat[q..][k] == pat[k] {}
    StrncmpEqOfEqual(pat[q..], pat);
    LastPrefixSkips(pat, j, q);
    RightmostIsLargest(pat, j, |pat| - 1);
  }

  lemma UnsafeMisses(pat: seq<Byte>, j: nat, q: nat)
    requires j < q && BorderStart(pat, q) && NoPrefixTest(pat, j, q)
    requires forall p :: !ReoccursAt(pat, j, p)
    ensures OccursAt(MissedText(pat, j, q), pat, q)
    ensures Scan(MissedText(pat, j, q), pat, 0) == None
  {
    UnsafeAdvance(pat, j, q);
    MissedTextOccurrence(pat, j, q);
    MissedTextPrefix(pat, j, q);
    ScanLeavesText(MissedText(pat, j, q), pat, j, q);
  }

  /** The search is right on every text if and only if the pattern is safe. */
  lemma SearchIsExactlyAsSafe(pat: seq<Byte>)
    requires |pat| > 0
    ensures (forall text :: IsFirstOccurrence(text, pat, Scan(text, pat, 0))) <==> Safe(pat)
  {
    if Safe(pat) {
      forall text ensures IsFirstOccurrence(text, pat, Scan(text, pat, 0)) {
        ScanFindsFirst(text, pat, 0);
      }
    } else {
      var j, q :| 0 <= j < q && BorderStart(pat, q) && NoPrefixTest(pat, j, q)
        && !exists p :: ReoccursAt(pat, j, p);
      UnsafeMisses(pat, j, q);
      assert !IsFirstOccurrence(MissedText(pat, j, q), pat, Scan(MissedText(pat, j, q), pat, 0));
    }
  }

  // ---------------------------------------------------------------- particular patterns

  lemma BorderFreeIsSafe(pat: seq<Byte>)
    requires forall q :: !BorderStart(pat, q)
    ensures Safe(pat)
  {}

  /** For a pattern without NUL bytes the prefix test is exactly the border test. */
  lemma PrefixTestIsBorderTest(pat: seq<Byte>, q: nat)
    requires 0 < q < |pat| && 0 !in pat
    ensures StrncmpEq(pat[q..], pat) <==> BorderStart(pat, q)
  {
    if StrncmpEq(pat[q..], pat) {
      StrncmpEqNulFree(pat[q..], pat);
      forall k | 0 <= k < |pat| - q ensures pat[k] == pat[q + k] { assert pat[q..][k] == pat[k]; }
    }
    if BorderStart(pat, q) {
      forall k | 0 <= k < |pat| - q ensures pat[q..][k] == pat[k] {}
      StrncmpEqOfEqual(pat[q..], pat);
    }
  }

  /** ASCII of the version prefix that the updater searches for. */
  const BASEBAND_VER_STR_START: seq<Byte> :=
    [78, 88, 53, 49, 48, 74, 95, 90, 48, 95, 67, 78, 95, 76, 83, 90, 79, 79, 49, 74, 70, 49, 49]

  lemma BasebandPatternIsSafe()
    ensures |BASEBAND_VER_STR_START| == 23 && Safe(BASEBAND_VER_STR_START)
  {
    var pat := BASEBAND_VER_STR_START;
    forall q ensures !BorderStart(pat, q) {
      if 0 < q < |pat| {
        assert pat[0] == 78 && pat[1] == 88;
        assert q != 11 ==> pat[q] != 78;
        assert q == 11 ==> pat[q + 1] == 95;
      }
    }
  }

  /** The pattern ABA is missed in A?ABA, whose second byte is not B. */
  lemma AbaIsMissed()
    ensures OccursAt([65, 0, 65, 66, 65], [65, 66, 65], 2)
    ensures Scan([65, 0, 65, 66, 65], [65, 66, 65], 0) == None
  {
    var pat: seq<Byte> := [65, 66, 65];
    assert BorderStart(pat, 2);
    assert pat[1..] == [66, 65];
    assert NoPrefixTest(pat, 1, 2);
    forall p ensures !ReoccursAt(pat, 1, p) {
      if p == 1 { assert pat[p] != pat[p + (|pat| - 1 - p)]; }
    }
    assert MissedText(pat, 1, 2) == [65, 0, 65, 66, 65];
    UnsafeMisses(pat, 1, 2);
  }
}
