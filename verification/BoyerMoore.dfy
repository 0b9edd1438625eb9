/**
 Boyer-Moore search over the TrustZone image (recovery/recovery_updater.cpp).

 The two shift tables are filled in place and driven over the text by three methods.  Each is proved
 against a declarative table (`Delta1From`, `LastPrefix`, `GoodShiftFrom`) and the search itself against
 `Scan`, which only speaks of window positions.  What the search is worth is then stated about `Scan`:
 it is sound for every pattern, and it finds the leftmost occurrence in every text exactly when the
 pattern has no border or repeats a single character.
 */
module BoyerMoore {
  import opened Wrappers

  type byte = x: int | 0 <= x < 256

  const ALPHABET_LEN := 256
  const INT_MAX := 0x7FFF_FFFF

  // ---------------------------------------------------------------- occurrences and borders

  ghost predicate OccursAt(text: seq<byte>, pat: seq<byte>, w: int) {
    0 <= w && w + |pat| <= |text| && text[w..w + |pat|] == pat
  }

  /** What a plain left-to-right scan returns: the first occurrence, or none if there is none. */
  ghost predicate IsLeftmost(text: seq<byte>, pat: seq<byte>, r: Option<nat>) {
    match r
    case Some(w) => OccursAt(text, pat, w) && forall v :: 0 <= v < w ==> !OccursAt(text, pat, v)
    case None => forall v :: !OccursAt(text, pat, v)
  }

  /** The suffix from `q` is also a proper prefix: the pattern overlaps itself when moved by `q`. */
  ghost predicate Border(pat: seq<byte>, q: int) {
    0 < q < |pat| && forall x :: 0 <= x < |pat| - q ==> pat[q + x] == pat[x]
  }

  ghost predicate Borderless(pat: seq<byte>) {
    forall q :: !Border(pat, q)
  }

  ghost predicate Unary(pat: seq<byte>) {
    forall x :: 0 <= x < |pat| ==> pat[x] == pat[0]
  }

  ghost predicate NulFree(pat: seq<byte>) {
    forall x :: 0 <= x < |pat| ==> pat[x] != 0
  }

  // ---------------------------------------------------------------- the shift tables, declaratively

  /** `strncmp(pat + p, pat, pat_len - p) == 0`, of which `k` characters are compared already: the two run
      together up to the end or to a common NUL. */
  predicate StrNCmpEqual(pat: seq<byte>, p: nat, k: nat): (r: bool)
    requires p + k <= |pat|
    ensures p == 0 ==> r
    decreases |pat| - k
  {
    p + k == |pat| || (pat[p + k] == pat[k] && (pat[k] == 0 || StrNCmpEqual(pat, p, k + 1)))
  }

  lemma {:induction false} StrNCmpMeansBorder(pat: seq<byte>, p: nat, k: nat)
    requires p + k <= |pat|
    ensures (forall x :: k <= x < |pat| - p ==> pat[p + x] == pat[x]) ==> StrNCmpEqual(pat, p, k)
    ensures StrNCmpEqual(pat, p, k) && NulFree(pat) ==> forall x :: k <= x < |pat| - p ==> pat[p + x] == pat[x]
    decreases |pat| - k
  {
    if p + k < |pat| {
      StrNCmpMeansBorder(pat, p, k + 1);
    }
  }

  /** Smallest distance from the last character back to an earlier `c`, from `d` on; the length if none. */
  function Delta1From(pat: seq<byte>, c: byte, d: nat): (r: nat)
    requires 1 <= d
    ensures r == |pat| || (d <= r < |pat| && pat[|pat| - 1 - r] == c)
    ensures forall x :: 0 <= x <= |pat| - 1 - d && pat[x] == c ==> r <= |pat| - 1 - x
    decreases |pat| - d
  {
    if d >= |pat| then |pat| else if pat[|pat| - 1 - d] == c then d else Delta1From(pat, c, d + 1)
  }

  /** The window move recorded by the prefix pass at `p`: one more than the nearest border start at or after `p`. */
  function LastPrefix(pat: seq<byte>, p: nat): (r: nat)
    requires p <= |pat|
    ensures p < |pat| ==> 1 <= r <= |pat|
    decreases |pat| - p
  {
    if p == |pat| then if |pat| == 0 then 0 else |pat| - 1
    else if StrNCmpEqual(pat, p, 0) then p + 1
    else LastPrefix(pat, p + 1)
  }

  /** Moving the window by `k` lines the matched suffix after `j` up with an equal stretch inside the pattern
      that is preceded by a character other than `pat[j]`. */
  predicate GoodShift(pat: seq<byte>, j: int, k: int) {
    1 <= k <= j < |pat| && pat[j - k] != pat[j] && forall x :: j - k < x < |pat| - k ==> pat[x] == pat[x + k]
  }

  /** The smallest good shift for a mismatch at `j`, from `k` on; the prefix pass's value if there is none. */
  function GoodShiftFrom(pat: seq<byte>, j: nat, k: nat): (r: nat)
    requires j < |pat| && 1 <= k
    ensures 1 <= r <= |pat|
    decreases |pat| - k
  {
    if k > j then LastPrefix(pat, j) else if GoodShift(pat, j, k) then k else GoodShiftFrom(pat, j, k + 1)
  }

  /** If the suffix after `j` recurs inside the pattern behind a different character, the entry is the
      smallest such distance; otherwise it is what the prefix pass left. */
  lemma {:induction false} GoodShiftIsSmallest(pat: seq<byte>, j: nat, k: nat)
    requires j < |pat| && 1 <= k
    ensures forall g {:trigger GoodShift(pat, j, g)} :: k <= g && GoodShift(pat, j, g) ==>
              GoodShift(pat, j, GoodShiftFrom(pat, j, k)) && k <= GoodShiftFrom(pat, j, k) <= g
    ensures (forall g :: k <= g ==> !GoodShift(pat, j, g)) ==> GoodShiftFrom(pat, j, k) == LastPrefix(pat, j)
    decreases |pat| - k
  {
    if k <= j && !GoodShift(pat, j, k) {
      GoodShiftIsSmallest(pat, j, k + 1);
    }
  }

  // ---------------------------------------------------------------- the search, as moves of a window

  /** Rightmost mismatch at or before `j` of the window at `w`; -1 when everything up to `j` agrees. */
  function MismatchFrom(text: seq<byte>, pat: seq<byte>, w: nat, j: int): (r: int)
    requires w + |pat| <= |text| && -1 <= j < |pat|
    ensures -1 <= r <= j
    ensures forall x :: r < x <= j ==> text[w + x] == pat[x]
    ensures 0 <= r ==> text[w + r] != pat[r]
    decreases j + 1
  {
    if j < 0 then -1 else if text[w + j] == pat[j] then MismatchFrom(text, pat, w, j - 1) else j
  }

  /** How far the window moves after text character `c` mismatched at `j`. */
  function Shift(pat: seq<byte>, c: byte, j: nat): (r: nat)
    requires j < |pat|
    ensures 1 <= r
  {
    var byCharacter := Delta1From(pat, c, 1) - (|pat| - 1 - j);
    var bySuffix := GoodShiftFrom(pat, j, 1);
    if byCharacter > bySuffix then byCharacter else bySuffix
  }

  /** Where the window at `w` goes next; it stays exactly when it matches. */
  function NextWindow(text: seq<byte>, pat: seq<byte>, w: nat): (v: nat)
    requires pat != [] && w + |pat| <= |text|
    ensures w <= v
  {
    var j := MismatchFrom(text, pat, w, |pat| - 1);
    if j < 0 then w else w + Shift(pat, text[w + j], j)
  }

  /** The answer of the search when the window stands at `w`. */
  function Scan(text: seq<byte>, pat: seq<byte>, w: nat): (r: Option<nat>)
    requires pat != []
    decreases |text| - w
  {
    if w + |pat| > |text| then None
    else if NextWindow(text, pat, w) == w then Some(w)
    else Scan(text, pat, NextWindow(text, pat, w))
  }

  lemma WindowStaysOnMatch(text: seq<byte>, pat: seq<byte>, w: nat)
    requires pat != [] && w + |pat| <= |text|
    ensures NextWindow(text, pat, w) == w <==> OccursAt(text, pat, w)
  {
    var j := MismatchFrom(text, pat, w, |pat| - 1);
    if j < 0 {
      assert text[w..w + |pat|] == pat;
    } else {
      assert text[w..w + |pat|][j] != pat[j];
    }
  }

  /** Whatever the pattern, an answer is a genuine occurrence. */
  lemma {:induction false} ScanIsSound(text: seq<byte>, pat: seq<byte>, w: nat)
    requires pat != []
    ensures var r := Scan(text, pat, w); r.Some? ==> w <= r.value && OccursAt(text, pat, r.value)
    decreases |text| - w
  {
    if w + |pat| <= |text| {
      WindowStaysOnMatch(text, pat, w);
      if NextWindow(text, pat, w) != w {
        ScanIsSound(text, pat, NextWindow(text, pat, w));
      }
    }
  }

  // ---------------------------------------------------------------- the code

  method MaxSuffixLen(pat: seq<byte>, p: nat) returns (i: nat)
    requires p < |pat|
    ensures i <= p
    ensures forall x :: p - i < x <= p ==> pat[x] == pat[x + (|pat| - 1 - p)]
    ensures i < p ==> pat[p - i] != pat[|pat| - 1 - i]
  {
    i := 0;
    while pat[p - i] == pat[|pat| - 1 - i] && i < p
      invariant i <= p
      invariant forall x :: p - i < x <= p ==> pat[x] == pat[x + (|pat| - 1 - p)]
    {
      i := i + 1;
    }
  }

  ghost predicate Delta1Rows(rows: seq<int>, pat: seq<byte>) {
    |rows| == ALPHABET_LEN && forall c: byte :: rows[c] == Delta1From(pat, c, 1)
  }

  method MakeDelta1(delta1: array<int>, pat: seq<byte>)
    requires pat != [] && delta1.Length == ALPHABET_LEN
    modifies delta1
    ensures Delta1Rows(delta1[..], pat)
  {
    var i := 0;
    while i < ALPHABET_LEN
      invariant 0 <= i <= ALPHABET_LEN
      invariant forall c :: 0 <= c < i ==> delta1[c] == |pat|
    {
      delta1[i] := |pat|;
      i := i + 1;
    }
    i := 0;
    while i < |pat| - 1
      invariant 0 <= i <= |pat| - 1
      invariant forall c: byte :: delta1[c] == Delta1From(pat, c, |pat| - i)
    {
      delta1[pat[i]] := |pat| - 1 - i;
      i := i + 1;
    }
  }

  /** The rows the prefix pass has filled so far. */
  ghost predicate PrefixRows(rows: seq<int>, pat: seq<byte>, p: nat) {
    |rows| == |pat| && forall j :: p <= j < |pat| ==> rows[j] == LastPrefix(pat, j) + (|pat| - 1 - j)
  }

  /** All rows, when only the shifts from `k` up have been considered. */
  ghost predicate GoodShiftRows(rows: seq<int>, pat: seq<byte>, k: nat)
    requires 1 <= k
  {
    |rows| == |pat| && forall j :: 0 <= j < |pat| ==> rows[j] == GoodShiftFrom(pat, j, k) + (|pat| - 1 - j)
  }

  method MakeDelta2(delta2: array<int>, pat: seq<byte>)
    requires pat != [] && delta2.Length == |pat|
    modifies delta2
    ensures GoodShiftRows(delta2[..], pat, 1)
  {
    PrefixPass(delta2, pat);
    SuffixPass(delta2, pat);
  }

  /** The first loop of `bm_make_delta2`, right to left. */
  method PrefixPass(delta2: array<int>, pat: seq<byte>)
    requires pat != [] && delta2.Length == |pat|
    modifies delta2
    ensures GoodShiftRows(delta2[..], pat, |pat|)
  {
    var lastPrefix := |pat| - 1;
    var p := |pat| - 1;
    while p >= 0
      invariant -1 <= p < |pat|
      invariant lastPrefix == LastPrefix(pat, p + 1)
      invariant PrefixRows(delta2[..], pat, p + 1)
    {
      if StrNCmpEqual(pat, p, 0) {
        lastPrefix := p + 1;
      }
      delta2[p] := lastPrefix + (|pat| - 1 - p);
      p := p - 1;
    }
    NoShiftYet(delta2[..], pat);
  }

  /** The second loop of `bm_make_delta2`, left to right, overwriting rows of the first. */
  method SuffixPass(delta2: array<int>, pat: seq<byte>)
    requires pat != [] && delta2.Length == |pat| && GoodShiftRows(delta2[..], pat, |pat|)
    modifies delta2
    ensures GoodShiftRows(delta2[..], pat, 1)
  {
    var p := 0;
    while p < |pat| - 1
      invariant 0 <= p <= |pat| - 1
      invariant GoodShiftRows(delta2[..], pat, |pat| - p)
    {
      ghost var before := delta2[..];
      var sufLen := MaxSuffixLen(pat, p);
      if pat[p - sufLen] != pat[|pat| - 1 - sufLen] {
        delta2[|pat| - 1 - sufLen] := |pat| - 1 - p + sufLen;
      }
      OneMoreShift(before, delta2[..], pat, p, sufLen);
      p := p + 1;
    }
  }

  lemma NoShiftYet(rows: seq<int>, pat: seq<byte>)
    requires pat != [] && PrefixRows(rows, pat, 0)
    ensures GoodShiftRows(rows, pat, |pat|)
  {}

  /** Of all mismatch positions, only the one before the longest common suffix ending at `p` may use `p`. */
  lemma OneGoodShiftPerEnd(pat: seq<byte>, p: nat, sufLen: nat, j: nat)
    requires p < |pat| - 1 && sufLen <= p && j < |pat|
    requires forall x :: p - sufLen < x <= p ==> pat[x] == pat[x + (|pat| - 1 - p)]
    requires sufLen < p ==> pat[p - sufLen] != pat[|pat| - 1 - sufLen]
    ensures GoodShift(pat, j, |pat| - 1 - p) <==> j == |pat| - 1 - sufLen && pat[p - sufLen] != pat[j]
  {
    var k := |pat| - 1 - p;
    if p - sufLen < j - k {
      assert pat[j - k] == pat[j - k + k];
    }
  }

  /** One round of the second loop, which lets the shift to the suffix end `p` replace any longer one. */
  lemma OneMoreShift(rows: seq<int>, rows': seq<int>, pat: seq<byte>, p: nat, sufLen: nat)
    requires p < |pat| - 1 && sufLen <= p && GoodShiftRows(rows, pat, |pat| - p)
    requires forall x :: p - sufLen < x <= p ==> pat[x] == pat[x + (|pat| - 1 - p)]
    requires sufLen < p ==> pat[p - sufLen] != pat[|pat| - 1 - sufLen]
    requires rows' == if pat[p - sufLen] != pat[|pat| - 1 - sufLen]
                      then rows[|pat| - 1 - sufLen := |pat| - 1 - p + sufLen] else rows
    ensures GoodShiftRows(rows', pat, |pat| - 1 - p)
  {
    forall j: nat | j < |pat|
      ensures rows'[j] == GoodShiftFrom(pat, j, |pat| - 1 - p) + (|pat| - 1 - j)
    {
      OneGoodShiftPerEnd(pat, p, sufLen, j);
    }
  }

  /** The inner loop of `bm_search`: compare the window ending at `end` from right to left. */
  method MatchBackwards(text: seq<byte>, pat: seq<byte>, end: nat, ghost w: nat) returns (i: int, j: int)
    requires pat != [] && end == w + |pat| - 1 < |text|
    ensures j == MismatchFrom(text, pat, w, |pat| - 1)
    ensures i == w + j
  {
    i, j := end, |pat| - 1;
    while j >= 0 && text[i] == pat[j]
      invariant -1 <= j < |pat|
      invariant i == w + j
      invariant MismatchFrom(text, pat, w, |pat| - 1) == MismatchFrom(text, pat, w, j)
    {
      i := i - 1;
      j := j - 1;
    }
  }

  /** `bm_search`: `None` is the source's NULL, `Some(w)` its `str + w`. */
  method Search(text: seq<byte>, pat: seq<byte>) returns (r: Option<nat>)
    requires pat != []
    requires |text| + 2 * |pat| <= INT_MAX
    ensures r == Scan(text, pat, 0)
    ensures r.Some? ==> OccursAt(text, pat, r.value)
    ensures Borderless(pat) || Unary(pat) ==> IsLeftmost(text, pat, r)
  {
    var delta1 := new int[ALPHABET_LEN];
    var delta2 := new int[|pat|];
    MakeDelta1(delta1, pat);
    MakeDelta2(delta2, pat);
    r := SlideWindow(text, pat, delta1, delta2, Scan(text, pat, 0));
    ScanContract(text, pat);
  }

  lemma ScanStops(text: seq<byte>, pat: seq<byte>, w: nat)
    requires pat != [] && w + |pat| <= |text| && MismatchFrom(text, pat, w, |pat| - 1) < 0
    ensures Scan(text, pat, w) == Some(w)
  {}

  lemma ScanRunsOut(text: seq<byte>, pat: seq<byte>, w: nat)
    requires pat != [] && w + |pat| > |text|
    ensures Scan(text, pat, w) == None
  {}

  /** One round of the outer loop: the window is compared from its end, and moved by the larger of the entries of both
      tables at the mismatch. */
  method Round(text: seq<byte>, pat: seq<byte>, delta1: array<int>, delta2: array<int>, end: nat, ghost w: nat)
    returns (i: int, found: bool, ghost v: nat)
    requires pat != [] && end == w + |pat| - 1 < |text|
    requires Delta1Rows(delta1[..], pat) && GoodShiftRows(delta2[..], pat, 1)
    ensures if found then i + 1 == w && Scan(text, pat, w) == Some(w)
            else i == v + |pat| - 1 && i <= end + 2 * |pat| && w < v && Scan(text, pat, w) == Scan(text, pat, v)
  {
    var j;
    i, j := MatchBackwards(text, pat, end, w);
    found, v := j < 0, w;
    if found {
      ScanStops(text, pat, w);
    } else {
      assert delta1[..][text[i]] == delta1[text[i]] && delta2[..][j] == delta2[j];
      var d1, d2 := delta1[text[i]], delta2[j];
      v := MoveWindow(text, pat, w, j, d1, d2);
      i := i + if d1 > d2 then d1 else d2;
    }
  }

  method SlideWindow(text: seq<byte>, pat: seq<byte>, delta1: array<int>, delta2: array<int>,
                     ghost answer: Option<nat>)
    returns (r: Option<nat>)
    requires pat != [] && |text| + 2 * |pat| <= INT_MAX
    requires Delta1Rows(delta1[..], pat) && GoodShiftRows(delta2[..], pat, 1)
    requires answer == Scan(text, pat, 0)
    ensures r == answer
  {
    ghost var w := 0;
    var i := |pat| - 1;
    while i < |text|
      invariant i == w + |pat| - 1 && i <= INT_MAX
      invariant answer == Scan(text, pat, w)
    {
      var found;
      i, found, w := Round(text, pat, delta1, delta2, i, w);
      if found {
        return Some(i + 1);
      }
    }
    ScanRunsOut(text, pat, w);
    return None;
  }

  /** The larger table entry, counted from the mismatch, is the move of the window counted from its start. */
  lemma MoveWindow(text: seq<byte>, pat: seq<byte>, w: nat, j: nat, d1: int, d2: int)
    returns (v: nat)
    requires w + |pat| <= |text| && j < |pat| && MismatchFrom(text, pat, w, |pat| - 1) == j
    requires d1 == Delta1From(pat, text[w + j], 1) && d2 == GoodShiftFrom(pat, j, 1) + (|pat| - 1 - j)
    ensures var move := if d1 > d2 then d1 else d2;
            v == w + move - (|pat| - 1 - j) && 0 <= move <= 2 * |pat|
    ensures w < v && Scan(text, pat, w) == Scan(text, pat, v)
  {
    v := NextWindow(text, pat, w);
  }

  lemma ScanContract(text: seq<byte>, pat: seq<byte>)
    requires pat != []
    ensures Scan(text, pat, 0).Some? ==> OccursAt(text, pat, Scan(text, pat, 0).value)
    ensures Borderless(pat) || Unary(pat) ==> IsLeftmost(text, pat, Scan(text, pat, 0))
  {
    ScanIsSound(text, pat, 0);
    if Borderless(pat) || Unary(pat) {
      ScanFindsLeftmost(text, pat, 0);
    }
  }

  // ---------------------------------------------------------------- when the shifts are safe

  /** If the pattern also fits `k` further right, the characters already seen agree with it there. */
  lemma FitsFurtherRight(text: seq<byte>, pat: seq<byte>, w: nat, k: nat, x: nat)
    requires w + |pat| <= |text| && OccursAt(text, pat, w + k) && k <= x < |pat|
    ensures text[w + x] == pat[x - k]
  {
    assert text[w + k..w + k + |pat|][x - k] == pat[x - k];
  }

  /** An occurrence `k` to the right, with the mismatch still inside it, bounds both table entries. */
  lemma CoveredMismatchIsSafe(text: seq<byte>, pat: seq<byte>, w: nat, j: nat, k: nat)
    requires w + |pat| <= |text| && 1 <= k <= j < |pat|
    requires text[w + j] != pat[j] && forall x :: j < x < |pat| ==> text[w + x] == pat[x]
    requires OccursAt(text, pat, w + k)
    ensures Shift(pat, text[w + j], j) <= k
  {
    FitsFurtherRight(text, pat, w, k, j);
    forall x | j - k < x < |pat| - k
      ensures pat[x] == pat[x + k]
    {
      FitsFurtherRight(text, pat, w, k, x + k);
    }
    assert GoodShift(pat, j, k);
    GoodShiftIsSmallest(pat, j, 1);
  }

  /** An occurrence `k` to the right that still touches the matched part makes `k` a border. */
  lemma UncoveredMismatchIsBorder(text: seq<byte>, pat: seq<byte>, w: nat, j: nat, k: nat)
    requires w + |pat| <= |text| && j < k < |pat|
    requires forall x :: j < x < |pat| ==> text[w + x] == pat[x]
    requires OccursAt(text, pat, w + k)
    ensures Border(pat, k)
  {
    forall x | 0 <= x < |pat| - k
      ensures pat[k + x] == pat[x]
    {
      FitsFurtherRight(text, pat, w, k, k + x);
    }
  }

  /** Neither table jumps over an occurrence: any occurrence to the right starts at or after the moved window. */
  lemma ShiftIsSafe(text: seq<byte>, pat: seq<byte>, w: nat, j: nat, k: nat)
    requires w + |pat| <= |text| && j < |pat| && 1 <= k
    requires text[w + j] != pat[j] && forall x :: j < x < |pat| ==> text[w + x] == pat[x]
    requires Borderless(pat) || Unary(pat)
    requires OccursAt(text, pat, w + k)
    ensures Shift(pat, text[w + j], j) <= k
  {
    if k <= j {
      CoveredMismatchIsSafe(text, pat, w, j, k);
    } else {
      if k < |pat| {
        UncoveredMismatchIsBorder(text, pat, w, j, k);
      }
      PrefixPassIsSafe(pat, j, k);
      ShiftWithoutCover(pat, text[w + j], j);
    }
  }

  /** A move past the mismatch is never longer than the prefix pass allows, nor than to just past it. */
  lemma ShiftWithoutCover(pat: seq<byte>, c: byte, j: nat)
    requires j < |pat|
    ensures Shift(pat, c, j) <= if j + 1 > LastPrefix(pat, j) then j + 1 else LastPrefix(pat, j)
  {
    GoodShiftIsSmallest(pat, j, 1);
    if forall g :: 1 <= g ==> !GoodShift(pat, j, g) {
    } else {
      var g :| 1 <= g && GoodShift(pat, j, g);
      assert GoodShiftFrom(pat, j, 1) <= g <= j;
    }
  }

  /** The value left by the prefix pass never exceeds a move that clears the mismatch. */
  lemma PrefixPassIsSafe(pat: seq<byte>, j: nat, k: nat)
    requires Borderless(pat) || Unary(pat)
    requires j < |pat| && j < k && (k >= |pat| || Border(pat, k))
    ensures LastPrefix(pat, j) <= k
    decreases |pat| - j
  {
    StrNCmpMeansBorder(pat, j, 0);
    if !StrNCmpEqual(pat, j, 0) {
      assert Borderless(pat);
      if j + 1 < |pat| {
        PrefixPassIsSafe(pat, j + 1, k);
      }
    }
  }

  /** No occurrence lies strictly between a window and the next one. */
  lemma NothingSkipped(text: seq<byte>, pat: seq<byte>, w: nat, v: nat)
    requires pat != [] && w + |pat| <= |text| && w < v < NextWindow(text, pat, w)
    requires Borderless(pat) || Unary(pat)
    ensures !OccursAt(text, pat, v)
  {
    if OccursAt(text, pat, v) {
      ShiftIsSafe(text, pat, w, MismatchFrom(text, pat, w, |pat| - 1), v - w);
    }
  }

  lemma {:induction false} ScanFindsLeftmost(text: seq<byte>, pat: seq<byte>, w: nat)
    requires pat != [] && (Borderless(pat) || Unary(pat))
    requires forall v :: 0 <= v < w ==> !OccursAt(text, pat, v)
    ensures IsLeftmost(text, pat, Scan(text, pat, w))
    decreases |text| - w
  {
    if w + |pat| <= |text| {
      WindowStaysOnMatch(text, pat, w);
      var next := NextWindow(text, pat, w);
      if next != w {
        forall v | w < v < next
          ensures !OccursAt(text, pat, v)
        {
          NothingSkipped(text, pat, w, v);
        }
        ScanFindsLeftmost(text, pat, next);
      }
    }
  }

  // ---------------------------------------------------------------- exactly when the search is complete

  /** A text in which the pattern occurs at the border `q` but the search looks past it. */
  function SkippedText(pat: seq<byte>, q: nat, c: byte): seq<byte>
    requires 2 <= q < |pat|
  {
    [pat[0], c] + pat[2..] + pat[|pat| - q..]
  }

  /** The prefix pass finds the nearest border, and records one more. */
  lemma NearestBorder(pat: seq<byte>, p: nat, q: nat)
    requires NulFree(pat) && 0 < p <= q && Border(pat, q)
    requires forall b :: p <= b < q ==> !Border(pat, b)
    ensures LastPrefix(pat, p) == q + 1
    decreases q - p
  {
    StrNCmpMeansBorder(pat, p, 0);
    if p < q {
      assert !Border(pat, p);
      NearestBorder(pat, p + 1, q);
    }
  }

  /** Without a border it records the last position. */
  lemma {:induction false} NoBorderRecorded(pat: seq<byte>, p: nat)
    requires NulFree(pat) && 0 < p <= |pat| && forall b :: p <= b ==> !Border(pat, b)
    ensures LastPrefix(pat, p) == |pat| - 1
    decreases |pat| - p
  {
    if p < |pat| {
      StrNCmpMeansBorder(pat, p, 0);
      assert !Border(pat, p);
      NoBorderRecorded(pat, p + 1);
    }
  }

  /** With a shortest self-overlap `q` of at least two, nothing overrides the prefix pass at position one. */
  lemma NoGoodShiftAtOne(pat: seq<byte>, q: nat)
    requires 2 <= q && Border(pat, q)
    ensures forall g :: !GoodShift(pat, 1, g)
  {
    if GoodShift(pat, 1, 1) {
      var n := |pat|;
      AllEqualFrom(pat, q);
    }
  }

  lemma SkippedTextHasIt(pat: seq<byte>, q: nat, c: byte)
    requires 2 <= q && Border(pat, q)
    ensures OccursAt(SkippedText(pat, q, c), pat, q)
  {
    var text, n := SkippedText(pat, q, c), |pat|;
    forall x | 0 <= x < n
      ensures text[q + x] == pat[x]
    {
      if q + x < n {
        assert text[q + x] == pat[2..][q + x - 2] == pat[q + x];
      } else {
        assert text[q + x] == pat[n - q..][q + x - n];
      }
    }
  }

  /** A mismatch at position one then moves the window past the occurrence at `q`. */
  lemma BorderIsOvershot(pat: seq<byte>, q: nat, c: byte)
    requires NulFree(pat) && 2 <= q && Border(pat, q) && forall b :: 1 <= b < q ==> !Border(pat, b)
    requires c != pat[1]
    ensures OccursAt(SkippedText(pat, q, c), pat, q)
    ensures Scan(SkippedText(pat, q, c), pat, 0) != None ==> Scan(SkippedText(pat, q, c), pat, 0).value > q
  {
    var text := SkippedText(pat, q, c);
    SkippedTextHasIt(pat, q, c);
    assert forall x :: 1 < x < |pat| ==> text[x] == pat[x];
    assert text[1] != pat[1];
    assert MismatchFrom(text, pat, 0, |pat| - 1) == 1;
    NearestBorder(pat, 1, q);
    NoGoodShiftAtOne(pat, q);
    GoodShiftIsSmallest(pat, 1, 1);
    assert NextWindow(text, pat, 0) >= q + 1;
    ScanIsSound(text, pat, NextWindow(text, pat, 0));
  }

  lemma {:induction false} AllEqualFrom(pat: seq<byte>, x: nat)
    requires GoodShift(pat, 1, 1) && 1 <= x < |pat|
    ensures pat[x] == pat[1]
  {
    if x > 1 {
      AllEqualFrom(pat, x - 1);
      assert pat[x - 1] == pat[x];
    }
  }

  /** The code agrees with a plain scan on every text. */
  ghost predicate CompleteFor(pat: seq<byte>)
    requires pat != []
  {
    forall text: seq<byte> :: IsLeftmost(text, pat, Scan(text, pat, 0))
  }

  lemma CompletenessCharacterised(pat: seq<byte>)
    requires pat != []
    ensures Borderless(pat) || Unary(pat) ==> CompleteFor(pat)
    ensures NulFree(pat) && CompleteFor(pat) ==> Borderless(pat) || Unary(pat)
  {
    if Borderless(pat) || Unary(pat) {
      forall text: seq<byte>
        ensures IsLeftmost(text, pat, Scan(text, pat, 0))
      {
        ScanFindsLeftmost(text, pat, 0);
      }
    } else if NulFree(pat) {
      var q := ShortestBorder(pat);
      if q == 1 {
        forall x: nat | x < |pat| ensures pat[x] == pat[0] { UnaryByShift(pat, x); }
        assert false;
      }
      var c: byte := if pat[1] == 1 then 2 else 1;
      BorderIsOvershot(pat, q, c);
      assert !IsLeftmost(SkippedText(pat, q, c), pat, Scan(SkippedText(pat, q, c), pat, 0));
    }
  }

  lemma {:induction false} UnaryByShift(pat: seq<byte>, x: nat)
    requires Border(pat, 1) && x < |pat|
    ensures pat[x] == pat[0]
  {
    if x > 0 {
      UnaryByShift(pat, x - 1);
      assert pat[1 + (x - 1)] == pat[x - 1];
    }
  }

  lemma ShortestBorder(pat: seq<byte>) returns (q: nat)
    requires !Borderless(pat)
    ensures Border(pat, q) && forall b :: 1 <= b < q ==> !Border(pat, b)
  {
    q := 1;
    while !Border(pat, q)
      invariant 1 <= q <= |pat|
      invariant forall b :: 1 <= b < q ==> !Border(pat, b)
      decreases |pat| - q
    {
      q := q + 1;
    }
  }

  /** "aba" is missed in "acaba". */
  lemma AbaMissedInAcaba()
    ensures var pat: seq<byte>, text: seq<byte> := [97, 98, 97], [97, 99, 97, 98, 97];
            OccursAt(text, pat, 2) && Scan(text, pat, 0) == None
  {
    var pat: seq<byte>, text: seq<byte> := [97, 98, 97], [97, 99, 97, 98, 97];
    assert text[2..5] == pat;
    assert Border(pat, 2);
    assert !Border(pat, 1) by { assert pat[1 + 0] != pat[0]; }
    assert SkippedText(pat, 2, 99) == text;
    BorderIsOvershot(pat, 2, 99);
  }

  /** `TZ_VER_STR`: "QC_IMAGE_VERSION_STRING=". */
  const TZ_VER_STR: seq<byte> :=
    [81, 67, 95, 73, 77, 65, 71, 69, 95, 86, 69, 82, 83, 73, 79, 78, 95, 83, 84, 82, 73, 78, 71, 61]

  /** The one pattern the updater searches for is in the safe class, so its search is an exact one. */
  lemma VersionStringSearchIsExact(text: seq<byte>)
    ensures |TZ_VER_STR| == 24 && NulFree(TZ_VER_STR) && Borderless(TZ_VER_STR)
    ensures IsLeftmost(text, TZ_VER_STR, Scan(text, TZ_VER_STR, 0))
  {
    forall q | 0 < q < 24
      ensures !Border(TZ_VER_STR, q)
    {
      assert TZ_VER_STR[q + (23 - q)] == 61 != TZ_VER_STR[23 - q];
    }
    ScanFindsLeftmost(text, TZ_VER_STR, 0);
  }
}
