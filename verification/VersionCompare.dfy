/**
 `versionCompare` (recovery/recovery_updater.cpp): the numeric comparison of two version strings.

 The loop is proved against `Answer`, which compares the numbers of the first string with those of the second
 cut to the first one's length; that cut is what bounding the second inner loop by `v1.length()` amounts to.
 `Order` is the comparison the function is named for, on the whole of both strings.
 */
module VersionCompare {
  import opened Wrappers

  // `unsigned long` on the 64-bit target
  const ULONG_MODULUS := 0x1_0000_0000_0000_0000

  predicate IsDigit(c: char) {
    '0' <= c <= '9'
  }

  predicate AllDigits(s: string) {
    forall x :: 0 <= x < |s| ==> IsDigit(s[x])
  }

  function Digit(c: char): nat
    requires IsDigit(c)
  {
    c as nat - '0' as nat
  }

  /** The digits are the ten decimal ones, each with its value. */
  lemma DigitsAreDecimal(c: char)
    ensures IsDigit(c) <==> c in "0123456789"
    ensures IsDigit(c) ==> Digit(c) < 10 && "0123456789"[Digit(c)] == c
  {
    if IsDigit(c) {
      assert "0123456789"[Digit(c)] == c;
    }
  }

  /** The decimal value of a run of digits. */
  function Value(s: string): nat
    requires AllDigits(s)
  {
    if s == "" then 0 else Value(s[..|s| - 1]) * 10 + Digit(s[|s| - 1])
  }

  /** How many digits the string begins with. */
  function RunLength(s: string): (n: nat)
    ensures n <= |s| && AllDigits(s[..n])
    ensures n < |s| ==> !IsDigit(s[n])
  {
    if s == "" || !IsDigit(s[0]) then 0
    else
      assert forall x :: 1 <= x < |s| ==> s[x] == s[1..][x - 1];
      1 + RunLength(s[1..])
  }

  function From(s: string, i: nat): string {
    if i <= |s| then s[i..] else ""
  }

  /** The numbers between the non-digits of a version string, as the machine holds them. */
  function Numbers(s: string): (r: seq<nat>)
    ensures |r| <= |s|
    decreases |s|
  {
    if s == "" then []
    else [FirstNumber(s)] + Numbers(AfterFirst(s))
  }

  /** The number a string begins with, and the string left after the character that ends it. */
  function FirstNumber(s: string): nat {
    Value(s[..RunLength(s)]) % ULONG_MODULUS
  }

  function AfterFirst(s: string): (r: string)
    ensures s != "" ==> |r| < |s|
    ensures s == "" ==> r == ""
  {
    From(s, RunLength(s) + 1)
  }

  function Head(a: seq<nat>): nat {
    if a == [] then 0 else a[0]
  }

  function Tail(a: seq<nat>): seq<nat> {
    if a == [] then [] else a[1..]
  }

  /** Lexicographic comparison, the shorter sequence padded with zeros. */
  function Compare(a: seq<nat>, b: seq<nat>): (r: int)
    ensures r == -1 || r == 0 || r == 1
    decreases |a| + |b|
  {
    if a == [] && b == [] then 0
    else if Head(a) > Head(b) then 1
    else if Head(b) > Head(a) then -1
    else Compare(Tail(a), Tail(b))
  }

  function Order(v1: string, v2: string): int {
    Compare(Numbers(v1), Numbers(v2))
  }

  /** What the code computes. */
  function Answer(v1: string, v2: string): int {
    Order(v1, if |v1| < |v2| then v2[..|v1|] else v2)
  }

  // ---------------------------------------------------------------- the code

  /** `std::string::operator[]`, which also answers at the length. */
  function CharAt(s: string, i: nat): char
    requires i <= |s|
  {
    if i < |s| then s[i] else '\0'
  }

  function Cut(s: string, bound: nat): string {
    if bound <= |s| then s[..bound] else s
  }

  /** One of the two inner loops: from `start`, add up the digits of a number that begins at zero.  What remains
      of the string starts after the character the run stopped at.  The bound may lie past the string; a loop
      that would look at a position past its length has stepped outside it. */
  method ReadNumber(s: string, start: nat, bound: nat) returns (vnum: nat, i: nat, outside: bool)
    ensures i == start + RunLength(From(Cut(s, bound), start))
    ensures outside <==> |s| < start < bound
    ensures vnum == FirstNumber(From(Cut(s, bound), start))
    ensures From(Cut(s, bound), i + 1) == AfterFirst(From(Cut(s, bound), start))
  {
    ghost var rest, run := From(Cut(s, bound), start), "";
    vnum, i := 0, start;
    while i < bound && i <= |s| && IsDigit(CharAt(s, i))
      invariant i == start + |run| && run <= rest && AllDigits(run)
      invariant vnum == Value(run) % ULONG_MODULUS
    {
      AppendDigit(run, s[i]);
      vnum := (vnum * 10 + Digit(s[i])) % ULONG_MODULUS;
      run := run + [s[i]];
      i := i + 1;
    }
    outside := i < bound && i > |s|;
    assert |run| < |rest| ==> i < bound && i < |s| && rest[|run|] == s[i];
    NumberRead(Cut(s, bound), start, run);
  }

  lemma AppendDigit(run: string, c: char)
    requires AllDigits(run) && IsDigit(c)
    ensures AllDigits(run + [c])
    ensures Value(run + [c]) % ULONG_MODULUS == (Value(run) % ULONG_MODULUS * 10 + Digit(c)) % ULONG_MODULUS
  {
    assert (run + [c])[..|run|] == run;
    ShiftDigit(Value(run), Digit(c));
  }

  lemma ShiftDigit(v: nat, d: nat)
    ensures (v % ULONG_MODULUS * 10 + d) % ULONG_MODULUS == (v * 10 + d) % ULONG_MODULUS
  {
    var q := v / ULONG_MODULUS;
    assert v * 10 + d == v % ULONG_MODULUS * 10 + d + ULONG_MODULUS * (q * 10);
  }

  /** A run that reaches the end or stops before something else than a digit is the number the rest begins with. */
  lemma NumberRead(s: string, start: nat, run: string)
    requires run <= From(s, start) && AllDigits(run)
    requires |run| < |From(s, start)| ==> !IsDigit(From(s, start)[|run|])
    ensures RunLength(From(s, start)) == |run| && FirstNumber(From(s, start)) == Value(run) % ULONG_MODULUS
    ensures From(s, start + |run| + 1) == AfterFirst(From(s, start))
  {
    var rest := From(s, start);
    assert rest[..|run|] == run;
    RunIsMaximal(rest, |run|);
  }

  lemma {:induction false} RunIsMaximal(s: string, n: nat)
    requires n <= |s| && AllDigits(s[..n]) && (n < |s| ==> !IsDigit(s[n]))
    ensures RunLength(s) == n
  {
    var r := RunLength(s);
    assert forall x :: 0 <= x < n ==> s[..n][x] == s[x];
    assert forall x :: 0 <= x < r ==> s[..r][x] == s[x];
  }

  /** When the second string has been read to its end, and as far as it goes all numbers are equal, a first string
      that still has numbers makes the second loop look past the end of the second string. */
  predicate RunsOut(v1: string, v2: string) {
    |v1| > |v2| + 1 && Numbers(v2 + ".") < Numbers(v1)
  }

  predicate Padded(w: string, s: string) {
    w == s + "."
  }

  /** A separator at the end changes neither the next number nor what follows it, but for itself. */
  lemma NumberBeforeEnd(s: string, w: string, i: nat) returns (next: nat)
    requires Padded(w, s) && i <= |s|
    ensures i < next == i + RunLength(From(s, i)) + 1 <= |s| + 1 && From(w, i) != ""
    ensures FirstNumber(From(w, i)) == FirstNumber(From(s, i))
    ensures AfterFirst(From(w, i)) == From(w, next) && AfterFirst(From(s, i)) == From(s, next)
  {
    var rest, longer := s[i..], w[i..];
    var n := RunLength(rest);
    assert longer == rest + "." && longer[..n] == rest[..n];
    assert n < |rest| ==> longer[n] == rest[n];
    RunIsMaximal(longer, n);
    next := i + n + 1;
  }

  lemma NumbersSplit(s: string)
    ensures s == "" ==> Numbers(s) == []
    ensures s != "" ==> Numbers(s) == [FirstNumber(s)] + Numbers(AfterFirst(s))
  {}

  /** Where the numbers of a string begin when they are read off in turn, up to position `end`. */
  datatype Index = Index(nums: seq<nat>, starts: seq<nat>, s: string, end: nat) {
    ghost predicate Valid() {
      |starts| == |nums| + 1 && |s| <= end <= starts[|nums|] && forall k :: 0 <= k < |nums| ==> StartsAt(k)
    }

    ghost predicate StartsAt(k: nat)
      requires |starts| == |nums| + 1 && k < |nums|
    {
      starts[k] < end && nums[k] == FirstNumber(From(s, starts[k])) &&
      starts[k + 1] == starts[k] + RunLength(From(s, starts[k])) + 1
    }

    /** `k` numbers have been read up to position `i`; past the end they are zeros. */
    ghost predicate ReadTo(i: nat, k: nat)
      requires Valid()
    {
      if k <= |nums| then i == starts[k] else i >= end
    }
  }

  lemma ReadOneMore(x: Index, i: nat, k: nat)
    requires x.Valid() && x.ReadTo(i, k)
    ensures FirstNumber(From(x.s, i)) == At(x.nums, k) && x.ReadTo(i + RunLength(From(x.s, i)) + 1, k + 1)
  {
    if k < |x.nums| {
      assert x.StartsAt(k);
    } else {
      assert From(x.s, i) == "";
    }
  }

  /** One number more in front. */
  lemma IndexGrows(x: Index, y: Index)
    requires x.Valid() && y.s == x.s && y.end == x.end && y.nums != [] && y.starts != []
    requires y.nums[1..] == x.nums && y.starts[1..] == x.starts && y.StartsAt(0)
    ensures y.Valid()
  {
    forall k | 0 < k < |y.nums|
      ensures y.StartsAt(k)
    {
      assert x.StartsAt(k - 1) && y.starts[k] == x.starts[k - 1] && y.starts[k + 1] == x.starts[k];
      assert y.nums[k] == x.nums[k - 1];
    }
  }

  lemma NumberHere(s: string, i: nat) returns (next: nat)
    requires i < |s|
    ensures i < next == i + RunLength(From(s, i)) + 1 && From(s, i) != "" && AfterFirst(From(s, i)) == From(s, next)
  {
    next := i + RunLength(From(s, i)) + 1;
  }

  lemma {:induction false} NumbersIndexed(s: string, i: nat) returns (x: Index)
    ensures x.s == s && x.end == |s| && x.nums == Numbers(From(s, i)) && x.Valid() && x.starts[0] == i
    decreases Remaining(|s|, i)
  {
    NumbersSplit(From(s, i));
    if i >= |s| {
      x := Index([], [i], s, |s|);
    } else {
      var next := NumberHere(s, i);
      var tail := NumbersIndexed(s, next);
      x := Index(Numbers(From(s, i)), [i] + tail.starts, s, |s|);
      IndexGrows(tail, x);
    }
  }

  /** With one separator more at the end, the last number is followed by position |s| + 1. */
  lemma {:induction false} PaddedNumbersIndexed(s: string, w: string, i: nat) returns (x: Index)
    requires Padded(w, s) && i <= |s| + 1
    ensures x.s == s && x.end == |s| + 1 && x.nums == Numbers(From(w, i)) && x.Valid() && x.starts[0] == i
    ensures x.starts[|x.nums|] == |s| + 1
    decreases |s| + 1 - i
  {
    NumbersSplit(From(w, i));
    if i == |s| + 1 {
      x := Index([], [i], s, |s| + 1);
    } else {
      var next := NumberBeforeEnd(s, w, i);
      var tail := PaddedNumbersIndexed(s, w, next);
      x := Index(Numbers(From(w, i)), [i] + tail.starts, s, |s| + 1);
      IndexGrows(tail, x);
    }
  }

  /** Two indexes of one string tell the same numbers, up to zeros at the end. */
  lemma {:induction false} SameNumbers(x: Index, y: Index, k: nat) returns (i: nat)
    requires x.Valid() && y.Valid() && x.s == y.s && x.starts[0] == y.starts[0]
    ensures x.ReadTo(i, k) && y.ReadTo(i, k) && At(x.nums, k) == At(y.nums, k)
  {
    if k == 0 {
      i := x.starts[0];
    } else {
      var before := SameNumbers(x, y, k - 1);
      ReadOneMore(x, before, k - 1);
      ReadOneMore(y, before, k - 1);
      i := before + RunLength(From(x.s, before)) + 1;
    }
    ReadOneMore(x, i, k);
    ReadOneMore(y, i, k);
  }

  /** `None` is a read outside the second string, whose value the source does not define. */
  method VersionCompare(v1: string, v2: string) returns (r: Option<int>)
    ensures r.None? <==> RunsOut(v1, v2)
    ensures r.Some? ==> r.value == Answer(v1, v2)
    ensures r.Some? && |v1| >= |v2| ==> r.value == Order(v1, v2)
  {
    assert v2[..|v2|] == v2;
    r := CompareCut(v1, v2);
  }

  /** The second string is compared as cut to the length of the first. */
  method CompareCut(v1: string, v2: string) returns (r: Option<int>)
    ensures r.Some? ==> r.value == Order(v1, Cut(v2, |v1|))
    ensures r.None? <==> RunsOut(v1, v2)
  {
    ghost var s := Cut(v2, |v1|);
    ghost var x := NumbersIndexed(v1, 0);
    ghost var w := s + ".";
    ghost var y := PaddedNumbersIndexed(s, w, 0);
    assert From(v1, 0) == v1 && From(s, 0) == s && From(w, 0) == w;
    ghost var z := NumbersIndexed(s, 0);
    forall k: nat
      ensures At(Numbers(w), k) == At(Numbers(s), k)
    {
      var i := SameNumbers(y, z, k);
    }
    CompareByFirstDifference(Numbers(w), Numbers(s));
    CompareRespectsEqual(Numbers(v1), Numbers(w), Numbers(s));
    r := CompareLoop(v1, v2, x, y);
  }

  function Remaining(length: nat, i: nat): nat {
    if i < length then length - i else 0
  }

  /** Once around the loop: the verdict on the two next numbers, zero if they are equal, and where they end. */
  method CompareNext(v1: string, v2: string, i: nat, j: nat, ghost x: Index, ghost y: Index, ghost k: nat)
    returns (verdict: int, i': nat, j': nat, outside: bool)
    requires x.Valid() && x.s == v1 && x.ReadTo(i, k) && y.Valid() && y.s == Cut(v2, |v1|) && y.ReadTo(j, k)
    ensures outside <==> |v2| < j < |v1|
    ensures verdict == if At(x.nums, k) > At(y.nums, k) then 1 else if At(y.nums, k) > At(x.nums, k) then -1 else 0
    ensures i <= i' && x.ReadTo(i' + 1, k + 1) && j <= j' && y.ReadTo(j' + 1, k + 1)
  {
    assert Cut(v1, |v1|) == v1;
    ReadOneMore(x, i, k);
    ReadOneMore(y, j, k);
    var vnum1, vnum2;
    vnum1, i', outside := ReadNumber(v1, i, |v1|);
    vnum2, j', outside := ReadNumber(v2, j, |v1|);
    verdict := if vnum1 > vnum2 then 1 else if vnum2 > vnum1 then -1 else 0;
  }

  /** Equal up to `k`, the sequences are decided by their next numbers, or equal if neither has any left. */
  lemma Decided(a: seq<nat>, b: seq<nat>, k: nat)
    requires forall m: nat :: m < k ==> At(a, m) == At(b, m)
    ensures At(a, k) > At(b, k) ==> Compare(a, b) == 1
    ensures At(b, k) > At(a, k) ==> Compare(a, b) == -1
    ensures k >= |a| && k >= |b| ==> Compare(a, b) == 0
    ensures k < |b| && At(a, k) != At(b, k) ==> !(b < a)
    ensures k == |b| < |a| ==> b < a
  {
    CompareByFirstDifference(a, b);
    assert At(a, k) > At(b, k) ==> GreaterAt(a, b, k);
    assert At(b, k) > At(a, k) ==> GreaterAt(b, a, k);
    if k == |b| < |a| {
      forall m | 0 <= m < k
        ensures a[m] == b[m]
      {
        assert At(a, m) == At(b, m);
      }
    }
  }

  lemma LeftToRead(x: Index, i: nat, k: nat)
    requires x.Valid() && x.ReadTo(i, k)
    ensures i < x.end <==> k < |x.nums|
  {
    assert k < |x.nums| ==> x.StartsAt(k);
  }

  /** At the end of the loop all numbers have been read, but for a zero before the separator added. */
  lemma Exhausted(x: Index, y: Index, i: nat, j: nat, k: nat)
    requires x.Valid() && x.ReadTo(i, k) && i >= x.end && y.Valid() && y.ReadTo(j, k) && j >= |y.s|
    requires y.end == |y.s| + 1 && forall m: nat :: m < k ==> At(x.nums, m) == At(y.nums, m)
    ensures Compare(x.nums, y.nums) == 0 && (k <= |y.nums| ==> !(y.nums < x.nums))
  {
    LeftToRead(x, i, k);
    ReadOneMore(y, j, k);
    assert From(y.s, j) == "";
    LeftToRead(y, j + RunLength("") + 1, k + 1);
    Decided(x.nums, y.nums, k + 1);
  }

  /** The loop of `versionCompare`. */
  method CompareLoop(v1: string, v2: string, ghost x: Index, ghost y: Index) returns (r: Option<int>)
    requires x.Valid() && x.s == v1 && x.end == |v1| && x.starts[0] == 0
    requires y.Valid() && y.s == Cut(v2, |v1|) && y.end == y.starts[|y.nums|] == |y.s| + 1 && y.starts[0] == 0
    ensures r.Some? ==> r.value == Compare(x.nums, y.nums)
    ensures r.None? <==> |v1| > |v2| + 1 && y.nums < x.nums
  {
    ghost var k: nat := 0;
    var i: nat, j: nat := 0, 0;
    while i < |v1| || j < |v2|
      invariant x.ReadTo(i, k) && y.ReadTo(j, k)
      invariant forall m: nat :: m < k ==> At(x.nums, m) == At(y.nums, m)
      invariant |v1| > |v2| + 1 ==> k <= |y.nums|
      decreases Remaining(|v1|, i) + Remaining(|v2|, j)
    {
      LeftToRead(x, i, k);
      LeftToRead(y, j, k);
      Decided(x.nums, y.nums, k);
      var verdict, i', j', outside := CompareNext(v1, v2, i, j, x, y, k);
      if outside {
        return None;
      }
      if verdict != 0 {
        return Some(verdict);
      }
      i, j, k := i' + 1, j' + 1, k + 1;
    }
    Exhausted(x, y, i, j, k);
    return Some(0);
  }

  // ---------------------------------------------------------------- the comparison is a total preorder

  function At(a: seq<nat>, k: nat): nat {
    if k < |a| then a[k] else 0
  }

  /** The two sequences first differ at `k`, where the first is the larger. */
  ghost predicate GreaterAt(a: seq<nat>, b: seq<nat>, k: nat) {
    At(a, k) > At(b, k) && forall m: nat :: m < k ==> At(a, m) == At(b, m)
  }

  lemma {:induction false} CompareByFirstDifference(a: seq<nat>, b: seq<nat>)
    ensures Compare(a, b) == 1 <==> exists k: nat :: GreaterAt(a, b, k)
    ensures Compare(a, b) == -1 <==> exists k: nat :: GreaterAt(b, a, k)
    ensures Compare(a, b) == 0 <==> forall k: nat :: At(a, k) == At(b, k)
    decreases |a| + |b|
  {
    assert At(a, 0) == Head(a) && At(b, 0) == Head(b);
    if Head(a) > Head(b) {
      assert GreaterAt(a, b, 0);
    } else if Head(b) > Head(a) {
      assert GreaterAt(b, a, 0);
    } else if a != [] || b != [] {
      CompareByFirstDifference(Tail(a), Tail(b));
      DifferenceInTail(a, b);
      DifferenceInTail(b, a);
      assert forall k: nat :: At(Tail(a), k) == At(a, k + 1) && At(Tail(b), k) == At(b, k + 1);
      assert forall k: nat :: k > 0 ==> At(a, k) == At(Tail(a), k - 1) && At(b, k) == At(Tail(b), k - 1);
    }
  }

  lemma DifferenceInTail(a: seq<nat>, b: seq<nat>)
    requires Head(a) == Head(b)
    ensures (exists k: nat :: GreaterAt(a, b, k)) <==> exists k: nat :: GreaterAt(Tail(a), Tail(b), k)
  {
    if k: nat :| GreaterAt(a, b, k) {
      assert k > 0 && GreaterAt(Tail(a), Tail(b), k - 1) by {
        assert forall m: nat :: m < k - 1 ==> At(Tail(a), m) == At(a, m + 1) && At(Tail(b), m) == At(b, m + 1);
      }
    }
    if k: nat :| GreaterAt(Tail(a), Tail(b), k) {
      assert GreaterAt(a, b, k + 1) by {
        assert forall m: nat :: 0 < m < k + 1 ==> At(a, m) == At(Tail(a), m - 1) && At(b, m) == At(Tail(b), m - 1);
      }
    }
  }

  lemma {:induction false} CompareAntisymmetric(a: seq<nat>, b: seq<nat>)
    ensures Compare(a, b) == -Compare(b, a)
    decreases |a| + |b|
  {
    if (a != [] || b != []) && Head(a) == Head(b) {
      CompareAntisymmetric(Tail(a), Tail(b));
    }
  }

  lemma {:induction false} CompareTransitive(a: seq<nat>, b: seq<nat>, c: seq<nat>)
    requires Compare(a, b) <= 0 && Compare(b, c) <= 0
    ensures Compare(a, c) <= 0
    ensures Compare(a, c) == 0 ==> Compare(a, b) == 0 && Compare(b, c) == 0
    decreases |a| + |b| + |c|
  {
    if a != [] || b != [] || c != [] {
      if Head(a) == Head(b) == Head(c) {
        assert Compare(a, b) == Compare(Tail(a), Tail(b)) && Compare(b, c) == Compare(Tail(b), Tail(c));
        assert Compare(a, c) == Compare(Tail(a), Tail(c));
        CompareTransitive(Tail(a), Tail(b), Tail(c));
      }
    }
  }

  /** On strings of one length the code's answers form a total preorder. */
  lemma VersionsArePreordered(u: string, v: string, w: string)
    requires |u| == |v| == |w|
    ensures Answer(u, u) == 0
    ensures Answer(u, v) == -Answer(v, u)
    ensures Answer(u, v) <= 0 && Answer(v, w) <= 0 ==> Answer(u, w) <= 0
  {
    CompareByFirstDifference(Numbers(u), Numbers(u));
    CompareAntisymmetric(Numbers(u), Numbers(v));
    if Answer(u, v) <= 0 && Answer(v, w) <= 0 {
      CompareTransitive(Numbers(u), Numbers(v), Numbers(w));
    }
  }

  // ---------------------------------------------------------------- what a version string denotes

  /** Digit strings with single non-digits between them. */
  function Join(fields: seq<string>, separators: string): string
    requires |fields| == |separators| + 1
  {
    if separators == "" then fields[0]
    else fields[0] + [separators[0]] + Join(fields[1..], separators[1..])
  }

  /** Writing numbers between separators and reading them back gives the numbers, modulo the word size. */
  lemma {:induction false} NumbersOfJoin(fields: seq<string>, separators: string, k: nat)
    requires |fields| == |separators| + 1 && k < |fields|
    requires forall f :: f in fields ==> AllDigits(f)
    requires forall x :: 0 <= x < |separators| ==> !IsDigit(separators[x])
    ensures |Numbers(Join(fields, separators))| <= |fields|
    ensures At(Numbers(Join(fields, separators)), k) == Value(fields[k]) % ULONG_MODULUS
    decreases |fields|
  {
    var s, n := Join(fields, separators), |fields[0]|;
    assert fields[0] in fields;
    assert s[..n] == fields[0];
    RunIsMaximal(s, n);
    if separators == "" {
      assert Numbers(From(s, n + 1)) == [];
    } else {
      assert s[n + 1..] == Join(fields[1..], separators[1..]);
      NumbersOfJoin(fields[1..], separators[1..], if k == 0 then 0 else k - 1);
    }
  }

  // ---------------------------------------------------------------- when the bound on the second loop is harmless

  lemma CompareRespectsEqual(a: seq<nat>, b: seq<nat>, c: seq<nat>)
    requires Compare(b, c) == 0
    ensures Compare(a, b) == Compare(a, c)
  {
    CompareAntisymmetric(b, c);
    CompareAntisymmetric(a, b);
    CompareAntisymmetric(a, c);
    if Compare(a, b) <= 0 {
      CompareTransitive(a, b, c);
    } else {
      CompareTransitive(c, b, a);
    }
    if Compare(a, c) <= 0 {
      CompareTransitive(a, c, b);
    } else {
      CompareTransitive(b, c, a);
    }
  }

  /** Against `v2`, every first string of `n` characters is compared rightly exactly when cutting `v2` to `n`
      characters leaves the version it denotes unchanged. */
  lemma RightExactlyWhenCutIsHarmless(v2: string, n: nat)
    requires n <= |v2|
    ensures (forall v1: string :: |v1| == n ==> Answer(v1, v2) == Order(v1, v2)) <==> Order(v2[..n], v2) == 0
  {
    var cut := v2[..n];
    assert n == |v2| ==> cut == v2;
    CompareByFirstDifference(Numbers(cut), Numbers(cut));
    if Order(cut, v2) == 0 {
      forall v1: string | |v1| == n
        ensures Answer(v1, v2) == Order(v1, v2)
      {
        CompareRespectsEqual(Numbers(v1), Numbers(cut), Numbers(v2));
      }
    } else {
      assert Answer(cut, v2) == 0 != Order(cut, v2);
    }
  }

  /** "1" against "12" is answered as equal, and the other way round as greater. */
  lemma OneEqualsTwelve()
    ensures Answer("1", "12") == 0 && Order("1", "12") == -1 && Answer("12", "1") == 1
  {
    RunIsMaximal("1", 1);
    RunIsMaximal("12", 2);
    assert "1"[..1] == "1" && "12"[..2] == "12" && "12"[..1] == "1";
    assert Value("1") == 1 by { assert "1"[..0] == ""; }
    assert Value("12") == 12;
    assert Numbers("1") == [1] && Numbers("12") == [12];
  }

  /** "1.0" against "1" looks past the end of "1"; "201" against "1" does not, and is answered. */
  lemma OneOutlived()
    ensures RunsOut("1.0", "1") && !RunsOut("201", "1") && Answer("201", "1") == 1
  {
    var long, short, end := "1.0", "1.", "201";
    assert "1" + "." == short;
    assert long[..1] == "1" && short[..1] == "1" && long[2..] == "0" && short[2..] == "" && "1"[..1] == "1";
    RunIsMaximal(long, 1);
    RunIsMaximal(short, 1);
    RunIsMaximal(end, 3);
    RunIsMaximal("1", 1);
    assert Value("1") == 1 by { assert "1"[..0] == ""; }
    assert end[..3] == end && end[..2] == "20" && "20"[..1] == "2" && "2"[..0] == "";
    assert Value("2") == 2 && Value("20") == 20 && Value(end) == 201;
    NumbersSplit(long);
    NumbersSplit(short);
    NumbersSplit("0");
    NumbersSplit("1");
    NumbersSplit(end);
    assert Numbers(short) == [1] && Numbers("1") == [1] && Numbers(end) == [201];
    assert Numbers(long) == [1] + Numbers("0");
  }
}
