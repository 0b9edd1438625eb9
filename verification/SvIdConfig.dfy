/**
 Satellite blacklists as lists and as bit masks (gps/gnss/GnssAdapter.cpp).

 The code shifts an `int` one: by up to 30 it stays positive, by 31 it becomes negative and widens with its sign, and
 by more the language leaves the result open.  `wild` stands for whatever `int` the machine then delivers.
 */
module SvIdConfig {
  function Pow2(n: nat): (p: nat)
    ensures p >= 1
  {
    if n == 0 then 1 else 2 * Pow2(n - 1)
  }

  type uint64 = x: int | 0 <= x < Pow2(64)
  type int32 = x: int | -0x8000_0000 <= x < 0x8000_0000

  const ALL_BITS: uint64 := Pow2(64) - 1

  datatype SvType = Unknown | Gps | Sbas | Glonass | Qzss | Beidou | Galileo | Navic

  /** Satellite numbers; no sum of theirs leaves the 32 bits they have in the source. */
  datatype Source = Source(constellation: SvType, svId: nat)

  /** The four masks of `GnssSvIdConfig`. */
  datatype Config = Config(glo: uint64, bds: uint64, qzss: uint64, gal: uint64)

  const CLEARED := Config(0, 0, 0, 0)

  predicate Configured(t: SvType) {
    t.Glonass? || t.Beidou? || t.Qzss? || t.Galileo?
  }

  /** The satellite of bit 0. */
  function InitialSvId(t: SvType): nat
    requires Configured(t)
  {
    match t
    case Glonass => 65
    case Beidou => 201
    case Qzss => 193
    case Galileo => 301
  }

  function MaskOf(c: Config, t: SvType): uint64
    requires Configured(t)
  {
    match t
    case Glonass => c.glo
    case Beidou => c.bds
    case Qzss => c.qzss
    case Galileo => c.gal
  }

  function WithMask(c: Config, t: SvType, mask: uint64): (r: Config)
    requires Configured(t)
    ensures forall u: SvType :: Configured(u) ==> MaskOf(r, u) == if u == t then mask else MaskOf(c, u)
  {
    match t
    case Glonass => c.(glo := mask)
    case Beidou => c.(bds := mask)
    case Qzss => c.(qzss := mask)
    case Galileo => c.(gal := mask)
  }

  // ---------------------------------------------------------------- words

  predicate Bit(mask: nat, k: nat) {
    if k == 0 then mask % 2 == 1 else Bit(mask / 2, k - 1)
  }

  /** The bitwise or of two words of `n` bits. */
  function Or(a: nat, b: nat, n: nat): (r: nat)
    requires a < Pow2(n) && b < Pow2(n)
    ensures r < Pow2(n)
  {
    if n == 0 then 0 else 2 * Or(a / 2, b / 2, n - 1) + if a % 2 == 1 || b % 2 == 1 then 1 else 0
  }

  /** An `int` widened to `uint64_t`. */
  function Widened(v: int32): uint64
  {
    WordSizes();
    if v < 0 then Pow2(64) + v else v
  }

  lemma WordSizes()
    ensures Pow2(31) == 0x8000_0000 < Pow2(64)
  {
    assert Pow2(4) == 0x10 && Pow2(8) == 0x100 && Pow2(12) == 0x1000;
    assert Pow2(16) == 0x1_0000 && Pow2(20) == 0x10_0000 && Pow2(24) == 0x100_0000;
    assert Pow2(28) == 0x1000_0000;
    Smaller(31, 64);
  }

  function ShiftedOne(wild: nat -> int32, k: nat): uint64 {
    WordSizes();
    Widened(if k < 31 then Smaller(k, 31); Pow2(k) else if k == 31 then -0x8000_0000 else wild(k))
  }

  lemma {:induction false} Smaller(j: nat, k: nat)
    requires j < k
    ensures Pow2(j) < Pow2(k)
  {
    if j < k - 1 {
      Smaller(j, k - 1);
    }
  }

  // ---------------------------------------------------------------- from a list to masks

  /** What one list entry does to the mask of its constellation. */
  function Marked(wild: nat -> int32, mask: uint64, first: nat, svId: nat): uint64 {
    if svId == 0 then ALL_BITS
    else if svId < first || svId >= first + 64 then mask
    else Or(mask, ShiftedOne(wild, svId - first), 64)
  }

  /** The mask of one constellation after the first `n` entries. */
  function MarkedBy(wild: nat -> int32, mask: uint64, t: SvType, sources: seq<Source>, n: nat): uint64
    requires Configured(t) && n <= |sources|
  {
    if n == 0 then mask
    else
      var before, s := MarkedBy(wild, mask, t, sources, n - 1), sources[n - 1];
      if s.constellation == t then Marked(wild, before, InitialSvId(t), s.svId) else before
  }

  function Encoded(wild: nat -> int32, sources: seq<Source>, config: Config): Config {
    if |sources| == 0 then CLEARED
    else
      Config(MarkedBy(wild, config.glo, Glonass, sources, |sources|),
             MarkedBy(wild, config.bds, Beidou, sources, |sources|),
             MarkedBy(wild, config.qzss, Qzss, sources, |sources|),
             MarkedBy(wild, config.gal, Galileo, sources, |sources|))
  }

  /** One round of the loop over the list. */
  method MarkSource(wild: nat -> int32, config: Config, source: Source) returns (r: Config)
    ensures var t := source.constellation;
            r == if Configured(t) then WithMask(config, t, Marked(wild, MaskOf(config, t), InitialSvId(t), source.svId))
                 else config
  {
    r := config;
    if Configured(source.constellation) {
      var initialSvId, svMask := InitialSvId(source.constellation), MaskOf(config, source.constellation);
      if source.svId == 0 {
        svMask := ALL_BITS;
      } else if !(source.svId < initialSvId || source.svId >= initialSvId + 64) {
        svMask := Or(svMask, ShiftedOne(wild, source.svId - initialSvId), 64);
      }
      r := WithMask(config, source.constellation, svMask);
    }
  }

  method ConvertToGnssSvIdConfig(wild: nat -> int32, sources: seq<Source>, config: Config)
    returns (r: Config, retVal: bool)
    ensures r == Encoded(wild, sources, config)
    ensures retVal <==> sources == [] || r != CLEARED
  {
    r, retVal := config, false;
    if |sources| == 0 {
      r, retVal := CLEARED, true;
    } else {
      var n := 0;
      while n < |sources|
        invariant 0 <= n <= |sources|
        invariant forall t: SvType :: Configured(t) ==> MaskOf(r, t) == MarkedBy(wild, MaskOf(config, t), t, sources, n)
      {
        r := MarkSource(wild, r, sources[n]);
        n := n + 1;
      }
      assert MaskOf(r, Glonass) == r.glo && MaskOf(r, Beidou) == r.bds;
      assert MaskOf(r, Qzss) == r.qzss && MaskOf(r, Galileo) == r.gal;
      if r.glo != 0 || r.bds != 0 || r.gal != 0 || r.qzss != 0 {
        retVal := true;
      }
    }
  }

  // ---------------------------------------------------------------- from masks to a list

  /** The satellites of a mask whose bit 0 is bit `bit` of the whole. */
  function Listed(mask: nat, bit: nat, first: nat, t: SvType): seq<Source>
    decreases mask
  {
    if mask == 0 then []
    else (if mask % 2 == 1 then [Source(t, bit + first)] else []) + Listed(mask / 2, bit + 1, first, t)
  }

  function ListOf(mask: uint64, t: SvType): seq<Source>
    requires Configured(t)
  {
    if mask == ALL_BITS then [Source(t, 0)] else Listed(mask, 0, InitialSvId(t), t)
  }

  function Decoded(c: Config): seq<Source> {
    ListOf(c.bds, Beidou) + ListOf(c.gal, Galileo) + ListOf(c.glo, Glonass) + ListOf(c.qzss, Qzss)
  }

  method ConvertGnssSvIdMaskToList(mask: uint64, svIds: seq<Source>, svType: SvType) returns (r: seq<Source>)
    requires Configured(svType)
    ensures r == svIds + ListOf(mask, svType)
  {
    r := svIds;
    if mask == ALL_BITS {
      r := r + [Source(svType, 0)];
      return;
    }
    var initialSvId := InitialSvId(svType);
    ghost var answer := svIds + Listed(mask, 0, initialSvId, svType);
    var svIdMask: nat, bitNumber := mask, 0;
    while svIdMask > 0
      invariant bitNumber >= 0 && answer == r + Listed(svIdMask, bitNumber, initialSvId, svType)
      decreases svIdMask
    {
      if svIdMask % 2 == 1 {
        r := r + [Source(svType, bitNumber + initialSvId)];
      }
      bitNumber := bitNumber + 1;
      svIdMask := svIdMask / 2;
    }
  }

  /** One of the four branches of `convertFromGnssSvIdConfig`. */
  method AppendMask(mask: uint64, svType: SvType, svIds: seq<Source>, flag: bool) returns (r: seq<Source>, given: bool)
    requires Configured(svType)
    ensures r == svIds + ListOf(mask, svType)
    ensures given <==> flag || mask != 0
  {
    r, given := svIds, flag;
    if mask != 0 {
      r := ConvertGnssSvIdMaskToList(mask, r, svType);
      given := true;
    }
  }

  /** Appends to the list and answers whether it now counts as given. */
  method ConvertFromGnssSvIdConfig(svConfig: Config, svIds: seq<Source>, flag: bool)
    returns (r: seq<Source>, given: bool)
    ensures r == svIds + Decoded(svConfig)
    ensures given <==> flag || svConfig != CLEARED
  {
    r, given := AppendMask(svConfig.bds, Beidou, svIds, flag);
    r, given := AppendMask(svConfig.gal, Galileo, r, given);
    r, given := AppendMask(svConfig.glo, Glonass, r, given);
    r, given := AppendMask(svConfig.qzss, Qzss, r, given);
  }

  // ---------------------------------------------------------------- bits

  lemma {:induction false} BitOfOr(a: nat, b: nat, n: nat, k: nat)
    requires a < Pow2(n) && b < Pow2(n)
    ensures Bit(Or(a, b, n), k) <==> Bit(a, k) || Bit(b, k)
    decreases n
  {
    if n == 0 {
      BitOfNone(k);
    } else if k > 0 {
      BitOfOr(a / 2, b / 2, n - 1, k - 1);
    }
  }

  lemma {:induction false} BitOfNone(k: nat)
    ensures !Bit(0, k)
  {
    if k > 0 {
      BitOfNone(k - 1);
    }
  }

  lemma {:induction false} BitOfFull(n: nat, k: nat)
    ensures Bit(Pow2(n) - 1, k) <==> k < n
  {
    if n == 0 {
      BitOfNone(k);
    } else if k > 0 {
      BitOfFull(n - 1, k - 1);
    }
  }

  /** The word of `n` bits that has exactly those from `j` on. */
  lemma {:induction false} BitOfTop(n: nat, j: nat, k: nat)
    requires j <= n && Pow2(j) <= Pow2(n)
    ensures Bit(Pow2(n) - Pow2(j), k) <==> j <= k < n
    decreases n
  {
    if j == 0 {
      BitOfFull(n, k);
    } else {
      assert (Pow2(n) - Pow2(j)) % 2 == 0 && (Pow2(n) - Pow2(j)) / 2 == Pow2(n - 1) - Pow2(j - 1);
      if k > 0 {
        BitOfTop(n - 1, j - 1, k - 1);
      }
    }
  }

  lemma {:induction false} BitOfPow2(j: nat, k: nat)
    ensures Bit(Pow2(j), k) <==> j == k
  {
    if j == 0 {
      if k > 0 {
        BitOfNone(k - 1);
      }
    } else if k > 0 {
      BitOfPow2(j - 1, k - 1);
    }
  }

  lemma {:induction false} NoBitBeyond(mask: nat, n: nat, k: nat)
    requires mask < Pow2(n) && Bit(mask, k)
    ensures k < n
  {
    if n == 0 {
      BitOfNone(k);
    } else if k > 0 {
      NoBitBeyond(mask / 2, n - 1, k - 1);
    }
  }

  lemma {:induction false} BitsDecide(a: nat, b: nat, n: nat)
    requires a < Pow2(n) && b < Pow2(n) && forall k: nat :: Bit(a, k) <==> Bit(b, k)
    ensures a == b
  {
    if n > 0 {
      assert Bit(a, 0) <==> Bit(b, 0);
      forall k: nat
        ensures Bit(a / 2, k) <==> Bit(b / 2, k)
      {
        assert Bit(a, k + 1) <==> Bit(b, k + 1);
      }
      BitsDecide(a / 2, b / 2, n - 1);
    }
  }

  // ---------------------------------------------------------------- what lists and masks say

  /** Whether a list entry stands for the satellite of bit `k`. */
  predicate Marks(wild: nat -> int32, first: nat, svId: nat, k: nat) {
    (svId == 0 && k < 64) || (first <= svId < first + 64 && Bit(ShiftedOne(wild, svId - first), k))
  }

  lemma MarkedIsExact(wild: nat -> int32, mask: uint64, first: nat, svId: nat, k: nat)
    requires first > 0
    ensures Bit(Marked(wild, mask, first, svId), k) <==> Bit(mask, k) || Marks(wild, first, svId, k)
  {
    if svId == 0 {
      BitOfFull(64, k);
      if Bit(mask, k) {
        NoBitBeyond(mask, 64, k);
      }
    } else if first <= svId < first + 64 {
      BitOfOr(mask, ShiftedOne(wild, svId - first), 64, k);
    }
  }

  /** Encoding adds to a mask exactly the satellites its entries stand for. */
  lemma {:induction false} MarkedByIsExact(
    wild: nat -> int32, mask: uint64, t: SvType, sources: seq<Source>, n: nat, k: nat)
    requires Configured(t) && n <= |sources|
    ensures Bit(MarkedBy(wild, mask, t, sources, n), k) <==>
            Bit(mask, k) ||
            exists i :: 0 <= i < n && sources[i].constellation == t && Marks(wild, InitialSvId(t), sources[i].svId, k)
  {
    if n > 0 {
      MarkedByIsExact(wild, mask, t, sources, n - 1, k);
      if sources[n - 1].constellation == t {
        MarkedIsExact(wild, MarkedBy(wild, mask, t, sources, n - 1), InitialSvId(t), sources[n - 1].svId, k);
      }
    }
  }

  /** The shift is right exactly up to 30; by 31 it sets all the bits from there on. */
  /** The configuration made of a list: the empty list clears every mask, any other one adds what it stands for. */
  lemma EncodedIsExact(wild: nat -> int32, sources: seq<Source>, c: Config, t: SvType, k: nat)
    requires Configured(t)
    ensures Bit(MaskOf(Encoded(wild, sources, c), t), k) <==>
            sources != [] && (Bit(MaskOf(c, t), k) || SomeMarks(wild, sources, t, k))
  {
    if sources == [] {
      BitOfNone(k);
    } else {
      MarkedByIsExact(wild, MaskOf(c, t), t, sources, |sources|, k);
    }
  }

  /** The satellites of bit 0. */
  lemma FirstSatellites(wild: nat -> int32, t: SvType, first: nat)
    requires (t == Glonass && first == 65) || (t == Qzss && first == 193) || (t == Beidou && first == 201) ||
             (t == Galileo && first == 301)
    ensures MaskOf(Encoded(wild, [Source(t, first)], CLEARED), t) == 1
  {
    var list := [Source(t, first)];
    forall k: nat
      ensures Bit(MaskOf(Encoded(wild, list, CLEARED), t), k) <==> Bit(1, k)
    {
      EncodedIsExact(wild, list, CLEARED, t, k);
      BitOfNone(k);
      BitOfShiftedOne(wild, 0, k);
      BitOfPow2(0, k);
      assert SomeMarks(wild, list, t, k) <==> Marks(wild, InitialSvId(t), list[0].svId, k);
    }
    Smaller(0, 64);
    BitsDecide(MaskOf(Encoded(wild, list, CLEARED), t), 1, 64);
  }

  lemma BitOfShiftedOne(wild: nat -> int32, j: nat, k: nat)
    ensures j < 31 ==> (Bit(ShiftedOne(wild, j), k) <==> j == k)
    ensures j == 31 ==> (Bit(ShiftedOne(wild, j), k) <==> 31 <= k < 64)
  {
    WordSizes();
    if j < 31 {
      Smaller(j, 31);
      BitOfPow2(j, k);
    } else if j == 31 {
      BitOfTop(64, 31, k);
    }
  }

  /** So an entry names its own satellite and no other, on every machine, exactly up to bit 30. */
  lemma ShiftIsRightExactly(j: nat)
    requires j < 64
    ensures (forall wild: nat -> int32, k: nat :: Bit(ShiftedOne(wild, j), k) <==> j == k) <==> j < 31
  {
    if j < 31 {
      forall wild: nat -> int32, k: nat
        ensures Bit(ShiftedOne(wild, j), k) <==> j == k
      {
        BitOfShiftedOne(wild, j, k);
      }
    } else {
      var wild: nat -> int32 := (k: nat) => -1;
      var k := if j == 31 then 32 else 0;
      BitOfShiftedOne(wild, j, k);
      BitOfFull(64, k);
      assert Bit(ShiftedOne(wild, j), k) && j != k;
    }
  }

  /** Decoding lists exactly the satellites of a mask: the bits of `mask`, which starts at bit `bit` of the whole. */
  lemma {:induction false} ListedIsExact(mask: nat, bit: nat, first: nat, t: SvType, s: Source)
    ensures s in Listed(mask, bit, first, t) <==>
            s.constellation == t && first + bit <= s.svId && Bit(mask, s.svId - first - bit)
    decreases mask
  {
    if mask == 0 {
      if first + bit <= s.svId {
        BitOfNone(s.svId - first - bit);
      }
    } else {
      ListedIsExact(mask / 2, bit + 1, first, t, s);
    }
  }

  lemma ListOfIsExact(mask: uint64, t: SvType, s: Source)
    requires Configured(t)
    ensures s in ListOf(mask, t) <==>
            s.constellation == t &&
            if mask == ALL_BITS then s.svId == 0 else InitialSvId(t) <= s.svId && Bit(mask, s.svId - InitialSvId(t))
  {
    ListedIsExact(mask, 0, InitialSvId(t), t, s);
  }

  lemma DecodedIsExact(c: Config, s: Source)
    ensures s in Decoded(c) <==> Configured(s.constellation) && s in ListOf(MaskOf(c, s.constellation), s.constellation)
  {
    ListOfIsExact(c.bds, Beidou, s);
    ListOfIsExact(c.gal, Galileo, s);
    ListOfIsExact(c.glo, Glonass, s);
    ListOfIsExact(c.qzss, Qzss, s);
  }

  // ---------------------------------------------------------------- the round trip

  /** All ones, or no bit above the thirtieth. */
  ghost predicate Plain(mask: uint64) {
    mask == ALL_BITS || forall k :: 31 <= k < 64 ==> !Bit(mask, k)
  }

  ghost predicate AllPlain(c: Config) {
    forall t: SvType :: Configured(t) ==> Plain(MaskOf(c, t))
  }

  /** What decoding and encoding make of a mask. */
  function Again(wild: nat -> int32, c: Config, t: SvType): uint64
    requires Configured(t)
  {
    MarkedBy(wild, 0, t, Decoded(c), |Decoded(c)|)
  }

  /** A list that names exactly the satellites of a mask. */
  ghost predicate Names(list: seq<Source>, t: SvType, mask: uint64)
    requires Configured(t)
  {
    forall id: nat :: Source(t, id) in list <==>
                      if mask == ALL_BITS then id == 0 else InitialSvId(t) <= id && Bit(mask, id - InitialSvId(t))
  }

  lemma DecodedNames(c: Config, t: SvType)
    requires Configured(t)
    ensures Names(Decoded(c), t, MaskOf(c, t))
  {
    forall id: nat
      ensures Source(t, id) in Decoded(c) <==>
              if MaskOf(c, t) == ALL_BITS then id == 0
              else InitialSvId(t) <= id && Bit(MaskOf(c, t), id - InitialSvId(t))
    {
      DecodedIsExact(c, Source(t, id));
      ListOfIsExact(MaskOf(c, t), t, Source(t, id));
    }
  }

  predicate SomeMarks(wild: nat -> int32, list: seq<Source>, t: SvType, k: nat)
    requires Configured(t)
  {
    exists i :: 0 <= i < |list| && list[i].constellation == t && Marks(wild, InitialSvId(t), list[i].svId, k)
  }

  lemma BitsMark(wild: nat -> int32, list: seq<Source>, t: SvType, mask: uint64, k: nat)
    requires Configured(t) && Names(list, t, mask) && mask != ALL_BITS
    ensures SomeMarks(wild, list, t, k) <==> exists j: nat :: Bit(mask, j) && Bit(ShiftedOne(wild, j), k)
  {
    if j: nat :| Bit(mask, j) && Bit(ShiftedOne(wild, j), k) {
      BitIsMark(wild, list, t, mask, k, j);
    }
  }

  lemma BitIsMark(wild: nat -> int32, list: seq<Source>, t: SvType, mask: uint64, k: nat, j: nat)
    requires Configured(t) && Names(list, t, mask) && mask != ALL_BITS
    requires Bit(mask, j) && Bit(ShiftedOne(wild, j), k)
    ensures SomeMarks(wild, list, t, k)
  {
    NoBitBeyond(mask, 64, j);
    assert Source(t, InitialSvId(t) + j) in list;
  }

  lemma AgainIsExact(wild: nat -> int32, c: Config, t: SvType, k: nat)
    requires Configured(t)
    ensures Bit(Again(wild, c, t), k) <==>
            if MaskOf(c, t) == ALL_BITS then k < 64
            else exists j: nat :: Bit(MaskOf(c, t), j) && Bit(ShiftedOne(wild, j), k)
  {
    var list, mask := Decoded(c), MaskOf(c, t);
    MarkedByIsExact(wild, 0, t, list, |list|, k);
    BitOfNone(k);
    DecodedNames(c, t);
    if mask != ALL_BITS {
      BitsMark(wild, list, t, mask, k);
    }
  }

  lemma PlainSurvives(wild: nat -> int32, c: Config, t: SvType)
    requires Configured(t) && Plain(MaskOf(c, t))
    ensures Again(wild, c, t) == MaskOf(c, t)
  {
    var mask := MaskOf(c, t);
    forall k: nat
      ensures Bit(Again(wild, c, t), k) <==> Bit(mask, k)
    {
      AgainIsExact(wild, c, t, k);
      if mask == ALL_BITS {
        BitOfFull(64, k);
      } else {
        forall j: nat | Bit(mask, j)
          ensures Bit(ShiftedOne(wild, j), k) <==> j == k
        {
          NoBitBeyond(mask, 64, j);
          BitOfShiftedOne(wild, j, k);
        }
      }
    }
    BitsDecide(Again(wild, c, t), mask, 64);
  }

  lemma FilledBit(wild: nat -> int32, c: Config, t: SvType, h: nat, k: nat)
    requires Configured(t) && MaskOf(c, t) != ALL_BITS && Bit(MaskOf(c, t), h) && 32 <= h < 64
    requires forall k :: wild(k) == -1
    ensures Bit(Again(wild, c, t), k) <==> Bit(ALL_BITS, k)
  {
    assert ShiftedOne(wild, h) == ALL_BITS;
    AgainIsExact(wild, c, t, k);
    BitOfFull(64, k);
    if Bit(Again(wild, c, t), k) {
      NoBitBeyond(Again(wild, c, t), 64, k);
    }
  }

  lemma HighBitFills(wild: nat -> int32, c: Config, t: SvType, h: nat)
    requires Configured(t) && MaskOf(c, t) != ALL_BITS && Bit(MaskOf(c, t), h) && 32 <= h < 64
    requires forall k :: wild(k) == -1
    ensures Again(wild, c, t) == ALL_BITS
  {
    forall k: nat
      ensures Bit(Again(wild, c, t), k) <==> Bit(ALL_BITS, k)
    {
      FilledBit(wild, c, t, h, k);
    }
    BitsDecide(Again(wild, c, t), ALL_BITS, 64);
  }

  /** On a machine that answers every undefined shift with minus one, any other mask is changed. */
  lemma OtherIsChanged(wild: nat -> int32, c: Config, t: SvType, j: nat)
    requires Configured(t) && MaskOf(c, t) != ALL_BITS && Bit(MaskOf(c, t), j) && 31 <= j < 64
    requires forall k :: wild(k) == -1
    ensures Again(wild, c, t) != MaskOf(c, t)
  {
    var mask := MaskOf(c, t);
    if h: nat :| 32 <= h < 64 && Bit(mask, h) {
      HighBitFills(wild, c, t, h);
    } else {
      AgainIsExact(wild, c, t, 32);
      BitOfShiftedOne(wild, j, 32);
      assert Bit(Again(wild, c, t), 32) && !Bit(mask, 32);
    }
  }

  /** Decoding four masks and encoding the list again gives the same four masks on every machine exactly if each mask
      is all ones or has bits only in positions 0 to 30. */
  lemma RoundTripExactly(c: Config)
    ensures (forall wild: nat -> int32 :: Encoded(wild, Decoded(c), CLEARED) == c) <==> AllPlain(c)
  {
    if AllPlain(c) {
      forall wild: nat -> int32
        ensures Encoded(wild, Decoded(c), CLEARED) == c
      {
        RoundTrip(wild, c);
      }
    } else {
      var t: SvType :| Configured(t) && !Plain(MaskOf(c, t));
      var j :| 31 <= j < 64 && Bit(MaskOf(c, t), j);
      var wild := (k: nat) => -1;
      OtherIsChanged(wild, c, t, j);
      assert Encoded(wild, Decoded(c), CLEARED) != c;
    }
  }

  lemma RoundTrip(wild: nat -> int32, c: Config)
    requires AllPlain(c)
    ensures Encoded(wild, Decoded(c), CLEARED) == c
  {
    var r := Encoded(wild, Decoded(c), CLEARED);
    forall t: SvType | Configured(t)
      ensures MaskOf(r, t) == MaskOf(c, t)
    {
      PlainSurvives(wild, c, t);
    }
    assert MaskOf(r, Glonass) == r.glo && MaskOf(r, Beidou) == r.bds;
    assert MaskOf(r, Qzss) == r.qzss && MaskOf(r, Galileo) == r.gal;
  }
}
