/** The level bonus schedule: a constant table of level ranges, each mapped to
    a bonus rate, and the lookup that turns a player level into a rate.

    Rates are kept as integer per-mille (tenths of a percent): the table's
    29.1% is 291 here, so the decimal rate is exactly permille / 1000 and no
    floating point is needed. */
module LevelBonus {

  datatype Option<T> = None | Some(value: T)

  /** One band of the schedule: levels start..end (inclusive) earn `permille`. */
  datatype LevelRange = LevelRange(start: int, end: int, permille: int)

  /** Highest level the table lists. */
  const MaxLevel: int := 900
  /** Rate of the last band, returned for every level above MaxLevel (30.5%). */
  const MaxPermille: int := 305

  /** LEVEL_BONUS_TABLE, in per-mille. The literal is written as five
      concatenated blocks of nine bands, which keeps indexing into it cheap
      for the verifier; the sequence is the same 45 bands in order. */
  const LevelBonusTable: seq<LevelRange> :=
    [
      LevelRange(1, 2, 0),
      LevelRange(3, 3, 10),
      LevelRange(4, 5, 20),
      LevelRange(6, 7, 30),
      LevelRange(8, 9, 40),
      LevelRange(10, 12, 50),
      LevelRange(13, 14, 60),
      LevelRange(15, 17, 70),
      LevelRange(18, 19, 80)
    ] + [
      LevelRange(20, 23, 90),
      LevelRange(24, 26, 100),
      LevelRange(27, 29, 110),
      LevelRange(30, 34, 120),
      LevelRange(35, 39, 130),
      LevelRange(40, 49, 140),
      LevelRange(50, 59, 150),
      LevelRange(60, 69, 160),
      LevelRange(70, 79, 170)
    ] + [
      LevelRange(80, 89, 180),
      LevelRange(90, 99, 190),
      LevelRange(100, 109, 200),
      LevelRange(110, 119, 210),
      LevelRange(120, 129, 220),
      LevelRange(130, 139, 230),
      LevelRange(140, 149, 240),
      LevelRange(150, 215, 250),
      LevelRange(216, 360, 260)
    ] + [
      LevelRange(361, 510, 270),
      LevelRange(511, 660, 280),
      LevelRange(661, 675, 290),
      LevelRange(676, 690, 291),
      LevelRange(691, 705, 292),
      LevelRange(706, 720, 293),
      LevelRange(721, 735, 294),
      LevelRange(736, 750, 295),
      LevelRange(751, 765, 296)
    ] + [
      LevelRange(766, 780, 297),
      LevelRange(781, 795, 298),
      LevelRange(796, 810, 299),
      LevelRange(811, 825, 300),
      LevelRange(826, 840, 301),
      LevelRange(841, 855, 302),
      LevelRange(856, 870, 303),
      LevelRange(871, 885, 304),
      LevelRange(886, 900, 305)
    ]

  predicate Contains(r: LevelRange, level: int)
  {
    r.start <= level <= r.end
  }

  /** The shape every version of the schedule must have: non-empty bands,
      each starting right after the previous one ends, from level 1 up to
      MaxLevel, with rates in 0..MaxPermille that never decrease. */
  ghost predicate WellFormed(t: seq<LevelRange>)
  {
    && |t| > 0
    && t[0].start == 1
    && t[|t| - 1].end == MaxLevel
    && t[|t| - 1].permille == MaxPermille
    && (forall i :: 0 <= i < |t| ==> t[i].start <= t[i].end)
    && (forall i :: 0 <= i < |t| ==> 0 <= t[i].permille <= MaxPermille)
    && (forall i :: 0 < i < |t| ==> t[i].start == t[i - 1].end + 1)
    && (forall i :: 0 < i < |t| ==> t[i - 1].permille <= t[i].permille)
  }

  lemma TableBandsNonEmpty()
    ensures forall i :: 0 <= i < |LevelBonusTable| ==> LevelBonusTable[i].start <= LevelBonusTable[i].end
  {
  }

  lemma TableRatesBounded()
    ensures forall i :: 0 <= i < |LevelBonusTable| ==> 0 <= LevelBonusTable[i].permille <= MaxPermille
  {
  }

  lemma TableContiguous()
    ensures forall i :: 0 < i < |LevelBonusTable| ==> LevelBonusTable[i].start == LevelBonusTable[i - 1].end + 1
  {
  }

  lemma TableRatesNonDecreasing()
    ensures forall i :: 0 < i < |LevelBonusTable| ==> LevelBonusTable[i - 1].permille <= LevelBonusTable[i].permille
  {
  }

  /** LEVEL_BONUS_TABLE is sorted, gap-free, covers 1..MaxLevel and its rates never decrease. */
  lemma TableWellFormed()
    ensures WellFormed(LevelBonusTable)
  {
    TableBandsNonEmpty();
    TableRatesBounded();
    TableContiguous();
    TableRatesNonDecreasing();
  }

  /** The first band at index `from` or later that contains `level`: the
      `for ... of` scan with early return. */
  function FirstMatch(t: seq<LevelRange>, level: int, from: nat): (r: Option<nat>)
    requires from <= |t|
    ensures r.Some? ==> from <= r.value < |t| && Contains(t[r.value], level)
    ensures r.Some? ==> forall j :: from <= j < r.value ==> !Contains(t[j], level)
    ensures r.None? ==> forall j :: from <= j < |t| ==> !Contains(t[j], level)
    decreases |t| - from
  {
    if from == |t| then None
    else if Contains(t[from], level) then Some(from)
    else FirstMatch(t, level, from + 1)
  }

  /** Bands are strictly ordered: every band ends before any later one starts. */
  lemma {:induction false} BandsOrdered(t: seq<LevelRange>, i: nat, j: nat)
    requires WellFormed(t)
    requires i < j < |t|
    ensures t[i].end < t[j].start
  {
    if i + 1 < j {
      BandsOrdered(t, i, j - 1);
    }
  }

  /** Rates never decrease along the table. */
  lemma {:induction false} RatesOrdered(t: seq<LevelRange>, i: nat, j: nat)
    requires WellFormed(t)
    requires i <= j < |t|
    ensures t[i].permille <= t[j].permille
  {
    if i < j {
      RatesOrdered(t, i, j - 1);
    }
  }

  /** At most one band contains any given level. */
  lemma BandsDisjoint(t: seq<LevelRange>, i: nat, j: nat, level: int)
    requires WellFormed(t)
    requires i < |t| && j < |t|
    requires Contains(t[i], level) && Contains(t[j], level)
    ensures i == j
  {
    if i < j {
      BandsOrdered(t, i, j);
    } else if j < i {
      BandsOrdered(t, j, i);
    }
  }

  /** Every band lies within 1..MaxLevel. */
  lemma BandWithinTable(t: seq<LevelRange>, i: nat)
    requires WellFormed(t)
    requires i < |t|
    ensures 1 <= t[i].start && t[i].end <= MaxLevel
  {
    if i > 0 {
      BandsOrdered(t, 0, i);
    }
    if i < |t| - 1 {
      BandsOrdered(t, i, |t| - 1);
    }
  }

  lemma {:induction false} AllBandsBelow(t: seq<LevelRange>, level: int, j: nat)
    requires WellFormed(t)
    requires level >= 1
    requires forall k :: 0 <= k < |t| ==> !Contains(t[k], level)
    requires j < |t|
    ensures t[j].end < level
  {
    if j > 0 {
      AllBandsBelow(t, level, j - 1);
    }
    assert !Contains(t[j], level);
  }

  /** The bands leave no gap: every level in 1..MaxLevel is in some band. */
  lemma BandsCover(t: seq<LevelRange>, level: int)
    requires WellFormed(t)
    requires 1 <= level <= MaxLevel
    ensures FirstMatch(t, level, 0).Some?
  {
    if FirstMatch(t, level, 0).None? {
      AllBandsBelow(t, level, |t| - 1);
    }
  }

  /** The first-match scan finds exactly the band containing the level. */
  lemma FirstMatchIsContainingBand(t: seq<LevelRange>, level: int, i: nat)
    requires WellFormed(t)
    requires i < |t| && Contains(t[i], level)
    ensures FirstMatch(t, level, 0) == Some(i)
  {
    var r := FirstMatch(t, level, 0);
    if r.Some? {
      BandsDisjoint(t, i, r.value, level);
    }
  }

  /** The bonus rate of a level in per-mille, as getLevelBonusRate computes it:
      0 below level 1, the containing band's rate inside the table, and the
      cap of 30.5% above it. */
  function RatePermille(level: int): (r: int)
    ensures 0 <= r <= MaxPermille
  {
    TableWellFormed();
    if level < 1 then 0
    else match FirstMatch(LevelBonusTable, level, 0)
      case Some(i) => LevelBonusTable[i].permille
      case None => MaxPermille
  }

  /** Exact decimal bonus rate (0.01 = 1%). */
  function BonusRate(level: int): (rate: real)
    ensures 0.0 <= rate <= 0.305
    ensures rate * 1000.0 == RatePermille(level) as real
  {
    RatePermille(level) as real / 1000.0
  }

  /** getLevelBonusRatePercent: the rate in percent, one decimal place. */
  function BonusRatePercent(level: int): (percent: real)
    ensures 0.0 <= percent <= 30.5
    ensures percent * 10.0 == RatePermille(level) as real
    ensures percent == BonusRate(level) * 100.0
  {
    BonusRate(level) * 100.0
  }

  /** getLevelBonusTable: read access to the schedule, which is well formed. */
  function GetLevelBonusTable(): (t: seq<LevelRange>)
    ensures WellFormed(t)
    ensures |t| == 45
  {
    TableWellFormed();
    LevelBonusTable
  }

  /** getLevelBonusRate: the linear scan of the table with early return. */
  method GetLevelBonusRate(level: int) returns (rate: real)
    ensures rate == BonusRate(level)
    ensures level < 1 ==> rate == 0.0
    ensures level > MaxLevel ==> rate == 0.305
    ensures forall i :: 0 <= i < |LevelBonusTable| && Contains(LevelBonusTable[i], level) ==>
              rate * 1000.0 == LevelBonusTable[i].permille as real
  {
    RateCases(level);
    if level < 1 {
      return 0.0;
    }
    var i := 0;
    while i < |LevelBonusTable|
      invariant 0 <= i <= |LevelBonusTable|
      invariant forall j :: 0 <= j < i ==> !Contains(LevelBonusTable[j], level)
    {
      var range := LevelBonusTable[i];
      if level >= range.start && level <= range.end {
        RateOfContainingBand(level, i);
        return range.permille as real / 1000.0;
      }
      i := i + 1;
    }
    assert FirstMatch(LevelBonusTable, level, 0).None?;
    return 0.305;
  }

  /** The three cases of the lookup: below the table, inside a band, above
      the table. */
  lemma RateCases(level: int)
    ensures level < 1 ==> RatePermille(level) == 0
    ensures level > MaxLevel ==> RatePermille(level) == MaxPermille
    ensures forall i :: 0 <= i < |LevelBonusTable| && Contains(LevelBonusTable[i], level) ==>
              RatePermille(level) == LevelBonusTable[i].permille
  {
    if level > MaxLevel {
      RateSaturates(level);
    }
    forall i | 0 <= i < |LevelBonusTable| && Contains(LevelBonusTable[i], level)
      ensures RatePermille(level) == LevelBonusTable[i].permille
    {
      RateOfContainingBand(level, i);
    }
  }

  /** Inside the table the rate is that of the unique band containing the level. */
  lemma RateOfContainingBand(level: int, i: nat)
    requires i < |LevelBonusTable| && Contains(LevelBonusTable[i], level)
    ensures 1 <= level <= MaxLevel
    ensures RatePermille(level) == LevelBonusTable[i].permille
  {
    TableWellFormed();
    BandWithinTable(LevelBonusTable, i);
    FirstMatchIsContainingBand(LevelBonusTable, level, i);
  }

  /** Above MaxLevel the lookup saturates at the rate of level MaxLevel. */
  lemma RateSaturates(level: int)
    requires level > MaxLevel
    ensures RatePermille(level) == RatePermille(MaxLevel) == MaxPermille
  {
    TableWellFormed();
    var t := LevelBonusTable;
    RateOfContainingBand(MaxLevel, |t| - 1);
    var r := FirstMatch(t, level, 0);
    if r.Some? {
      BandWithinTable(t, r.value);
    }
  }

  /** A higher level never gets a smaller bonus. */
  lemma RateMonotone(lo: int, hi: int)
    requires lo <= hi
    ensures RatePermille(lo) <= RatePermille(hi)
  {
    TableWellFormed();
    var t := LevelBonusTable;
    if lo < 1 || hi > MaxLevel {
      if hi > MaxLevel {
        RateSaturates(hi);
      }
    } else {
      BandsCover(t, lo);
      BandsCover(t, hi);
      var i := FirstMatch(t, lo, 0).value;
      var j := FirstMatch(t, hi, 0).value;
      if j < i {
        BandsOrdered(t, j, i);
      } else {
        RatesOrdered(t, i, j);
      }
    }
  }

  /** Values documented with the source and checked by its tests. */
  lemma KnownRates()
    ensures BonusRate(1) == 0.0
    ensures BonusRate(3) == 0.01
    ensures BonusRate(10) == 0.05
    ensures BonusRate(100) == 0.2
    ensures BonusRate(150) == 0.25
    ensures BonusRate(706) == 0.293
    ensures BonusRate(900) == 0.305
    ensures BonusRatePercent(706) == 29.3
  {
    RateOfContainingBand(1, 0);
    RateOfContainingBand(3, 1);
    RateOfContainingBand(10, 5);
    RateOfContainingBand(100, 20);
    RateOfContainingBand(150, 25);
    RateOfContainingBand(706, 32);
    RateOfContainingBand(900, 44);
  }
}
