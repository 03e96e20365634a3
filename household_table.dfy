/**
 * The population table written into reglage_null_nombre_menage_commune
 * (code_dvf/fin_nettoyage.py): the Paris, Lyon and Marseille districts and a
 * few other communes whose household count is missing, with their number of
 * inhabitants.
 */
module HouseholdTable {
  /** The communes with no household count and their population, in rows of four as listed. */
  const PopulationTable: seq<(string, nat)> :=
    [("13215", 14497), ("75115", 227746), ("13207", 12888), ("75120", 189805)] +
    [("64541", 310), ("13210", 9619), ("13204", 20094), ("85041", 302)] +
    [("75105", 56841), ("75116", 162061), ("75108", 35123), ("13211", 57924)] +
    [("13206", 39647), ("85271", 85000), ("75107", 47947), ("75101", 15919)] +
    [("75106", 48905), ("13208", 82609), ("49321", 390), ("75103", 32793)] +
    [("75114", 136368), ("75104", 28324), ("13202", 23627), ("69382", 30485)] +
    [("69384", 35603), ("69381", 29016), ("75119", 181616), ("13213", 92261)] +
    [("69385", 48711), ("69152", 10515), ("13205", 45449), ("75111", 142583)] +
    [("75117", 164413), ("13209", 77106), ("13212", 20829), ("75118", 188446)] +
    [("13203", 53115), ("75112", 140954), ("13216", 15487), ("75110", 95394)] +
    [("69386", 52007), ("69383", 101302), ("75102", 21119), ("75109", 58951)] +
    [("13214", 59948), ("69387", 85897), ("86231", 478), ("69388", 86326)] +
    [("13201", 39436), ("75113", 178350), ("69389", 52903)]

  /** The numeric value of a five-digit code, or -1. */
  function Code5(s: string): int
  {
    if |s| != 5 then -1
    else Digit(s[0]) * 10000 + Digit(s[1]) * 1000 + Digit(s[2]) * 100 + Digit(s[3]) * 10 + Digit(s[4])
  }

  function Digit(c: char): int
  {
    (c as int) - ('0' as int)
  }

  /** The row of the table that holds a code value. */
  function TableRowOf(n: int): int
  {
    if n == 13215 then 0 else
    if n == 75115 then 1 else
    if n == 13207 then 2 else
    if n == 75120 then 3 else
    if n == 64541 then 4 else
    if n == 13210 then 5 else
    if n == 13204 then 6 else
    if n == 85041 then 7 else
    if n == 75105 then 8 else
    if n == 75116 then 9 else
    if n == 75108 then 10 else
    if n == 13211 then 11 else
    if n == 13206 then 12 else
    if n == 85271 then 13 else
    if n == 75107 then 14 else
    if n == 75101 then 15 else
    if n == 75106 then 16 else
    if n == 13208 then 17 else
    if n == 49321 then 18 else
    if n == 75103 then 19 else
    if n == 75114 then 20 else
    if n == 75104 then 21 else
    if n == 13202 then 22 else
    if n == 69382 then 23 else
    if n == 69384 then 24 else
    if n == 69381 then 25 else
    if n == 75119 then 26 else
    if n == 13213 then 27 else
    if n == 69385 then 28 else
    if n == 69152 then 29 else
    if n == 13205 then 30 else
    if n == 75111 then 31 else
    if n == 75117 then 32 else
    if n == 13209 then 33 else
    if n == 13212 then 34 else
    if n == 75118 then 35 else
    if n == 13203 then 36 else
    if n == 75112 then 37 else
    if n == 13216 then 38 else
    if n == 75110 then 39 else
    if n == 69386 then 40 else
    if n == 69383 then 41 else
    if n == 75102 then 42 else
    if n == 75109 then 43 else
    if n == 13214 then 44 else
    if n == 69387 then 45 else
    if n == 86231 then 46 else
    if n == 69388 then 47 else
    if n == 13201 then 48 else
    if n == 75113 then 49 else
    if n == 69389 then 50 else
    -1
  }

  /** TableRowOf inverts Code5 on the table, which makes the codes distinct. */
  lemma TableRowOfCode(k: nat)
    requires k < |PopulationTable|
    ensures TableRowOf(Code5(PopulationTable[k].0)) == k
    ensures PopulationTable[k].1 <= 227746
  {
    if k < 9 {
      Rows0To8(k);
    } else if k < 18 {
      Rows9To17(k);
    } else if k < 27 {
      Rows18To26(k);
    } else if k < 36 {
      Rows27To35(k);
    } else if k < 45 {
      Rows36To44(k);
    } else {
      Rows45To50(k);
    }
  }

  lemma Rows0To8(k: nat)
    requires 0 <= k < 9
    ensures TableRowOf(Code5(PopulationTable[k].0)) == k
    ensures PopulationTable[k].1 <= 227746
  {
    if k == 0 {
    } else if k == 1 {
    } else if k == 2 {
    } else if k == 3 {
    } else if k == 4 {
    } else if k == 5 {
    } else if k == 6 {
    } else if k == 7 {
    } else {
    }
  }

  lemma Rows9To17(k: nat)
    requires 9 <= k < 18
    ensures TableRowOf(Code5(PopulationTable[k].0)) == k
    ensures PopulationTable[k].1 <= 227746
  {
    if k == 9 {
    } else if k == 10 {
    } else if k == 11 {
    } else if k == 12 {
    } else if k == 13 {
    } else if k == 14 {
    } else if k == 15 {
    } else if k == 16 {
    } else {
    }
  }

  lemma Rows18To26(k: nat)
    requires 18 <= k < 27
    ensures TableRowOf(Code5(PopulationTable[k].0)) == k
    ensures PopulationTable[k].1 <= 227746
  {
    if k == 18 {
    } else if k == 19 {
    } else if k == 20 {
    } else if k == 21 {
    } else if k == 22 {
    } else if k == 23 {
    } else if k == 24 {
    } else if k == 25 {
    } else {
    }
  }

  lemma Rows27To35(k: nat)
    requires 27 <= k < 36
    ensures TableRowOf(Code5(PopulationTable[k].0)) == k
    ensures PopulationTable[k].1 <= 227746
  {
    if k == 27 {
    } else if k == 28 {
    } else if k == 29 {
    } else if k == 30 {
    } else if k == 31 {
    } else if k == 32 {
    } else if k == 33 {
    } else if k == 34 {
    } else {
    }
  }

  lemma Rows36To44(k: nat)
    requires 36 <= k < 45
    ensures TableRowOf(Code5(PopulationTable[k].0)) == k
    ensures PopulationTable[k].1 <= 227746
  {
    if k == 36 {
    } else if k == 37 {
    } else if k == 38 {
    } else if k == 39 {
    } else if k == 40 {
    } else if k == 41 {
    } else if k == 42 {
    } else if k == 43 {
    } else {
    }
  }

  lemma Rows45To50(k: nat)
    requires 45 <= k < 51
    ensures TableRowOf(Code5(PopulationTable[k].0)) == k
    ensures PopulationTable[k].1 <= 227746
  {
    if k == 45 {
    } else if k == 46 {
    } else if k == 47 {
    } else if k == 48 {
    } else if k == 49 {
    } else {
    }
  }

  /** The 51 commune codes of the table are distinct, so the join matches each code at most once. */
  lemma PopulationTableDistinct()
    ensures |PopulationTable| == 51
    ensures forall i, j :: 0 <= i < j < |PopulationTable| ==> PopulationTable[i].0 != PopulationTable[j].0
  {
    forall i, j | 0 <= i < j < |PopulationTable|
      ensures PopulationTable[i].0 != PopulationTable[j].0
    {
      TableRowOfCode(i);
      TableRowOfCode(j);
    }
  }

  /** Every estimate of the table fits the Int32 it is cast to. */
  lemma EstimatesFitInt32(k: nat)
    requires k < |PopulationTable|
    ensures 0 <= Estimate(PopulationTable[k].1) < 0x8000_0000
  {
    TableRowOfCode(k);
  }

  /**
   * `(population / 2.2).round(0)`: 10 * population / 22 rounded to the
   * nearest integer, computed exactly.
   */
  function Estimate(population: nat): (e: int)
    ensures -11 < 22 * e - 10 * population < 11
  {
    RoundingHasNoTie(population);
    (10 * population + 11) / 22
  }

  /** 10 * population + 11 is odd, so it is never a multiple of 22. */
  lemma RoundingHasNoTie(population: nat)
    ensures -11 < 22 * ((10 * population + 11) / 22) - 10 * population < 11
  {
    var n := 10 * population + 11;
    var q, r := n / 22, n % 22;
    assert n == 22 * q + r && 0 <= r < 22;
    assert n == 2 * (5 * population + 5) + 1;
    assert r != 0;
  }

  /**
   * The estimate is the one integer nearest to population / 2.2; no
   * population lies half-way, so the rounding rule for ties never applies.
   */
  lemma EstimateIsNearest(population: nat, e: int)
    ensures e == Estimate(population) <==> -11 < 22 * e - 10 * population < 11
    ensures 22 * Estimate(population) - 10 * population != 11
  {
    var d := Estimate(population);
    if -11 < 22 * e - 10 * population < 11 {
      assert -22 < 22 * (e - d) < 22;
    }
  }
}
