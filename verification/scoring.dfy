/**
  `score_row`, the per-row scoring rule of `calculate_war_room_score`
  (app.py:31-51). Every input is a cleaned number; the arithmetic is exact
  real arithmetic, where the program uses binary floating point.

  The score is a base value times a position multiplier:
  - base: 8% of the four-year historical average (`Media_4_Anos`), 90% of the
    distance between the ADP and pick 210, 2% of the season projection
    (`Proj`); an ADP of zero or less means "not ranked" and counts as 210;
  - performance factor: the historical average over 120, capped at 1 (there is
    no lower cap);
  - multiplier: RB and WR get 1.3 plus half the factor, QB and TE 1.2 plus a
    quarter of it, DEF and K 0.7 plus a fifth of it, every other position
    exactly 1.
 */
module Scoring {
  import opened Strings

  /** The ADP the formula uses: a player without a ranking is placed at pick 210. */
  function EffectiveAdp(adp: real): (a: real)
    ensures a > 0.0
    ensures adp > 0.0 ==> a == adp
  {
    if adp <= 0.0 then 210.0 else adp
  }

  /**
    `score_base`: the weighted sum of average, ADP gap and projection. An
    unranked player gets nothing for ADP; a ranked one gains from being picked
    before 210 and loses from being picked after it.
   */
  function BaseScore(media: real, adp: real, proj: real): (b: real)
    ensures adp <= 0.0 ==> b == media * 0.08 + proj * 0.02
    ensures 0.0 < adp ==> (b >= media * 0.08 + proj * 0.02 <==> adp <= 210.0)
  {
    media * 0.08 + (210.0 - EffectiveAdp(adp)) * 0.9 + proj * 0.02
  }

  /** `perf_factor`: the historical average as a fraction of 120 points, never above 1. */
  function PerfFactor(media: real): (f: real)
    ensures f <= 1.0
    ensures f == 1.0 <==> media >= 120.0
    ensures media >= 0.0 ==> f >= 0.0
    ensures media < 120.0 ==> f * 120.0 == media
  {
    if media / 120.0 < 1.0 then media / 120.0 else 1.0
  }

  /** `str(FantPos).upper().strip()`. */
  function NormalizePosition(fantPos: string): string
  {
    Strip(Upper(fantPos), StrSpaces)
  }

  /** The four multiplier families of `score_row`. */
  datatype PositionGroup = RunningOrReceiving | PasserOrTightEnd | DefenseOrKicker | Unlisted

  /** Which family a normalised position code falls in; only exact codes are recognised. */
  function GroupOf(pos: string): PositionGroup
  {
    if pos == "RB" || pos == "WR" then RunningOrReceiving
    else if pos == "QB" || pos == "TE" then PasserOrTightEnd
    else if pos == "DEF" || pos == "K" then DefenseOrKicker
    else Unlisted
  }

  /**
    `mult`: a per-family floor plus a per-family share of the performance
    factor. For a factor between 0 and 1 it never falls below the DEF/K floor or
    rises above the RB/WR ceiling.
   */
  function Multiplier(group: PositionGroup, perf: real): (m: real)
    ensures 0.0 <= perf ==> m >= 0.7
    ensures perf <= 1.0 ==> m <= 1.8
  {
    match group
    case RunningOrReceiving => 1.3 + 0.5 * perf
    case PasserOrTightEnd => 1.2 + 0.25 * perf
    case DefenseOrKicker => 0.7 + 0.2 * perf
    case Unlisted => 1.0
  }

  /**
    `score_row(row)` for a row whose numeric cells hold `adp`, `proj` and
    `media`. With a non-negative history the multiplier never flips the sign
    of the base and scales it by a factor between 0.7 and 1.8.
   */
  function Score(fantPos: string, adp: real, proj: real, media: real): (s: real)
    ensures media >= 0.0 ==> (s >= 0.0 <==> BaseScore(media, adp, proj) >= 0.0)
    ensures media >= 0.0 && BaseScore(media, adp, proj) >= 0.0 ==>
      0.7 * BaseScore(media, adp, proj) <= s <= 1.8 * BaseScore(media, adp, proj)
  {
    var b, k := BaseScore(media, adp, proj), Multiplier(GroupOf(NormalizePosition(fantPos)), PerfFactor(media));
    assert media >= 0.0 ==> (b * k >= 0.0 <==> b >= 0.0) && (b >= 0.0 ==> 0.7 * b <= b * k <= 1.8 * b) by {
      if media >= 0.0 {
        ScaledBase(b, k);
      }
    }
    b * k
  }

  // ---- Multiplier ----

  /**
    For a non-negative historical average each family's multiplier stays between
    its floor and its ceiling, and reaches the ceiling exactly from 120 points on.
   */
  lemma MultiplierBounds(group: PositionGroup, media: real)
    requires media >= 0.0
    ensures var m := Multiplier(group, PerfFactor(media));
      && (group == RunningOrReceiving ==> 1.3 <= m <= 1.8 && (m == 1.8 <==> media >= 120.0))
      && (group == PasserOrTightEnd ==> 1.2 <= m <= 1.45 && (m == 1.45 <==> media >= 120.0))
      && (group == DefenseOrKicker ==> 0.7 <= m <= 0.9 && (m == 0.9 <==> media >= 120.0))
      && (group == Unlisted ==> m == 1.0)
  {
    var f := PerfFactor(media);
    assert 0.0 <= f <= 1.0;
    assert f == 1.0 <==> media >= 120.0;
  }

  /** With no history the multiplier is the bare floor of the family. */
  lemma MultiplierAtZeroMedia(group: PositionGroup)
    ensures Multiplier(group, PerfFactor(0.0)) ==
      match group
      case RunningOrReceiving => 1.3
      case PasserOrTightEnd => 1.2
      case DefenseOrKicker => 0.7
      case Unlisted => 1.0
  {
    assert PerfFactor(0.0) == 0.0;
  }

  /** A higher historical average never lowers the multiplier. */
  lemma MultiplierMonotone(group: PositionGroup, m1: real, m2: real)
    requires m1 <= m2
    ensures Multiplier(group, PerfFactor(m1)) <= Multiplier(group, PerfFactor(m2))
  {
    var f1, f2 := PerfFactor(m1), PerfFactor(m2);
    if m2 < 120.0 {
      assert f1 * 120.0 == m1 && f2 * 120.0 == m2;
    }
    assert f1 <= f2;
  }

  // ---- Score ----

  /** A position outside RB, WR, QB, TE, DEF and K is scored by its base alone. */
  lemma UnlistedScoreIsBase(fantPos: string, adp: real, proj: real, media: real)
    requires GroupOf(NormalizePosition(fantPos)) == Unlisted
    ensures Score(fantPos, adp, proj, media) == BaseScore(media, adp, proj)
  {
  }

  /** An unranked player (ADP zero or below) scores exactly like one drafted at pick 210. */
  lemma UnrankedAdp(fantPos: string, adp: real, proj: real, media: real)
    requires adp <= 0.0
    ensures Score(fantPos, adp, proj, media) == Score(fantPos, 210.0, proj, media)
    ensures BaseScore(media, adp, proj) == media * 0.08 + proj * 0.02
  {
  }

  /** A factor between 0.7 and 1.8 keeps the sign of the base and stays within those bounds of it. */
  lemma ScaledBase(b: real, k: real)
    requires 0.7 <= k <= 1.8
    ensures b * k >= 0.0 <==> b >= 0.0
    ensures b >= 0.0 ==> 0.7 * b <= b * k <= 1.8 * b
  {
    if b >= 0.0 {
      ScaleMonotone(0.7, k, b);
      ScaleMonotone(k, 1.8, b);
    } else {
      ScaleMonotone(b, 0.0, k - 0.7);
      assert b * k == b * (k - 0.7) + b * 0.7;
    }
  }

  /** Scaling by a non-negative factor keeps order. */
  lemma ScaleMonotone(a: real, b: real, m: real)
    requires a <= b && m >= 0.0
    ensures a * m <= b * m
  {
    assert b * m - a * m == (b - a) * m;
  }

  /** More projected points never lower the score of a player with a non-negative history. */
  lemma ScoreMonotoneInProj(fantPos: string, adp: real, p1: real, p2: real, media: real)
    requires media >= 0.0 && p1 <= p2
    ensures Score(fantPos, adp, p1, media) <= Score(fantPos, adp, p2, media)
  {
    var group := GroupOf(NormalizePosition(fantPos));
    var k := Multiplier(group, PerfFactor(media));
    assert k >= 0.0 by {
      MultiplierBounds(group, media);
    }
    var b1, b2 := BaseScore(media, adp, p1), BaseScore(media, adp, p2);
    calc {
      Score(fantPos, adp, p1, media);
    ==
      b1 * k;
    <= { ScaleMonotone(b1, b2, k); }
      b2 * k;
    ==
      Score(fantPos, adp, p2, media);
    }
  }

  /** Among ranked players (positive ADP) an earlier ADP never scores lower. */
  lemma ScoreAntitoneInAdp(fantPos: string, a1: real, a2: real, proj: real, media: real)
    requires media >= 0.0 && 0.0 < a1 <= a2
    ensures Score(fantPos, a2, proj, media) <= Score(fantPos, a1, proj, media)
  {
    var group := GroupOf(NormalizePosition(fantPos));
    var k := Multiplier(group, PerfFactor(media));
    assert k >= 0.0 by {
      MultiplierBounds(group, media);
    }
    var b1, b2 := BaseScore(media, a1, proj), BaseScore(media, a2, proj);
    assert b2 <= b1 by {
      assert EffectiveAdp(a1) == a1 && EffectiveAdp(a2) == a2;
    }
    calc {
      Score(fantPos, a2, proj, media);
    ==
      b2 * k;
    <= { ScaleMonotone(b2, b1, k); }
      b1 * k;
    ==
      Score(fantPos, a1, proj, media);
    }
  }

  /**
    A higher historical average never lowers the score as long as the base
    score at the lower average is not negative.
   */
  lemma ScoreMonotoneInMedia(fantPos: string, adp: real, proj: real, m1: real, m2: real)
    requires 0.0 <= m1 <= m2 && BaseScore(m1, adp, proj) >= 0.0
    ensures Score(fantPos, adp, proj, m1) <= Score(fantPos, adp, proj, m2)
  {
    var group := GroupOf(NormalizePosition(fantPos));
    var b1, b2 := BaseScore(m1, adp, proj), BaseScore(m2, adp, proj);
    var k1, k2 := Multiplier(group, PerfFactor(m1)), Multiplier(group, PerfFactor(m2));
    MultiplierBounds(group, m1);
    MultiplierMonotone(group, m1, m2);
    ProductMonotone(b1, b2, k1, k2);
  }

  /** Products of ordered factors are ordered when the factors that grow are not negative. */
  lemma ProductMonotone(b1: real, b2: real, k1: real, k2: real)
    requires b1 <= b2 && 0.0 <= b2 && 0.0 <= k1 <= k2
    ensures b1 * k1 <= b2 * k2
  {
    ScaleMonotone(b1, b2, k1);
    ScaleMonotone(k1, k2, b2);
    assert k1 * b2 == b2 * k1 && k2 * b2 == b2 * k2;
  }

  /** Codes that are already upper-case and unpadded are their own normal form. */
  lemma NormalizeCode(code: string)
    requires code in {"RB", "WR", "QB", "TE", "DEF", "K"}
    ensures NormalizePosition(code) == code
  {
    assert Upper(code) == code;
    StripUnchanged(code, StrSpaces);
  }

  /** Normalising a position code twice changes nothing more. */
  lemma NormalizeIdempotent(fantPos: string)
    ensures NormalizePosition(NormalizePosition(fantPos)) == NormalizePosition(fantPos)
  {
    var y := NormalizePosition(fantPos);
    NormalizedShape(fantPos);
    assert Upper(y) == y;
    StripUnchanged(y, StrSpaces);
  }

  /**
    A normalised code is no longer than the cell, holds no lower-case ASCII
    letter, and neither starts nor ends with whitespace.
   */
  lemma NormalizedShape(fantPos: string)
    ensures |NormalizePosition(fantPos)| <= |fantPos|
    ensures forall i :: 0 <= i < |NormalizePosition(fantPos)| ==> !('a' <= NormalizePosition(fantPos)[i] <= 'z')
    ensures var p := NormalizePosition(fantPos); p == [] || (!IsSpace(p[0]) && !IsSpace(p[|p| - 1]))
  {
    var x := Upper(fantPos);
    var t := TrimStart(x, StrSpaces);
    var y := TrimEnd(t, StrSpaces);
    TrimStartSpec(x, StrSpaces);
    TrimEndSpec(t, StrSpaces);
    forall i | 0 <= i < |y| ensures !('a' <= y[i] <= 'z') {
      assert y[i] == x[|x| - |t| + i];
    }
    if y != [] {
      assert y[0] == t[0];
    }
  }

  /** Case and surrounding whitespace do not matter: " rb " is recognised as RB. */
  lemma PaddedLowercaseRecognised()
    ensures GroupOf(NormalizePosition(" rb ")) == RunningOrReceiving
  {
    assert Upper(" rb ") == " RB ";
    assert TrimStart(" RB ", StrSpaces) == "RB " by {
      assert " RB "[1..] == "RB ";
    }
    assert TrimEnd("RB ", StrSpaces) == "RB" by {
      assert "RB "[..2] == "RB";
    }
  }

  /**
    With a negative base the multiplier works against the player: an RB ranked
    at pick 300 with no projection scores lower with a 12-point history than
    with none.
   */
  lemma ScoreNotMonotoneInMedia()
    ensures Score("RB", 300.0, 0.0, 0.0) == -105.3
    ensures Score("RB", 300.0, 0.0, 12.0) == -108.054
  {
    NormalizeCode("RB");
    assert PerfFactor(12.0) == 0.1;
  }

  /** A tight end is scored exactly like a quarterback. */
  lemma TightEndScoredAsQuarterback(adp: real, proj: real, media: real)
    ensures Score("TE", adp, proj, media) == Score("QB", adp, proj, media)
  {
    NormalizeCode("TE");
    NormalizeCode("QB");
  }

  /** A top-ranked RB with no history and no projection: 209 * 0.9 * 1.3. */
  lemma ScoreExample()
    ensures Score("RB", 1.0, 0.0, 0.0) == 244.53
  {
    NormalizeCode("RB");
  }
}
