/** Net Promoter Score (src/lib/utils/nps.ts): ratings of 4 and above are
    promoters, 2 and below detractors, 3 passive; the score is the rounded
    percentage of promoters minus detractors, and a step function puts the
    score in one of four labelled bands. */
module Nps {
  import opened Basics

  datatype Band = Promoter | Passive | Detractor

  /** Where one rating falls. */
  function Classify(rating: int): (b: Band)
    ensures b == Promoter <==> rating >= 4
    ensures b == Detractor <==> rating <= 2
  {
    if rating >= 4 then Promoter else if rating <= 2 then Detractor else Passive
  }

  /** `ratings.filter(r => Classify(r) == b).length`. */
  function Count(ratings: seq<int>, b: Band): (n: nat)
    ensures n <= |ratings|
  {
    if |ratings| == 0 then 0
    else (if Classify(ratings[0]) == b then 1 else 0) + Count(ratings[1..], b)
  }

  /** `Math.round(num / den)` in exact arithmetic: the nearest integer, a
      half rounded toward +infinity. */
  function RoundHalfUp(num: int, den: int): (r: int)
    requires den > 0
    ensures 2 * den * r - den <= 2 * num < 2 * den * r + den
  {
    (2 * num + den) / (2 * den)
  }

  /** `calculateNPS`: zero for no ratings, otherwise
      `Math.round((promoters - detractors) / total * 100)`. */
  function CalculateNps(ratings: seq<int>): (score: int)
    ensures |ratings| == 0 ==> score == 0
    ensures |ratings| > 0 ==>
      var p, d, n := Count(ratings, Promoter), Count(ratings, Detractor), |ratings|;
      2 * n * score - n <= 200 * (p - d) < 2 * n * score + n
  {
    if |ratings| == 0 then 0
    else RoundHalfUp(100 * (Count(ratings, Promoter) - Count(ratings, Detractor)), |ratings|)
  }

  /** The labelled bands of `getNPSCategory`. */
  datatype NpsCategory = Excellent | Good | Neutral | NeedsImprovement

  /** `getNPSCategory`, lowest band first. */
  function GetNpsCategory(score: int): (c: NpsCategory)
    ensures c == Excellent <==> score >= 70
    ensures c == Good <==> 30 <= score < 70
    ensures c == Neutral <==> 0 <= score < 30
    ensures c == NeedsImprovement <==> score < 0
  {
    if score >= 70 then Excellent
    else if score >= 30 then Good
    else if score >= 0 then Neutral
    else NeedsImprovement
  }

  /** The text shown for a band. */
  function Label(c: NpsCategory): string
  {
    match c
    case Excellent => "Excellent"
    case Good => "Good"
    case Neutral => "Neutral"
    case NeedsImprovement => "Needs Improvement"
  }

  /** The style tag shown with a band. */
  function Color(c: NpsCategory): string
  {
    match c
    case Excellent => "text-green-500"
    case Good => "text-blue-500"
    case Neutral => "text-yellow-500"
    case NeedsImprovement => "text-red-500"
  }

  /** Bands in order of merit, worst first. */
  function Merit(c: NpsCategory): nat
  {
    match c
    case NeedsImprovement => 0
    case Neutral => 1
    case Good => 2
    case Excellent => 3
  }

  // ---------------------------------------------------------------------
  // Counting

  /** Every rating falls in exactly one band. */
  lemma {:induction false} CountsPartition(ratings: seq<int>)
    ensures Count(ratings, Promoter) + Count(ratings, Passive) + Count(ratings, Detractor) == |ratings|
  {
    if |ratings| > 0 {
      CountsPartition(ratings[1..]);
    }
  }

  /** Counting distributes over concatenation. */
  lemma {:induction false} CountAppend(a: seq<int>, c: seq<int>, b: Band)
    ensures Count(a + c, b) == Count(a, b) + Count(c, b)
  {
    if |a| == 0 {
      assert a + c == c;
    } else {
      CountAppend(a[1..], c, b);
      assert (a + c)[1..] == a[1..] + c;
    }
  }

  /** Counts depend on the ratings only as a multiset. */
  lemma {:induction false} CountPermutation(s: seq<int>, t: seq<int>, b: Band)
    requires multiset(s) == multiset(t)
    ensures Count(s, b) == Count(t, b)
  {
    if |s| == 0 {
      assert |t| == |multiset(t)| == 0;
    } else {
      var x := s[0];
      assert x in multiset(t);
      var i :| 0 <= i < |t| && t[i] == x;
      RemoveAt(t, i, b);
      assert s == [x] + s[1..];
      assert multiset(s[1..]) == multiset(s) - multiset{x};
      CountPermutation(s[1..], t[..i] + t[i + 1..], b);
    }
  }

  /** Taking one rating out of a sequence takes it out of the multiset and
      out of its band's count. */
  lemma RemoveAt(t: seq<int>, i: nat, b: Band)
    requires i < |t|
    ensures multiset(t[..i] + t[i + 1..]) == multiset(t) - multiset{t[i]}
    ensures Count(t, b) == Count(t[..i] + t[i + 1..], b) + (if Classify(t[i]) == b then 1 else 0)
  {
    assert t == t[..i] + [t[i]] + t[i + 1..];
    CountAppend(t[..i] + [t[i]], t[i + 1..], b);
    CountAppend(t[..i], [t[i]], b);
    CountAppend(t[..i], t[i + 1..], b);
  }

  // ---------------------------------------------------------------------
  // The score

  /** No ratings score zero. */
  lemma NoRatings()
    ensures CalculateNps([]) == 0
  {
  }

  /** The score never leaves [-100, 100]. */
  lemma ScoreInRange(ratings: seq<int>)
    ensures -100 <= CalculateNps(ratings) <= 100
  {
    if |ratings| > 0 {
      CountsPartition(ratings);
      var p: int, d: int, n := Count(ratings, Promoter), Count(ratings, Detractor), |ratings|;
      RoundWithinHundred(100 * (p - d), n);
    }
  }

  /** Rounding a quotient that lies in [-100, 100] stays in [-100, 100]. */
  lemma RoundWithinHundred(num: int, den: int)
    requires den > 0
    requires -100 * den <= num <= 100 * den
    ensures -100 <= RoundHalfUp(num, den) <= 100
  {
    var x, m := 2 * num + den, 2 * den;
    var r := x / m;
    assert x == m * r + x % m && 0 <= x % m < m;
    MulMonotone(m, 101, r);
    MulMonotone(m, r, -101);
  }

  /** All promoters score 100, all detractors -100, all passives 0. */
  lemma {:induction false} UniformScores(ratings: seq<int>)
    requires |ratings| > 0
    ensures (forall k :: 0 <= k < |ratings| ==> ratings[k] >= 4) ==> CalculateNps(ratings) == 100
    ensures (forall k :: 0 <= k < |ratings| ==> ratings[k] <= 2) ==> CalculateNps(ratings) == -100
    ensures (forall k :: 0 <= k < |ratings| ==> ratings[k] == 3) ==> CalculateNps(ratings) == 0
  {
    var n := |ratings|;
    if forall k :: 0 <= k < n ==> ratings[k] >= 4 {
      CountAll(ratings, Promoter);
      CountsPartition(ratings);
      DivExact(100, n);
    }
    if forall k :: 0 <= k < n ==> ratings[k] <= 2 {
      CountAll(ratings, Detractor);
      CountsPartition(ratings);
      DivExact(-100, n);
    }
    if forall k :: 0 <= k < n ==> ratings[k] == 3 {
      CountAll(ratings, Passive);
      CountsPartition(ratings);
      DivExact(0, n);
    }
  }

  /** When every rating falls in one band, that band counts them all. */
  lemma {:induction false} CountAll(ratings: seq<int>, b: Band)
    requires forall k :: 0 <= k < |ratings| ==> Classify(ratings[k]) == b
    ensures Count(ratings, b) == |ratings|
  {
    if |ratings| > 0 {
      CountAll(ratings[1..], b);
    }
  }

  /** Rounding an exact multiple gives the multiple back. */
  lemma DivExact(q: int, n: int)
    requires n > 0
    ensures RoundHalfUp(q * n, n) == q
  {
    DivUnique(2 * (q * n) + n, 2 * n, q);
  }

  /** The score does not depend on the order of the ratings. */
  lemma ScorePermutation(s: seq<int>, t: seq<int>)
    requires multiset(s) == multiset(t)
    ensures CalculateNps(s) == CalculateNps(t)
  {
    assert |s| == |multiset(s)| == |multiset(t)| == |t|;
    CountPermutation(s, t, Promoter);
    CountPermutation(s, t, Detractor);
  }

  /** A half is rounded toward +infinity: one promoter among eight ratings
      is 12.5 and rounds to 13, one detractor among eight is -12.5 and rounds
      to -12. */
  lemma HalvesRoundUp()
    ensures CalculateNps([5, 3, 3, 3, 3, 3, 3, 3]) == 13
    ensures CalculateNps([1, 3, 3, 3, 3, 3, 3, 3]) == -12
  {
    OneAmongPassives(5);
    OneAmongPassives(1);
  }

  /** One rating followed by seven passives. */
  lemma OneAmongPassives(x: int)
    ensures var s := [x, 3, 3, 3, 3, 3, 3, 3];
      Count(s, Promoter) == (if x >= 4 then 1 else 0) && Count(s, Detractor) == (if x <= 2 then 1 else 0)
  {
    var passives := [3, 3, 3, 3, 3, 3, 3];
    CountAll(passives, Passive);
    CountsPartition(passives);
    assert [x, 3, 3, 3, 3, 3, 3, 3][1..] == passives;
  }

  /** A promoter and a detractor cancel. */
  lemma PromoterCancelsDetractor()
    ensures CalculateNps([5, 1]) == 0
  {
  }

  // ---------------------------------------------------------------------
  // Categories

  /** A higher score never lands in a worse band. */
  lemma CategoryMonotone(lo: int, hi: int)
    requires lo <= hi
    ensures Merit(GetNpsCategory(lo)) <= Merit(GetNpsCategory(hi))
  {
  }

  /** Each band carries its own label and style tag, and no two bands share
      either. */
  lemma CategoryTags(c: NpsCategory, d: NpsCategory)
    ensures c != d ==> Label(c) != Label(d) && Color(c) != Color(d)
    ensures GetNpsCategory(70) == Excellent && GetNpsCategory(69) == Good
    ensures GetNpsCategory(30) == Good && GetNpsCategory(29) == Neutral
    ensures GetNpsCategory(0) == Neutral && GetNpsCategory(-1) == NeedsImprovement
  {
  }
}
