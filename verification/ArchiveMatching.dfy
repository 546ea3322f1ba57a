/** Deciding one legal record over the scored archive.

    Source: apps/legal_work/archived_topic_matching.py:107-127, 280-328. */
module ArchiveMatching {
  import opened Basics
  import opened Sorting
  import opened ArchiveScoring
  import Lexicographic

  const AUTO_MATCH := 7200
  const PLAUSIBLE := 4800
  const MINIMUM_MARGIN := 1800

  datatype Decision = Matched | Ambiguous | Unmatched

  datatype MatchOutcome = MatchOutcome(
    legalId: int,
    best: Option<int>,
    decision: Decision,
    score: int,
    runnerUp: int,
    margin: int,
    candidateCount: nat,
    evidence: set<Evidence>)

  /** Higher score first, then content key. */
  function ByRank(): (Scored, Scored) -> bool {
    (a: Scored, b: Scored) => a.score > b.score || (a.score == b.score && Lexicographic.Le(a.candidate.key, b.candidate.key))
  }

  predicate IsPlausible(c: Scored) {
    c.score >= PLAUSIBLE && !IsBlocked(c)
  }

  function Codes(e: seq<Evidence>): set<Evidence> { set x | x in e }

  function RunnerUp(pool: seq<Scored>): int {
    if |pool| > 1 then pool[1].score else 0
  }

  /** The verdict on a ranking: from its plausible part, or from all of it when nothing is plausible. */
  function Judge(legalId: int, ranked: seq<Scored>, plausible: seq<Scored>): MatchOutcome
    requires ranked != []
  {
    var pool := if plausible != [] then plausible else ranked;
    var best, runnerUp := pool[0], RunnerUp(pool);
    var margin := best.score - runnerUp;
    var blocked := exists i :: 0 <= i < |ranked| && IsBlocked(ranked[i]);
    var decision :=
      if plausible == [] then Unmatched
      else if best.score >= AUTO_MATCH && margin >= MINIMUM_MARGIN then Matched
      else Ambiguous;
    MatchOutcome(legalId, Some(best.candidate.id), decision, best.score, runnerUp, margin, |plausible|,
                 Codes(best.evidence)
                 + (if blocked then {BlockedCandidates} else {})
                 + (if plausible == [] then {NoPlausible} else {})
                 + (if decision == Ambiguous && best.score >= AUTO_MATCH then {NarrowMargin} else {}))
  }

  function DecideArchive(legal: Legal, scored: seq<Scored>): MatchOutcome {
    if scored == [] then
      MatchOutcome(legal.id, None, Unmatched, 0, 0, 0, 0, {NoCandidates})
    else
      var ranked := Sort(scored, ByRank());
      Judge(legal.id, ranked, Filter(ranked, IsPlausible))
  }

  // ------------------------------------------------------------------
  // The declarative reading.
  // ------------------------------------------------------------------

  /** Content keys are unique within a snapshot. */
  ghost predicate DistinctKeys(scored: seq<Scored>) {
    forall i, j :: 0 <= i < j < |scored| ==> scored[i].candidate.key != scored[j].candidate.key
  }

  /** `b` is good enough and every other candidate that is not contradicted, however low its score,
      is at least the required margin behind. */
  ghost predicate ClearWinner(scored: seq<Scored>, b: Scored) {
    && b in scored && !IsBlocked(b) && b.score >= 7200
    && forall c :: c in scored && c != b && !IsBlocked(c) ==> c.score + 1800 <= b.score
  }

  lemma RankIsTotal()
    ensures TotalOrder(ByRank())
  {
    Lexicographic.LeIsAnOrder();
  }

  lemma KeysSeparate(scored: seq<Scored>)
    requires DistinctKeys(scored)
    ensures Separates(scored, ByRank()) && Distinct(scored)
  {
    var le := ByRank();
    forall a, b | a in scored && b in scored && le(a, b) && le(b, a) ensures a == b {
      Lexicographic.LeAntisymmetric(a.candidate.key, b.candidate.key);
      var i :| 0 <= i < |scored| && scored[i] == a;
      var j :| 0 <= j < |scored| && scored[j] == b;
    }
  }

  /** The ranking and its plausible part: same members, in order, none repeated. */
  lemma RankedIs(scored: seq<Scored>) returns (ranked: seq<Scored>, plausible: seq<Scored>)
    requires DistinctKeys(scored)
    ensures ranked == Sort(scored, ByRank()) && plausible == Filter(ranked, IsPlausible)
    ensures Ordered(ranked, ByRank()) && Distinct(ranked) && |ranked| == |scored|
    ensures Ordered(plausible, ByRank()) && Distinct(plausible)
    ensures forall c :: c in ranked <==> c in scored
    ensures forall c :: c in plausible <==> c in scored && IsPlausible(c)
  {
    RankIsTotal();
    KeysSeparate(scored);
    SortSorts(scored, ByRank());
    SortDistinct(scored, ByRank());
    ranked := Sort(scored, ByRank());
    forall c ensures c in ranked <==> c in scored { SameMembers(ranked, scored, c); }
    if scored != [] { SameMembers(ranked, scored, scored[0]); }
    FilterKeeps(ranked, IsPlausible, ByRank());
    plausible := Filter(ranked, IsPlausible);
  }

  lemma TopIsWinner(plausible: seq<Scored>, scored: seq<Scored>)
    requires plausible != [] && Ordered(plausible, ByRank()) && Distinct(plausible)
    requires forall c :: c in plausible <==> c in scored && IsPlausible(c)
    ensures plausible[0].score >= AUTO_MATCH && plausible[0].score - RunnerUp(plausible) >= MINIMUM_MARGIN
       <==> ClearWinner(scored, plausible[0])
    ensures forall b :: ClearWinner(scored, b) ==> b == plausible[0]
  {
    TopTwo(plausible, ByRank());
    var best := plausible[0];
    assert best in plausible;
    if |plausible| > 1 { assert plausible[1] in plausible; }
    forall b | ClearWinner(scored, b) ensures b == best {
      assert b in plausible;
    }
    if best.score >= AUTO_MATCH && best.score - RunnerUp(plausible) >= MINIMUM_MARGIN {
      forall c | c in scored && c != best && !IsBlocked(c) ensures c.score + MINIMUM_MARGIN <= best.score {
        if c.score >= PLAUSIBLE { assert c in plausible; }
      }
    }
  }

  /** **MATCHED means a unique clear winner.** The matcher answers MATCHED with candidate `b` iff `b` is
      not contradicted, scores at least 72, and leads every other uncontradicted candidate of any score
      by at least 18; the plausibility cut at 48 never changes that. It answers UNMATCHED iff no
      candidate is plausible, and AMBIGUOUS otherwise. */
  lemma MatchedIff(legal: Legal, scored: seq<Scored>)
    requires DistinctKeys(scored)
    ensures var d := DecideArchive(legal, scored);
            && (d.decision == Matched <==> exists b :: ClearWinner(scored, b))
            && (forall b :: ClearWinner(scored, b) ==> d.best == Some(b.candidate.id) && d.score == b.score)
            && (d.decision == Unmatched <==> forall c :: c in scored ==> c.score < 4800 || IsBlocked(c))
            && d.legalId == legal.id
  {
    var ranked, plausible := RankedIs(scored);
    if scored != [] { VerdictIs(legal.id, ranked, plausible, scored); }
  }

  lemma VerdictIs(legalId: int, ranked: seq<Scored>, plausible: seq<Scored>, scored: seq<Scored>)
    requires ranked != [] && Ordered(plausible, ByRank()) && Distinct(plausible)
    requires forall c :: c in plausible <==> c in scored && IsPlausible(c)
    ensures var d := Judge(legalId, ranked, plausible);
            && (d.decision == Matched <==> exists b :: ClearWinner(scored, b))
            && (forall b :: ClearWinner(scored, b) ==> d.best == Some(b.candidate.id) && d.score == b.score)
            && (d.decision == Unmatched <==> forall c :: c in scored ==> !IsPlausible(c))
  {
    if plausible != [] {
      assert plausible[0] in plausible;
      TopIsWinner(plausible, scored);
    } else {
      forall b | b in scored ensures !ClearWinner(scored, b) { assert b !in plausible; }
    }
  }

  /** **The order candidates are scored in is irrelevant** to every part of the outcome. */
  lemma OrderIrrelevant(legal: Legal, a: seq<Scored>, b: seq<Scored>)
    requires DistinctKeys(a) && multiset(a) == multiset(b)
    ensures DecideArchive(legal, a) == DecideArchive(legal, b)
  {
    RankIsTotal();
    KeysSeparate(a);
    SortIgnoresInputOrder(a, b, ByRank());
    assert |multiset(a)| == |a| && |multiset(b)| == |b|;
  }

  predicate NotBlocked(c: Scored) { !IsBlocked(c) }

  /** **Contradicted candidates cannot change a match**: without them the decision is the same, and so
      are the candidate, the scores and the margin whenever something was plausible. */
  lemma BlockedIrrelevant(legal: Legal, scored: seq<Scored>)
    requires DistinctKeys(scored)
    ensures var all, rest := DecideArchive(legal, scored), DecideArchive(legal, Filter(scored, NotBlocked));
            && all.decision == rest.decision
            && (all.decision != Unmatched ==> all.(evidence := rest.evidence) == rest)
  {
    var rest := Filter(scored, NotBlocked);
    FilterKeepsKeys(scored);
    var ranked, plausible := RankedIs(scored);
    var ranked', plausible' := RankedIs(rest);
    SamePlausible(plausible, plausible', scored);
    if rest == [] {
      assert ranked' == [];
    } else {
      SamePool(legal.id, ranked, ranked', plausible);
    }
  }

  lemma SamePool(legalId: int, ranked: seq<Scored>, ranked': seq<Scored>, plausible: seq<Scored>)
    requires ranked != [] && ranked' != []
    ensures var all, rest := Judge(legalId, ranked, plausible), Judge(legalId, ranked', plausible);
            && all.decision == rest.decision
            && (plausible != [] ==> all.(evidence := rest.evidence) == rest)
  {}

  lemma {:induction false} FilterKeepsKeys(scored: seq<Scored>)
    requires DistinctKeys(scored)
    ensures DistinctKeys(Filter(scored, NotBlocked))
    ensures forall c :: c in Filter(scored, NotBlocked) <==> c in scored && !IsBlocked(c)
  {
    if scored != [] {
      FilterKeepsKeys(scored[1..]);
      assert forall c :: c in scored <==> c == scored[0] || c in scored[1..];
      forall c | c in scored[1..] ensures c.candidate.key != scored[0].candidate.key {
        var i :| 0 <= i < |scored[1..]| && scored[1..][i] == c;
        assert scored[i + 1] == c;
      }
    }
  }

  lemma SamePlausible(p: seq<Scored>, q: seq<Scored>, scored: seq<Scored>)
    requires DistinctKeys(scored)
    requires Ordered(p, ByRank()) && Distinct(p) && Ordered(q, ByRank()) && Distinct(q)
    requires forall c :: c in p <==> c in q
    requires forall c :: c in p ==> c in scored
    ensures p == q
  {
    KeysSeparate(scored);
    DistinctByCount(p);
    DistinctByCount(q);
    forall c ensures multiset(p)[c] == multiset(q)[c] {
      assert c in multiset(p) <==> c in p;
      assert c in multiset(q) <==> c in q;
    }
    assert multiset(p) == multiset(q);
    OrderedUnique(p, q, ByRank());
  }

  /** Scores in range give an outcome in range: runner-up not above best, margin exact. */
  lemma OutcomeInRange(legal: Legal, scored: seq<Scored>)
    requires DistinctKeys(scored) && forall c :: c in scored ==> 0 <= c.score <= 10000
    ensures var d := DecideArchive(legal, scored);
            && 0 <= d.runnerUp <= d.score <= 10000 && d.margin == d.score - d.runnerUp
            && (d.best.Some? ==> exists c :: c in scored && c.candidate.id == d.best.value)
            && (d.best.None? ==> scored == [] && d.decision == Unmatched)
  {
    var ranked, plausible := RankedIs(scored);
    if scored != [] {
      assert scored[0] in ranked;
      var pool := if plausible != [] then plausible else ranked;
      assert pool[0] in pool && pool[0] in scored;
      TopTwo(pool, ByRank());
      if |pool| > 1 { assert pool[1] in pool && pool[1] in scored; }
    }
  }

  /** The candidates a decision is about: the plausible ones, or all of them when none is. */
  ghost predicate InPool(scored: seq<Scored>, c: Scored) {
    && c in scored
    && ((c.score >= 4800 && !IsBlocked(c)) || forall d :: d in scored ==> d.score < 4800 || IsBlocked(d))
  }

  /** `b` scores highest in the pool; of equals, its content key comes first. */
  ghost predicate Top(scored: seq<Scored>, b: Scored) {
    InPool(scored, b) && forall c :: InPool(scored, c) && c != b ==>
      c.score < b.score || (c.score == b.score && Lexicographic.Le(b.candidate.key, c.candidate.key))
  }

  /** **What the outcome reports.** The best candidate is the top of the pool, the runner-up the highest score among the
      others of the pool, or nothing; the count is of plausible candidates; and the evidence is the best candidate's with
      what the decision adds to it. */
  lemma OutcomeReports(legal: Legal, scored: seq<Scored>) returns (best: Scored)
    requires DistinctKeys(scored) && scored != []
    ensures Top(scored, best)
    ensures var d := DecideArchive(legal, scored);
            && d.best == Some(best.candidate.id) && d.score == best.score
            && (forall c :: InPool(scored, c) && c != best ==> c.score <= d.runnerUp)
            && (d.runnerUp == 0 || exists c :: InPool(scored, c) && c != best && c.score == d.runnerUp)
            && d.candidateCount == |set c | c in scored && c.score >= 4800 && !IsBlocked(c)|
  {
    var ranked, plausible := RankedIs(scored);
    assert scored[0] in ranked;
    var pool := if plausible != [] then plausible else ranked;
    PoolIs(scored, ranked, plausible, pool);
    PoolTop(scored, pool);
    best := pool[0];
    JudgeIs(legal.id, ranked, plausible, pool);
    PlausibleCount(scored, plausible);
  }

  /** With nobody to match, the record is unmatched and says so. */
  lemma NobodyToMatch(legal: Legal)
    ensures DecideArchive(legal, []) == MatchOutcome(legal.id, None, Unmatched, 0, 0, 0, 0, {NoCandidates})
  {}

  lemma PoolTop(scored: seq<Scored>, pool: seq<Scored>)
    requires pool != [] && Ordered(pool, ByRank()) && Distinct(pool) && forall c :: c in pool <==> InPool(scored, c)
    ensures Top(scored, pool[0])
    ensures forall c :: InPool(scored, c) && c != pool[0] ==> c.score <= RunnerUp(pool)
    ensures RunnerUp(pool) == 0 || exists c :: InPool(scored, c) && c != pool[0] && c.score == RunnerUp(pool)
  {
    TopTwo(pool, ByRank());
    assert pool[0] in pool;
    if |pool| > 1 { assert pool[1] in pool; }
  }

  lemma JudgeIs(legalId: int, ranked: seq<Scored>, plausible: seq<Scored>, pool: seq<Scored>)
    requires ranked != [] && pool == if plausible != [] then plausible else ranked
    ensures var d := Judge(legalId, ranked, plausible);
            d.best == Some(pool[0].candidate.id) && d.score == pool[0].score && d.runnerUp == RunnerUp(pool) && d.candidateCount == |plausible|
  {}

  lemma PlausibleCount(scored: seq<Scored>, plausible: seq<Scored>)
    requires Distinct(plausible) && forall c :: c in plausible <==> c in scored && IsPlausible(c)
    ensures |plausible| == |set c | c in scored && c.score >= 4800 && !IsBlocked(c)|
  {
    DistinctSize(plausible);
    assert (set c | c in plausible) == (set c | c in scored && c.score >= 4800 && !IsBlocked(c));
  }

  lemma PoolIs(scored: seq<Scored>, ranked: seq<Scored>, plausible: seq<Scored>, pool: seq<Scored>)
    requires forall c :: c in ranked <==> c in scored
    requires forall c :: c in plausible <==> c in scored && IsPlausible(c)
    requires pool == if plausible != [] then plausible else ranked
    ensures forall c :: c in pool <==> InPool(scored, c)
  {
    if plausible != [] {
      assert plausible[0] in plausible;
    } else {
      forall c | c in scored ensures c.score < 4800 || IsBlocked(c) { assert c !in plausible; }
    }
  }

  lemma {:induction false} DistinctSize<T>(s: seq<T>)
    requires Distinct(s)
    ensures |set x | x in s| == |s|
  {
    if s != [] {
      var front, last := s[..|s| - 1], s[|s| - 1];
      DistinctSize(front);
      assert (set x | x in s) == (set x | x in front) + {last};
    }
  }

  /** What the decision adds to the best candidate's evidence. */
  lemma EvidenceReports(legal: Legal, scored: seq<Scored>, best: Scored)
    requires DistinctKeys(scored) && scored != [] && Top(scored, best)
    ensures var d := DecideArchive(legal, scored);
            d.evidence ==
              (set x | x in best.evidence)
              + (if exists c :: c in scored && IsBlocked(c) then {BlockedCandidates} else {})
              + (if d.decision == Unmatched then {NoPlausible} else {})
              + (if d.decision == Ambiguous && d.score >= 7200 then {NarrowMargin} else {})
  {
    var ranked, plausible := RankedIs(scored);
    assert scored[0] in ranked;
    var pool := if plausible != [] then plausible else ranked;
    PoolIs(scored, ranked, plausible, pool);
    PoolTop(scored, pool);
    TopIsUnique(scored, best, pool[0]);
    BlockedSomewhere(scored, ranked);
    JudgeSays(legal.id, ranked, plausible, pool);
  }

  lemma JudgeSays(legalId: int, ranked: seq<Scored>, plausible: seq<Scored>, pool: seq<Scored>)
    requires ranked != [] && pool == if plausible != [] then plausible else ranked
    ensures var d := Judge(legalId, ranked, plausible);
            d.evidence ==
              (set x | x in pool[0].evidence)
              + (if exists i :: 0 <= i < |ranked| && IsBlocked(ranked[i]) then {BlockedCandidates} else {})
              + (if d.decision == Unmatched then {NoPlausible} else {})
              + (if d.decision == Ambiguous && d.score >= 7200 then {NarrowMargin} else {})
  {}

  lemma BlockedSomewhere(scored: seq<Scored>, ranked: seq<Scored>)
    requires forall c :: c in ranked <==> c in scored
    ensures (exists i :: 0 <= i < |ranked| && IsBlocked(ranked[i])) <==> (exists c :: c in scored && IsBlocked(c))
  {
    if exists c :: c in scored && IsBlocked(c) {
      var c :| c in scored && IsBlocked(c);
      assert c in ranked;
    }
    if exists i :: 0 <= i < |ranked| && IsBlocked(ranked[i]) {
      var i :| 0 <= i < |ranked| && IsBlocked(ranked[i]);
      assert ranked[i] in ranked;
    }
  }

  lemma TopIsUnique(scored: seq<Scored>, a: Scored, b: Scored)
    requires DistinctKeys(scored) && Top(scored, a) && Top(scored, b)
    ensures a == b
  {
    KeysSeparate(scored);
    assert a == b || (ByRank()(a, b) && ByRank()(b, a));
  }
}
