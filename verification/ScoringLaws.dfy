/** What a pair's score means, without its formula.

    Source: apps/legal_work/archived_topic_matching.py:93-127, 171-277 and the signals of
    apps/legal_work/current_topic_matching.py:322-430. */
module ScoringLaws {
  import opened Basics
  import opened ArchiveScoring

  // ------------------------------------------------------------------
  // The points.
  // ------------------------------------------------------------------

  predicate OnScale(x: real) { 0.0 <= x <= 1.0 }

  predicate MaybeOnScale(x: Option<real>) { x.Some? ==> OnScale(x.value) }

  lemma SelfShare(x: real)
    requires x > 0.0
    ensures x / x == 1.0
  {}

  /** **Full agreement is exactly a hundred points and none is nothing**, whichever signals both sides can give. */
  lemma FullAndNone(deadline: bool, organization: bool)
    ensures Points(1.0, 1.0, 1.0, if deadline then Some(1.0) else None, if organization then Some(1.0) else None) == 100.0
    ensures Points(0.0, 0.0, 0.0, if deadline then Some(0.0) else None, if organization then Some(0.0) else None) == 0.0
  {}

  /** **Each signal is worth its weight**: where both sides give all five, the points are 26, 32, 24, 8 and 10 times
      the signals. */
  lemma WorthItsWeight(ngram: real, rarity: real, unique: real, deadline: real, organization: real)
    requires OnScale(ngram) && OnScale(rarity) && OnScale(unique) && OnScale(deadline) && OnScale(organization)
    ensures Points(ngram, rarity, unique, Some(deadline), Some(organization))
         == 26.0 * ngram + 32.0 * rarity + 24.0 * unique + 8.0 * deadline + 10.0 * organization
  {}

  /** **A signal one side cannot give changes nothing**: the points are those of the pair in which it equals the mean of
      the others. */
  lemma AbsentDeadlineIsNeutral(ngram: real, rarity: real, unique: real, organization: Option<real>)
    requires OnScale(ngram) && OnScale(rarity) && OnScale(unique) && MaybeOnScale(organization)
    ensures var p := Points(ngram, rarity, unique, None, organization);
            OnScale(p / 100.0) && Points(ngram, rarity, unique, Some(p / 100.0), organization) == p
  {}

  lemma AbsentBodyIsNeutral(ngram: real, rarity: real, unique: real, deadline: Option<real>)
    requires OnScale(ngram) && OnScale(rarity) && OnScale(unique) && MaybeOnScale(deadline)
    ensures var p := Points(ngram, rarity, unique, deadline, None);
            OnScale(p / 100.0) && Points(ngram, rarity, unique, deadline, Some(p / 100.0)) == p
  {}

  // ------------------------------------------------------------------
  // Rounding.
  // ------------------------------------------------------------------

  /** A score is the nearest hundredth of a point, up to the four decimals kept on the way; a whole number of hundredths
      is kept as it is, and half a hundredth is rounded up. */
  lemma ScoreIsNearest(points: real, k: int)
    requires points >= 0.0
    ensures -0.505 <= Quantise(points) as real - points * 100.0 <= 0.505
    ensures points * 100.0 == k as real ==> Quantise(points) == k
    ensures points * 100.0 == k as real + 0.5 ==> Quantise(points) == k + 1
  {
    var tenths := RoundHalfEven(points * 10000.0);
    assert -0.5 <= tenths as real - points * 10000.0 <= 0.5;
    if points * 100.0 == k as real { Whole(points * 10000.0, 100 * k); }
    if points * 100.0 == k as real + 0.5 { Whole(points * 10000.0, 100 * k + 50); }
  }

  lemma Whole(x: real, k: int)
    requires x == k as real
    ensures RoundHalfEven(x) == k
  {}

  // ------------------------------------------------------------------
  // Signals.
  // ------------------------------------------------------------------

  lemma RatioIs(part: nat, whole: nat)
    requires part <= whole && whole > 0
    ensures Ratio(part, whole) * whole as real == part as real
  {}

  /** Twice the shared n-grams over all of both; and the share of the needle that the haystack holds. */
  lemma TextSignals(a: set<string>, b: set<string>)
    requires a != {} && b != {}
    ensures Dice(a, b) * (|a| + |b|) as real == 2.0 * |a * b| as real
    ensures Containment(a, b) * |a| as real == |a * b| as real
  {
    SubsetSize(a * b, a);
    SubsetSize(a * b, b);
    RatioIs(2 * |a * b|, |a| + |b|);
    RatioIs(|a * b|, |a|);
  }

  /** **How much of the record's wording a candidate accounts for**: all of it iff every word is there, none iff none is. */
  lemma RarityEnds(query: seq<string>, tokens: set<string>, corpus: Corpus)
    requires Positive(corpus)
    ensures RarityCoverage(query, tokens, corpus) == 1.0 <==> query != [] && forall t :: t in query ==> t in tokens
    ensures RarityCoverage(query, tokens, corpus) == 0.0 <==> forall t :: t in query ==> t !in tokens
  {
    if query != [] {
      OnceKeeps(query);
      CoveredWithin(Once(query), tokens, AsSet(query), corpus);
      CoveredEnds(Once(query), tokens, AsSet(query), corpus);
      assert query[0] in Once(query);
      ShareEnds(Covered(Once(query), tokens, corpus), Covered(Once(query), AsSet(query), corpus));
    }
  }

  lemma ShareEnds(part: real, whole: real)
    requires 0.0 <= part <= whole && whole > 0.0
    ensures part / whole == 1.0 <==> part == whole
    ensures part / whole == 0.0 <==> part == 0.0
  {
    assert (part / whole) * whole == part;
  }

  lemma {:induction false} CoveredEnds(query: seq<string>, tokens: set<string>, all: set<string>, corpus: Corpus)
    requires Positive(corpus) && forall t :: t in query ==> t in all
    ensures Covered(query, tokens, corpus) == Covered(query, all, corpus) <==> forall t :: t in query ==> t in tokens
    ensures Covered(query, tokens, corpus) == 0.0 <==> forall t :: t in query ==> t !in tokens
    ensures 0.0 <= Covered(query, tokens, corpus) <= Covered(query, all, corpus)
  {
    if query != [] {
      CoveredEnds(query[1..], tokens, all, corpus);
      assert forall t :: t in query <==> t == query[0] || t in query[1..];
      assert Weight(query[0], corpus) > 0.0;
    }
  }

  /** A generic word weighs fifteen hundredths of another, and a repeated word counts once: of two words of one rarity, one
      of them generic and said twice, the other accounts for 100 parts of 115. */
  lemma GenericWordsWeighLess(generic: string, other: string, weight: real)
    requires generic != other && weight > 0.0
    ensures var corpus := Corpus(map[generic := weight, other := weight], weight, map[], {generic});
            RarityCoverage([generic, other, generic], {other}, corpus) * 115.0 == 100.0
  {
    var corpus := Corpus(map[generic := weight, other := weight], weight, map[], {generic});
    var query := [generic, other, generic];
    OnceOfThree(generic, other);
    assert Weight(other, corpus) == weight && Weight(generic, corpus) == weight * 0.15;
    assert generic in query && other in query && query[0] == generic && query[1] == other;
    CoveredTwo(other, generic, {other}, corpus);
    CoveredTwo(other, generic, AsSet(query), corpus);
    OneOf115(weight);
  }

  /** A word the corpus does not know weighs as much as its rarest. */
  lemma UnknownWordsAreRare(known: string, unknown: string, weight: real, rarest: real)
    requires known != unknown && weight > 0.0 && rarest > 0.0
    ensures var corpus := Corpus(map[known := weight], rarest, map[], {});
            RarityCoverage([known, unknown], {unknown}, corpus) * (weight + rarest) == rarest
  {
    var corpus := Corpus(map[known := weight], rarest, map[], {});
    var query := [known, unknown];
    assert query[1..] == [unknown] && [unknown][1..] == [] && Once([unknown]) == [unknown] && Once(query) == query;
    assert query[0] == known && query[1] == unknown;
    CoveredTwo(known, unknown, {unknown}, corpus);
    CoveredTwo(known, unknown, AsSet(query), corpus);
  }

  lemma OnceOfThree(a: string, b: string)
    requires a != b
    ensures Once([a, b, a]) == [b, a]
  {
    assert [a, b, a][1..] == [b, a] && [b, a][1..] == [a] && [a][1..] == [];
    assert [b, a][1] == a && Once([a]) == [a] && Once([b, a]) == [b, a];
  }

  lemma CoveredTwo(a: string, b: string, inside: set<string>, corpus: Corpus)
    ensures Covered([a, b], inside, corpus)
         == (if a in inside then Weight(a, corpus) else 0.0) + (if b in inside then Weight(b, corpus) else 0.0)
  {
    assert [a, b][1..] == [b] && [b][1..] == [];
    assert Covered([], inside, corpus) == 0.0;
    assert Covered([b], inside, corpus) == if b in inside then Weight(b, corpus) else 0.0;
  }

  lemma OneOf115(weight: real)
    requires weight > 0.0
    ensures weight / (weight * 1.15) * 115.0 == 100.0
  {
    var r := weight / (weight * 1.15);
    assert r * (weight * 1.15) == weight;
    NoFactor(r * 1.15 - 1.0, weight);
  }

  lemma NoFactor(x: real, y: real)
    requires y > 0.0 && x * y == 0.0
    ensures x == 0.0
  {}

  /** The table of the deadline signal. */
  lemma DeadlineTable(legal: Legal, c: Candidate)
    ensures legal.deadline.None? || c.deadline.None? ==> DeadlineSignal(legal, c) == (0.0, None)
    ensures legal.deadline.Some? && c.deadline.Some? ==>
              var gap := Abs(c.deadline.value - legal.deadline.value);
              && (gap == 0 ==> DeadlineSignal(legal, c) == (1.0, Some(DeadlineExact)))
              && (1 <= gap <= 3 ==> DeadlineSignal(legal, c) == (0.7, Some(DeadlineNear)))
              && (4 <= gap <= 14 ==> DeadlineSignal(legal, c) == (0.0, None))
              && (15 <= gap ==> DeadlineSignal(legal, c) == (0.0, Some(DeadlineConflict)))
  {}

  /** The table of the named body. */
  lemma BodyTable(legal: Legal, c: Candidate)
    ensures legal.organization.key == "" || c.organization.key == "" ==> OrganizationSignal(legal, c) == (0.0, false)
    ensures legal.organization.key != "" && c.organization.key != "" ==>
              && (legal.organization.key == c.organization.key ==> OrganizationSignal(legal, c) == (1.0, false))
              && (legal.organization.key != c.organization.key ==>
                    OrganizationSignal(legal, c)
                    == if legal.organization.words * c.organization.words == {} then (0.0, true) else (0.6, false))
  {}

  /** Three words no other entry uses are as good as more. */
  lemma UniqueTable(hits: nat)
    ensures UniqueScore(hits) * 3.0 == (if hits <= 3 then hits else 3) as real
  {}

  // ------------------------------------------------------------------
  // The score of a pair.
  // ------------------------------------------------------------------

  /** The five signals of a pair, as far as both sides can give them. */
  ghost predicate Signals(legal: Legal, c: Candidate, corpus: Corpus, ngram: real, rarity: real, unique: real,
                          deadline: Option<real>, organization: Option<real>)
    requires Positive(corpus)
  {
    && (ngram == Dice(legal.ngrams, c.ngrams) || ngram == Containment(legal.ngramsSignificant, c.ngramsFull))
    && ngram >= Dice(legal.ngrams, c.ngrams) && ngram >= Containment(legal.ngramsSignificant, c.ngramsFull)
    && rarity == RarityCoverage(legal.tokens, c.tokens, corpus)
    && unique == UniqueScore(|UniqueHits(legal, c, corpus)|)
    && (deadline.Some? <==> legal.deadline.Some? && c.deadline.Some?)
    && (deadline.Some? ==> deadline.value == DeadlineSignal(legal, c).0)
    && (organization.Some? <==> legal.organization.key != "" && c.organization.key != "")
    && (organization.Some? ==> organization.value == OrganizationSignal(legal, c).0)
  }

  /** The score of a pair is the points of its signals, to the nearest hundredth. */
  lemma ScoreOfSignals(legal: Legal, c: Candidate, corpus: Corpus, ngram: real, rarity: real, unique: real,
                       deadline: Option<real>, organization: Option<real>)
    requires Positive(corpus) && Signals(legal, c, corpus, ngram, rarity, unique, deadline, organization)
    ensures OnScale(ngram) && OnScale(rarity) && OnScale(unique) && MaybeOnScale(deadline) && MaybeOnScale(organization)
    ensures ScorePair(legal, c, corpus).score == Quantise(Points(ngram, rarity, unique, deadline, organization))
  {}

  /** **A pair that agrees in full scores 100.00**: the same n-grams, every word of the record, three words nobody else uses,
      and the same deadline and body, or none on one side. */
  lemma FullPair(legal: Legal, c: Candidate, corpus: Corpus)
    requires Positive(corpus)
    requires legal.ngrams == c.ngrams != {} && legal.tokens != [] && (forall t :: t in legal.tokens ==> t in c.tokens)
    requires |UniqueHits(legal, c, corpus)| >= 3
    requires legal.deadline == c.deadline || legal.deadline.None? || c.deadline.None?
    requires legal.organization.key == c.organization.key || legal.organization.key == "" || c.organization.key == ""
    ensures ScorePair(legal, c, corpus).score == 10000
  {
    var dated, named := legal.deadline.Some? && c.deadline.Some?, legal.organization.key != "" && c.organization.key != "";
    SameNgrams(legal.ngrams);
    RarityEnds(legal.tokens, c.tokens, corpus);
    UniqueTable(|UniqueHits(legal, c, corpus)|);
    ScoreOfSignals(legal, c, corpus, 1.0, 1.0, 1.0, if dated then Some(1.0) else None, if named then Some(1.0) else None);
    FullAndNone(dated, named);
    ScoreIsNearest(100.0, 10000);
  }

  lemma SameNgrams(a: set<string>)
    requires a != {}
    ensures Dice(a, a) == 1.0
  {
    TextSignals(a, a);
    assert a * a == a;
    assert Dice(a, a) * (2.0 * |a| as real) == 2.0 * |a| as real;
  }

  /** Nothing to say about deadline or body. */
  predicate Silent(legal: Legal, c: Candidate) {
    (legal.deadline.None? || c.deadline.None?) && (legal.organization.key == "" || c.organization.key == "")
  }

  /** **One signal alone, over what applies**: agreement in n-grams only scores 26 parts of 82, in wording only 32, in
      words nobody else uses only 24. */
  lemma TextAlone(legal: Legal, c: Candidate, corpus: Corpus)
    requires Positive(corpus) && Silent(legal, c) && UniqueHits(legal, c, corpus) == {} && legal.tokens == []
    requires legal.ngrams == c.ngrams != {}
    ensures ScorePair(legal, c, corpus).score == 3171
  {
    SameNgrams(legal.ngrams);
    UniqueTable(0);
    ScoreOfSignals(legal, c, corpus, 1.0, 0.0, 0.0, None, None);
    var p := Points(1.0, 0.0, 0.0, None, None);
    assert p * 82.0 == 2600.0;
    ScoreIsNearest(p, 3171);
  }

  lemma WordingAlone(legal: Legal, c: Candidate, corpus: Corpus)
    requires Positive(corpus) && Silent(legal, c) && UniqueHits(legal, c, corpus) == {}
    requires legal.ngrams == {} && legal.ngramsSignificant == {} && legal.tokens != [] && (forall t :: t in legal.tokens ==> t in c.tokens)
    ensures ScorePair(legal, c, corpus).score == 3902
  {
    RarityEnds(legal.tokens, c.tokens, corpus);
    UniqueTable(0);
    ScoreOfSignals(legal, c, corpus, 0.0, 1.0, 0.0, None, None);
    var p := Points(0.0, 1.0, 0.0, None, None);
    assert p * 82.0 == 3200.0;
    ScoreIsNearest(p, 3902);
  }

  lemma OwnWordsAlone(legal: Legal, c: Candidate, corpus: Corpus)
    requires Positive(corpus) && Silent(legal, c) && |UniqueHits(legal, c, corpus)| == 3
    requires legal.ngrams == {} && legal.ngramsSignificant == {} && legal.tokens == []
    ensures ScorePair(legal, c, corpus).score == 2927
  {
    UniqueTable(3);
    ScoreOfSignals(legal, c, corpus, 0.0, 0.0, 1.0, None, None);
    var p := Points(0.0, 0.0, 1.0, None, None);
    assert p * 82.0 == 2400.0;
    ScoreIsNearest(p, 2927);
  }

  /** The same deadline alone scores 8 parts of 90, the same body alone 10 parts of 92. */
  lemma DeadlineAlone(legal: Legal, c: Candidate, corpus: Corpus)
    requires Positive(corpus) && UniqueHits(legal, c, corpus) == {}
    requires legal.ngrams == {} && legal.ngramsSignificant == {} && legal.tokens == []
    requires legal.deadline.Some? && legal.deadline == c.deadline && legal.organization.key == ""
    ensures ScorePair(legal, c, corpus).score == 889
  {
    UniqueTable(0);
    ScoreOfSignals(legal, c, corpus, 0.0, 0.0, 0.0, Some(1.0), None);
    var p := Points(0.0, 0.0, 0.0, Some(1.0), None);
    assert p * 90.0 == 800.0;
    ScoreIsNearest(p, 889);
  }

  lemma BodyAlone(legal: Legal, c: Candidate, corpus: Corpus)
    requires Positive(corpus) && UniqueHits(legal, c, corpus) == {}
    requires legal.ngrams == {} && legal.ngramsSignificant == {} && legal.tokens == []
    requires legal.deadline.None? && legal.organization.key != "" && legal.organization.key == c.organization.key
    ensures ScorePair(legal, c, corpus).score == 1087
  {
    UniqueTable(0);
    ScoreOfSignals(legal, c, corpus, 0.0, 0.0, 0.0, None, Some(1.0));
    var p := Points(0.0, 0.0, 0.0, None, Some(1.0));
    assert p * 92.0 == 1000.0;
    ScoreIsNearest(p, 1087);
  }

  /** **Evidence in favour.** A pair is said to agree strongly in n-grams or wording from a half up, to own words when one is
      shared with nobody else, to match in deadline, body, identifier or acronym when they do. */
  lemma EvidenceFor(legal: Legal, c: Candidate, corpus: Corpus)
    requires Positive(corpus)
    ensures var e := ScorePair(legal, c, corpus).evidence;
            && (NgramStrong in e <==>
                  Dice(legal.ngrams, c.ngrams) >= 0.5 || Containment(legal.ngramsSignificant, c.ngramsFull) >= 0.5)
            && (RarityStrong in e <==> RarityCoverage(legal.tokens, c.tokens, corpus) >= 0.5)
            && (UniqueToken in e <==> UniqueHits(legal, c, corpus) != {})
            && (OrganizationMatch in e <==> OrganizationSignal(legal, c).0 > 0.0)
            && (IdentifierMatch in e <==> legal.identifiers * c.identifiers != {})
            && (AcronymMatch in e <==> legal.acronyms * c.acronyms != {})
  {
    var ngram := Larger(Dice(legal.ngrams, c.ngrams), Containment(legal.ngramsSignificant, c.ngramsFull));
    var rarity, hits := RarityCoverage(legal.tokens, c.tokens, corpus), |UniqueHits(legal, c, corpus)|;
    EvidenceParts(legal, c, corpus);
    FromTheParts(legal, c, corpus, ScorePair(legal, c, corpus).evidence, ngram, rarity, hits);
  }

  lemma FromTheParts(legal: Legal, c: Candidate, corpus: Corpus, e: seq<Evidence>, ngram: real, rarity: real, hits: nat)
    requires forall x :: x in e <==>
      || x in Strengths(ngram, rarity, hits)
      || x in Agreements(DeadlineSignal(legal, c).1, OrganizationSignal(legal, c).0 > 0.0, legal.identifiers * c.identifiers != {})
      || x in Contradictions(legal, c) || x in Weaknesses(legal, c, OrganizationSignal(legal, c).1, corpus)
    ensures (NgramStrong in e <==> ngram >= 0.5) && (RarityStrong in e <==> rarity >= 0.5) && (UniqueToken in e <==> hits > 0)
    ensures OrganizationMatch in e <==> OrganizationSignal(legal, c).0 > 0.0
    ensures IdentifierMatch in e <==> legal.identifiers * c.identifiers != {}
    ensures AcronymMatch in e <==> legal.acronyms * c.acronyms != {}
  {
    InStrengths(ngram, rarity, hits);
    InAgreements(DeadlineSignal(legal, c).1, OrganizationSignal(legal, c).0 > 0.0, legal.identifiers * c.identifiers != {});
    InTheRest(legal, c, OrganizationSignal(legal, c).1, corpus);
    GroupsApart(e, Strengths(ngram, rarity, hits),
                Agreements(DeadlineSignal(legal, c).1, OrganizationSignal(legal, c).0 > 0.0, legal.identifiers * c.identifiers != {}),
                Contradictions(legal, c), Weaknesses(legal, c, OrganizationSignal(legal, c).1, corpus));
  }

  /** The codes a group may hold. */
  predicate Within(e: seq<Evidence>, codes: set<Evidence>) { forall i :: 0 <= i < |e| ==> e[i] in codes }

  const STRENGTHS := {NgramStrong, RarityStrong, UniqueToken}
  const AGREEMENTS := {DeadlineExact, DeadlineNear, DeadlineConflict, OrganizationMatch, IdentifierMatch}
  const CONTRADICTIONS := {IdentifierConflict, AcronymMatch, ImpossibleChronology}
  const WEAKNESSES := {OrganizationConflict, GenericOnly, NoRareOverlap}

  lemma GroupsApart(e: seq<Evidence>, a: seq<Evidence>, b: seq<Evidence>, c: seq<Evidence>, d: seq<Evidence>)
    requires Within(a, STRENGTHS) && Within(b, AGREEMENTS) && Within(c, CONTRADICTIONS) && Within(d, WEAKNESSES)
    requires forall x :: x in e <==> x in a || x in b || x in c || x in d
    ensures (NgramStrong in e <==> NgramStrong in a) && (RarityStrong in e <==> RarityStrong in a) && (UniqueToken in e <==> UniqueToken in a)
    ensures (OrganizationMatch in e <==> OrganizationMatch in b) && (IdentifierMatch in e <==> IdentifierMatch in b)
    ensures AcronymMatch in e <==> AcronymMatch in c
  {}

  /** The evidence is the four groups of codes and nothing else. */
  lemma EvidenceParts(legal: Legal, c: Candidate, corpus: Corpus)
    requires Positive(corpus)
    ensures var ngram := Larger(Dice(legal.ngrams, c.ngrams), Containment(legal.ngramsSignificant, c.ngramsFull));
            var rarity, hits := RarityCoverage(legal.tokens, c.tokens, corpus), |UniqueHits(legal, c, corpus)|;
            forall x :: x in ScorePair(legal, c, corpus).evidence <==>
              || x in Strengths(ngram, rarity, hits)
              || x in Agreements(DeadlineSignal(legal, c).1, OrganizationSignal(legal, c).0 > 0.0, legal.identifiers * c.identifiers != {})
              || x in Contradictions(legal, c) || x in Weaknesses(legal, c, OrganizationSignal(legal, c).1, corpus)
  {
    var ngram := Larger(Dice(legal.ngrams, c.ngrams), Containment(legal.ngramsSignificant, c.ngramsFull));
    var rarity, hits := RarityCoverage(legal.tokens, c.tokens, corpus), |UniqueHits(legal, c, corpus)|;
    InFour(Strengths(ngram, rarity, hits),
           Agreements(DeadlineSignal(legal, c).1, OrganizationSignal(legal, c).0 > 0.0, legal.identifiers * c.identifiers != {}),
           Contradictions(legal, c), Weaknesses(legal, c, OrganizationSignal(legal, c).1, corpus));
  }

  lemma InFour(a: seq<Evidence>, b: seq<Evidence>, c: seq<Evidence>, d: seq<Evidence>)
    ensures forall x :: x in a + b + c + d <==> x in a || x in b || x in c || x in d
  {}

  lemma InStrengths(ngram: real, rarity: real, hits: nat)
    ensures var e := Strengths(ngram, rarity, hits);
            && (NgramStrong in e <==> ngram >= 0.5) && (RarityStrong in e <==> rarity >= 0.5) && (UniqueToken in e <==> hits > 0)
            && Within(e, STRENGTHS)
  {}

  lemma InAgreements(deadline: Option<Evidence>, organization: bool, identifiers: bool)
    requires deadline.Some? ==> deadline.value in {DeadlineExact, DeadlineNear, DeadlineConflict}
    ensures var e := Agreements(deadline, organization, identifiers);
            && (OrganizationMatch in e <==> organization) && (IdentifierMatch in e <==> identifiers)
            && Within(e, AGREEMENTS)
  {}

  lemma InTheRest(legal: Legal, c: Candidate, conflicts: bool, corpus: Corpus)
    ensures AcronymMatch in Contradictions(legal, c) <==> legal.acronyms * c.acronyms != {}
    ensures Within(Contradictions(legal, c), CONTRADICTIONS) && Within(Weaknesses(legal, c, conflicts, corpus), WEAKNESSES)
  {}
}
