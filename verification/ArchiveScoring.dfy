/** Scoring one legal record against one archived consultation.

    Source: apps/legal_work/archived_topic_matching.py:93-277 and the signals it imports from
    apps/legal_work/current_topic_matching.py:322-430. Token and n-gram sets are inputs; inverse
    document frequencies are positive numbers. Floating-point arithmetic is modelled over the reals;
    scores are hundredths of a point. */
module ArchiveScoring {
  import opened Basics

  datatype Evidence =
    | NgramStrong | RarityStrong | UniqueToken
    | DeadlineExact | DeadlineNear | DeadlineConflict
    | OrganizationMatch | OrganizationConflict
    | IdentifierMatch | IdentifierConflict | AcronymMatch
    | ImpossibleChronology | GenericOnly | NoRareOverlap
    | NarrowMargin | NoCandidates | NoPlausible | BlockedCandidates

  const BLOCKING := {DeadlineConflict, ImpossibleChronology, OrganizationConflict, GenericOnly, IdentifierConflict, NoRareOverlap}

  /** A comparable organisation key, empty when none is named, and the words it splits into. */
  datatype Organization = Organization(key: string, words: set<string>)

  datatype Candidate = Candidate(
    id: int, key: string, published: Option<int>, deadline: Option<int>, organization: Organization,
    ngrams: set<string>, ngramsFull: set<string>, tokens: set<string>, significant: set<string>,
    acronyms: set<string>, identifiers: set<string>)

  datatype Legal = Legal(
    id: int, received: Option<int>, deadline: Option<int>, organization: Organization,
    ngrams: set<string>, ngramsSignificant: set<string>, tokens: seq<string>, significant: set<string>,
    acronyms: set<string>, identifiers: set<string>)

  datatype Scored = Scored(candidate: Candidate, score: int, evidence: seq<Evidence>)

  predicate Blocks(e: seq<Evidence>) {
    exists i :: 0 <= i < |e| && e[i] in BLOCKING
  }

  predicate IsBlocked(c: Scored) {
    Blocks(c.evidence)
  }

  /** Rarity of the corpus: weights of its tokens, the largest of them, and how many entries use each. */
  datatype Corpus = Corpus(idf: map<string, real>, rarest: real, owners: map<string, nat>, generic: set<string>)

  ghost predicate Positive(corpus: Corpus) {
    corpus.rarest > 0.0 && forall t :: t in corpus.idf ==> corpus.idf[t] > 0.0
  }

  const GENERIC_DAMPING := 0.15
  const WEIGHT_NGRAM := 0.26
  const WEIGHT_RARITY := 0.32
  const WEIGHT_UNIQUE := 0.24
  const WEIGHT_DEADLINE := 0.08
  const WEIGHT_ORGANIZATION := 0.10
  const DEADLINE_AGREEMENT_DAYS := 3
  const DEADLINE_CONFLICT_DAYS := 14
  const IMPOSSIBLE_LEAD_DAYS := 60
  const UNIQUE_TOKEN_SATURATION := 3

  // ------------------------------------------------------------------
  // Signals.
  // ------------------------------------------------------------------

  function Dice(a: set<string>, b: set<string>): (r: real)
    ensures 0.0 <= r <= 1.0
  {
    if a == {} || b == {} then 0.0
    else
      SubsetSize(a * b, a);
      SubsetSize(a * b, b);
      Ratio(2 * |a * b|, |a| + |b|)
  }

  function Containment(needle: set<string>, haystack: set<string>): (r: real)
    ensures 0.0 <= r <= 1.0
  {
    if needle == {} || haystack == {} then 0.0
    else
      SubsetSize(needle * haystack, needle);
      Ratio(|needle * haystack|, |needle|)
  }

  function Weight(token: string, corpus: Corpus): real {
    var base := if token in corpus.idf then corpus.idf[token] else corpus.rarest;
    if token in corpus.generic then base * GENERIC_DAMPING else base
  }

  /** `set(query_tokens)`, each token once. */
  function Once(tokens: seq<string>): seq<string> {
    if tokens == [] then []
    else if tokens[0] in tokens[1..] then Once(tokens[1..])
    else [tokens[0]] + Once(tokens[1..])
  }

  /** The weight of those `tokens` that lie in `inside`. */
  function Covered(tokens: seq<string>, inside: set<string>, corpus: Corpus): real {
    if tokens == [] then 0.0
    else Covered(tokens[1..], inside, corpus) + if tokens[0] in inside then Weight(tokens[0], corpus) else 0.0
  }

  function AsSet(tokens: seq<string>): set<string> { set t | t in tokens }

  lemma {:induction false} CoveredWithin(tokens: seq<string>, inside: set<string>, all: set<string>, corpus: Corpus)
    requires Positive(corpus) && forall t :: t in tokens ==> t in all
    ensures 0.0 <= Covered(tokens, inside, corpus) <= Covered(tokens, all, corpus)
    ensures tokens != [] ==> Covered(tokens, all, corpus) > 0.0
  {
    if tokens != [] { CoveredWithin(tokens[1..], inside, all, corpus); }
  }

  lemma {:induction false} OnceKeeps(tokens: seq<string>)
    ensures forall t :: t in Once(tokens) <==> t in tokens
  {
    if tokens != [] { OnceKeeps(tokens[1..]); }
  }

  /** The share of the record's information, weighted by rarity, that the candidate accounts for. */
  function RarityCoverage(query: seq<string>, tokens: set<string>, corpus: Corpus): (r: real)
    requires Positive(corpus)
    ensures 0.0 <= r <= 1.0
  {
    if query == [] then 0.0
    else
      OnceKeeps(query);
      CoveredWithin(Once(query), tokens, AsSet(query), corpus);
      assert query[0] in Once(query);
      var total := Covered(Once(query), AsSet(query), corpus);
      var covered := Covered(Once(query), tokens, corpus);
      ShareInRange(covered, total);
      covered / total
  }

  method ArchiveRarityCoverage(query: seq<string>, tokens: set<string>, corpus: Corpus) returns (r: real)
    requires Positive(corpus)
    ensures r == RarityCoverage(query, tokens, corpus)
  {
    if query == [] { return 0.0; }
    var once := Once(query);
    var total, covered := 0.0, 0.0;
    var i := |once|;
    OnceKeeps(query);
    while i > 0
      invariant 0 <= i <= |once|
      invariant total == Covered(once[i..], AsSet(query), corpus)
      invariant covered == Covered(once[i..], tokens, corpus)
    {
      i := i - 1;
      assert once[i..][0] == once[i] && once[i..][1..] == once[i + 1..];
      assert once[i] in once;
      var weight := if once[i] in corpus.idf then corpus.idf[once[i]] else corpus.rarest;
      if once[i] in corpus.generic { weight := weight * GENERIC_DAMPING; }
      total := total + weight;
      if once[i] in tokens { covered := covered + weight; }
    }
    assert once[0..] == once;
    CoveredWithin(once, tokens, AsSet(query), corpus);
    assert query[0] in once;
    r := covered / total;
  }

  function UniqueHits(legal: Legal, c: Candidate, corpus: Corpus): set<string> {
    set t | t in c.significant * legal.significant && t in corpus.owners && corpus.owners[t] == 1
  }

  function UniqueScore(hits: nat): (r: real)
    ensures 0.0 <= r <= 1.0
  {
    (if hits < UNIQUE_TOKEN_SATURATION then hits else UNIQUE_TOKEN_SATURATION) as real / UNIQUE_TOKEN_SATURATION as real
  }

  function Abs(n: int): nat { if n < 0 then -n else n }

  function DeadlineSignal(legal: Legal, c: Candidate): (r: (real, Option<Evidence>))
    ensures 0.0 <= r.0 <= 1.0
  {
    if legal.deadline.None? || c.deadline.None? then (0.0, None)
    else
      var gap := Abs(c.deadline.value - legal.deadline.value);
      if gap == 0 then (1.0, Some(DeadlineExact))
      else if gap <= DEADLINE_AGREEMENT_DAYS then (0.7, Some(DeadlineNear))
      else if gap > DEADLINE_CONFLICT_DAYS then (0.0, Some(DeadlineConflict))
      else (0.0, None)
  }

  /** Agreement on the named body, and whether the two sides name different ones. */
  function OrganizationSignal(legal: Legal, c: Candidate): (r: (real, bool))
    ensures 0.0 <= r.0 <= 1.0
  {
    if legal.organization.key == "" || c.organization.key == "" then (0.0, false)
    else if legal.organization.key == c.organization.key then (1.0, false)
    else if legal.organization.words * c.organization.words != {} then (0.6, false)
    else (0.0, true)
  }

  // ------------------------------------------------------------------
  // The score.
  // ------------------------------------------------------------------

  function RoundHalfEven(x: real): int {
    var whole := x.Floor;
    var rest := x - whole as real;
    if rest < 0.5 then whole else if rest > 0.5 then whole + 1 else if whole % 2 == 0 then whole else whole + 1
  }

  /** Four decimals first, then two decimals half up: points become hundredths of a point. */
  function Quantise(points: real): (hundredths: int)
    ensures 0.0 <= points <= 100.0 ==> 0 <= hundredths <= 10000
  {
    (RoundHalfEven(points * 10000.0) + 50) / 100
  }

  function Larger(a: real, b: real): real { if a >= b then a else b }

  /** The weighted mean over the signals both sides can give, in points of a hundred. */
  function Points(ngram: real, rarity: real, unique: real, deadline: Option<real>, organization: Option<real>): (r: real)
    requires 0.0 <= ngram <= 1.0 && 0.0 <= rarity <= 1.0 && 0.0 <= unique <= 1.0
    requires deadline.Some? ==> 0.0 <= deadline.value <= 1.0
    requires organization.Some? ==> 0.0 <= organization.value <= 1.0
    ensures 0.0 <= r <= 100.0
  {
    var weighted := WEIGHT_NGRAM * ngram + WEIGHT_RARITY * rarity + WEIGHT_UNIQUE * unique
                    + (if deadline.Some? then WEIGHT_DEADLINE * deadline.value else 0.0)
                    + (if organization.Some? then WEIGHT_ORGANIZATION * organization.value else 0.0);
    var applicable := WEIGHT_NGRAM + WEIGHT_RARITY + WEIGHT_UNIQUE
                      + (if deadline.Some? then WEIGHT_DEADLINE else 0.0)
                      + (if organization.Some? then WEIGHT_ORGANIZATION else 0.0);
    ShareInRange(weighted, applicable);
    (weighted / applicable) * 100.0
  }

  function When(c: bool, e: Evidence): seq<Evidence> { if c then [e] else [] }

  /** The evidence codes, in the order they are appended: how strongly the texts agree, */
  function Strengths(ngram: real, rarity: real, hits: nat): seq<Evidence> {
    When(ngram >= 0.5, NgramStrong) + When(rarity >= 0.5, RarityStrong) + When(hits > 0, UniqueToken)
  }

  /** what is stated alike on both sides, */
  function Agreements(deadline: Option<Evidence>, organization: bool, identifiers: bool): seq<Evidence> {
    (if deadline.Some? then [deadline.value] else [])
    + When(organization, OrganizationMatch) + When(identifiers, IdentifierMatch)
  }

  /** what cannot both be true of one matter, */
  function Contradictions(legal: Legal, c: Candidate): seq<Evidence> {
    When(legal.identifiers * c.identifiers == {} && legal.identifiers != {} && c.identifiers != {}, IdentifierConflict)
    + When(legal.acronyms * c.acronyms != {}, AcronymMatch)
    + When(legal.received.Some? && c.published.Some?
           && legal.received.value - c.published.value > IMPOSSIBLE_LEAD_DAYS, ImpossibleChronology)
  }

  /** and what tells too little apart. */
  function Weaknesses(legal: Legal, c: Candidate, organizationConflicts: bool, corpus: Corpus): seq<Evidence> {
    var apart := legal.significant * c.significant == {};
    var shared := AsSet(legal.tokens) * c.tokens;
    When(organizationConflicts && apart, OrganizationConflict)
    + When(legal.tokens != [] && apart && shared != {} && shared <= corpus.generic, GenericOnly)
    + When(apart && legal.identifiers * c.identifiers == {}, NoRareOverlap)
  }

  function ScorePair(legal: Legal, c: Candidate, corpus: Corpus): (r: Scored)
    requires Positive(corpus)
    ensures r.candidate == c && 0 <= r.score <= 10000
  {
    var ngram := Larger(Dice(legal.ngrams, c.ngrams), Containment(legal.ngramsSignificant, c.ngramsFull));
    var rarity := RarityCoverage(legal.tokens, c.tokens, corpus);
    var hits := |UniqueHits(legal, c, corpus)|;
    var (deadline, deadlineCode) := DeadlineSignal(legal, c);
    var (organization, organizationConflicts) := OrganizationSignal(legal, c);
    var points := Points(ngram, rarity, UniqueScore(hits),
                         if legal.deadline.Some? && c.deadline.Some? then Some(deadline) else None,
                         if legal.organization.key != "" && c.organization.key != "" then Some(organization) else None);
    Scored(c, Quantise(points),
           Strengths(ngram, rarity, hits)
           + Agreements(deadlineCode, organization > 0.0, legal.identifiers * c.identifiers != {})
           + Contradictions(legal, c)
           + Weaknesses(legal, c, organizationConflicts, corpus))
  }

  /** Both sides name a body, and the names have no word in common. */
  predicate NamesOtherBody(legal: Legal, c: Candidate) {
    && legal.organization.key != "" && c.organization.key != "" && legal.organization.key != c.organization.key
    && legal.organization.words * c.organization.words == {}
  }

  /** Nothing the two sides state contradicts them being one matter, and something that can tell matters
      apart is shared. A shared discriminating word outweighs different bodies and generic wording. */
  predicate Compatible(legal: Legal, c: Candidate, corpus: Corpus) {
    && (legal.deadline.Some? && c.deadline.Some? ==> Abs(c.deadline.value - legal.deadline.value) <= 14)
    && (legal.received.Some? && c.published.Some? ==> legal.received.value - c.published.value <= 60)
    && (legal.identifiers != {} && c.identifiers != {} ==> legal.identifiers * c.identifiers != {})
    && (legal.significant * c.significant == {} ==>
          && legal.identifiers * c.identifiers != {}
          && !NamesOtherBody(legal, c)
          && (AsSet(legal.tokens) * c.tokens == {} || exists t :: t in AsSet(legal.tokens) * c.tokens && t !in corpus.generic))
  }

  lemma BlocksEither(a: seq<Evidence>, b: seq<Evidence>)
    ensures Blocks(a + b) <==> Blocks(a) || Blocks(b)
  {
    if Blocks(a) {
      var i :| 0 <= i < |a| && a[i] in BLOCKING;
      assert (a + b)[i] in BLOCKING;
    }
    if Blocks(b) {
      var i :| 0 <= i < |b| && b[i] in BLOCKING;
      assert (a + b)[|a| + i] in BLOCKING;
    }
  }

  lemma BlocksAny(a: seq<Evidence>, b: seq<Evidence>, c: seq<Evidence>)
    ensures Blocks(a + b + c) <==> Blocks(a) || Blocks(b) || Blocks(c)
  {
    BlocksEither(a + b, c);
    BlocksEither(a, b);
  }

  lemma BlocksWhen(c: bool, e: Evidence)
    ensures Blocks(When(c, e)) <==> c && e in BLOCKING
  {
    if c && e in BLOCKING { assert When(c, e)[0] in BLOCKING; }
  }

  lemma StrengthsNeverBlock(ngram: real, rarity: real, hits: nat)
    ensures !Blocks(Strengths(ngram, rarity, hits))
  {
    BlocksAny(When(ngram >= 0.5, NgramStrong), When(rarity >= 0.5, RarityStrong), When(hits > 0, UniqueToken));
  }

  lemma AgreementsBlockIff(deadline: Option<Evidence>, organization: bool, identifiers: bool)
    ensures Blocks(Agreements(deadline, organization, identifiers)) <==> deadline.Some? && deadline.value in BLOCKING
  {
    var first := if deadline.Some? then [deadline.value] else [];
    if deadline.Some? && deadline.value in BLOCKING { assert first[0] in BLOCKING; }
    BlocksAny(first, When(organization, OrganizationMatch), When(identifiers, IdentifierMatch));
  }

  lemma ContradictionsBlockIff(legal: Legal, c: Candidate)
    ensures Blocks(Contradictions(legal, c)) <==>
            || (legal.identifiers * c.identifiers == {} && legal.identifiers != {} && c.identifiers != {})
            || (legal.received.Some? && c.published.Some? && legal.received.value - c.published.value > IMPOSSIBLE_LEAD_DAYS)
  {
    var numbered := legal.identifiers * c.identifiers == {} && legal.identifiers != {} && c.identifiers != {};
    var early := legal.received.Some? && c.published.Some? && legal.received.value - c.published.value > IMPOSSIBLE_LEAD_DAYS;
    BlocksAny(When(numbered, IdentifierConflict), When(legal.acronyms * c.acronyms != {}, AcronymMatch), When(early, ImpossibleChronology));
    BlocksWhen(numbered, IdentifierConflict);
    BlocksWhen(early, ImpossibleChronology);
  }

  lemma WeaknessesBlockIff(legal: Legal, c: Candidate, organizationConflicts: bool, corpus: Corpus)
    ensures var shared := AsSet(legal.tokens) * c.tokens;
            Blocks(Weaknesses(legal, c, organizationConflicts, corpus)) <==>
            && legal.significant * c.significant == {}
            && (organizationConflicts || (shared != {} && shared <= corpus.generic) || legal.identifiers * c.identifiers == {})
  {
    var apart := legal.significant * c.significant == {};
    var shared := AsSet(legal.tokens) * c.tokens;
    var generic := legal.tokens != [] && apart && shared != {} && shared <= corpus.generic;
    var nothing := apart && legal.identifiers * c.identifiers == {};
    BlocksAny(When(organizationConflicts && apart, OrganizationConflict), When(generic, GenericOnly), When(nothing, NoRareOverlap));
    BlocksWhen(organizationConflicts && apart, OrganizationConflict);
    BlocksWhen(generic, GenericOnly);
    BlocksWhen(nothing, NoRareOverlap);
    assert legal.tokens == [] ==> AsSet(legal.tokens) == {};
  }

  lemma EvidenceBlocksIff(texts: seq<Evidence>, stated: seq<Evidence>, against: seq<Evidence>, weak: seq<Evidence>)
    requires !Blocks(texts)
    ensures Blocks(texts + stated + against + weak) <==> Blocks(stated) || Blocks(against) || Blocks(weak)
  {
    BlocksAny(texts, stated, against);
    BlocksEither(texts + stated + against, weak);
  }

  lemma PairBlocksIff(legal: Legal, c: Candidate, corpus: Corpus)
    requires Positive(corpus)
    ensures var (deadline, code) := DeadlineSignal(legal, c);
            var (organization, conflicts) := OrganizationSignal(legal, c);
            IsBlocked(ScorePair(legal, c, corpus)) <==>
            || (code.Some? && code.value in BLOCKING)
            || Blocks(Contradictions(legal, c))
            || Blocks(Weaknesses(legal, c, conflicts, corpus))
  {
    var ngram := Larger(Dice(legal.ngrams, c.ngrams), Containment(legal.ngramsSignificant, c.ngramsFull));
    var rarity := RarityCoverage(legal.tokens, c.tokens, corpus);
    var hits := |UniqueHits(legal, c, corpus)|;
    var (deadline, code) := DeadlineSignal(legal, c);
    var (organization, conflicts) := OrganizationSignal(legal, c);
    var identifiers := legal.identifiers * c.identifiers != {};
    StrengthsNeverBlock(ngram, rarity, hits);
    AgreementsBlockIff(code, organization > 0.0, identifiers);
    EvidenceBlocksIff(Strengths(ngram, rarity, hits), Agreements(code, organization > 0.0, identifiers),
                      Contradictions(legal, c), Weaknesses(legal, c, conflicts, corpus));
  }

  lemma SignalsConflictIff(legal: Legal, c: Candidate)
    ensures var (deadline, code) := DeadlineSignal(legal, c);
            (code.Some? && code.value in BLOCKING) <==>
            legal.deadline.Some? && c.deadline.Some? && Abs(c.deadline.value - legal.deadline.value) > DEADLINE_CONFLICT_DAYS
    ensures OrganizationSignal(legal, c).1 <==> NamesOtherBody(legal, c)
  {}

  /** **A pair is unblocked iff it is compatible.** */
  lemma UnblockedIff(legal: Legal, c: Candidate, corpus: Corpus)
    requires Positive(corpus)
    ensures !IsBlocked(ScorePair(legal, c, corpus)) <==> Compatible(legal, c, corpus)
  {
    PairBlocksIff(legal, c, corpus);
    SignalsConflictIff(legal, c);
    ContradictionsBlockIff(legal, c);
    WeaknessesBlockIff(legal, c, OrganizationSignal(legal, c).1, corpus);
  }
}
