/** One archive match run: who is considered, what is decided, and the checks before publication.

    Source: apps/legal_work/archived_topic_matching.py:331-359,
    apps/legal_work/archived_topic_match_sync.py:122-172, 241-280. */
module ArchiveMatchRun {
  import opened Basics
  import opened Sorting
  import opened ArchiveScoring
  import opened ArchiveMatching

  /** A stored archive row with the profile the normaliser makes of it. */
  datatype ArchiveItem = ArchiveItem(url: string, matchable: bool, profile: Candidate)

  type Excluded = set<string>

  predicate Usable(item: ArchiveItem, excluded: Excluded) {
    item.matchable && item.url !in excluded
  }

  function UsableProfiles(items: seq<ArchiveItem>, excluded: Excluded): seq<Candidate> {
    if items == [] then []
    else (if Usable(items[0], excluded) then [items[0].profile] else []) + UsableProfiles(items[1..], excluded)
  }

  /** How many candidates use `token` as a discriminating word. */
  function OwnerCount(candidates: seq<Candidate>, token: string): nat {
    if candidates == [] then 0
    else OwnerCount(candidates[..|candidates| - 1], token) + if token in candidates[|candidates| - 1].significant then 1 else 0
  }

  function Words(candidates: seq<Candidate>): set<string> {
    if candidates == [] then {}
    else Words(candidates[..|candidates| - 1]) + candidates[|candidates| - 1].significant
  }

  /** The `owners` table: for every discriminating word, the number of entries that use it. */
  function OwnersOf(candidates: seq<Candidate>): map<string, nat> {
    map t | t in Words(candidates) :: OwnerCount(candidates, t)
  }

  /** The idf table over the usable entries, with its largest weight. */
  type Rarity = seq<Candidate> -> (map<string, real>, real)

  function CorpusOf(candidates: seq<Candidate>, rarity: Rarity, generic: set<string>): Corpus {
    var (idf, rarest) := rarity(candidates);
    Corpus(idf, rarest, OwnersOf(candidates), generic)
  }

  ghost predicate AlwaysPositive(rarity: Rarity) {
    forall candidates :: Positive(CorpusOf(candidates, rarity, {}))
  }

  lemma CorpusPositive(candidates: seq<Candidate>, rarity: Rarity, generic: set<string>)
    requires AlwaysPositive(rarity)
    ensures Positive(CorpusOf(candidates, rarity, generic))
  {
    assert Positive(CorpusOf(candidates, rarity, {}));
  }

  /** The table while the newest candidate is being counted: its words in `done` already are. */
  function PartOwners(before: seq<Candidate>, done: set<string>): map<string, nat> {
    map t | t in Words(before) + done :: OwnerCount(before, t) + if t in done then 1 else 0
  }

  lemma {:induction false} UnknownWordHasNoOwner(candidates: seq<Candidate>, token: string)
    requires token !in Words(candidates)
    ensures OwnerCount(candidates, token) == 0
  {
    if candidates != [] { UnknownWordHasNoOwner(candidates[..|candidates| - 1], token); }
  }

  lemma Pick<T>(s: set<T>) returns (x: T)
    requires s != {}
    ensures x in s
  {
    x :| x in s;
  }

  method BuildOwners(candidates: seq<Candidate>) returns (owners: map<string, nat>)
    ensures owners == OwnersOf(candidates)
  {
    owners := map[];
    for i := 0 to |candidates|
      invariant owners == OwnersOf(candidates[..i])
    {
      owners := CountWords(candidates[..i], candidates[i], owners);
      assert candidates[..i + 1][..i] == candidates[..i];
    }
    assert candidates[..|candidates|] == candidates;
  }

  method CountWords(before: seq<Candidate>, c: Candidate, counted: map<string, nat>) returns (owners: map<string, nat>)
    requires counted == OwnersOf(before)
    ensures owners == OwnersOf(before + [c])
  {
    owners := counted;
    var rest := c.significant;
    NothingCounted(before, c.significant);
    while rest != {}
      invariant rest <= c.significant
      invariant owners == PartOwners(before, c.significant - rest)
      decreases |rest|
    {
      var token :| token in rest;
      CountOneWord(before, c.significant, rest, token);
      owners := owners[token := (if token in owners then owners[token] else 0) + 1];
      rest := rest - {token};
    }
    AllCounted(before, c, rest);
  }

  lemma NothingCounted(before: seq<Candidate>, words: set<string>)
    ensures PartOwners(before, words - words) == OwnersOf(before)
  {}

  lemma CountOneWord(before: seq<Candidate>, words: set<string>, rest: set<string>, token: string)
    requires rest <= words && token in rest
    ensures var owners := PartOwners(before, words - rest);
            PartOwners(before, words - (rest - {token})) == owners[token := (if token in owners then owners[token] else 0) + 1]
  {
    if token !in Words(before) { UnknownWordHasNoOwner(before, token); }
    assert words - (rest - {token}) == words - rest + {token};
  }

  lemma AllCounted(before: seq<Candidate>, c: Candidate, rest: set<string>)
    requires rest == {}
    ensures PartOwners(before, c.significant - rest) == OwnersOf(before + [c])
  {
    assert (before + [c])[..|before|] == before;
    assert c.significant - rest == c.significant;
  }

  /** **What the owners table says**: its words are those some candidate uses as discriminating, each with the number of
      candidates that do. */
  lemma {:induction false} OwnersAre(candidates: seq<Candidate>)
    ensures forall t :: t in OwnersOf(candidates) <==> exists i :: 0 <= i < |candidates| && t in candidates[i].significant
    ensures forall t :: t in OwnersOf(candidates) ==>
              OwnersOf(candidates)[t] == |set i | 0 <= i < |candidates| && t in candidates[i].significant|
    decreases |candidates|
  {
    forall t ensures t in Words(candidates) <==> exists i :: 0 <= i < |candidates| && t in candidates[i].significant {
      WordUsed(candidates, t);
    }
    forall t ensures OwnerCount(candidates, t) == |set i | 0 <= i < |candidates| && t in candidates[i].significant| {
      OwnersCounted(candidates, t);
    }
  }

  lemma {:induction false} WordUsed(candidates: seq<Candidate>, t: string)
    ensures t in Words(candidates) <==> exists i :: 0 <= i < |candidates| && t in candidates[i].significant
    decreases |candidates|
  {
    if candidates != [] {
      var n := |candidates| - 1;
      WordUsed(candidates[..n], t);
      assert forall i :: 0 <= i < n ==> candidates[..n][i] == candidates[i];
      if t in Words(candidates[..n]) {
        var i :| 0 <= i < |candidates[..n]| && t in candidates[..n][i].significant;
        assert t in candidates[i].significant;
      }
    }
  }

  lemma {:induction false} OwnersCounted(candidates: seq<Candidate>, t: string)
    ensures OwnerCount(candidates, t) == |set i | 0 <= i < |candidates| && t in candidates[i].significant|
    decreases |candidates|
  {
    var users := set i | 0 <= i < |candidates| && t in candidates[i].significant;
    if candidates == [] {
      assert users == {};
    } else {
      var n := |candidates| - 1;
      var front := candidates[..n];
      OwnersCounted(front, t);
      assert forall i :: 0 <= i < n ==> front[i] == candidates[i];
      assert users == (set i | 0 <= i < |front| && t in front[i].significant) + if t in candidates[n].significant then {n} else {};
    }
  }

  /** A word nobody else uses: discriminating on both sides, and in exactly one candidate. */
  lemma UniqueHitsAre(legal: Legal, c: Candidate, candidates: seq<Candidate>, rarity: Rarity, generic: set<string>, t: string)
    ensures t in UniqueHits(legal, c, CorpusOf(candidates, rarity, generic)) <==>
            && t in legal.significant && t in c.significant
            && |set i | 0 <= i < |candidates| && t in candidates[i].significant| == 1
  {
    OwnersAre(candidates);
    if |set i | 0 <= i < |candidates| && t in candidates[i].significant| == 1 {
      var users := set i | 0 <= i < |candidates| && t in candidates[i].significant;
      assert users != {};
      var i := Pick(users);
      assert t in candidates[i].significant;
    }
  }

  function ScoreAll(legal: Legal, candidates: seq<Candidate>, corpus: Corpus): (r: seq<Scored>)
    requires Positive(corpus)
    ensures |r| == |candidates| && forall i :: 0 <= i < |r| ==> r[i] == ScorePair(legal, candidates[i], corpus)
  {
    seq(|candidates|, i requires 0 <= i < |candidates| => ScorePair(legal, candidates[i], corpus))
  }

  function Decisions(legals: seq<Legal>, candidates: seq<Candidate>, corpus: Corpus): (r: seq<MatchOutcome>)
    requires Positive(corpus)
    ensures |r| == |legals|
    ensures forall i :: 0 <= i < |r| ==> r[i] == DecideArchive(legals[i], ScoreAll(legals[i], candidates, corpus))
  {
    seq(|legals|, i requires 0 <= i < |legals| => DecideArchive(legals[i], ScoreAll(legals[i], candidates, corpus)))
  }

  method DecideAll(legals: seq<Legal>, candidates: seq<Candidate>, corpus: Corpus) returns (outcomes: seq<MatchOutcome>)
    requires Positive(corpus)
    ensures outcomes == Decisions(legals, candidates, corpus)
  {
    outcomes := [];
    for i := 0 to |legals|
      invariant |outcomes| == i && outcomes == Decisions(legals, candidates, corpus)[..i]
    {
      var scored := ScoreAll(legals[i], candidates, corpus);
      outcomes := outcomes + [DecideArchive(legals[i], scored)];
    }
  }

  method CollectUsable(items: seq<ArchiveItem>, excluded: Excluded) returns (candidates: seq<Candidate>)
    ensures candidates == UsableProfiles(items, excluded)
  {
    candidates := [];
    for i := 0 to |items|
      invariant candidates + UsableProfiles(items[i..], excluded) == UsableProfiles(items, excluded)
    {
      assert items[i..][0] == items[i] && items[i..][1..] == items[i + 1..];
      if items[i].matchable && items[i].url !in excluded {
        candidates := candidates + [items[i].profile];
      }
    }
    assert items[|items|..] == [];
  }

  method MatchArchive(legals: seq<Legal>, items: seq<ArchiveItem>, excluded: Excluded, rarity: Rarity, generic: set<string>)
    returns (outcomes: seq<MatchOutcome>)
    requires Positive(CorpusOf(UsableProfiles(items, excluded), rarity, generic))
    ensures outcomes == Decisions(legals, UsableProfiles(items, excluded), CorpusOf(UsableProfiles(items, excluded), rarity, generic))
  {
    var candidates := CollectUsable(items, excluded);
    var (idf, rarest) := rarity(candidates);
    var owners := BuildOwners(candidates);
    var corpus := Corpus(idf, rarest, owners, generic);
    outcomes := DecideAll(legals, candidates, corpus);
  }

  // ------------------------------------------------------------------
  // The checks before publication.
  // ------------------------------------------------------------------

  datatype Complaint =
    | ForeignLegal | AlreadyMatched | DecidedTwice | ForeignCandidate | UnreadCandidate
    | MatchedNobody | ScoreOutOfRange | RunnerUpAbove | WrongMargin | MissingDecision

  /** What one outcome may not say, given the records and candidates the run was about. */
  function Complains(o: MatchOutcome, legalIds: set<int>, candidateIds: set<int>, matchableIds: set<int>,
                     already: set<int>, seen: set<int>): Option<Complaint> {
    if o.legalId !in legalIds then Some(ForeignLegal)
    else if o.legalId in already then Some(AlreadyMatched)
    else if o.legalId in seen then Some(DecidedTwice)
    else if o.best.Some? && o.best.value !in candidateIds then Some(ForeignCandidate)
    else if o.best.Some? && o.best.value !in matchableIds then Some(UnreadCandidate)
    else if o.decision == Matched && o.best.None? then Some(MatchedNobody)
    else if !InRange(o.score) || !InRange(o.runnerUp) || !InRange(o.margin) then Some(ScoreOutOfRange)
    else if o.runnerUp > o.score then Some(RunnerUpAbove)
    else if o.margin != o.score - o.runnerUp then Some(WrongMargin)
    else None
  }

  predicate InRange(value: int) { 0 <= value <= 10000 }

  /** One outcome the verifier accepts, apart from repetition. */
  ghost predicate Acceptable(o: MatchOutcome, legalIds: set<int>, candidateIds: set<int>, matchableIds: set<int>, already: set<int>) {
    && o.legalId in legalIds && o.legalId !in already
    && (o.best.Some? ==> o.best.value in candidateIds && o.best.value in matchableIds)
    && (o.decision == Matched ==> o.best.Some?)
    && 0 <= o.runnerUp <= o.score <= 10000 && o.margin == o.score - o.runnerUp
  }

  /** The whole publication is acceptable: every considered record decided exactly once, each acceptably. */
  ghost predicate Publishable(outcomes: seq<MatchOutcome>, legalIds: set<int>, candidateIds: set<int>, matchableIds: set<int>,
                              already: set<int>) {
    && (forall i :: 0 <= i < |outcomes| ==> Acceptable(outcomes[i], legalIds, candidateIds, matchableIds, already))
    && (forall i, j :: 0 <= i < j < |outcomes| ==> outcomes[i].legalId != outcomes[j].legalId)
    && (forall id :: id in legalIds ==> Decided(outcomes, id))
  }

  ghost predicate Decided(outcomes: seq<MatchOutcome>, id: int) {
    exists i :: 0 <= i < |outcomes| && outcomes[i].legalId == id
  }

  /** The verifier accepts exactly the publishable outcomes. */
  method Verify(outcomes: seq<MatchOutcome>, legalIds: set<int>, candidateIds: set<int>, matchableIds: set<int>, already: set<int>)
    returns (complaint: Option<Complaint>)
    ensures complaint.None? <==> Publishable(outcomes, legalIds, candidateIds, matchableIds, already)
  {
    var seen: set<int> := {};
    for i := 0 to |outcomes|
      invariant forall j :: 0 <= j < i ==> Acceptable(outcomes[j], legalIds, candidateIds, matchableIds, already)
      invariant forall j, k :: 0 <= j < k < i ==> outcomes[j].legalId != outcomes[k].legalId
      invariant forall id :: id in seen <==> Decided(outcomes[..i], id)
    {
      complaint := Complains(outcomes[i], legalIds, candidateIds, matchableIds, already, seen);
      if complaint.Some? {
        if complaint.value == DecidedTwice {
          var j :| 0 <= j < |outcomes[..i]| && outcomes[..i][j].legalId == outcomes[i].legalId;
          assert outcomes[j].legalId == outcomes[i].legalId;
        } else {
          assert !Acceptable(outcomes[i], legalIds, candidateIds, matchableIds, already);
        }
        return;
      }
      SeenOneMore(outcomes, i, seen);
      seen := seen + {outcomes[i].legalId};
    }
    assert outcomes[..|outcomes|] == outcomes;
    if legalIds - seen != {} {
      ghost var id := Pick(legalIds - seen);
      assert !Decided(outcomes, id);
      return Some(MissingDecision);
    }
    forall id | id in legalIds ensures Decided(outcomes, id) {
      assert id !in legalIds - seen;
    }
    return None;
  }

  lemma SeenOneMore(outcomes: seq<MatchOutcome>, i: nat, seen: set<int>)
    requires i < |outcomes| && forall id :: id in seen <==> Decided(outcomes[..i], id)
    requires outcomes[i].legalId !in seen
    ensures forall id :: id in seen + {outcomes[i].legalId} <==> Decided(outcomes[..i + 1], id)
    ensures forall j :: 0 <= j < i ==> outcomes[j].legalId != outcomes[i].legalId
  {
    assert outcomes[..i + 1] == outcomes[..i] + [outcomes[i]];
    assert outcomes[..i + 1][i] == outcomes[i];
    forall id ensures Decided(outcomes[..i + 1], id) <==> Decided(outcomes[..i], id) || id == outcomes[i].legalId {
      if Decided(outcomes[..i], id) {
        var j :| 0 <= j < |outcomes[..i]| && outcomes[..i][j].legalId == id;
        assert outcomes[..i + 1][j].legalId == id;
      }
      if Decided(outcomes[..i + 1], id) && id != outcomes[i].legalId {
        var j :| 0 <= j < |outcomes[..i + 1]| && outcomes[..i + 1][j].legalId == id;
        assert outcomes[..i][j].legalId == id;
      }
    }
    forall j | 0 <= j < i ensures outcomes[j].legalId != outcomes[i].legalId {
      assert outcomes[..i][j] == outcomes[j];
      assert Decided(outcomes[..i], outcomes[j].legalId);
    }
  }

  // ------------------------------------------------------------------
  // The matcher always passes.
  // ------------------------------------------------------------------

  /** Rows of one snapshot: ids and content keys are unique, and a profile carries its row's id. */
  ghost predicate OneSnapshot(items: seq<ArchiveItem>) {
    forall i, j :: 0 <= i < j < |items| ==> items[i].profile.key != items[j].profile.key && items[i].profile.id != items[j].profile.id
  }

  function LegalIds(legals: seq<Legal>): set<int> { set i | 0 <= i < |legals| :: legals[i].id }
  function ItemIds(items: seq<ArchiveItem>): set<int> { set i | 0 <= i < |items| :: items[i].profile.id }
  function MatchableIds(items: seq<ArchiveItem>): set<int> { set i | 0 <= i < |items| && items[i].matchable :: items[i].profile.id }

  ghost predicate DistinctCandidates(c: seq<Candidate>) {
    forall i, j :: 0 <= i < j < |c| ==> c[i].key != c[j].key
  }

  /** Some usable row has this profile. */
  ghost predicate Offered(items: seq<ArchiveItem>, excluded: Excluded, c: Candidate) {
    exists k :: 0 <= k < |items| && items[k].matchable && items[k].url !in excluded && items[k].profile == c
  }

  lemma OfferedCons(items: seq<ArchiveItem>, excluded: Excluded, c: Candidate)
    requires items != []
    ensures Offered(items, excluded, c) <==>
              (Usable(items[0], excluded) && items[0].profile == c) || Offered(items[1..], excluded, c)
  {
    var rest := items[1..];
    if Offered(rest, excluded, c) {
      var k :| 0 <= k < |rest| && Usable(rest[k], excluded) && rest[k].profile == c;
      assert items[k + 1] == rest[k];
    }
    if Offered(items, excluded, c) {
      var k :| 0 <= k < |items| && Usable(items[k], excluded) && items[k].profile == c;
      if k > 0 { assert rest[k - 1] == items[k]; }
    }
  }

  lemma OfferedKeysDiffer(items: seq<ArchiveItem>, excluded: Excluded, c: Candidate)
    requires items != [] && OneSnapshot(items) && Offered(items[1..], excluded, c)
    ensures c.key != items[0].profile.key
  {
    var k :| 0 <= k < |items[1..]| && Usable(items[1..][k], excluded) && items[1..][k].profile == c;
    assert items[k + 1] == items[1..][k];
  }

  lemma {:induction false} UsableAre(items: seq<ArchiveItem>, excluded: Excluded)
    requires OneSnapshot(items)
    ensures DistinctCandidates(UsableProfiles(items, excluded))
    ensures forall c :: c in UsableProfiles(items, excluded) <==> Offered(items, excluded, c)
  {
    if items != [] {
      var rest, tail := items[1..], UsableProfiles(items[1..], excluded);
      assert OneSnapshot(rest) by { assert forall k :: 0 <= k < |rest| ==> rest[k] == items[k + 1]; }
      UsableAre(rest, excluded);
      forall c ensures c in UsableProfiles(items, excluded) <==> Offered(items, excluded, c) { OfferedCons(items, excluded, c); }
      forall i | 0 <= i < |tail| ensures tail[i].key != items[0].profile.key {
        assert tail[i] in tail;
        OfferedKeysDiffer(items, excluded, tail[i]);
      }
    }
  }

  /** The best candidate of a decision is one of the candidates, and the scores are in range. */
  lemma ScoredAre(legal: Legal, candidates: seq<Candidate>, corpus: Corpus)
    requires Positive(corpus) && DistinctCandidates(candidates)
    ensures DistinctKeys(ScoreAll(legal, candidates, corpus))
    ensures forall x :: x in ScoreAll(legal, candidates, corpus) ==> x.candidate in candidates
  {}

  lemma DecisionInRange(legal: Legal, candidates: seq<Candidate>, corpus: Corpus)
    requires Positive(corpus) && DistinctCandidates(candidates)
    ensures var o := DecideArchive(legal, ScoreAll(legal, candidates, corpus));
            && o.legalId == legal.id
            && 0 <= o.runnerUp <= o.score <= 10000 && o.margin == o.score - o.runnerUp
            && (o.best.Some? ==> exists c :: c in candidates && c.id == o.best.value)
            && (o.decision == Matched ==> o.best.Some?)
  {
    var scored := ScoreAll(legal, candidates, corpus);
    ScoredAre(legal, candidates, corpus);
    OutcomeInRange(legal, scored);
    var o := DecideArchive(legal, scored);
    if o.best.Some? {
      var x :| x in scored && x.candidate.id == o.best.value;
      assert x.candidate in candidates;
    }
  }

  lemma OfferedIds(items: seq<ArchiveItem>, excluded: Excluded, c: Candidate)
    requires Offered(items, excluded, c)
    ensures c.id in ItemIds(items) && c.id in MatchableIds(items)
  {}

  /** Each decision names only a row that is read and off the current listing. */
  lemma DecisionAcceptable(legal: Legal, legals: seq<Legal>, items: seq<ArchiveItem>, excluded: Excluded, corpus: Corpus, already: set<int>)
    requires Positive(corpus) && OneSnapshot(items) && legal.id in LegalIds(legals) && legal.id !in already
    ensures var o := DecideArchive(legal, ScoreAll(legal, UsableProfiles(items, excluded), corpus));
            && Acceptable(o, LegalIds(legals), ItemIds(items), MatchableIds(items), already)
            && o.legalId == legal.id
            && (o.best.Some? ==> exists c :: Offered(items, excluded, c) && c.id == o.best.value)
  {
    var candidates := UsableProfiles(items, excluded);
    UsableAre(items, excluded);
    DecisionInRange(legal, candidates, corpus);
    var o := DecideArchive(legal, ScoreAll(legal, candidates, corpus));
    if o.best.Some? {
      var c :| c in candidates && c.id == o.best.value;
      OfferedIds(items, excluded, c);
    }
  }

  /** **The matcher's outcomes always pass the verifier**: one outcome per considered record, only read
      candidates off the current listing, scores in range, runner-up not above best, margin exact. */
  lemma DecisionsPublishable(legals: seq<Legal>, items: seq<ArchiveItem>, excluded: Excluded, corpus: Corpus, already: set<int>)
    requires Positive(corpus) && OneSnapshot(items)
    requires forall i, j :: 0 <= i < j < |legals| ==> legals[i].id != legals[j].id
    requires forall i :: 0 <= i < |legals| ==> legals[i].id !in already
    ensures Publishable(Decisions(legals, UsableProfiles(items, excluded), corpus),
                        LegalIds(legals), ItemIds(items), MatchableIds(items), already)
  {
    var outcomes := Decisions(legals, UsableProfiles(items, excluded), corpus);
    forall i | 0 <= i < |outcomes|
      ensures Acceptable(outcomes[i], LegalIds(legals), ItemIds(items), MatchableIds(items), already)
      ensures outcomes[i].legalId == legals[i].id
    {
      DecisionAcceptable(legals[i], legals, items, excluded, corpus, already);
    }
    forall id | id in LegalIds(legals) ensures Decided(outcomes, id) {
      var i :| 0 <= i < |legals| && legals[i].id == id;
      assert outcomes[i].legalId == id;
    }
  }

  // ------------------------------------------------------------------
  // The run.
  // ------------------------------------------------------------------

  datatype Tally = Tally(considered: nat, matched: nat, ambiguous: nat, unmatched: nat)

  function CountOf(outcomes: seq<MatchOutcome>, d: Decision): nat {
    if outcomes == [] then 0 else CountOf(outcomes[1..], d) + if outcomes[0].decision == d then 1 else 0
  }

  lemma {:induction false} DecisionsPartition(outcomes: seq<MatchOutcome>)
    ensures CountOf(outcomes, Matched) + CountOf(outcomes, Ambiguous) + CountOf(outcomes, Unmatched) == |outcomes|
  {
    if outcomes != [] { DecisionsPartition(outcomes[1..]); }
  }

  /** `_verify_written`: the declared counts sum to the records considered and to the rows written. */
  predicate VerifyWritten(t: Tally, written: nat, expected: nat) {
    && written == expected
    && t.matched + t.ambiguous + t.unmatched == t.considered
    && t.matched + t.ambiguous + t.unmatched == written
  }

  /** The records the archive is asked about: the eligible ones the other matcher left unmatched. */
  function Population(eligible: seq<Legal>, already: set<int>): seq<Legal> {
    Filter(eligible, (l: Legal) => l.id !in already)
  }

  lemma {:induction false} PopulationIs(eligible: seq<Legal>, already: set<int>)
    requires forall i, j :: 0 <= i < j < |eligible| ==> eligible[i].id != eligible[j].id
    ensures var p := Population(eligible, already);
            && (forall i, j :: 0 <= i < j < |p| ==> p[i].id != p[j].id)
            && (forall l :: l in p <==> l in eligible && l.id !in already)
  {
    if eligible != [] {
      var rest := eligible[1..];
      assert forall k :: 0 <= k < |rest| ==> rest[k] == eligible[k + 1];
      PopulationIs(rest, already);
      assert forall l :: l in eligible <==> l == eligible[0] || l in rest;
    }
  }

  /** **A run never refuses its own work.** Computing the population, deciding it, verifying and
      counting: the verifier has no complaint and the declared counts agree with the rows. */
  method RunArchiveMatching(eligible: seq<Legal>, already: set<int>, items: seq<ArchiveItem>, excluded: Excluded,
                            rarity: Rarity, generic: set<string>)
    returns (outcomes: seq<MatchOutcome>, tally: Tally, complaint: Option<Complaint>)
    requires AlwaysPositive(rarity) && OneSnapshot(items)
    requires forall i, j :: 0 <= i < j < |eligible| ==> eligible[i].id != eligible[j].id
    ensures complaint.None?
    ensures Positive(CorpusOf(UsableProfiles(items, excluded), rarity, generic))
    ensures outcomes == Decisions(Population(eligible, already), UsableProfiles(items, excluded),
                                  CorpusOf(UsableProfiles(items, excluded), rarity, generic))
    ensures tally == Tally(|outcomes|, CountOf(outcomes, Matched), CountOf(outcomes, Ambiguous), CountOf(outcomes, Unmatched))
    ensures VerifyWritten(tally, |outcomes|, |Population(eligible, already)|)
  {
    var legals := Population(eligible, already);
    PopulationIs(eligible, already);
    CorpusPositive(UsableProfiles(items, excluded), rarity, generic);
    outcomes := MatchArchive(legals, items, excluded, rarity, generic);
    tally := Tally(|legals|, 0, 0, 0);
    for i := 0 to |outcomes|
      invariant tally.considered == |legals|
      invariant tally.matched + CountOf(outcomes[i..], Matched) == CountOf(outcomes, Matched)
      invariant tally.ambiguous + CountOf(outcomes[i..], Ambiguous) == CountOf(outcomes, Ambiguous)
      invariant tally.unmatched + CountOf(outcomes[i..], Unmatched) == CountOf(outcomes, Unmatched)
    {
      assert outcomes[i..][0] == outcomes[i] && outcomes[i..][1..] == outcomes[i + 1..];
      match outcomes[i].decision
      case Matched => tally := tally.(matched := tally.matched + 1);
      case Ambiguous => tally := tally.(ambiguous := tally.ambiguous + 1);
      case Unmatched => tally := tally.(unmatched := tally.unmatched + 1);
    }
    assert outcomes[|outcomes|..] == [];
    DecisionsPartition(outcomes);
    forall i | 0 <= i < |legals| ensures legals[i].id !in already { assert legals[i] in legals; }
    DecisionsPublishable(legals, items, excluded, CorpusOf(UsableProfiles(items, excluded), rarity, generic), already);
    complaint := Verify(outcomes, LegalIds(legals), ItemIds(items), MatchableIds(items), already);
  }
}
