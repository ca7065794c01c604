/** A whole seed of the contention smoke, and what its verdict amounts to. */
module ContentionVerdict {
  import opened Prelude
  import opened ContentionEpisode
  import opened ContentionSmoke

  datatype ContentionConfig = ContentionConfig(trainingSeeds: seq<string>, workers: nat, episodesPerSeed: nat,
      maxActions: nat)

  /** ContentionConfig.validate. */
  predicate ValidConfig(c: ContentionConfig) {
    && c.trainingSeeds != []
        && (forall i, j :: 0 <= i < j < |c.trainingSeeds| ==> c.trainingSeeds[i] != c.trainingSeeds[j])
    && c.workers >= 2 && c.episodesPerSeed >= 1 && c.maxActions >= 1
  }

  ghost predicate HasPair(records: seq<Record>, e: nat, w: nat) {
    exists i :: 0 <= i < |records| && records[i].episode == e && records[i].workerId == w
  }

  /** One record for every worker of every episode: the record that worker would have alone. */
  ghost predicate SeedRecords(world: World, max: nat, episodes: nat, workers: nat, records: seq<Record>) {
    && |records| == episodes * workers
    && (forall i :: 0 <= i < |records| ==>
          && records[i].episode < episodes && records[i].workerId < workers
          && Alone(world, max, records[i].episode, records[i].workerId) == Some(records[i]))
    && (forall i, j :: 0 <= i < j < |records| ==>
          records[i].episode != records[j].episode || records[i].workerId != records[j].workerId)
    && (forall e: nat, w: nat :: e < episodes && w < workers ==> HasPair(records, e, w))
  }

  lemma {:induction false} BlockEpisodes(world: World, max: nat, e: nat, workers: nat, block: seq<Record>)
    requires Block(world, max, e, workers, block)
    ensures forall i :: 0 <= i < |block| ==> block[i].episode == e
  {
    forall i | 0 <= i < |block| ensures block[i].episode == e {
      SoloBounded(world, max, e, block[i].workerId, world.start(e, block[i].workerId), 0, 0);
    }
  }

  lemma {:induction false} AppendBlock(world: World, max: nat, e: nat, workers: nat, records: seq<Record>,
      block: seq<Record>)
    requires SeedRecords(world, max, e, workers, records) && Block(world, max, e, workers, block)
    ensures SeedRecords(world, max, e + 1, workers, records + block)
  {
    BlockEpisodes(world, max, e, workers, block);
    var both := records + block;
    assert (e + 1) * workers == e * workers + workers;
    assert forall i :: 0 <= i < |records| ==> both[i] == records[i];
    assert forall i :: |records| <= i < |both| ==> both[i] == block[i - |records|];
    forall f: nat, w: nat | f < e + 1 && w < workers ensures HasPair(both, f, w) {
      if f < e {
        assert HasPair(records, f, w);
        var i :| 0 <= i < |records| && records[i].episode == f && records[i].workerId == w;
        assert both[i].episode == f && both[i].workerId == w;
      } else {
        assert HasRecord(block, w);
        var i :| 0 <= i < |block| && block[i].workerId == w;
        assert both[|records| + i].episode == f && both[|records| + i].workerId == w;
      }
    }
  }

  lemma {:induction false} SumAppend(a: seq<Record>, b: seq<Record>)
    ensures SumCombat(a + b) == SumCombat(a) + SumCombat(b)
  {
    if b == [] {
      assert a + b == a;
    } else {
      SumAppend(a, b[..|b| - 1]);
      assert (a + b)[..|a + b| - 1] == a + b[..|b| - 1];
    }
  }

  lemma {:induction false} FightersAppend(a: seq<Record>, b: seq<Record>)
    ensures FightersOf(a + b) == FightersOf(a) + FightersOf(b)
  {
    forall p | p in FightersOf(b) ensures p in FightersOf(a + b) {
      var i :| 0 <= i < |b| && b[i].combat > 0 && (b[i].episode, b[i].workerId) == p;
      assert (a + b)[|a| + i] == b[i];
    }
    forall p | p in FightersOf(a) ensures p in FightersOf(a + b) {
      var i :| 0 <= i < |a| && a[i].combat > 0 && (a[i].episode, a[i].workerId) == p;
      assert (a + b)[i] == a[i];
    }
  }

  /** run_contention_seed. It raises only if some worker would raise on its own. */
  method RunContentionSeed(world: World, config: ContentionConfig)
    returns (ok: bool, episodes: seq<Record>, updates: nat, actorIds: set<(nat, nat)>)
    ensures !ok ==>
        exists e: nat :: e < config.episodesPerSeed && SomeRaises(world, config.maxActions, e, config.workers)
    ensures ok ==> SeedRecords(world, config.maxActions, config.episodesPerSeed, config.workers, episodes)
    ensures ok ==> updates == SumCombat(episodes) && actorIds == FightersOf(episodes)
  {
    var contender := new LearnerContender();
    ok, episodes := true, [];
    for e := 0 to config.episodesPerSeed
      invariant SeedRecords(world, config.maxActions, e, config.workers, episodes)
      invariant contender.updates == SumCombat(episodes) && contender.actorIds == FightersOf(episodes)
      invariant fresh(contender)
    {
      var records;
      ok, records := RunEpisode(world, config.maxActions, e, config.workers, contender);
      if !ok {
        return ok, episodes, contender.updates, contender.actorIds;
      }
      AppendBlock(world, config.maxActions, e, config.workers, episodes, records);
      SumAppend(episodes, records);
      FightersAppend(episodes, records);
      episodes := episodes + records;
    }
    return true, episodes, contender.updates, contender.actorIds;
  }

  /** A record of every worker of every episode means that none of them raises. */
  lemma {:induction false} RecordsMeanNoRaise(world: World, max: nat, episodes: nat, workers: nat,
      records: seq<Record>, e: nat)
    requires SeedRecords(world, max, episodes, workers, records) && e < episodes
    ensures !SomeRaises(world, max, e, workers)
  {
    forall w: nat | w < workers ensures Alone(world, max, e, w).Some? {
      assert HasPair(records, e, w);
    }
  }

  /** Every worker has exactly `episodesPerSeed` records, and each stays within the action limit. */
  lemma {:induction false} WorkerRecords(world: World, max: nat, episodes: nat, workers: nat, records: seq<Record>,
      w: nat)
    requires SeedRecords(world, max, episodes, workers, records) && w < workers
    ensures RecordsOf(records, w) == episodes
    ensures forall i :: 0 <= i < |records| ==> records[i].combat <= records[i].delivered <= max
  {
    var mine, key := (r: Record) => r.workerId == w, (r: Record) => r.episode;
    CountDistinct(records, mine, key);
    forall e | 0 <= e < episodes ensures e in KeysOf(records, mine, key) {
      assert HasPair(records, e, w);
      var i :| 0 <= i < |records| && records[i].episode == e && records[i].workerId == w;
      assert mine(records[i]) && key(records[i]) == e;
    }
    assert KeysOf(records, mine, key) == Range(episodes);
    forall i | 0 <= i < |records| ensures records[i].combat <= records[i].delivered <= max {
      var r := records[i];
      SoloBounded(world, max, r.episode, r.workerId, world.start(r.episode, r.workerId), 0, 0);
    }
  }

  function RecordsOf(records: seq<Record>, w: nat): nat {
    CountIf(records, (r: Record) => r.workerId == w)
  }

  // ---- The verdict ----

  datatype Report = Report(seed: string, episodes: seq<Record>, updates: nat, actorIds: set<(nat, nat)>)

  datatype Checks = Checks(
    seedCoverage: bool, workerCoverage: bool, terminalComplete: bool, noUnknownOrFailed: bool,
    learnerUpdateParity: bool, identityValid: bool, multiActor: bool, updatesFromAllWorkers: bool, samplesPresent: bool,
    episodeProvenance: bool, learningCriteria: bool)
  {
    predicate Passed() {
      && seedCoverage && workerCoverage && terminalComplete && noUnknownOrFailed && learnerUpdateParity && identityValid
      && multiActor && updatesFromAllWorkers && samplesPresent && episodeProvenance && learningCriteria
    }
  }

  function AllEpisodes(reports: seq<Report>): seq<Record> {
    if reports == [] then [] else AllEpisodes(reports[..|reports| - 1]) + reports[|reports| - 1].episodes
  }

  function SumUpdates(reports: seq<Report>): nat {
    if reports == [] then 0 else SumUpdates(reports[..|reports| - 1]) + reports[|reports| - 1].updates
  }

  function SumDelivered(records: seq<Record>): nat {
    if records == [] then 0 else SumDelivered(records[..|records| - 1]) + records[|records| - 1].delivered
  }

  predicate AllEnded(records: seq<Record>) {
    forall i :: 0 <= i < |records| ==> records[i].terminal.Ended?
  }

  /** The distinct actor names of all reports; a name holds the seed, the episode and the worker. */
  ghost function ActorNames(reports: seq<Report>): set<(string, nat, nat)> {
    set i, p | 0 <= i < |reports| && p in reports[i].actorIds :: (reports[i].seed, p.0, p.1)
  }

  ghost predicate WorkersCovered(records: seq<Record>, config: ContentionConfig) {
    forall w: nat :: w < config.workers ==> RecordsOf(records, w) == config.episodesPerSeed
  }

  ghost predicate WorkerCoverage(reports: seq<Report>, config: ContentionConfig) {
    && |AllEpisodes(reports)| == |config.trainingSeeds| * config.workers * config.episodesPerSeed
    && forall i :: 0 <= i < |reports| ==> WorkersCovered(reports[i].episodes, config)
  }

  /** contention_verdict; `identityValid` and `provenance` are judged elsewhere. */
  ghost function ContentionVerdict(reports: seq<Report>, config: ContentionConfig, identityValid: bool,
      provenance: bool): Checks
  {
    var all := AllEpisodes(reports);
    var parity := SumUpdates(reports) == SumCombat(all);
    Checks(
      |reports| == |config.trainingSeeds|
          && (set i | 0 <= i < |reports| :: reports[i].seed) == (set s | s in config.trainingSeeds),
      WorkerCoverage(reports, config),
      all != [] && AllEnded(all),
      AllEnded(all),
      parity,
      identityValid,
      config.workers >= 2 && |all| >= config.workers,
      |ActorNames(reports)| >= config.workers,
      SumDelivered(all) > 0,
      all != [] && provenance,
      && (forall i :: 0 <= i < |reports| ==> SumDelivered(reports[i].episodes) > 0)
      && (forall i :: 0 <= i < |reports| ==> reports[i].episodes != [] && AllEnded(reports[i].episodes))
      && parity)
  }

  /** The report of a seed whose run returned. */
  ghost predicate Returned(world: World, config: ContentionConfig, seed: string, r: Report) {
    && r.seed == seed
    && SeedRecords(world, config.maxActions, config.episodesPerSeed, config.workers, r.episodes)
    && r.updates == SumCombat(r.episodes) && r.actorIds == FightersOf(r.episodes)
  }

  ghost predicate AllReturned(worlds: seq<World>, config: ContentionConfig, reports: seq<Report>) {
    && |worlds| == |reports| <= |config.trainingSeeds|
    && forall i :: 0 <= i < |reports| ==> Returned(worlds[i], config, config.trainingSeeds[i], reports[i])
  }

  lemma {:induction false} SizeFollows(reports: seq<Report>, each: nat)
    requires forall i :: 0 <= i < |reports| ==> |reports[i].episodes| == each
    ensures |AllEpisodes(reports)| == |reports| * each
  {
    if reports != [] {
      var n := |reports| - 1;
      SizeFollows(reports[..n], each);
      assert |reports| * each == n * each + each;
    }
  }

  lemma {:induction false} ParityFollows(reports: seq<Report>)
    requires forall i :: 0 <= i < |reports| ==> reports[i].updates == SumCombat(reports[i].episodes)
    ensures SumUpdates(reports) == SumCombat(AllEpisodes(reports))
  {
    if reports != [] {
      var n := |reports| - 1;
      ParityFollows(reports[..n]);
      SumAppend(AllEpisodes(reports[..n]), reports[n].episodes);
    }
  }

  lemma {:induction false} EndedFollows(reports: seq<Report>)
    ensures AllEnded(AllEpisodes(reports)) <==> forall i :: 0 <= i < |reports| ==> AllEnded(reports[i].episodes)
  {
    if reports != [] {
      var n := |reports| - 1;
      var front := reports[..n];
      EndedFollows(front);
      EndedAppend(AllEpisodes(front), reports[n].episodes);
      assert forall i :: 0 <= i < n ==> front[i] == reports[i];
    }
  }

  lemma EndedAppend(a: seq<Record>, b: seq<Record>)
    ensures AllEnded(a + b) <==> AllEnded(a) && AllEnded(b)
  {
    if AllEnded(a + b) {
      forall i | 0 <= i < |a| ensures a[i].terminal.Ended? {
        assert (a + b)[i] == a[i];
      }
      forall i | 0 <= i < |b| ensures b[i].terminal.Ended? {
        assert (a + b)[|a| + i] == b[i];
      }
    }
  }

  lemma {:induction false} DeliveredAppend(a: seq<Record>, b: seq<Record>)
    ensures SumDelivered(a + b) == SumDelivered(a) + SumDelivered(b)
  {
    if b == [] {
      assert a + b == a;
    } else {
      DeliveredAppend(a, b[..|b| - 1]);
      assert (a + b)[..|a + b| - 1] == a + b[..|b| - 1];
    }
  }

  lemma {:induction false} DeliveredTotal(reports: seq<Report>, i: nat)
    requires i < |reports|
    ensures SumDelivered(AllEpisodes(reports)) >= SumDelivered(reports[i].episodes)
  {
    var n := |reports| - 1;
    DeliveredAppend(AllEpisodes(reports[..n]), reports[n].episodes);
    if i < n {
      DeliveredTotal(reports[..n], i);
    }
  }

  /** What is left of a pass once coverage and parity are known. */
  lemma {:induction false} PassedMeans(config: ContentionConfig, reports: seq<Report>, identityValid: bool,
      provenance: bool)
    requires var v := ContentionVerdict(reports, config, identityValid, provenance);
             v.seedCoverage && v.workerCoverage && v.learnerUpdateParity && v.multiActor
    requires reports != [] && AllEpisodes(reports) != []
    requires forall i :: 0 <= i < |reports| ==> reports[i].episodes != []
    ensures ContentionVerdict(reports, config, identityValid, provenance).Passed() <==>
        && identityValid && provenance
        && (forall i :: 0 <= i < |reports| ==>
              AllEnded(reports[i].episodes) && SumDelivered(reports[i].episodes) > 0)
        && |ActorNames(reports)| >= config.workers
  {
    EndedFollows(reports);
    DeliveredTotal(reports, 0);
  }

  /** When every seed returned, coverage and parity hold by themselves, and the verdict passes exactly
      when every worker of every episode, playing alone, reaches the end of the game, every seed
      delivered something, and at least as many actors as workers have fought. */
  lemma {:induction false} VerdictFollows(worlds: seq<World>, config: ContentionConfig, reports: seq<Report>,
                                          identityValid: bool, provenance: bool)
    requires ValidConfig(config) && AllReturned(worlds, config, reports) && |reports| == |config.trainingSeeds|
    ensures var v := ContentionVerdict(reports, config, identityValid, provenance);
            && v.seedCoverage && v.workerCoverage && v.learnerUpdateParity && v.multiActor
            && (v.Passed() <==>
                  && identityValid && provenance
                  && (forall i :: 0 <= i < |reports| ==>
                      EndsAlone(worlds[i], config) && SumDelivered(reports[i].episodes) > 0)
                  && |ActorNames(reports)| >= config.workers)
  {
    ParityFollows(reports);
    CoverageFollows(worlds, config, reports);
    SeedsFollow(worlds, config, reports);
    forall i | 0 <= i < |reports|
      ensures EndsAlone(worlds[i], config) <==> AllEnded(reports[i].episodes)
      ensures reports[i].episodes != []
    {
      EndedIffAlone(worlds[i], config, reports[i].episodes);
      Reorder(1, config.workers, config.episodesPerSeed);
    }
    PassedMeans(config, reports, identityValid, provenance);
  }

  ghost predicate EndsAlone(world: World, config: ContentionConfig) {
    forall e: nat, w: nat :: e < config.episodesPerSeed && w < config.workers ==>
      Alone(world, config.maxActions, e, w).Some? && Alone(world, config.maxActions, e, w).value.terminal.Ended?
  }

  lemma {:induction false} EndedIffAlone(world: World, config: ContentionConfig, records: seq<Record>)
    requires SeedRecords(world, config.maxActions, config.episodesPerSeed, config.workers, records)
    ensures EndsAlone(world, config) <==> AllEnded(records)
  {
    if AllEnded(records) {
      forall e: nat, w: nat | e < config.episodesPerSeed && w < config.workers
        ensures Alone(world, config.maxActions, e, w).Some?
            && Alone(world, config.maxActions, e, w).value.terminal.Ended?
      {
        assert HasPair(records, e, w);
      }
    }
  }

  lemma {:induction false} Reorder(s: nat, w: nat, e: nat)
    ensures s * (e * w) == s * w * e
    ensures s >= 1 && e >= 1 ==> s * (e * w) >= e * w >= w
  {
    assert s * (e * w) == s * (w * e) == s * w * e;
    if s >= 1 && e >= 1 {
      assert e * w == w + (e - 1) * w;
      assert s * (e * w) == e * w + (s - 1) * (e * w);
    }
  }

  lemma {:induction false} CoverageFollows(worlds: seq<World>, config: ContentionConfig, reports: seq<Report>)
    requires AllReturned(worlds, config, reports) && |reports| == |config.trainingSeeds|
    ensures WorkerCoverage(reports, config)
    ensures ValidConfig(config) ==> |AllEpisodes(reports)| >= config.workers
  {
    SizeFollows(reports, config.episodesPerSeed * config.workers);
    Reorder(|reports|, config.workers, config.episodesPerSeed);
    forall i | 0 <= i < |reports| ensures WorkersCovered(reports[i].episodes, config) {
      forall w: nat | w < config.workers ensures RecordsOf(reports[i].episodes, w) == config.episodesPerSeed {
        WorkerRecords(worlds[i], config.maxActions, config.episodesPerSeed, config.workers, reports[i].episodes, w);
      }
    }
  }

  lemma {:induction false} SeedsFollow(worlds: seq<World>, config: ContentionConfig, reports: seq<Report>)
    requires AllReturned(worlds, config, reports) && |reports| == |config.trainingSeeds|
    ensures (set i | 0 <= i < |reports| :: reports[i].seed) == (set s | s in config.trainingSeeds)
  {
    assert forall i :: 0 <= i < |reports| ==> reports[i].seed == config.trainingSeeds[i];
  }
}
