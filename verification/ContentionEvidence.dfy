/** What the contention verdict asks of arbitrary reports, also of a run that stopped early: missing
    evidence never becomes a pass. */
module ContentionEvidence {
  import opened Prelude
  import opened ContentionEpisode
  import opened ContentionSmoke
  import opened Verdicts = ContentionVerdict

  // ---- One report for every seed ----

  /** Every training seed is reported exactly once, and nothing else is. */
  ghost predicate SeedsOnce(reports: seq<Report>, seeds: seq<string>) {
    && (forall i :: 0 <= i < |reports| ==> reports[i].seed in seeds)
    && (forall s :: s in seeds ==> exists i :: 0 <= i < |reports| && reports[i].seed == s)
    && (forall i, j :: 0 <= i < j < |reports| ==> reports[i].seed != reports[j].seed)
  }

  predicate AnyReport(r: Report) {
    true
  }

  predicate AnySeed(s: string) {
    true
  }

  function SeedOf(r: Report): string {
    r.seed
  }

  function Itself(s: string): string {
    s
  }

  ghost function Named(reports: seq<Report>): set<string> {
    set i | 0 <= i < |reports| :: reports[i].seed
  }

  lemma {:induction false} NamedOnce(reports: seq<Report>)
    ensures |Named(reports)| == |reports| <==>
        forall i, j :: 0 <= i < j < |reports| ==> reports[i].seed != reports[j].seed
  {
    CountAll(reports, AnyReport);
    CountDistinct(reports, AnyReport, SeedOf);
    assert KeysOf(reports, AnyReport, SeedOf) == Named(reports);
  }

  lemma {:induction false} SeedsDiffer(seeds: seq<string>)
    requires forall i, j :: 0 <= i < j < |seeds| ==> seeds[i] != seeds[j]
    ensures |set s | s in seeds| == |seeds|
  {
    CountAll(seeds, AnySeed);
    CountDistinct(seeds, AnySeed, Itself);
    assert KeysOf(seeds, AnySeed, Itself) == set s | s in seeds;
  }

  lemma {:induction false} NamedMeans(reports: seq<Report>, seeds: seq<string>)
    ensures Named(reports) == (set s | s in seeds) <==>
        && (forall i :: 0 <= i < |reports| ==> reports[i].seed in seeds)
        && (forall s :: s in seeds ==> exists i :: 0 <= i < |reports| && reports[i].seed == s)
  {
    if Named(reports) == (set s | s in seeds) {
      forall i | 0 <= i < |reports| ensures reports[i].seed in seeds {
        assert reports[i].seed in Named(reports);
      }
      forall s | s in seeds ensures exists i :: 0 <= i < |reports| && reports[i].seed == s {
        assert s in Named(reports);
      }
    }
  }

  lemma {:induction false} SeedCoverageIff(reports: seq<Report>, seeds: seq<string>)
    requires forall i, j :: 0 <= i < j < |seeds| ==> seeds[i] != seeds[j]
    ensures |reports| == |seeds| && Named(reports) == (set s | s in seeds) <==> SeedsOnce(reports, seeds)
  {
    NamedMeans(reports, seeds);
    NamedOnce(reports);
    SeedsDiffer(seeds);
  }

  // ---- Every record of every worker ----

  /** Each worker has its episodes in each report, and no other worker has any record. */
  ghost predicate RecordsExact(r: Report, config: ContentionConfig) {
    && (forall w: nat :: w < config.workers ==> RecordsOf(r.episodes, w) == config.episodesPerSeed)
    && (forall k :: 0 <= k < |r.episodes| ==> r.episodes[k].workerId < config.workers)
  }

  function Below(n: nat): Record -> bool {
    (r: Record) => r.workerId < n
  }

  lemma {:induction false} CountBounded<T>(s: seq<T>, p: T -> bool)
    ensures CountIf(s, p) <= |s|
    ensures CountIf(s, p) == |s| <==> forall k :: 0 <= k < |s| ==> p(s[k])
  {
    if s != [] {
      var n := |s| - 1;
      CountBounded(s[..n], p);
      assert forall k :: 0 <= k < n ==> s[..n][k] == s[k];
    }
  }

  lemma {:induction false} CountBelow(records: seq<Record>, each: nat, n: nat)
    requires forall w: nat :: w < n ==> RecordsOf(records, w) == each
    ensures CountIf(records, Below(n)) == n * each
  {
    if n == 0 {
      NoneBelow(records);
    } else {
      CountBelow(records, each, n - 1);
      CountSplit(records, Below(n), Below(n - 1), (r: Record) => r.workerId == n - 1);
      assert RecordsOf(records, n - 1) == each;
      assert n * each == (n - 1) * each + each;
    }
  }

  lemma {:induction false} NoneBelow(records: seq<Record>)
    ensures CountIf(records, Below(0)) == 0
  {
    if records != [] {
      NoneBelow(records[..|records| - 1]);
    }
  }

  lemma {:induction false} CoveredSize(r: Report, config: ContentionConfig)
    requires WorkersCovered(r.episodes, config)
    ensures |r.episodes| >= config.workers * config.episodesPerSeed
    ensures |r.episodes| == config.workers * config.episodesPerSeed <==> RecordsExact(r, config)
  {
    CountBelow(r.episodes, config.episodesPerSeed, config.workers);
    CountBounded(r.episodes, Below(config.workers));
  }

  lemma OneMore(n: nat, each: nat)
    ensures (n + 1) * each == n * each + each
  {
  }

  lemma {:induction false} TotalSize(reports: seq<Report>, each: nat)
    requires forall i :: 0 <= i < |reports| ==> |reports[i].episodes| >= each
    ensures |AllEpisodes(reports)| >= |reports| * each
    ensures |AllEpisodes(reports)| == |reports| * each <==>
        forall i :: 0 <= i < |reports| ==> |reports[i].episodes| == each
  {
    if reports != [] {
      var n := |reports| - 1;
      var front := reports[..n];
      TotalSize(front, each);
      assert forall i :: 0 <= i < n ==> front[i] == reports[i];
      OneMore(n, each);
    }
  }

  /** With one report per seed, worker coverage says that every report has exactly its records. */
  lemma {:induction false} WorkerCoverageIff(reports: seq<Report>, config: ContentionConfig)
    requires |reports| == |config.trainingSeeds|
    ensures WorkerCoverage(reports, config) <==>
        forall i :: 0 <= i < |reports| ==> RecordsExact(reports[i], config)
  {
    var each := config.workers * config.episodesPerSeed;
    assert |config.trainingSeeds| * config.workers * config.episodesPerSeed == |reports| * each;
    if forall i :: 0 <= i < |reports| ==> WorkersCovered(reports[i].episodes, config) {
      forall i | 0 <= i < |reports|
        ensures |reports[i].episodes| >= each && (|reports[i].episodes| == each <==> RecordsExact(reports[i], config))
      {
        CoveredSize(reports[i], config);
      }
      TotalSize(reports, each);
    } else {
      var i :| 0 <= i < |reports| && !WorkersCovered(reports[i].episodes, config);
      assert !RecordsExact(reports[i], config);
    }
  }

  // ---- The verdict ----

  /** The evidence of one report: all its records, every game played to its end, and something delivered. */
  ghost predicate ReportComplete(r: Report, config: ContentionConfig) {
    && RecordsExact(r, config)
    && (forall k :: 0 <= k < |r.episodes| ==> r.episodes[k].terminal.Ended?)
    && (exists k :: 0 <= k < |r.episodes| && r.episodes[k].delivered > 0)
  }

  ghost predicate Complete(reports: seq<Report>, config: ContentionConfig, identityValid: bool, provenance: bool) {
    && identityValid && provenance
    && SeedsOnce(reports, config.trainingSeeds)
    && (forall i :: 0 <= i < |reports| ==> ReportComplete(reports[i], config))
    && SumUpdates(reports) == SumCombat(AllEpisodes(reports))
    && |ActorNames(reports)| >= config.workers
  }

  lemma {:induction false} DeliveredIff(records: seq<Record>)
    ensures SumDelivered(records) > 0 <==> exists k :: 0 <= k < |records| && records[k].delivered > 0
  {
    if records != [] {
      var n := |records| - 1;
      DeliveredIff(records[..n]);
      assert forall k :: 0 <= k < n ==> records[..n][k] == records[k];
    }
  }

  /** Whatever the reports, the verdict passes exactly when every training seed is reported once, every worker
      of every report has exactly its episodes and each reached the end of the game, every report delivered
      something, the updates are the recorded fights, enough actors are named, and identity and
      provenance are valid. */
  lemma {:induction false} PassesIff(reports: seq<Report>, config: ContentionConfig, identityValid: bool,
      provenance: bool)
    requires ValidConfig(config)
    ensures Verdicts.ContentionVerdict(reports, config, identityValid, provenance).Passed() <==>
        Complete(reports, config, identityValid, provenance)
  {
    SeedCoverageIff(reports, config.trainingSeeds);
    if |reports| == |config.trainingSeeds| {
      WorkerCoverageIff(reports, config);
    }
    EndedFollows(reports);
    forall i | 0 <= i < |reports|
      ensures SumDelivered(reports[i].episodes) > 0 <==>
          exists k :: 0 <= k < |reports[i].episodes| && reports[i].episodes[k].delivered > 0
    {
      DeliveredIff(reports[i].episodes);
    }
    if Complete(reports, config, identityValid, provenance) {
      OneForEachSeed(reports, config.trainingSeeds);
      DeliveredTotal(reports, 0);
      DeliveredIff(AllEpisodes(reports));
      EnoughRecords(reports, config);
    }
  }

  lemma {:induction false} OneForEachSeed(reports: seq<Report>, seeds: seq<string>)
    requires SeedsOnce(reports, seeds) && forall i, j :: 0 <= i < j < |seeds| ==> seeds[i] != seeds[j]
    ensures |reports| == |seeds|
  {
    SeedCoverageIff(reports, seeds);
  }

  lemma {:induction false} EnoughRecords(reports: seq<Report>, config: ContentionConfig)
    requires ValidConfig(config) && |reports| == |config.trainingSeeds|
    requires forall i :: 0 <= i < |reports| ==> RecordsExact(reports[i], config)
    ensures |AllEpisodes(reports)| >= config.workers
  {
    WorkerCoverageIff(reports, config);
    Reorder(|reports|, config.workers, config.episodesPerSeed);
  }

  ghost predicate InReports(reports: seq<Report>, r: Record) {
    exists i :: 0 <= i < |reports| && r in reports[i].episodes
  }

  lemma {:induction false} MemberOfReport(reports: seq<Report>, r: Record)
    ensures r in AllEpisodes(reports) <==> InReports(reports, r)
  {
    if reports != [] {
      var n := |reports| - 1;
      var front := reports[..n];
      MemberOfReport(front, r);
      assert forall i :: 0 <= i < n ==> front[i] == reports[i];
      if r in reports[n].episodes {
        assert InReports(reports, r);
      } else if InReports(reports, r) {
        var i :| 0 <= i < |reports| && r in reports[i].episodes;
        assert r in front[i].episodes;
      }
    }
  }

  /** The checks that look at all records at once, told of the records of the reports. */
  lemma {:induction false} ChecksMean(reports: seq<Report>, config: ContentionConfig, identityValid: bool,
      provenance: bool)
    ensures var v := Verdicts.ContentionVerdict(reports, config, identityValid, provenance);
            && (v.noUnknownOrFailed <==> forall r :: InReports(reports, r) ==> r.terminal.Ended?)
            && (v.terminalComplete <==> v.noUnknownOrFailed && exists r :: InReports(reports, r))
            && (v.episodeProvenance <==> provenance && exists r :: InReports(reports, r))
            && (v.samplesPresent <==> exists r :: InReports(reports, r) && r.delivered > 0)
  {
    var all := AllEpisodes(reports);
    forall r ensures r in all <==> InReports(reports, r) {
      MemberOfReport(reports, r);
    }
    RecordsMean(all);
    assert all != [] <==> exists r :: r in all by {
      assert all != [] ==> all[0] in all;
    }
  }

  lemma {:induction false} RecordsMean(records: seq<Record>)
    ensures AllEnded(records) <==> forall r :: r in records ==> r.terminal.Ended?
    ensures SumDelivered(records) > 0 <==> exists r :: r in records && r.delivered > 0
  {
    DeliveredIff(records);
    assert forall k :: 0 <= k < |records| ==> records[k] in records;
  }

  // ---- Missing evidence ----

  function Without<T>(s: seq<T>, i: nat): seq<T>
    requires i < |s|
  {
    s[..i] + s[i + 1..]
  }

  /** A passing verdict fails once any one report is taken away. */
  lemma {:induction false} MissingReportFails(reports: seq<Report>, config: ContentionConfig, identityValid: bool,
      provenance: bool, i: nat)
    requires ValidConfig(config) && i < |reports|
    requires Verdicts.ContentionVerdict(reports, config, identityValid, provenance).Passed()
    ensures !Verdicts.ContentionVerdict(Without(reports, i), config, identityValid, provenance).Passed()
  {
    PassesIff(reports, config, identityValid, provenance);
    PassesIff(Without(reports, i), config, identityValid, provenance);
    OneForEachSeed(reports, config.trainingSeeds);
    if Complete(Without(reports, i), config, identityValid, provenance) {
      OneForEachSeed(Without(reports, i), config.trainingSeeds);
    }
  }

  /** It also fails once any one record of a report is taken away. */
  lemma {:induction false} MissingRecordFails(reports: seq<Report>, config: ContentionConfig, identityValid: bool,
      provenance: bool, i: nat, k: nat)
    requires ValidConfig(config) && i < |reports| && k < |reports[i].episodes|
    requires Verdicts.ContentionVerdict(reports, config, identityValid, provenance).Passed()
    ensures var short := reports[i].(episodes := Without(reports[i].episodes, k));
            !Verdicts.ContentionVerdict(reports[i := short], config, identityValid, provenance).Passed()
  {
    var short := reports[i].(episodes := Without(reports[i].episodes, k));
    PassesIff(reports, config, identityValid, provenance);
    PassesIff(reports[i := short], config, identityValid, provenance);
    CoveredSize(reports[i], config);
    if RecordsExact(short, config) {
      CoveredSize(short, config);
    }
    assert reports[i := short][i] == short;
  }

  /** A run that stopped before its last seed does not pass with the reports it has. */
  lemma {:induction false} StoppedRunFails(worlds: seq<World>, config: ContentionConfig, reports: seq<Report>,
      identityValid: bool, provenance: bool)
    requires ValidConfig(config) && AllReturned(worlds, config, reports) && |reports| < |config.trainingSeeds|
    ensures !Verdicts.ContentionVerdict(reports, config, identityValid, provenance).Passed()
  {
    PassesIff(reports, config, identityValid, provenance);
    if SeedsOnce(reports, config.trainingSeeds) {
      OneForEachSeed(reports, config.trainingSeeds);
    }
  }
}
