/**
 * `ModelUpdateManager.checkForUpdates`: one over-the-air update cycle. It
 * fetches the manifest, diffs it against the ledger, downloads the stale
 * models in manifest order and emits the `UpdateStatus` events of the cycle.
 */
module ModelUpdateManager {
  import opened Wrappers
  import opened Ints
  import opened Digest
  import opened Status
  import opened Metadata
  import opened Storage
  import opened ModelManager
  import opened Downloader

  /** One entry of the remote manifest. */
  datatype ModelInfo = ModelInfo(name: string, version: int32, downloadUrl: string, sha256: string)

  datatype Manifest = Manifest(models: seq<ModelInfo>)

  /** How obtaining the manifest ends: `create()` throws, `getManifest()` throws, or a manifest arrives. */
  datatype ManifestFetch = ServiceUnavailable(e: Throwable) | FetchFailed(e: Throwable) | Fetched(manifest: Manifest)

  /** The environment of the downloads: the response for each URL and the install faults for each model. */
  datatype Network = Network(fetch: string -> Response, disk: string -> DiskFaults)

  /** The events a cycle emits, and the files and ledger it leaves. */
  datatype Cycle = Cycle(events: seq<UpdateStatus>, store: Store)

  /** `local?.version ?: 0`. */
  function LocalVersion(entries: Entries, name: string): int32 {
    match GetModelMetadata(entries, name)
    case Some(m) => m.version
    case None => 0
  }

  predicate IsStale(entries: Entries, info: ModelInfo) {
    info.version > LocalVersion(entries, info.name)
  }

  /** `toUpdate`: the manifest entries newer than the ledger, in manifest order. */
  function StaleEntries(entries: Entries, models: seq<ModelInfo>): seq<ModelInfo> {
    if models == [] then []
    else
      var last := models[|models| - 1];
      StaleEntries(entries, models[..|models| - 1]) + (if IsStale(entries, last) then [last] else [])
  }

  /** The record a successful download writes. */
  function Record(info: ModelInfo, now: int64): ModelMetadata {
    ModelMetadata(info.name, info.version, info.sha256, now)
  }

  function Attempt(st: Store, info: ModelInfo, net: Network, sha: HashFunction): Download {
    DownloadOutcome(st.files, info.name, info.sha256, net.fetch(info.downloadUrl), net.disk(info.name), sha)
  }

  /** Whether the download of `info` succeeds; this does not depend on the files. */
  predicate Succeeds(info: ModelInfo, net: Network, sha: HashFunction) {
    Verified(net.fetch(info.downloadUrl), info.sha256, sha) && !InstallFails(net.disk(info.name))
  }

  /** The exception a failing download of `info` returns. */
  function FailureOf(info: ModelInfo, net: Network, sha: HashFunction): Throwable {
    match Verdict(info.name, info.sha256, net.fetch(info.downloadUrl), net.disk(info.name), sha)
    case DownloadFailed(e) => e
    case Installed(_) => Throwable(OtherException, "")
  }

  function FailureEvent(info: ModelInfo, e: Throwable): UpdateStatus {
    Error("Failed to update " + info.name + ": " + e.message, Some(e))
  }

  /** The state of the download loop: the store, `updated`, the events so far, and whether it has stopped on a failure. */
  datatype Progress = Progress(store: Store, updated: seq<string>, events: seq<UpdateStatus>, failed: bool)

  /** One turn of the download loop; once a download has failed, nothing more happens. */
  function Step(p: Progress, info: ModelInfo, net: Network, sha: HashFunction, now: int64): Progress {
    if p.failed then p
    else
      var d := Attempt(p.store, info, net, sha);
      match d.result
      case Installed(_) =>
        Progress(Store(d.files, PutMetadata(p.store.entries, Record(info, now))),
                 p.updated + [info.name], p.events + [Downloading(info.name, 0)], false)
      case DownloadFailed(e) =>
        Progress(Store(d.files, p.store.entries), p.updated,
                 p.events + [Downloading(info.name, 0), FailureEvent(info, e)], true)
  }

  /** The download loop over `todo`, one `Step` per entry in order. */
  function Run(st: Store, todo: seq<ModelInfo>, net: Network, sha: HashFunction, now: int64): Progress {
    if todo == [] then Progress(st, [], [], false)
    else Step(Run(st, todo[..|todo| - 1], net, sha, now), todo[|todo| - 1], net, sha, now)
  }

  /** The download loop followed by `Success(updated)` unless it stopped on a failure. */
  function InstallAll(st: Store, todo: seq<ModelInfo>, net: Network, sha: HashFunction, now: int64): Cycle {
    var p := Run(st, todo, net, sha, now);
    Cycle(p.events + (if p.failed then [] else [Success(p.updated)]), p.store)
  }

  /** `checkForUpdates` as a function of the store before the cycle. */
  function RunCycle(st: Store, manifest: ManifestFetch, net: Network, sha: HashFunction, now: int64): Cycle {
    match manifest
    case ServiceUnavailable(e) => Cycle([Checking, Error("Failed to create update service: " + e.message, Some(e))], st)
    case FetchFailed(e) => Cycle([Checking, Error("Failed to fetch manifest: " + e.message, Some(e))], st)
    case Fetched(m) =>
      var toUpdate := StaleEntries(st.entries, m.models);
      if toUpdate == [] then Cycle([Checking, Success([])], st)
      else
        var c := InstallAll(st, toUpdate, net, sha, now);
        Cycle([Checking] + c.events, c.store)
  }

  /** The loop of `checkForUpdates` that collects `toUpdate`. */
  method CollectStale(entries: Entries, models: seq<ModelInfo>) returns (toUpdate: seq<ModelInfo>)
    ensures toUpdate == StaleEntries(entries, models)
  {
    toUpdate := [];
    for i := 0 to |models|
      invariant toUpdate == StaleEntries(entries, models[..i])
    {
      assert models[..i + 1][..i] == models[..i];
      var info := models[i];
      var local := GetModelMetadata(entries, info.name);
      var localVersion := if local.Some? then local.value.version else 0;
      if info.version > localVersion {
        toUpdate := toUpdate + [info];
      }
    }
    assert models[..|models|] == models;
  }

  /**
   * One turn of the download loop of `checkForUpdates`: download and verify
   * `info` and, if that succeeds, record it in the ledger.
   */
  method DownloadOne(downloader: ModelDownloader, prefs: Preferences, info: ModelInfo, ghost p: Progress, net: Network, sha: HashFunction, now: int64)
    returns (result: DownloadResult)
    requires downloader.sha == sha && !p.failed && p.store == Store(downloader.fs.files, prefs.entries)
    modifies downloader.fs, prefs
    ensures var q := Step(p, info, net, sha, now);
            q.store == Store(downloader.fs.files, prefs.entries) && q.failed == result.DownloadFailed?
            && q.updated == (if result.Installed? then p.updated + [info.name] else p.updated)
            && q.events == p.events + [Downloading(info.name, 0)] + (if result.Installed? then [] else [FailureEvent(info, result.e)])
  {
    result := downloader.DownloadAndVerify(info.name, info.downloadUrl, info.sha256, net.fetch, net.disk(info.name));
    if result.Installed? {
      var metadata := ModelMetadata(info.name, info.version, info.sha256, now);
      UpdateModelMetadata(prefs, metadata);
    }
  }

  /** The download loop of `checkForUpdates`, from `Downloading` of the first stale entry to the terminal event. */
  method DownloadStale(fs: FileSystem, prefs: Preferences, toUpdate: seq<ModelInfo>, net: Network, sha: HashFunction, now: int64)
    returns (events: seq<UpdateStatus>)
    modifies fs, prefs
    ensures Cycle(events, Store(fs.files, prefs.entries)) == InstallAll(old(Store(fs.files, prefs.entries)), toUpdate, net, sha, now)
  {
    ghost var st0 := Store(fs.files, prefs.entries);
    events := [];
    var updated: seq<string> := [];
    var downloader := new ModelDownloader(fs, sha);
    var i := 0;
    while i < |toUpdate|
      invariant 0 <= i <= |toUpdate|
      invariant Run(st0, toUpdate[..i], net, sha, now) == Progress(Store(fs.files, prefs.entries), updated, events, false)
    {
      var info := toUpdate[i];
      assert toUpdate[..i + 1][..i] == toUpdate[..i];
      var result := DownloadOne(downloader, prefs, info, Progress(Store(fs.files, prefs.entries), updated, events, false), net, sha, now);
      events := events + [Downloading(info.name, 0)];
      if result.DownloadFailed? {
        events := events + [FailureEvent(info, result.e)];
        RunAfterFailure(st0, toUpdate, i + 1, net, sha, now);
        return;
      }
      updated := updated + [info.name];
      i := i + 1;
    }
    assert toUpdate[..i] == toUpdate;
    events := events + [Success(updated)];
  }

  /**
   * `checkForUpdates(context)`. The events are returned in emission order;
   * `manifest` is what creating the service and fetching the manifest yield.
   */
  method CheckForUpdates(fs: FileSystem, prefs: Preferences, manifest: ManifestFetch, net: Network, sha: HashFunction, now: int64)
    returns (events: seq<UpdateStatus>)
    modifies fs, prefs
    ensures Cycle(events, Store(fs.files, prefs.entries)) == RunCycle(old(Store(fs.files, prefs.entries)), manifest, net, sha, now)
  {
    events := [Checking];
    if manifest.ServiceUnavailable? {
      events := events + [Error("Failed to create update service: " + manifest.e.message, Some(manifest.e))];
      return;
    }
    if manifest.FetchFailed? {
      events := events + [Error("Failed to fetch manifest: " + manifest.e.message, Some(manifest.e))];
      return;
    }
    var toUpdate := CollectStale(prefs.entries, manifest.manifest.models);
    if toUpdate == [] {
      events := events + [Success([])];
      return;
    }
    var tail := DownloadStale(fs, prefs, toUpdate, net, sha, now);
    events := events + tail;
  }

  // ------------------------------------------------------------- fail-fast

  /** Once a download has failed, the remaining entries are neither downloaded nor recorded. */
  lemma {:induction false} RunAfterFailure(st: Store, todo: seq<ModelInfo>, k: nat, net: Network, sha: HashFunction, now: int64)
    requires k <= |todo| && Run(st, todo[..k], net, sha, now).failed
    ensures Run(st, todo, net, sha, now) == Run(st, todo[..k], net, sha, now)
    decreases |todo|
  {
    if |todo| > k {
      assert todo[..|todo| - 1][..k] == todo[..k];
      RunAfterFailure(st, todo[..|todo| - 1], k, net, sha, now);
    } else {
      assert todo[..k] == todo;
    }
  }

  // ------------------------------------------------------------ event shape

  lemma {:induction false} RunShape(st: Store, todo: seq<ModelInfo>, net: Network, sha: HashFunction, now: int64)
    ensures var p := Run(st, todo, net, sha, now);
            (!p.failed ==> |p.events| == |todo| && forall i :: 0 <= i < |p.events| ==> p.events[i].Downloading?)
            && (p.failed ==> 2 <= |p.events| <= |todo| + 1 && p.events[|p.events| - 1].Error?
                             && forall i :: 0 <= i < |p.events| - 1 ==> p.events[i].Downloading?)
  {
    if todo != [] {
      RunShape(st, todo[..|todo| - 1], net, sha, now);
    }
  }

  /**
   * Every cycle starts with `Checking`, ends with exactly one terminal event,
   * and emits only `Downloading` events in between; a failure to obtain the
   * manifest emits `[Checking, Error]` and touches nothing.
   */
  lemma CycleShape(st: Store, manifest: ManifestFetch, net: Network, sha: HashFunction, now: int64)
    ensures var c := RunCycle(st, manifest, net, sha, now);
            |c.events| >= 2 && c.events[0] == Checking && IsTerminal(c.events[|c.events| - 1])
            && (forall i :: 0 < i < |c.events| - 1 ==> c.events[i].Downloading?)
            && (forall i :: 0 <= i < |c.events| - 1 ==> !IsTerminal(c.events[i]))
    ensures !manifest.Fetched? ==>
              var c := RunCycle(st, manifest, net, sha, now);
              |c.events| == 2 && c.events[1].Error? && c.events[1].cause == Some(manifest.e) && c.store == st
  {
    if manifest.Fetched? {
      var toUpdate := StaleEntries(st.entries, manifest.manifest.models);
      if toUpdate != [] {
        RunShape(st, toUpdate, net, sha, now);
      }
    }
  }

  // -------------------------------------------------------------- staleness

  /** An entry is downloaded iff it is in the manifest and newer than the ledger, where a missing record counts as version 0. */
  lemma {:induction false} StaleEntriesMembers(entries: Entries, models: seq<ModelInfo>)
    ensures forall info :: info in StaleEntries(entries, models) <==> info in models && IsStale(entries, info)
  {
    if models != [] {
      var init := models[..|models| - 1];
      var last := models[|models| - 1];
      StaleEntriesMembers(entries, init);
      assert models == init + [last];
    }
  }

  /** The stale list keeps manifest order: it distributes over concatenation of manifests. */
  lemma {:induction false} StaleEntriesAppend(entries: Entries, a: seq<ModelInfo>, b: seq<ModelInfo>)
    ensures StaleEntries(entries, a + b) == StaleEntries(entries, a) + StaleEntries(entries, b)
    decreases |b|
  {
    if b == [] {
      assert a + b == a;
    } else {
      var init := b[..|b| - 1];
      var last := b[|b| - 1];
      var tail := if IsStale(entries, last) then [last] else [];
      assert (a + b)[..|a + b| - 1] == a + init;
      assert (a + b)[|a + b| - 1] == last;
      StaleEntriesAppend(entries, a, init);
      assert StaleEntries(entries, a) + StaleEntries(entries, init) + tail
          == StaleEntries(entries, a) + (StaleEntries(entries, init) + tail);
    }
  }

  lemma {:induction false} NoneStale(entries: Entries, models: seq<ModelInfo>)
    requires forall info :: info in models ==> !IsStale(entries, info)
    ensures StaleEntries(entries, models) == []
  {
    if models != [] {
      assert models[|models| - 1] in models;
      forall info | info in models[..|models| - 1] ensures !IsStale(entries, info) {
        assert info in models;
      }
      NoneStale(entries, models[..|models| - 1]);
    }
  }

  lemma LocalVersionOfMissing(entries: Entries, info: ModelInfo)
    requires MetadataKey(info.name) !in entries
    ensures IsStale(entries, info) <==> info.version > 0
  {
  }

  // --------------------------------------------------------- cycle outcome

  /** Index of the first entry whose download fails, or `|todo|` when all succeed. */
  function FirstFailure(todo: seq<ModelInfo>, net: Network, sha: HashFunction): (k: nat)
    ensures k <= |todo|
    ensures forall j :: 0 <= j < k ==> Succeeds(todo[j], net, sha)
    ensures k < |todo| ==> !Succeeds(todo[k], net, sha)
  {
    if todo == [] then 0
    else
      var k := FirstFailure(todo[..|todo| - 1], net, sha);
      if k < |todo| - 1 then k
      else if Succeeds(todo[|todo| - 1], net, sha) then |todo|
      else |todo| - 1
  }

  function DownloadEvents(todo: seq<ModelInfo>): (r: seq<UpdateStatus>)
    ensures |r| == |todo| && forall j :: 0 <= j < |todo| ==> r[j] == Downloading(todo[j].name, 0)
  {
    if todo == [] then [] else DownloadEvents(todo[..|todo| - 1]) + [Downloading(todo[|todo| - 1].name, 0)]
  }

  function Names(todo: seq<ModelInfo>): (r: seq<string>)
    ensures |r| == |todo| && forall j :: 0 <= j < |todo| ==> r[j] == todo[j].name
  {
    if todo == [] then [] else Names(todo[..|todo| - 1]) + [todo[|todo| - 1].name]
  }

  /** The ledger after recording each of `todo`, in order. */
  function PutAll(entries: Entries, todo: seq<ModelInfo>, now: int64): Entries {
    if todo == [] then entries else PutMetadata(PutAll(entries, todo[..|todo| - 1], now), Record(todo[|todo| - 1], now))
  }

  /** A turn that is not skipped, in terms of whether the download succeeds. */
  lemma StepOutcome(p: Progress, info: ModelInfo, net: Network, sha: HashFunction, now: int64)
    requires !p.failed
    ensures var q := Step(p, info, net, sha, now);
            q.failed == !Succeeds(info, net, sha)
            && q.updated == p.updated + (if Succeeds(info, net, sha) then [info.name] else [])
            && q.store.entries == (if Succeeds(info, net, sha) then PutMetadata(p.store.entries, Record(info, now)) else p.store.entries)
            && q.events == p.events + [Downloading(info.name, 0)]
                           + (if Succeeds(info, net, sha) then [] else [FailureEvent(info, FailureOf(info, net, sha))])
  {
  }

  /**
   * The loop's state after `todo`, in terms of the index `k` of the first
   * failing entry: it has failed iff some entry failed; `updated` names and
   * the ledger records exactly the entries before `k`; the events are
   * `Downloading` for each entry up to and including `k`, then the failure.
   */
  predicate ExplainedByFirstFailure(st: Store, todo: seq<ModelInfo>, net: Network, sha: HashFunction, now: int64) {
    var k := FirstFailure(todo, net, sha);
    Explains(Run(st, todo, net, sha, now), st, todo, k, if k < |todo| then FailureEvent(todo[k], FailureOf(todo[k], net, sha)) else Checking, now)
  }

  /**
   * `p` is the loop's state after `todo` when the first `k` entries succeed
   * and, if `k < |todo|`, the `k`-th fails with the event `failure`.
   */
  predicate Explains(p: Progress, st: Store, todo: seq<ModelInfo>, k: nat, failure: UpdateStatus, now: int64) {
    k <= |todo|
    && p.failed == (k < |todo|)
    && p.updated == Names(todo[..k])
    && p.store.entries == PutAll(st.entries, todo[..k], now)
    && p.events == DownloadEvents(todo[..if k < |todo| then k + 1 else k]) + (if k < |todo| then [failure] else [])
  }

  lemma {:induction false} RunOutcome(st: Store, todo: seq<ModelInfo>, net: Network, sha: HashFunction, now: int64)
    ensures ExplainedByFirstFailure(st, todo, net, sha, now)
  {
    if todo != [] {
      var init, last := todo[..|todo| - 1], todo[|todo| - 1];
      assert todo == init + [last];
      RunOutcome(st, init, net, sha, now);
      var p := Run(st, init, net, sha, now);
      var k := FirstFailure(init, net, sha);
      FirstFailureSnoc(init, last, net, sha);
      if k < |init| {
        assert todo[k] == init[k];
        FailedBeforeLast(p, st, init, last, k, FailureEvent(init[k], FailureOf(init[k], net, sha)), now);
      } else {
        StepOutcome(p, last, net, sha, now);
        if Succeeds(last, net, sha) {
          LastSucceeds(p, Step(p, last, net, sha, now), st, init, last, now);
        } else {
          LastFails(p, Step(p, last, net, sha, now), st, init, last, FailureEvent(last, FailureOf(last, net, sha)), now);
        }
      }
    }
  }

  /** Where the first failure of `init + [last]` is, given that of `init`. */
  lemma FirstFailureSnoc(init: seq<ModelInfo>, last: ModelInfo, net: Network, sha: HashFunction)
    ensures var k := FirstFailure(init, net, sha);
            FirstFailure(init + [last], net, sha)
            == if k < |init| then k else if Succeeds(last, net, sha) then |init| + 1 else |init|
  {
    assert (init + [last])[..|init|] == init;
  }

  /** `Names`, `DownloadEvents` and `PutAll` of `init + [last]` extend those of `init` by `last`. */
  lemma AppendOne(init: seq<ModelInfo>, last: ModelInfo, now: int64)
    ensures Names(init + [last]) == Names(init) + [last.name]
    ensures DownloadEvents(init + [last]) == DownloadEvents(init) + [Downloading(last.name, 0)]
    ensures forall entries :: PutAll(entries, init + [last], now) == PutMetadata(PutAll(entries, init, now), Record(last, now))
  {
    assert (init + [last])[..|init|] == init;
  }

  /** The inductive step of `RunOutcome` when an entry before the last already failed: the state stays put. */
  lemma FailedBeforeLast(p: Progress, st: Store, init: seq<ModelInfo>, last: ModelInfo, k: nat, failure: UpdateStatus, now: int64)
    requires k < |init| && Explains(p, st, init, k, failure, now)
    ensures Explains(p, st, init + [last], k, failure, now)
  {
    var todo := init + [last];
    assert todo[..k] == init[..k] && todo[..k + 1] == init[..k + 1];
  }

  /** The inductive step of `RunOutcome` when every entry succeeded: `q` is the state after `last`. */
  lemma LastSucceeds(p: Progress, q: Progress, st: Store, init: seq<ModelInfo>, last: ModelInfo, now: int64)
    requires Explains(p, st, init, |init|, Checking, now)
    requires !q.failed && q.updated == p.updated + [last.name]
    requires q.store.entries == PutMetadata(p.store.entries, Record(last, now))
    requires q.events == p.events + [Downloading(last.name, 0)]
    ensures Explains(q, st, init + [last], |init| + 1, Checking, now)
  {
    var todo := init + [last];
    assert init[..|init|] == init && todo[..|todo|] == todo;
    AppendOne(init, last, now);
  }

  /** The inductive step of `RunOutcome` when only the last entry failed: `q` is the state after `last`. */
  lemma LastFails(p: Progress, q: Progress, st: Store, init: seq<ModelInfo>, last: ModelInfo, failure: UpdateStatus, now: int64)
    requires Explains(p, st, init, |init|, Checking, now)
    requires q.failed && q.updated == p.updated && q.store.entries == p.store.entries
    requires q.events == p.events + [Downloading(last.name, 0), failure]
    ensures Explains(q, st, init + [last], |init|, failure, now)
  {
    var todo := init + [last];
    assert init[..|init|] == init && todo[..|init| + 1] == todo && todo[..|init|] == init;
    AppendOne(init, last, now);
  }

  /**
   * A cycle on a fetched manifest in which every stale download succeeds:
   * `Downloading` for each stale entry in order, then `Success` listing all
   * their names in order; the ledger holds a record for each of them.
   */
  lemma CycleAllSucceed(st: Store, m: Manifest, net: Network, sha: HashFunction, now: int64)
    requires var stale := StaleEntries(st.entries, m.models); FirstFailure(stale, net, sha) == |stale|
    ensures var stale := StaleEntries(st.entries, m.models);
            var c := RunCycle(st, Fetched(m), net, sha, now);
            c.events == [Checking] + DownloadEvents(stale) + [Success(Names(stale))]
            && c.store.entries == PutAll(st.entries, stale, now)
  {
    var stale := StaleEntries(st.entries, m.models);
    if stale != [] {
      InstallAllOutcome(st, stale, net, sha, now);
    }
  }

  /**
   * A cycle on a fetched manifest in which the `k`-th stale download fails:
   * `Downloading` for each stale entry up to and including the `k`-th, then
   * an `Error` naming it; the later entries are never attempted, and the
   * ledger holds records for exactly the first `k`.
   */
  lemma CycleStopsAtFailure(st: Store, m: Manifest, net: Network, sha: HashFunction, now: int64)
    requires var stale := StaleEntries(st.entries, m.models); FirstFailure(stale, net, sha) < |stale|
    ensures var stale := StaleEntries(st.entries, m.models);
            var c := RunCycle(st, Fetched(m), net, sha, now);
            var k := FirstFailure(stale, net, sha);
            c.events == [Checking] + DownloadEvents(stale[..k + 1]) + [FailureEvent(stale[k], FailureOf(stale[k], net, sha))]
            && c.store.entries == PutAll(st.entries, stale[..k], now)
  {
    InstallAllOutcome(st, StaleEntries(st.entries, m.models), net, sha, now);
  }

  lemma InstallAllOutcome(st: Store, todo: seq<ModelInfo>, net: Network, sha: HashFunction, now: int64)
    ensures var c := InstallAll(st, todo, net, sha, now);
            var k := FirstFailure(todo, net, sha);
            (k == |todo| ==>
               c.events == DownloadEvents(todo) + [Success(Names(todo))]
               && c.store.entries == PutAll(st.entries, todo, now))
            && (k < |todo| ==>
               c.events == DownloadEvents(todo[..k + 1]) + [FailureEvent(todo[k], FailureOf(todo[k], net, sha))]
               && c.store.entries == PutAll(st.entries, todo[..k], now))
  {
    RunOutcome(st, todo, net, sha, now);
    assert todo[..|todo|] == todo;
  }

  // ----------------------------------------------------------------- ledger

  /** No two distinct entries share a name. */
  predicate DistinctNames(models: seq<ModelInfo>) {
    forall a, b :: a in models && b in models && a.name == b.name ==> a == b
  }

  lemma {:induction false} PutAllOther(entries: Entries, todo: seq<ModelInfo>, now: int64, name: string)
    requires forall t :: t in todo ==> t.name != name
    ensures GetModelMetadata(PutAll(entries, todo, now), name) == GetModelMetadata(entries, name)
  {
    if todo != [] {
      var init := todo[..|todo| - 1];
      var last := todo[|todo| - 1];
      forall t | t in init ensures t.name != name {
        assert t in todo;
      }
      assert last in todo;
      PutAllOther(entries, init, now, name);
      GetAfterPut(PutAll(entries, init, now), Record(last, now), name);
    }
  }

  /** With distinct names, each recorded entry is what the ledger holds for its name afterwards. */
  lemma {:induction false} PutAllRecords(entries: Entries, todo: seq<ModelInfo>, now: int64)
    requires DistinctNames(todo)
    ensures forall t :: t in todo ==> GetModelMetadata(PutAll(entries, todo, now), t.name) == Some(Record(t, now))
  {
    if todo != [] {
      var init := todo[..|todo| - 1];
      var last := todo[|todo| - 1];
      assert last in todo;
      assert DistinctNames(init) by {
        forall a, b | a in init && b in init && a.name == b.name ensures a == b {
          assert a in todo && b in todo;
        }
      }
      PutAllRecords(entries, init, now);
      forall t | t in todo ensures GetModelMetadata(PutAll(entries, todo, now), t.name) == Some(Record(t, now)) {
        GetAfterPut(PutAll(entries, init, now), Record(last, now), t.name);
        if t != last {
          assert t in init by {
            var j :| 0 <= j < |todo| && todo[j] == t;
            assert j < |todo| - 1;
            assert init[j] == t;
          }
        }
      }
    }
  }

  /** Versions never go down: every record a cycle writes is newer than what the ledger held for that name before. */
  lemma {:induction false} PutAllMonotone(base: Entries, todo: seq<ModelInfo>, now: int64, name: string)
    requires forall t :: t in todo ==> IsStale(base, t)
    ensures LocalVersion(PutAll(base, todo, now), name) >= LocalVersion(base, name)
  {
    if todo != [] {
      var init := todo[..|todo| - 1];
      var last := todo[|todo| - 1];
      forall t | t in init ensures IsStale(base, t) {
        assert t in todo;
      }
      assert last in todo;
      PutAllMonotone(base, init, now, name);
      GetAfterPut(PutAll(base, init, now), Record(last, now), name);
    }
  }

  lemma VersionsNeverDecrease(st: Store, manifest: ManifestFetch, net: Network, sha: HashFunction, now: int64, name: string)
    ensures LocalVersion(RunCycle(st, manifest, net, sha, now).store.entries, name) >= LocalVersion(st.entries, name)
  {
    if manifest.Fetched? {
      var stale := StaleEntries(st.entries, manifest.manifest.models);
      StaleEntriesMembers(st.entries, manifest.manifest.models);
      var k := FirstFailure(stale, net, sha);
      if k == |stale| {
        CycleAllSucceed(st, manifest.manifest, net, sha, now);
      } else {
        CycleStopsAtFailure(st, manifest.manifest, net, sha, now);
      }
      forall t | t in stale[..k] ensures IsStale(st.entries, t) {
        assert t in stale;
      }
      if k == |stale| {
        assert stale[..k] == stale;
      }
      PutAllMonotone(st.entries, stale[..k], now, name);
    }
  }

  /** After a fully successful cycle every manifest entry is up to date, given distinct names. */
  lemma NothingStaleAfter(st: Store, m: Manifest, net: Network, sha: HashFunction, now: int64)
    requires DistinctNames(m.models)
    requires var stale := StaleEntries(st.entries, m.models); FirstFailure(stale, net, sha) == |stale|
    ensures var after := RunCycle(st, Fetched(m), net, sha, now).store;
            forall info :: info in m.models ==> !IsStale(after.entries, info)
  {
    var stale := StaleEntries(st.entries, m.models);
    var after := RunCycle(st, Fetched(m), net, sha, now).store;
    CycleAllSucceed(st, m, net, sha, now);
    StaleEntriesMembers(st.entries, m.models);
    assert DistinctNames(stale);
    PutAllRecords(st.entries, stale, now);
    forall info | info in m.models ensures !IsStale(after.entries, info) {
      if !IsStale(st.entries, info) {
        PutAllOther(st.entries, stale, now, info.name);
      }
    }
  }

  /**
   * After a cycle in which every download succeeded, running again against
   * the same manifest finds nothing stale: zero downloads, `Success([])`, and
   * nothing changes.
   */
  lemma RerunIsQuiet(st: Store, m: Manifest, net: Network, net': Network, sha: HashFunction, now: int64, later: int64)
    requires DistinctNames(m.models)
    requires var stale := StaleEntries(st.entries, m.models); FirstFailure(stale, net, sha) == |stale|
    ensures var after := RunCycle(st, Fetched(m), net, sha, now).store;
            StaleEntries(after.entries, m.models) == []
            && RunCycle(after, Fetched(m), net', sha, later) == Cycle([Checking, Success([])], after)
  {
    var after := RunCycle(st, Fetched(m), net, sha, now).store;
    NothingStaleAfter(st, m, net, sha, now);
    NoneStale(after.entries, m.models);
  }

  // -------------------------------------------------------------- integrity

  /** The ledger's record for `name`, if any, describes the installed file: it exists and its digest matches. */
  predicate LedgerMatchesFile(st: Store, name: string, sha: HashFunction) {
    var r := GetModelMetadata(st.entries, name);
    r.Some? ==> ModelFile(name) in st.files && Matches(sha, st.files[ModelFile(name)], r.value.sha256)
  }

  ghost predicate Consistent(st: Store, sha: HashFunction) {
    forall name :: LedgerMatchesFile(st, name, sha)
  }

  /** The digest matched but both `renameTo` and the copy fallback failed, after the old file was deleted. */
  predicate InstallStepFails(info: ModelInfo, net: Network, sha: HashFunction) {
    Verified(net.fetch(info.downloadUrl), info.sha256, sha) && InstallFails(net.disk(info.name))
  }

  lemma StepKeepsConsistent(p: Progress, info: ModelInfo, net: Network, sha: HashFunction, now: int64)
    requires Consistent(p.store, sha)
    requires !InstallStepFails(info, net, sha)
    ensures Consistent(Step(p, info, net, sha, now).store, sha)
  {
    if !p.failed {
      var d := Attempt(p.store, info, net, sha);
      DownloadFiles(p.store.files, info.name, info.sha256, net.fetch(info.downloadUrl), net.disk(info.name), sha);
      DownloadInstalls(p.store.files, info.name, info.sha256, net.fetch(info.downloadUrl), net.disk(info.name), sha);
      if d.result.Installed? {
        InstalledKeepsConsistent(p.store, d.files, info, sha, now);
      } else {
        UnrecordedKeepsConsistent(p.store, d.files, info.name, sha);
      }
    }
  }

  /** A completed install whose bytes match the manifest digest, recorded with that digest, keeps the ledger consistent. */
  lemma InstalledKeepsConsistent(st: Store, files': Files, info: ModelInfo, sha: HashFunction, now: int64)
    requires Consistent(st, sha)
    requires forall p :: p != ModelFile(info.name) && p != TempFile(info.name) ==> AgreeOn(st.files, files', p)
    requires ModelFile(info.name) in files' && Matches(sha, files'[ModelFile(info.name)], info.sha256)
    ensures Consistent(Store(files', PutMetadata(st.entries, Record(info, now))), sha)
  {
    forall name ensures LedgerMatchesFile(Store(files', PutMetadata(st.entries, Record(info, now))), name, sha) {
      GetAfterPut(st.entries, Record(info, now), name);
      PathsDistinct(name, info.name);
      if name != info.name {
        assert AgreeOn(st.files, files', ModelFile(name));
        assert LedgerMatchesFile(st, name, sha);
      }
    }
  }

  /** A failed download changes no record and leaves the model's installed file alone, so the ledger stays consistent. */
  lemma UnrecordedKeepsConsistent(st: Store, files': Files, modelName: string, sha: HashFunction)
    requires Consistent(st, sha)
    requires forall p :: p != ModelFile(modelName) && p != TempFile(modelName) ==> AgreeOn(st.files, files', p)
    requires AgreeOn(st.files, files', ModelFile(modelName))
    ensures Consistent(Store(files', st.entries), sha)
  {
    forall name ensures LedgerMatchesFile(Store(files', st.entries), name, sha) {
      PathsDistinct(name, modelName);
      assert AgreeOn(st.files, files', ModelFile(name));
      assert LedgerMatchesFile(st, name, sha);
    }
  }

  /**
   * The download loop never leaves a ledger record that disagrees with the
   * installed file, unless a verified download fails in the install step.
   */
  lemma {:induction false} RunKeepsConsistent(st: Store, todo: seq<ModelInfo>, net: Network, sha: HashFunction, now: int64)
    requires Consistent(st, sha)
    requires var k := FirstFailure(todo, net, sha); k < |todo| ==> !InstallStepFails(todo[k], net, sha)
    ensures Consistent(Run(st, todo, net, sha, now).store, sha)
  {
    if todo != [] {
      var init := todo[..|todo| - 1];
      var last := todo[|todo| - 1];
      var k := FirstFailure(init, net, sha);
      if k < |init| {
        assert todo[k] == init[k];
      }
      RunKeepsConsistent(st, init, net, sha, now);
      if !Run(st, init, net, sha, now).failed {
        RunOutcome(st, init, net, sha, now);
        StepKeepsConsistent(Run(st, init, net, sha, now), last, net, sha, now);
      }
    }
  }

  lemma CycleKeepsConsistent(st: Store, manifest: ManifestFetch, net: Network, sha: HashFunction, now: int64)
    requires Consistent(st, sha)
    requires manifest.Fetched? ==>
               var stale := StaleEntries(st.entries, manifest.manifest.models);
               var k := FirstFailure(stale, net, sha);
               k < |stale| ==> !InstallStepFails(stale[k], net, sha)
    ensures Consistent(RunCycle(st, manifest, net, sha, now).store, sha)
  {
    if manifest.Fetched? {
      var stale := StaleEntries(st.entries, manifest.manifest.models);
      if stale != [] {
        RunKeepsConsistent(st, stale, net, sha, now);
      }
    }
  }

  /**
   * The exception: when the copy fallback cannot even open its target, the
   * old file is already gone while its record stays, so the ledger names a
   * model that is not installed.
   */
  lemma InstallFailureOrphansRecord(st: Store, info: ModelInfo, net: Network, sha: HashFunction, now: int64)
    requires GetModelMetadata(st.entries, info.name).Some?
    requires Verified(net.fetch(info.downloadUrl), info.sha256, sha)
    requires !net.disk(info.name).renameSucceeds && net.disk(info.name).copy.CopyFailsBeforeWriting?
    ensures !LedgerMatchesFile(InstallAll(st, [info], net, sha, now).store, info.name, sha)
  {
    PathsDistinct(info.name, info.name);
    assert [info][..0] == [];
    assert Run(st, [info], net, sha, now) == Step(Progress(st, [], [], false), info, net, sha, now);
    assert ModelFile(info.name) !in Attempt(st, info, net, sha).files;
  }
}
