/** The synchronisation engine of the authenticated app (App.tsx): a
    two-phase start (publish the device cache, then reconcile with the cloud by
    timestamp) and, after that, a save-and-push cycle on every change of the
    dataset. The cloud's answer and the clock are parameters. */
module Sync {
  import opened Model
  import opened Storage
  import LocalService
  import CloudService

  datatype SyncStatus = Synced | Syncing | LocalSaved

  /** What the background cloud read produced: no record, a record, or an
      exception. */
  datatype RemoteOutcome = NoRemote | Remote(snapshot: Snapshot) | RemoteFailed

  /** Tolerance, in milliseconds, for clock differences between writers. */
  const GraceMs := 500

  /** `localData?.lastSynced || 0`. */
  function LocalTime(local: Option<Snapshot>): (t: int)
    ensures local.None? ==> t == 0
    ensures local.Some? ==> t == local.value.lastSynced
  {
    if local.Some? then local.value.lastSynced else 0
  }

  /** The grace rule: the cloud record wins only when it is more than
      `GraceMs` newer than the cached one. */
  predicate AdoptsRemote(local: Option<Snapshot>, remote: Snapshot) {
    remote.lastSynced > LocalTime(local) + GraceMs
  }

  /** Whether reconciliation takes the cloud's record. */
  predicate Adopted(local: Option<Snapshot>, remote: RemoteOutcome) {
    remote.Remote? && AdoptsRemote(local, remote.snapshot)
  }

  /** The comparison is strict: exactly 500 ms newer is not enough, 501 is. */
  lemma GraceBoundary(local: Snapshot, remote: Snapshot)
    ensures remote.lastSynced == local.lastSynced + 500 ==> !AdoptsRemote(Some(local), remote)
    ensures remote.lastSynced == local.lastSynced + 501 ==> AdoptsRemote(Some(local), remote)
    ensures remote.lastSynced <= local.lastSynced ==> !AdoptsRemote(Some(local), remote)
  {
  }

  /** Once a cloud record has been adopted the cache carries its stamp, so
      the same record is not adopted a second time: no ping-pong. */
  lemma AdoptionIsStable(remote: Snapshot)
    ensures !AdoptsRemote(Some(remote), remote)
  {
  }

  /** The device cache and the cloud database live under different keys. */
  lemma CacheKeyIsNotCloudKey(username: string)
    ensures LocalService.LocalKey(username) != CloudService.CloudDbKey
  {
    assert LocalService.LocalKey(username)[10] == 'l';
    assert CloudService.CloudDbKey[10] == 'c';
  }

  /** Durability: the snapshot a cycle writes to the cache is still there after
      the push, whether the push succeeds or fails. */
  lemma {:induction false} CacheSurvivesPush(items: map<string, Stored>, username: string, d: Dataset, now: int,
                                             pushTime: int, cut: CloudService.Cutoffs, writeAccepted: bool)
    ensures var cached := LocalService.Saved(items, username, Snapshot(d, now), true);
      LocalService.Load(CloudService.AfterSave(cached, username, d, pushTime, cut, writeAccepted), username)
        == Some(Snapshot(d, now))
  {
    var cached := LocalService.Saved(items, username, Snapshot(d, now), true);
    CacheKeyIsNotCloudKey(username);
    CloudService.SaveTouchesOnlyCloudDb(cached, username, d, pushTime, cut, writeAccepted, LocalService.LocalKey(username));
  }

  /** After a start whose cloud read found a record stamped `T + 501` against a
      cache stamped `T`, the cache holds the cloud record with the cloud's own
      stamp; at `T + 499` the cache is left alone. */
  lemma GraceWindowDeterminism(items: map<string, Stored>, username: string, local: Snapshot, remote: Snapshot)
    ensures remote.lastSynced == local.lastSynced + 501 ==>
      LocalService.Load(LocalService.Saved(items, username, remote, true), username) == Some(remote)
      && Adopted(Some(local), Remote(remote))
    ensures remote.lastSynced == local.lastSynced + 499 ==> !Adopted(Some(local), Remote(remote))
  {
    LocalService.LoadAfterSave(items, username, username, remote, true);
  }

  /** After a start whose first cycle is cached, the device cache holds the
      session's dataset under the cycle's own stamp, not the stamp an adopted
      cloud record carried, whatever the push did. */
  lemma {:induction false} FirstCycleRestamps(reconciled: map<string, Stored>, username: string, d: Dataset, now: int,
                                              pushTime: int, cut: CloudService.Cutoffs, writeAccepted: bool)
    ensures var cached := LocalService.Saved(reconciled, username, Snapshot(d, now), true);
      var after := CloudService.AfterSave(cached, username, d, pushTime, cut, writeAccepted);
      && LocalService.Load(after, username) == Some(Snapshot(d, now))
      && (CloudService.SaveSucceeds(cached, writeAccepted) ==>
            CloudService.GetUserData(after, username) == Some(CloudService.Optimized(d, pushTime, cut)))
  {
    CacheSurvivesPush(reconciled, username, d, now, pushTime, cut, writeAccepted);
    var cached := LocalService.Saved(reconciled, username, Snapshot(d, now), true);
    if CloudService.SaveSucceeds(cached, writeAccepted) {
      var after := CloudService.AfterSave(cached, username, d, pushTime, cut, writeAccepted);
      assert after[CloudService.CloudDbKey].users[username] == CloudService.Optimized(d, pushTime, cut);
    }
  }

  class SyncSession {
    const username: string
    const store: KeyValueStore
    var dataset: Dataset
    var status: SyncStatus
    var isInitialLoad: bool

    /** A fresh session: nothing loaded, status `synced`, still loading. */
    constructor (username: string, store: KeyValueStore)
      ensures this.username == username && this.store == store
      ensures dataset == InitialDataset && status == Synced && isInitialLoad
    {
      this.username := username;
      this.store := store;
      dataset := InitialDataset;
      status := Synced;
      isInitialLoad := true;
    }

    /** Phase one of `initApp` (App.tsx:60-70): the cached snapshot, when there
        is one, is published at once. */
    method LoadLocal() returns (localData: Option<Snapshot>)
      modifies this
      ensures localData == LocalService.Load(store.items, username)
      ensures dataset == if localData.Some? then localData.value.data else old(dataset)
      ensures status == old(status) && isInitialLoad == old(isInitialLoad)
    {
      localData := LocalService.GetUserData(store, username);
      if localData.Some? {
        dataset := localData.value.data;
      }
    }

    /** Phase two of `initApp` (App.tsx:74-110): the cloud record is adopted
        under the grace rule, into memory and into the cache with the cloud's
        own stamp; otherwise nothing is written. Whatever the cloud answered,
        the status ends `synced` and loading is over. */
    method Reconcile(localData: Option<Snapshot>, remote: RemoteOutcome, localAccepted: bool)
      modifies this, store
      ensures status == Synced && !isInitialLoad
      ensures Adopted(localData, remote) ==>
        && dataset == remote.snapshot.data
        && store.items == LocalService.Saved(old(store.items), username, remote.snapshot, localAccepted)
      ensures !Adopted(localData, remote) ==> dataset == old(dataset) && store.items == old(store.items)
    {
      status := Syncing;
      if remote.Remote? {
        var cloud := remote.snapshot;
        if AdoptsRemote(localData, cloud) {
          dataset := cloud.data;
          LocalService.SaveUserData(store, username, Snapshot(cloud.data, cloud.lastSynced), localAccepted);
        }
      }
      status := Synced;
      isInitialLoad := false;
    }

    /** `initApp` as a whole: publish the cache, then reconcile. The dataset
        ends as the cloud record when the grace rule adopts it, otherwise as the
        cached one, otherwise as it was. */
    method InitApp(remote: RemoteOutcome, localAccepted: bool) returns (localData: Option<Snapshot>)
      modifies this, store
      ensures localData == LocalService.Load(old(store.items), username)
      ensures status == Synced && !isInitialLoad
      ensures dataset ==
        if Adopted(localData, remote) then remote.snapshot.data
        else if localData.Some? then localData.value.data
        else old(dataset)
      ensures store.items ==
        if Adopted(localData, remote) then LocalService.Saved(old(store.items), username, remote.snapshot, localAccepted)
        else old(store.items)
    {
      localData := LoadLocal();
      Reconcile(localData, remote, localAccepted);
    }

    /** The data-change effect (App.tsx:136-172): skipped while loading;
        otherwise the dataset is cached stamped with this cycle's time, the
        status becomes `syncing` and the dataset, without a stamp, is handed to
        the push. */
    method OnDataChange(now: int, localAccepted: bool) returns (payload: Option<Dataset>)
      modifies this, store
      ensures dataset == old(dataset) && isInitialLoad == old(isInitialLoad)
      ensures old(isInitialLoad) ==> payload == None && status == old(status) && store.items == old(store.items)
      ensures !old(isInitialLoad) ==>
        && payload == Some(dataset) && status == Syncing
        && store.items == LocalService.Saved(old(store.items), username, Snapshot(dataset, now), localAccepted)
    {
      if isInitialLoad {
        return None;
      }
      LocalService.SaveUserData(store, username, Snapshot(dataset, now), localAccepted);
      status := Syncing;
      payload := Some(dataset);
    }

    /** The answer of the push (App.tsx:163-167). */
    method OnPushSettled(success: bool)
      modifies this
      ensures status == (if success then Synced else LocalSaved)
      ensures dataset == old(dataset) && isInitialLoad == old(isInitialLoad)
    {
      if success {
        status := Synced;
      } else {
        status := LocalSaved;
      }
    }

    /** `syncToCloud` against the simulated cloud (App.tsx:154-170): the push
        is one step here, and its result decides the status. */
    method PushToCloud(payload: Dataset, pushTime: int, cut: CloudService.Cutoffs, writeAccepted: bool)
      returns (success: bool)
      modifies this, store
      ensures success == CloudService.SaveSucceeds(old(store.items), writeAccepted)
      ensures store.items == CloudService.AfterSave(old(store.items), username, payload, pushTime, cut, writeAccepted)
      ensures status == (if success then Synced else LocalSaved)
      ensures dataset == old(dataset) && isInitialLoad == old(isInitialLoad)
    {
      success := CloudService.SaveUserData(store, username, payload, pushTime, cut, writeAccepted);
      OnPushSettled(success);
    }

    /** A session's start as the app runs it: `initApp`, then the one cycle of
        the data-change effect that the end of loading triggers. Whatever
        reconciliation chose is cached again under this cycle's stamp `now`
        and pushed. */
    method Start(remote: RemoteOutcome, initAccepted: bool, now: int, cycleAccepted: bool,
                 pushTime: int, cut: CloudService.Cutoffs, writeAccepted: bool)
      returns (success: bool)
      modifies this, store
      ensures var localData := LocalService.Load(old(store.items), username);
        && dataset ==
             (if Adopted(localData, remote) then remote.snapshot.data
              else if localData.Some? then localData.value.data
              else old(dataset))
        && var reconciled :=
             if Adopted(localData, remote) then LocalService.Saved(old(store.items), username, remote.snapshot, initAccepted)
             else old(store.items);
           var cached := LocalService.Saved(reconciled, username, Snapshot(dataset, now), cycleAccepted);
           && success == CloudService.SaveSucceeds(cached, writeAccepted)
           && store.items == CloudService.AfterSave(cached, username, dataset, pushTime, cut, writeAccepted)
      ensures status == (if success then Synced else LocalSaved) && !isInitialLoad
    {
      var _ := InitApp(remote, initAccepted);
      var payload := OnDataChange(now, cycleAccepted);
      success := PushToCloud(payload.value, pushTime, cut, writeAccepted);
    }
  }
}
