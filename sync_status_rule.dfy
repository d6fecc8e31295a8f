/**
 * The rule that turns what is known about an account's authorities into the one sync
 * state its row shows. An account's authorities are scanned in order; the scan stops at
 * the first failing authority (which is not recorded) or right after the first one that
 * is syncing now (which is recorded). The recorded authorities give the count of enabled
 * user-facing authorities and the latest success time.
 */
module SyncStatusRule {
  import opened Wrappers
  import opened AndroidContent

  /** What the scan learns about one authority of one account. */
  datatype Probe = Probe(
    status: Option<SyncStatusInfo>,
    syncEnabled: bool,
    activelySyncing: bool,
    pending: bool,
    userFacing: bool)

  /** The states an account row can show. */
  datatype SyncState = SyncEnabled | SyncDisabled | SyncError | SyncInProgress

  /**
   * What one account row shows: its state, and for an enabled account that has synced
   * successfully, the time of the last success (shown as "last synced" in place of the
   * state's default summary).
   */
  datatype RowDisplay = RowDisplay(state: SyncState, lastSynced: Option<int>)

  /** The last sync of an enabled authority failed for a reason other than "already running". */
  function LastSyncFailed(p: Probe): (failed: bool)
    ensures p.status.None? ==> !failed
    ensures !p.syncEnabled ==> !failed
    ensures p.status.Some? && p.status.value.lastFailureTime == 0 ==> !failed
    ensures p.status.Some? && p.status.value.lastFailureCode == SYNC_ERROR_SYNC_ALREADY_IN_PROGRESS ==> !failed
  {
    p.status.Some? && p.syncEnabled && p.status.value.lastFailureTime != 0
    && p.status.value.lastFailureCode != SYNC_ERROR_SYNC_ALREADY_IN_PROGRESS
  }

  /** A failure that is not about to be retried: the account shows an error. */
  function Failing(p: Probe): (failing: bool)
    ensures failing ==> LastSyncFailed(p)
    ensures p.activelySyncing || p.pending ==> !failing
  {
    LastSyncFailed(p) && !p.activelySyncing && !p.pending
  }

  /** The scan ends at this authority. */
  predicate Stops(p: Probe) {
    Failing(p) || p.activelySyncing
  }

  /** The authority adds one to the account's sync count. */
  predicate Counted(p: Probe) {
    p.syncEnabled && p.userFacing
  }

  /** The index of the first authority at which the scan ends, or |ps| when none does. */
  function FirstStop(ps: seq<Probe>): (k: nat)
    ensures k <= |ps|
    ensures forall j :: 0 <= j < k ==> !Stops(ps[j])
    ensures k < |ps| ==> Stops(ps[k])
  {
    if ps == [] then 0
    else if Stops(ps[0]) then 0
    else 1 + FirstStop(ps[1..])
  }

  /** The scan ended at a failing authority. */
  predicate ScanFailed(ps: seq<Probe>) {
    FirstStop(ps) < |ps| && Failing(ps[FirstStop(ps)])
  }

  /** The scan ended at an authority that is syncing now. */
  predicate ScanSyncingNow(ps: seq<Probe>) {
    FirstStop(ps) < |ps| && !Failing(ps[FirstStop(ps)])
  }

  /**
   * How many authorities the scan records: those before the stop point, plus the stopping
   * authority itself when it is syncing now rather than failing.
   */
  function ScanLength(ps: seq<Probe>): (n: nat)
    ensures n <= |ps|
    ensures forall j :: 0 <= j < n ==> !Failing(ps[j])
    ensures n < |ps| ==> Failing(ps[n]) || (n > 0 && ps[n - 1].activelySyncing)
    ensures forall j :: 0 <= j < n - 1 ==> !ps[j].activelySyncing
  {
    if ScanSyncingNow(ps) then FirstStop(ps) + 1 else FirstStop(ps)
  }

  /** The number of enabled user-facing authorities in `qs`. */
  function SyncCount(qs: seq<Probe>): (r: nat)
    ensures r <= |qs|
  {
    if qs == [] then 0
    else SyncCount(qs[..|qs| - 1]) + (if Counted(qs[|qs| - 1]) then 1 else 0)
  }

  /** The latest success time recorded in `qs`, and 0 when there is none later than 0. */
  function MaxSuccess(qs: seq<Probe>): (m: int)
    ensures m >= 0
  {
    if qs == [] then 0
    else
      var m := MaxSuccess(qs[..|qs| - 1]);
      var last := qs[|qs| - 1];
      if last.status.Some? && m < last.status.value.lastSuccessTime then last.status.value.lastSuccessTime
      else m
  }

  /** The count is 0 exactly when no authority in `qs` is enabled and user-facing. */
  lemma {:induction false} SyncCountZeroIffNoneCounted(qs: seq<Probe>)
    ensures SyncCount(qs) == 0 <==> forall j :: 0 <= j < |qs| ==> !Counted(qs[j])
  {
    if qs != [] {
      var init := qs[..|qs| - 1];
      SyncCountZeroIffNoneCounted(init);
      assert forall j :: 0 <= j < |init| ==> init[j] == qs[j];
    }
  }

  /**
   * The latest success time is the maximum of 0 and the success times of the
   * authorities in `qs` that have a status.
   */
  lemma {:induction false} MaxSuccessIsMaximum(qs: seq<Probe>)
    ensures forall j :: 0 <= j < |qs| && qs[j].status.Some? ==> qs[j].status.value.lastSuccessTime <= MaxSuccess(qs)
    ensures MaxSuccess(qs) == 0
      || exists j :: 0 <= j < |qs| && qs[j].status.Some? && qs[j].status.value.lastSuccessTime == MaxSuccess(qs)
  {
    if qs != [] {
      var init := qs[..|qs| - 1];
      MaxSuccessIsMaximum(init);
      assert forall j :: 0 <= j < |init| ==> init[j] == qs[j];
    }
  }

  /**
   * The row an account shows, chosen in priority order: an error, then disabled (nothing
   * enabled and user-facing was recorded), then in progress, then enabled with the last
   * success time when there is one.
   */
  function AccountDisplay(ps: seq<Probe>): (d: RowDisplay)
    ensures d.lastSynced.Some? ==> d.state == SyncEnabled && d.lastSynced.value > 0
  {
    var scanned := ps[..ScanLength(ps)];
    if ScanFailed(ps) then RowDisplay(SyncError, None)
    else if SyncCount(scanned) == 0 then RowDisplay(SyncDisabled, None)
    else if ScanSyncingNow(ps) then RowDisplay(SyncInProgress, None)
    else RowDisplay(SyncEnabled, if MaxSuccess(scanned) > 0 then Some(MaxSuccess(scanned)) else None)
  }

  /** The authority at `k` is failing and no authority before it stops the scan. */
  predicate FailsFirst(ps: seq<Probe>, k: int) {
    0 <= k < |ps| && Failing(ps[k]) && forall j :: 0 <= j < k ==> !Stops(ps[j])
  }

  /** A row shows an error exactly when a failing authority comes before any authority syncing now. */
  lemma ErrorIffFailureFirst(ps: seq<Probe>)
    ensures AccountDisplay(ps).state == SyncError <==> exists k :: FailsFirst(ps, k)
  {
    if exists k :: FailsFirst(ps, k) {
      var k :| FailsFirst(ps, k);
      StopIsFirstStop(ps, k);
    } else {
      assert !FailsFirst(ps, FirstStop(ps));
    }
  }

  /**
   * One step of the scan over an authority that does not fail: the count and the latest
   * success time of the scanned prefix grow by that authority's share.
   */
  lemma ScanStep(ps: seq<Probe>, i: nat)
    requires i < |ps|
    ensures SyncCount(ps[..i + 1]) == SyncCount(ps[..i]) + (if Counted(ps[i]) then 1 else 0)
    ensures MaxSuccess(ps[..i + 1]) ==
      if ps[i].status.Some? && MaxSuccess(ps[..i]) < ps[i].status.value.lastSuccessTime
      then ps[i].status.value.lastSuccessTime else MaxSuccess(ps[..i])
  {
    var prefix := ps[..i + 1];
    assert prefix[..|prefix| - 1] == ps[..i];
    assert prefix[|prefix| - 1] == ps[i];
  }

  /** The scan ends at the first stopping authority: nothing after it changes the row. */
  lemma StopIsFirstStop(ps: seq<Probe>, k: nat)
    requires k < |ps| && Stops(ps[k])
    requires forall j :: 0 <= j < k ==> !Stops(ps[j])
    ensures FirstStop(ps) == k
  {
  }

  /** Authorities after the scan's stop point never affect the row. */
  lemma {:induction false} ScanIgnoresSuffix(ps: seq<Probe>, rest: seq<Probe>)
    requires FirstStop(ps) < |ps|
    ensures AccountDisplay(ps + rest) == AccountDisplay(ps)
  {
    var k := FirstStop(ps);
    var all := ps + rest;
    forall j | 0 <= j < k ensures !Stops(all[j]) {
      assert all[j] == ps[j];
    }
    assert all[k] == ps[k];
    StopIsFirstStop(all, k);
    assert ScanLength(all) == ScanLength(ps);
    assert all[..ScanLength(all)] == ps[..ScanLength(ps)];
  }

  /** The first failing authority, reached before any authority syncing now, makes the row an error. */
  lemma FailureIsError(ps: seq<Probe>, k: nat)
    requires k < |ps| && Failing(ps[k])
    requires forall j :: 0 <= j < k ==> !Stops(ps[j])
    ensures AccountDisplay(ps) == RowDisplay(SyncError, None)
    ensures forall j :: 0 <= j < |ps| && ps[j].activelySyncing ==> j > k
  {
  }

  /** No authorities at all: nothing is counted, so the row shows disabled. */
  lemma NoAuthoritiesIsDisabled()
    ensures AccountDisplay([]) == RowDisplay(SyncDisabled, None)
  {
  }

  /** When sync is enabled for none of the authorities, the row shows disabled whatever else holds. */
  lemma NothingEnabledIsDisabled(ps: seq<Probe>)
    requires forall j :: 0 <= j < |ps| ==> !ps[j].syncEnabled
    ensures AccountDisplay(ps) == RowDisplay(SyncDisabled, None)
  {
    var scanned := ps[..ScanLength(ps)];
    SyncCountZeroIffNoneCounted(scanned);
  }

  /**
   * When no authority fails or is syncing now but none of them is both enabled and
   * user-facing, nothing is counted and the row shows disabled.
   */
  lemma IdleScanWithNothingCountedIsDisabled(ps: seq<Probe>)
    requires forall j :: 0 <= j < |ps| ==> !Stops(ps[j])
    requires forall j :: 0 <= j < |ps| ==> !Counted(ps[j])
    ensures AccountDisplay(ps) == RowDisplay(SyncDisabled, None)
  {
    assert FirstStop(ps) == |ps|;
    assert ps[..ScanLength(ps)] == ps;
    SyncCountZeroIffNoneCounted(ps);
  }

  /**
   * The scan reaches an authority syncing now at `k`: the row is in progress when some
   * enabled user-facing authority was recorded up to and including `k`, and disabled otherwise.
   */
  lemma ActiveAuthorityOutcome(ps: seq<Probe>, k: nat)
    requires k < |ps| && ps[k].activelySyncing
    requires forall j :: 0 <= j < k ==> !Stops(ps[j])
    ensures (exists j :: 0 <= j <= k && Counted(ps[j])) ==> AccountDisplay(ps) == RowDisplay(SyncInProgress, None)
    ensures (forall j :: 0 <= j <= k ==> !Counted(ps[j])) ==> AccountDisplay(ps) == RowDisplay(SyncDisabled, None)
  {
    StopIsFirstStop(ps, k);
    var scanned := ps[..k + 1];
    SyncCountZeroIffNoneCounted(scanned);
    assert forall j :: 0 <= j <= k ==> scanned[j] == ps[j];
  }

  /**
   * When no authority fails or is syncing now, every authority is recorded: the row is
   * enabled if one of them is enabled and user-facing, and shows the latest success time
   * when that is after 0.
   */
  lemma IdleScanIsEnabled(ps: seq<Probe>)
    requires forall j :: 0 <= j < |ps| ==> !Stops(ps[j])
    requires exists j :: 0 <= j < |ps| && Counted(ps[j])
    ensures AccountDisplay(ps) ==
      RowDisplay(SyncEnabled, if MaxSuccess(ps) > 0 then Some(MaxSuccess(ps)) else None)
  {
    assert FirstStop(ps) == |ps|;
    assert ps[..ScanLength(ps)] == ps;
    SyncCountZeroIffNoneCounted(ps);
  }

  /**
   * A failure behind an authority that is syncing now is not shown: with an enabled
   * user-facing authority syncing first, the row is in progress whatever follows.
   */
  lemma SyncingHidesLaterFailure(active: Probe, rest: seq<Probe>)
    requires active.activelySyncing && Counted(active)
    ensures AccountDisplay([active] + rest) == RowDisplay(SyncInProgress, None)
  {
  }
}
