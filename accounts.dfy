/**
 * The accounts screen: one row per account, each showing the sync state of its
 * authorities, and an error banner shown when some account's sync failed.
 */
module Accounts {
  import opened Wrappers
  import opened AndroidContent
  import opened SyncStatusRule

  /** Some sync of `authority` for `account` is running right now. */
  predicate InCurrentSyncs(currentSyncs: seq<SyncInfo>, account: Account, authority: string) {
    exists i :: 0 <= i < |currentSyncs| && currentSyncs[i].account == account && currentSyncs[i].authority == authority
  }

  /** Searches the running syncs for one of `authority` for `account`. */
  method IsSyncing(currentSyncs: seq<SyncInfo>, account: Account, authority: string) returns (syncing: bool)
    ensures syncing <==> InCurrentSyncs(currentSyncs, account, authority)
  {
    var count := |currentSyncs|;
    var i := 0;
    while i < count
      invariant 0 <= i <= count
      invariant forall j :: 0 <= j < i ==> !(currentSyncs[j].account == account && currentSyncs[j].authority == authority)
    {
      var syncInfo := currentSyncs[i];
      if syncInfo.account == account && syncInfo.authority == authority {
        return true;
      }
      i := i + 1;
    }
    return false;
  }

  /**
   * Sync of `authority` for `account` is enabled: automatic sync is on for the pair, the
   * user's master sync switch is on, and the pair is syncable.
   */
  function IsSyncEnabled(svc: SyncService, account: Account, authority: string): (enabled: bool)
    ensures !svc.masterSyncAutomatically ==> !enabled
    ensures enabled ==> svc.syncAutomatically(account, authority) && svc.isSyncable(account, authority) > 0
  {
    svc.syncAutomatically(account, authority)
    && svc.masterSyncAutomatically
    && svc.isSyncable(account, authority) > 0
  }

  /** Everything the scan asks the sync service about one authority of an account. */
  function ProbeOf(svc: SyncService, userFacing: set<string>, account: Account, authority: string): (p: Probe)
    ensures p.activelySyncing <==> InCurrentSyncs(svc.currentSyncs, account, authority)
    ensures p.userFacing <==> authority in userFacing
    ensures !svc.masterSyncAutomatically ==> !Counted(p) && !Failing(p)
  {
    Probe(
      svc.status(account, authority),
      IsSyncEnabled(svc, account, authority),
      InCurrentSyncs(svc.currentSyncs, account, authority),
      svc.isSyncPending(account, authority),
      authority in userFacing)
  }

  /** The probes of an account's authorities, in order; no authorities (null) gives none. */
  function ProbesOf(svc: SyncService, userFacing: set<string>, account: Account, authorities: Option<seq<string>>): (ps: seq<Probe>)
    ensures authorities.None? ==> ps == []
    ensures authorities.Some? ==> |ps| == |authorities.value|
    ensures authorities.Some? ==> forall j :: 0 <= j < |ps| ==> ps[j] == ProbeOf(svc, userFacing, account, authorities.value[j])
  {
    match authorities
    case None => []
    case Some(auths) => seq(|auths|, j requires 0 <= j < |auths| => ProbeOf(svc, userFacing, account, auths[j]))
  }

  /** The user-facing authorities: those of the sync adapters users can see. */
  function UserVisibleAuthorities(adapters: seq<SyncAdapterType>): (authorities: set<string>)
    ensures forall a :: a in authorities <==>
      exists k :: 0 <= k < |adapters| && adapters[k].userVisible && adapters[k].authority == a
  {
    if adapters == [] then {}
    else
      var last := adapters[|adapters| - 1];
      var before := UserVisibleAuthorities(adapters[..|adapters| - 1]);
      if last.userVisible then before + {last.authority} else before
  }

  /**
   * Scans the authorities of one account row and chooses what the row shows, stopping at
   * the first failing authority or right after the first one that is syncing now.
   */
  method AccountSyncState(svc: SyncService, userFacing: set<string>, account: Account, authorities: Option<seq<string>>)
    returns (d: RowDisplay)
    ensures d == AccountDisplay(ProbesOf(svc, userFacing, account, authorities))
  {
    ghost var ps := ProbesOf(svc, userFacing, account, authorities);
    var syncCount: int := 0;
    var lastSuccessTime: int := 0;
    var syncIsFailing := false;
    var syncingNow := false;
    ghost var scanned: nat := 0;
    if authorities.Some? {
      var auths := authorities.value;
      var i := 0;
      while i < |auths|
        invariant 0 <= i <= |auths| && i <= FirstStop(ps)
        invariant syncCount == SyncCount(ps[..i])
        invariant lastSuccessTime == MaxSuccess(ps[..i])
        invariant !syncIsFailing && !syncingNow && scanned == i
      {
        var authority := auths[i];
        var status := svc.status(account, authority);
        var syncEnabled := IsSyncEnabled(svc, account, authority);
        var activelySyncing := IsSyncing(svc.currentSyncs, account, authority);
        ghost var p := Probe(status, syncEnabled, activelySyncing, svc.isSyncPending(account, authority), authority in userFacing);
        assert ps[i] == p;
        var lastSyncFailed := status.Some? && syncEnabled && status.value.lastFailureTime != 0
          && status.value.lastFailureCode != SYNC_ERROR_SYNC_ALREADY_IN_PROGRESS;
        if lastSyncFailed && !activelySyncing && !svc.isSyncPending(account, authority) {
          syncIsFailing := true;
          StopIsFirstStop(ps, i);
          break;
        }
        assert !Failing(p);
        ScanStep(ps, i);
        if status.Some? && lastSuccessTime < status.value.lastSuccessTime {
          lastSuccessTime := status.value.lastSuccessTime;
        }
        syncCount := syncCount + if syncEnabled && authority in userFacing then 1 else 0;
        syncingNow := syncingNow || activelySyncing;
        if syncingNow {
          StopIsFirstStop(ps, i);
          i := i + 1;
          scanned := i;
          break;
        }
        assert !Stops(p) && FirstStop(ps) != i;
        i := i + 1;
        scanned := i;
      }
      assert syncIsFailing ==> ScanFailed(ps) && scanned == FirstStop(ps);
      assert syncingNow ==> ScanSyncingNow(ps) && scanned == FirstStop(ps) + 1;
      assert !syncIsFailing && !syncingNow ==> FirstStop(ps) == |ps| == scanned;
    }
    assert scanned == ScanLength(ps);
    assert syncCount == SyncCount(ps[..ScanLength(ps)]);
    if syncIsFailing {
      d := RowDisplay(SyncError, None);
    } else if syncCount == 0 {
      d := RowDisplay(SyncDisabled, None);
    } else if syncCount > 0 {
      if syncingNow {
        d := RowDisplay(SyncInProgress, None);
      } else {
        d := RowDisplay(SyncEnabled, None);
        if lastSuccessTime > 0 {
          d := RowDisplay(SyncEnabled, Some(lastSuccessTime));
        }
      }
    } else {
      assert false;
    }
  }

  /** A sync disabled by the user's master switch disables every account row. */
  lemma MasterSyncOffDisablesAccount(svc: SyncService, userFacing: set<string>, account: Account, authorities: Option<seq<string>>)
    requires !svc.masterSyncAutomatically
    ensures AccountDisplay(ProbesOf(svc, userFacing, account, authorities)) == RowDisplay(SyncDisabled, None)
  {
    NothingEnabledIsDisabled(ProbesOf(svc, userFacing, account, authorities));
  }

  /** A row of the preference screen: an account row, or any other preference. */
  datatype Preference =
    | AccountPreference(account: Account, authorities: Option<seq<string>>, shown: Option<RowDisplay>)
    | OtherPreference(key: string)

  /** The row after a refresh: an account row shows its account's state, other rows are untouched. */
  function Refreshed(svc: SyncService, userFacing: set<string>, pref: Preference): (r: Preference)
    ensures pref.OtherPreference? ==> r == pref
    ensures pref.AccountPreference? ==> r.AccountPreference? && r.account == pref.account && r.authorities == pref.authorities
    ensures pref.AccountPreference? ==> r.shown == Some(AccountDisplay(ProbesOf(svc, userFacing, pref.account, pref.authorities)))
  {
    match pref
    case AccountPreference(account, authorities, _) =>
      AccountPreference(account, authorities, Some(AccountDisplay(ProbesOf(svc, userFacing, account, authorities))))
    case OtherPreference(_) => pref
  }

  /** The row is an account row showing a sync error. */
  predicate ShowsError(pref: Preference) {
    pref.AccountPreference? && pref.shown.Some? && pref.shown.value.state == SyncError
  }

  /**
   * A refreshed account row shows an error exactly when a failing authority of its
   * account comes before any authority syncing now; other rows never show one.
   */
  lemma RefreshedRowShowsError(svc: SyncService, userFacing: set<string>, pref: Preference)
    ensures ShowsError(Refreshed(svc, userFacing, pref)) <==>
      pref.AccountPreference? && exists k :: FailsFirst(ProbesOf(svc, userFacing, pref.account, pref.authorities), k)
  {
    if pref.AccountPreference? {
      ErrorIffFailureFirst(ProbesOf(svc, userFacing, pref.account, pref.authorities));
    }
  }

  /** The error flag accumulated over the displayed rows, in order. */
  function AnySyncFailed(rows: seq<Preference>): (failed: bool)
    ensures failed ==> exists i :: 0 <= i < |rows| && ShowsError(rows[i])
  {
    if rows == [] then false
    else AnySyncFailed(rows[..|rows| - 1]) || ShowsError(rows[|rows| - 1])
  }

  /** The accumulated flag is set exactly when some row shows a sync error. */
  lemma {:induction false} AnySyncFailedIffSomeRowFailed(rows: seq<Preference>)
    ensures AnySyncFailed(rows) <==> exists i :: 0 <= i < |rows| && ShowsError(rows[i])
  {
    if rows != [] {
      var init := rows[..|rows| - 1];
      AnySyncFailedIffSomeRowFailed(init);
      assert forall i :: 0 <= i < |init| ==> init[i] == rows[i];
    }
  }

  /** Adding one row to the displayed rows adds that row's error to the flag. */
  lemma AnySyncFailedStep(rows: seq<Preference>, i: nat)
    requires i < |rows|
    ensures AnySyncFailed(rows[..i + 1]) == (AnySyncFailed(rows[..i]) || ShowsError(rows[i]))
  {
    var prefix := rows[..i + 1];
    assert prefix[..|prefix| - 1] == rows[..i];
  }

  /** The flag over two runs of rows is set when it is set over either run. */
  lemma {:induction false} AnySyncFailedAppend(first: seq<Preference>, second: seq<Preference>)
    ensures AnySyncFailed(first + second) == (AnySyncFailed(first) || AnySyncFailed(second))
  {
    if second == [] {
      assert first + second == first;
    } else {
      var init := second[..|second| - 1];
      AnySyncFailedAppend(first, init);
      assert (first + second)[..|first + second| - 1] == first + init;
    }
  }

  /** Rows that are not account rows never set the error flag. */
  lemma OtherPreferencesIgnored(before: seq<Preference>, key: string, after: seq<Preference>)
    ensures AnySyncFailed(before + [OtherPreference(key)] + after) == AnySyncFailed(before + after)
  {
    AnySyncFailedAppend(before + [OtherPreference(key)], after);
    AnySyncFailedAppend(before, [OtherPreference(key)]);
    AnySyncFailedAppend(before, after);
    assert AnySyncFailed([OtherPreference(key)]) == false;
  }

  /** Which of the two sync menu items is visible. */
  datatype MenuVisibility = MenuVisibility(syncNowVisible: bool, syncCancelVisible: bool)

  /** "Sync now" is offered while nothing syncs, "cancel sync" while something does. */
  function PrepareOptionsMenu(currentSyncs: seq<SyncInfo>): (m: MenuVisibility)
    ensures m.syncNowVisible != m.syncCancelVisible
  {
    var syncActive := |currentSyncs| != 0;
    MenuVisibility(!syncActive, syncActive)
  }

  /** "Cancel sync" is visible exactly when some authority of some account is syncing now. */
  lemma CancelShownWhileSyncing(currentSyncs: seq<SyncInfo>)
    ensures PrepareOptionsMenu(currentSyncs).syncCancelVisible <==>
      exists account, authority :: InCurrentSyncs(currentSyncs, account, authority)
  {
    if |currentSyncs| != 0 {
      assert InCurrentSyncs(currentSyncs, currentSyncs[0].account, currentSyncs[0].authority);
    }
  }

  /**
   * The screen's state: the authorities counted as user-facing (None until first
   * needed), the rows of the preference screen, and the error banner (None when the
   * screen has no banner view, otherwise whether it is visible).
   */
  class ManageAccountsSettings {
    var userFacingSyncAuthorities: Option<set<string>>
    var screen: seq<Preference>
    var errorInfoView: Option<bool>

    /** A screen holding `rows`, with the banner hidden if there is one. */
    constructor (rows: seq<Preference>, hasErrorInfoView: bool)
      ensures userFacingSyncAuthorities == None && screen == rows
      ensures errorInfoView == (if hasErrorInfoView then Some(false) else None)
    {
      userFacingSyncAuthorities := None;
      screen := rows;
      errorInfoView := if hasErrorInfoView then Some(false) else None;
    }

    /** Computes the user-facing authorities the first time only. */
    method TryInitUserFacingSyncAuthorities(svc: SyncService)
      modifies this`userFacingSyncAuthorities
      ensures old(userFacingSyncAuthorities).Some? ==> userFacingSyncAuthorities == old(userFacingSyncAuthorities)
      ensures old(userFacingSyncAuthorities).None? ==>
        userFacingSyncAuthorities == Some(UserVisibleAuthorities(svc.syncAdapterTypes))
    {
      if userFacingSyncAuthorities.Some? {
        return;
      }
      userFacingSyncAuthorities := Some({});
      var syncAdapters := svc.syncAdapterTypes;
      var k, n := 0, |syncAdapters|;
      while k < n
        invariant 0 <= k <= n
        invariant userFacingSyncAuthorities == Some(UserVisibleAuthorities(syncAdapters[..k]))
      {
        assert syncAdapters[..k + 1][..k] == syncAdapters[..k];
        var sa := syncAdapters[k];
        if sa.userVisible {
          userFacingSyncAuthorities := Some(userFacingSyncAuthorities.value + {sa.authority});
        }
        k := k + 1;
      }
      assert syncAdapters[..n] == syncAdapters;
    }

    /**
     * Refreshes every account row with its account's sync state, and shows the error
     * banner exactly when some account's sync failed.
     */
    method ShowSyncState(svc: SyncService)
      modifies this
      ensures userFacingSyncAuthorities.Some?
      ensures old(userFacingSyncAuthorities).Some? ==> userFacingSyncAuthorities == old(userFacingSyncAuthorities)
      ensures old(userFacingSyncAuthorities).None? ==>
        userFacingSyncAuthorities == Some(UserVisibleAuthorities(svc.syncAdapterTypes))
      ensures |screen| == |old(screen)|
      ensures forall i :: 0 <= i < |screen| ==>
        screen[i] == Refreshed(svc, userFacingSyncAuthorities.value, old(screen)[i])
      ensures errorInfoView == if old(errorInfoView).None? then None else Some(AnySyncFailed(screen))
    {
      TryInitUserFacingSyncAuthorities(svc);
      var userFacing := userFacingSyncAuthorities.value;
      var anySyncFailed := false;
      ghost var rows := screen;
      assert rows == old(screen);
      var prefCount := |screen|;
      for i := 0 to prefCount
        invariant userFacingSyncAuthorities == Some(userFacing) && errorInfoView == old(errorInfoView)
        invariant |screen| == prefCount
        invariant forall j :: 0 <= j < i ==> screen[j] == Refreshed(svc, userFacing, rows[j])
        invariant forall j :: i <= j < prefCount ==> screen[j] == rows[j]
        invariant anySyncFailed == AnySyncFailed(screen[..i])
      {
        var pref := screen[i];
        ghost var done := screen[..i];
        if pref.AccountPreference? {
          var d := AccountSyncState(svc, userFacing, pref.account, pref.authorities);
          if d.state == SyncError {
            anySyncFailed := true;
          }
          screen := screen[i := pref.(shown := Some(d))];
        }
        assert screen[i] == Refreshed(svc, userFacing, rows[i]);
        assert screen[..i] == done;
        AnySyncFailedStep(screen, i);
      }
      assert screen[..prefCount] == screen;
      if errorInfoView.Some? {
        errorInfoView := Some(anySyncFailed);
      }
    }
  }
}
