# Sync status of the accounts screen

This project models how the Android Settings "manage accounts" screen
(`ManageAccountsSettings`) decides the sync state of each account row, and when it shows
the sync-error banner.

For each account row, the authorities (the data domains an account syncs, such as
contacts or calendar) are scanned in order. For each one the screen asks the platform's sync service:
- for the authority's status (it may be null);
- whether sync is enabled;
- whether the authority is syncing now;
- whether a sync is pending.

The scan counts the enabled, user-facing authorities and keeps the latest success time.
It stops in two places:
- at the first authority that is failing, without recording it;
- right after the first authority that is syncing now, which is recorded.

The row then shows exactly one of four states, in this priority order:
1. error;
2. disabled, when nothing enabled and user-facing was recorded;
3. in progress;
4. enabled, with "last synced" when a success time after 0 was recorded.

The error banner is visible exactly when some account row shows an error.

The modules are:
- `AndroidContent`: the platform types (`Account`, `SyncStatusInfo`, `SyncInfo`,
  `SyncAdapterType`). The answers of the platform's sync service become one
  `SyncService` value, with one field per query.
- `SyncStatusRule`: the rule as pure functions over one `Probe` per authority, together
  with the lemmas about it.
- `Accounts`: the screen's own code.
  - `IsSyncing` is a linear search.
  - `IsSyncEnabled` is a function.
  - `AccountSyncState` is the per-account scan. It is a loop proved equal to
    `AccountDisplay`.
  - The class `ManageAccountsSettings` holds the lazily computed user-facing
    authorities, the rows of the screen and the banner. Its methods
    `TryInitUserFacingSyncAuthorities` and `ShowSyncState` update those fields.

## Model

| member | source | states |
|---|---|---|
| `Accounts.IsSyncing` | src/com/android/settings/accounts/ManageAccountsSettings.java:343-352 | Returns true exactly when some running sync has both an equal account and an equal authority. |
| `Accounts.IsSyncEnabled` | src/com/android/settings/accounts/ManageAccountsSettings.java:354-359 | Sync is never enabled while the master sync switch is off. When enabled, automatic sync is on for the pair and the pair is syncable. |
| `Accounts.MasterSyncOffDisablesAccount` | src/com/android/settings/accounts/ManageAccountsSettings.java:354-359 | With the master sync switch off, every account row shows disabled, whatever its authorities' statuses. |
| `SyncStatusRule.FirstStop` | src/com/android/settings/accounts/ManageAccountsSettings.java:295-310 | The scan ends at the first authority that is failing or syncing now, and at the end of the list when there is none. No earlier authority stops it. |
| `SyncStatusRule.LastSyncFailed` | src/com/android/settings/accounts/ManageAccountsSettings.java:290-294 | An authority's last sync counts as failed only when it has a status, sync is enabled for it, it has a failure time, and the failure code is not "a sync was already running". |
| `SyncStatusRule.Failing` | src/com/android/settings/accounts/ManageAccountsSettings.java:295-296 | A failed authority shows as failing only when it is neither syncing now nor pending. |
| `SyncStatusRule.ScanLength` | src/com/android/settings/accounts/ManageAccountsSettings.java:295-310 | Every recorded authority is free of failure. When the scan stops early, either the next authority is failing or the last recorded one is syncing now. No recorded authority before the last is syncing now. |
| `SyncStatusRule.SyncCount` | src/com/android/settings/accounts/ManageAccountsSettings.java:305-306 | The sync count is between 0 and the number of scanned authorities, so the final branch for a negative count cannot be taken. |
| `SyncStatusRule.SyncCountZeroIffNoneCounted` | src/com/android/settings/accounts/ManageAccountsSettings.java:305-320 | The sync count is 0 exactly when no scanned authority is both enabled and user-facing. |
| `SyncStatusRule.MaxSuccess` | src/com/android/settings/accounts/ManageAccountsSettings.java:281-304 | The recorded success time starts at 0 and never falls below it. |
| `SyncStatusRule.MaxSuccessIsMaximum` | src/com/android/settings/accounts/ManageAccountsSettings.java:281-304 | The recorded success time is the maximum of 0 and every non-null status's last success time among the scanned authorities. |
| `SyncStatusRule.AccountDisplay` | src/com/android/settings/accounts/ManageAccountsSettings.java:324-332 | A "last synced" summary appears only on an enabled row and only with a time after 0. |
| `SyncStatusRule.ErrorIffFailureFirst` | src/com/android/settings/accounts/ManageAccountsSettings.java:290-318 | A row shows an error exactly when a failing authority comes before every authority that is syncing now. |
| `SyncStatusRule.ScanIgnoresSuffix` | src/com/android/settings/accounts/ManageAccountsSettings.java:295-310 | Once the scan has stopped, authorities after the stop point never change the row. |
| `SyncStatusRule.FailureIsError` | src/com/android/settings/accounts/ManageAccountsSettings.java:290-299 | The first failing authority reached makes the row an error with no summary time, and no earlier authority is syncing now. |
| `SyncStatusRule.NoAuthoritiesIsDisabled` | src/com/android/settings/accounts/ManageAccountsSettings.java:285-320 | An account with no authorities shows disabled. |
| `SyncStatusRule.NothingEnabledIsDisabled` | src/com/android/settings/accounts/ManageAccountsSettings.java:288-320 | When sync is enabled for none of the authorities, the row shows disabled, whatever the failure, pending and activity data. |
| `SyncStatusRule.ActiveAuthorityOutcome` | src/com/android/settings/accounts/ManageAccountsSettings.java:305-323 | When the scan stops at an authority that is syncing now, that authority is recorded. The row is in progress if some enabled user-facing authority up to and including that one was counted, and disabled otherwise. |
| `SyncStatusRule.IdleScanIsEnabled` | src/com/android/settings/accounts/ManageAccountsSettings.java:302-332 | Suppose no authority fails or syncs now, and one is enabled and user-facing. Then the row is enabled, and it shows the latest success time when that time is after 0. |
| `SyncStatusRule.IdleScanWithNothingCountedIsDisabled` | src/com/android/settings/accounts/ManageAccountsSettings.java:302-320 | Suppose no authority fails or syncs now, and none is both enabled and user-facing. Then the row shows disabled. |
| `SyncStatusRule.SyncingHidesLaterFailure` | src/com/android/settings/accounts/ManageAccountsSettings.java:307-323 | Take an account whose first authority is enabled, user-facing and syncing now. Its row shows in progress, even when a failing authority follows. |
| `Accounts.ProbeOf` | src/com/android/settings/accounts/ManageAccountsSettings.java:287-296 | An authority is syncing now exactly when a running sync matches it, and user-facing exactly when it is in the user-facing set. With the master switch off, it neither fails nor is counted. |
| `Accounts.ProbesOf` | src/com/android/settings/accounts/ManageAccountsSettings.java:283-289 | A null authority list gives no probes. Otherwise there is one probe per authority, in the list's order. |
| `Accounts.AccountSyncState` | src/com/android/settings/accounts/ManageAccountsSettings.java:278-336 | The per-account scan, with its two early exits, computes exactly `AccountDisplay` of the account's authorities. A null authority list gives the empty scan. The branch for a negative count is proved unreachable. |
| `Accounts.UserVisibleAuthorities` | src/com/android/settings/accounts/ManageAccountsSettings.java:243-250 | An authority is user-facing exactly when some sync adapter with that authority is visible to users. |
| `Accounts.ManageAccountsSettings.TryInitUserFacingSyncAuthorities` | src/com/android/settings/accounts/ManageAccountsSettings.java:237-251 | Once the set is computed, later calls leave it unchanged. The first call sets it to the authorities of the user-visible sync adapters. |
| `Accounts.ManageAccountsSettings.ShowSyncState` | src/com/android/settings/accounts/ManageAccountsSettings.java:260-341 | Every account row is updated with its account's `AccountDisplay`, and the other rows are left as they were. The banner, if there is one, becomes visible exactly when `AnySyncFailed` holds of the updated rows. |
| `Accounts.ManageAccountsSettings.constructor` | src/com/android/settings/accounts/ManageAccountsSettings.java:122-123 | The screen starts with the banner hidden and no user-facing authorities computed. |
| `Accounts.Refreshed` | src/com/android/settings/accounts/ManageAccountsSettings.java:317-336 | A refresh keeps each row's kind, account and authorities. An account row then shows its account's `AccountDisplay`, and any other row is unchanged. |
| `Accounts.AnySyncFailed` | src/com/android/settings/accounts/ManageAccountsSettings.java:267-299 | The failure flag starts false and is set only when some row shows a sync error. |
| `Accounts.AnySyncFailedIffSomeRowFailed` | src/com/android/settings/accounts/ManageAccountsSettings.java:267-299 | The failure flag, accumulated row by row, is true exactly when some row shows a sync error. |
| `Accounts.RefreshedRowShowsError` | src/com/android/settings/accounts/ManageAccountsSettings.java:272-318 | A refreshed row shows an error exactly when it is an account row and a failing authority of its account comes before any authority syncing now. |
| `Accounts.OtherPreferencesIgnored` | src/com/android/settings/accounts/ManageAccountsSettings.java:272-276 | Inserting a row that is not an account row never changes the failure flag. |
| `Accounts.PrepareOptionsMenu` | src/com/android/settings/accounts/ManageAccountsSettings.java:177-182 | Exactly one of "sync now" and "cancel sync" is visible. |
| `Accounts.CancelShownWhileSyncing` | src/com/android/settings/accounts/ManageAccountsSettings.java:179-181 | "Cancel sync" is visible exactly when some authority of some account is syncing now. |

## Notes on behaviour

- A row whose account has an authority syncing now is not always shown as in progress.
  Take an authority that is syncing now but is disabled or not user-facing. If it comes
  first, the scan stops before any enabled authority is counted, and the row shows
  disabled (`ActiveAuthorityOutcome`). Enabled authorities after it are never reached.
- A failure of an authority that comes after one syncing now is not reported: the scan
  has already stopped (`SyncingHidesLaterFailure`).
- Every sync-service query is asked for the user whose accounts the screen shows, except
  `isSyncPending` (`ManageAccountsSettings.java` line 296), which carries no user id and so answers for the user running
  the screen. When the screen shows another user's profile, the pending answer may be
  about the wrong user. The model keeps that answer as the `isSyncPending` field and
  places no constraint on it.
- The value of `SYNC_ERROR_SYNC_ALREADY_IN_PROGRESS` (1) is the platform's constant. It
  is not defined in `ManageAccountsSettings.java`.

## Left out

- Fragment and activity lifecycle (`onCreate`, `onResume`, `onCreateView`, `onPause`,
  `onStop`, the rest of `onActivityCreated`), views and the action bar: UI plumbing
  with no logic of its own.
- Menu construction and dispatch (`onCreateOptionsMenu`, `onOptionsItemSelected`) and
  navigation (`onPreferenceTreeClick`, `startAccountSettings`): framework calls only.
  Of the menu, only the visibility rule is modelled.
- `requestOrCancelSyncForAccounts`: its only effect is sync requests and cancellations
  sent to the platform.
- `showAccountsIfNeeded`, `addAuthenticatorSettings`, `onAuthDescriptionsUpdated`,
  `onAccountsUpdate`: they depend on the account manager, the account restriction helper
  and the preference loader. None of these is part of this model. The screen's rows are
  therefore an input of the constructor.
- `onSyncStateUpdated`: its check for a missing or finishing activity is lifecycle
  plumbing. It then calls `ShowSyncState` and invalidates the options menu, which
  re-applies the visibility rule of `PrepareOptionsMenu`.
- The sync service's queries (`getSyncStatusAsUser`, `getCurrentSyncsAsUser`,
  `getSyncAutomaticallyAsUser`, `getMasterSyncAutomaticallyAsUser`,
  `getIsSyncableAsUser`, `isSyncPending`, `getSyncAdapterTypesAsUser`) are inputs: one
  `SyncService` value. It stands for the displayed user's answers, except
  `isSyncPending`, which holds the answer for the user running the screen.
  The model takes these answers as fixed for one refresh. The source asks the live
  service again for every authority: it reads the master sync switch once per authority,
  for example. `MasterSyncOffDisablesAccount` relies on a single answer.
- The verbose log line for an account with no authorities (`ManageAccountsSettings.java`
  lines 313-315): logging only.
- The account type of a sync adapter: it is read only by `requestOrCancelSyncForAccounts`.
- `SyncStatusInfo.getLastFailureMesgAsInt`: the parsing of the failure message into a
  number is platform code. The status carries the parsed code directly.
- Date formatting and string resources (`formatSyncDate`, `getString`): the row carries
  the raw last-success time instead of the formatted "last synced" text.
- Times are unbounded integers. The Java `long` fields are only compared, never added,
  so 64-bit overflow cannot arise.
- `Accounts.IsSyncEnabled`: the contract states only the necessary conditions. The
  exact conjunction of the three queries is the function's body.
