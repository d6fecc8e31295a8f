/**
 * The platform types the accounts screen reads, and the answers of the platform's sync
 * service (ContentResolver), given as plain data.
 */
module AndroidContent {
  import opened Wrappers

  /** An account is identified by its name and its type. */
  datatype Account = Account(name: string, accountType: string)

  /**
   * What the sync service records for one (account, authority) pair. Times are
   * milliseconds since the epoch; 0 means "never". `lastFailureCode` is the failure
   * message read as an integer, 0 when it is not a number.
   */
  datatype SyncStatusInfo = SyncStatusInfo(
    lastSuccessTime: int,
    lastFailureTime: int,
    lastFailureCode: int)

  /** One sync operation that is running right now. */
  datatype SyncInfo = SyncInfo(account: Account, authority: string)

  /**
   * A registered sync adapter: the authority it syncs and whether users see it. Its
   * account type is read only when sync requests are sent, which is not part of this model.
   */
  datatype SyncAdapterType = SyncAdapterType(authority: string, userVisible: bool)

  /** The failure code that means "a sync was already running", which is not a real failure. */
  const SYNC_ERROR_SYNC_ALREADY_IN_PROGRESS: int := 1

  /**
   * The sync service as the screen sees it: each query of the service is a field.
   * `status` answers None where the service answers null. Every query is asked for the
   * user whose accounts the screen shows, except `isSyncPending`, which the screen asks
   * without a user id: that field holds the answer for the user running the screen.
   */
  datatype SyncService = SyncService(
    status: (Account, string) -> Option<SyncStatusInfo>,
    syncAutomatically: (Account, string) -> bool,
    masterSyncAutomatically: bool,
    isSyncable: (Account, string) -> int,
    isSyncPending: (Account, string) -> bool,
    currentSyncs: seq<SyncInfo>,
    syncAdapterTypes: seq<SyncAdapterType>)
}
