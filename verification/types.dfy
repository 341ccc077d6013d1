/** The record shapes the queue cleaner works on: its configuration and the
    queue entries the download manager reports. */
module Types {
  import opened Wrappers

  /** The per-reason switches: "remove" enables a stall reason, "block"
      additionally adds the removed release to the blocklist. */
  datatype RuleConfig = RuleConfig(
    removeQualityBlocked: bool,
    blockRemovedQualityReleases: bool,
    removeArchiveBlocked: bool,
    blockRemovedArchiveReleases: bool,
    removeNoFilesReleases: bool,
    blockRemovedNoFilesReleases: bool,
    removeNotAnUpgrade: bool,
    removeSeriesIdMismatch: bool,
    blockRemovedSeriesIdMismatchReleases: bool,
    removeUndeterminedSample: bool,
    blockRemovedUndeterminedSampleReleases: bool)

  /** The single download-manager instance the cleaner is bound to. */
  datatype SonarrSettings = SonarrSettings(host: string, apiKey: string, enabled: bool)

  datatype Config = Config(
    sonarr: SonarrSettings,
    rules: RuleConfig,
    dryRun: bool,
    schedule: string,
    logLevel: string)

  /** One diagnostic block of a queue entry; `messages` may be missing. */
  datatype StatusMessage = StatusMessage(title: Option<string>, messages: Option<seq<string>>)

  /** One row of the download queue. `statusMessages` is optional because the
      cleaner reads it through optional chaining. */
  datatype QueueItem = QueueItem(
    id: int,
    title: string,
    status: string,
    trackedDownloadStatus: string,
    trackedDownloadState: string,
    statusMessages: Option<seq<StatusMessage>>,
    downloadId: Option<string>)
}
