/** The queue cleaner: the predicate that picks stuck queue entries, the
    choice between removing and blocklisting one, and one cleaning pass over a
    fetched queue, rendered as the sequence of download-manager calls it makes. */
module Cleaner {
  import opened Wrappers
  import opened Strings
  import opened Types

  /** Diagnostic text of an entry whose file is not an upgrade of the one on disk. */
  const QualityText := "upgrade for existing episode"
  /** Diagnostic text of an entry whose payload is a compressed archive. */
  const ArchiveText := "archive file"

  /** A call on the download manager's queue API. */
  datatype Call = GetQueue | Remove(id: int) | Block(id: int)

  /** The call mutates the queue entry with this id. */
  predicate Targets(c: Call, id: int) {
    c == Remove(id) || c == Block(id)
  }

  /** A call together with whether the download manager answered it normally. */
  datatype Attempt = Attempt(call: Call, ok: bool)

  /** The download manager as the cleaner sees it: the queue it returns (None
      when the fetch fails) and which mutating calls succeed. */
  datatype Gateway = Gateway(queue: Option<seq<QueueItem>>, accepts: Call -> bool)

  /** Some message of the block contains `text` (case-sensitive). */
  ghost predicate Mentions(sm: StatusMessage, text: string) {
    sm.messages.Some? && exists j :: 0 <= j < |sm.messages.value| && Contains(sm.messages.value[j], text)
  }

  /** Some message of some block of the entry contains `text`. */
  ghost predicate ItemMentions(item: QueueItem, text: string) {
    item.statusMessages.Some?
    && exists i :: 0 <= i < |item.statusMessages.value| && Mentions(item.statusMessages.value[i], text)
  }

  /** A block that an enabled rule recognises. */
  ghost predicate RuleHit(rules: RuleConfig, sm: StatusMessage) {
    || (rules.removeQualityBlocked && Mentions(sm, QualityText))
    || (rules.removeArchiveBlocked && Mentions(sm, ArchiveText))
  }

  /** The state filters an entry must pass before its messages are read:
      completed, in warning, waiting to import, with at least one block. */
  predicate Stalled(item: QueueItem) {
    && item.status == "completed"
    && item.trackedDownloadStatus == "warning"
    && item.trackedDownloadState == "importPending"
    && item.statusMessages.Some?
    && |item.statusMessages.value| > 0
  }

  /** Some message of the list contains `text`. */
  function SomeIncludes(messages: seq<string>, text: string): (r: bool)
    ensures r <==> exists j :: 0 <= j < |messages| && Contains(messages[j], text)
  {
    if messages == [] then false
    else Includes(messages[0], text) || SomeIncludes(messages[1..], text)
  }

  /** Some message of the block contains `text`; a block without a message
      list mentions nothing. */
  function MessagesInclude(sm: StatusMessage, text: string): (r: bool)
    ensures r <==> Mentions(sm, text)
  {
    sm.messages.Some? && SomeIncludes(sm.messages.value, text)
  }

  /** Some block of the list has a message containing `text`. */
  function SomeBlockIncludes(blocks: seq<StatusMessage>, text: string): (r: bool)
    ensures r <==> exists i :: 0 <= i < |blocks| && Mentions(blocks[i], text)
  {
    if blocks == [] then false
    else MessagesInclude(blocks[0], text) || SomeBlockIncludes(blocks[1..], text)
  }

  /** The per-block test of the selection scan: a quality issue under an
      enabled quality rule, or an archive issue under an enabled archive rule. */
  function BlockFlagged(rules: RuleConfig, sm: StatusMessage): (r: bool)
    ensures r <==> RuleHit(rules, sm)
  {
    var hasQualityIssue := rules.removeQualityBlocked && MessagesInclude(sm, QualityText);
    var hasArchiveIssue := rules.removeArchiveBlocked && MessagesInclude(sm, ArchiveText);
    hasQualityIssue || hasArchiveIssue
  }

  function SomeBlockFlagged(rules: RuleConfig, blocks: seq<StatusMessage>): (r: bool)
    ensures r <==> exists i :: 0 <= i < |blocks| && RuleHit(rules, blocks[i])
  {
    if blocks == [] then false
    else BlockFlagged(rules, blocks[0]) || SomeBlockFlagged(rules, blocks[1..])
  }

  /** Whether the cleaner acts on an entry. Each state filter rejects on its
      own; past them, the entry is picked exactly when an enabled rule
      recognises one of its blocks. */
  function ShouldRemoveItem(rules: RuleConfig, item: QueueItem): (r: bool)
    ensures item.status != "completed" ==> !r
    ensures item.trackedDownloadStatus != "warning" ==> !r
    ensures item.trackedDownloadState != "importPending" ==> !r
    ensures item.statusMessages.None? || item.statusMessages.value == [] ==> !r
    ensures !rules.removeQualityBlocked && !rules.removeArchiveBlocked ==> !r
    ensures r ==>
      || (rules.removeQualityBlocked && ItemMentions(item, QualityText))
      || (rules.removeArchiveBlocked && ItemMentions(item, ArchiveText))
    ensures Stalled(item) ==>
      (r <==> exists i :: 0 <= i < |item.statusMessages.value| && RuleHit(rules, item.statusMessages.value[i]))
  {
    if item.status != "completed" then false
    else if item.trackedDownloadStatus != "warning" then false
    else if item.trackedDownloadState != "importPending" then false
    else if item.statusMessages.None? || |item.statusMessages.value| == 0 then false
    else SomeBlockFlagged(rules, item.statusMessages.value)
  }

  /** Acts on one picked entry: exactly one mutating call, on the entry's own
      id. It blocklists when the chosen flag is set, where the archive flag is
      chosen whenever any message mentions an archive file (whether or not the
      archive rule is enabled) and the quality flag otherwise. A failed call is
      caught: the result records it and is never an error. */
  function ProcessItem(rules: RuleConfig, item: QueueItem, accepts: Call -> bool): (a: Attempt)
    ensures a.call == Remove(item.id) || a.call == Block(item.id)
    ensures a.call.Block? <==>
      if ItemMentions(item, ArchiveText) then rules.blockRemovedArchiveReleases
      else rules.blockRemovedQualityReleases
    ensures a.ok == accepts(a.call)
  {
    var isArchiveIssue := item.statusMessages.Some? && SomeBlockIncludes(item.statusMessages.value, ArchiveText);
    var shouldBlock := if isArchiveIssue then rules.blockRemovedArchiveReleases else rules.blockRemovedQualityReleases;
    var call := if shouldBlock then Block(item.id) else Remove(item.id);
    Attempt(call, accepts(call))
  }

  /** The queue filtered by the removal decision: the picked entries, in
      queue order. */
  function Select(rules: RuleConfig, queue: seq<QueueItem>): (picked: seq<QueueItem>)
    ensures |picked| <= |queue|
    ensures forall k :: 0 <= k < |picked| ==> ShouldRemoveItem(rules, picked[k]) && picked[k] in queue
    ensures forall i :: 0 <= i < |queue| && ShouldRemoveItem(rules, queue[i]) ==> queue[i] in picked
  {
    if queue == [] then []
    else
      var rest := Select(rules, queue[1..]);
      if ShouldRemoveItem(rules, queue[0]) then [queue[0]] + rest else rest
  }

  /** The loop over the picked entries: one attempt per entry, in order;
      a failed attempt does not stop the loop. */
  function ProcessAll(rules: RuleConfig, items: seq<QueueItem>, accepts: Call -> bool): (trace: seq<Attempt>)
    ensures |trace| == |items|
    ensures forall k :: 0 <= k < |items| ==> trace[k] == ProcessItem(rules, items[k], accepts)
  {
    if items == [] then [] else [ProcessItem(rules, items[0], accepts)] + ProcessAll(rules, items[1..], accepts)
  }

  /** One cleaning pass. A disabled instance makes no call at all. Otherwise
      the queue is fetched once; a failed fetch ends the pass with no other
      call; a fetched queue yields one mutating call per picked entry, in
      queue order, after the fetch. */
  function CleanQueue(config: Config, gateway: Gateway): (trace: seq<Attempt>)
    ensures !config.sonarr.enabled <==> trace == []
    ensures config.sonarr.enabled ==> trace[0] == Attempt(GetQueue, gateway.queue.Some?)
    ensures forall k :: 1 <= k < |trace| ==> !trace[k].call.GetQueue?
    ensures gateway.queue.None? ==> |trace| <= 1
    ensures config.sonarr.enabled && gateway.queue.Some? ==>
      var picked := Select(config.rules, gateway.queue.value);
      && |trace| == 1 + |picked|
      && forall k :: 0 <= k < |picked| ==> trace[1..][k] == ProcessItem(config.rules, picked[k], gateway.accepts)
  {
    if !config.sonarr.enabled then []
    else
      match gateway.queue
      case None => [Attempt(GetQueue, false)]
      case Some(queue) =>
        var itemsToProcess := Select(config.rules, queue);
        [Attempt(GetQueue, true)] + ProcessAll(config.rules, itemsToProcess, gateway.accepts)
  }

  /** The calls of a trace, without their outcomes. */
  function Calls(trace: seq<Attempt>): (calls: seq<Call>)
    ensures |calls| == |trace|
    ensures forall k :: 0 <= k < |trace| ==> calls[k] == trace[k].call
  {
    if trace == [] then [] else [trace[0].call] + Calls(trace[1..])
  }
}
