/** Properties of the queue cleaner that relate several calls, plus the
    scenarios its unit tests exercise. */
module CleanerProperties {
  import opened Wrappers
  import opened Strings
  import opened Types
  import opened Cleaner

  /** Queue ids are unique within one fetched queue. */
  predicate DistinctIds(queue: seq<QueueItem>) {
    forall i, j :: 0 <= i < j < |queue| ==> queue[i].id != queue[j].id
  }

  /** Selection keeps queue order: filtering a concatenation concatenates the
      filtered parts, so the picked entries form an ordered subsequence. */
  lemma {:induction false} SelectAppend(rules: RuleConfig, a: seq<QueueItem>, b: seq<QueueItem>)
    ensures Select(rules, a + b) == Select(rules, a) + Select(rules, b)
  {
    if a == [] {
      assert a + b == b;
    } else {
      assert (a + b)[1..] == a[1..] + b;
      SelectAppend(rules, a[1..], b);
    }
  }

  /** A single entry is kept exactly when the predicate picks it. */
  lemma SelectSingle(rules: RuleConfig, item: QueueItem)
    ensures Select(rules, [item]) == if ShouldRemoveItem(rules, item) then [item] else []
  {
    assert [item][1..] == [];
  }

  lemma DistinctIdsTail(queue: seq<QueueItem>)
    requires queue != [] && DistinctIds(queue)
    ensures DistinctIds(queue[1..])
    ensures forall k :: 1 <= k < |queue| ==> queue[k].id != queue[0].id
  {
    var rest := queue[1..];
    forall i, j | 0 <= i < j < |rest|
      ensures rest[i].id != rest[j].id
    {
      assert rest[i] == queue[i + 1] && rest[j] == queue[j + 1];
    }
  }

  /** Selection keeps a queue's ids distinct. */
  lemma {:induction false} SelectKeepsDistinctIds(rules: RuleConfig, queue: seq<QueueItem>)
    requires DistinctIds(queue)
    ensures DistinctIds(Select(rules, queue))
  {
    if queue != [] {
      var rest := queue[1..];
      DistinctIdsTail(queue);
      SelectKeepsDistinctIds(rules, rest);
      IdsOfSelected(rules, rest, queue[0].id);
      DistinctIdsCons(queue[0], Select(rules, rest));
    }
  }

  lemma DistinctIdsCons(item: QueueItem, rest: seq<QueueItem>)
    requires DistinctIds(rest) && forall k :: 0 <= k < |rest| ==> rest[k].id != item.id
    ensures DistinctIds([item] + rest)
  {
    var s := [item] + rest;
    forall i, j | 0 <= i < j < |s|
      ensures s[i].id != s[j].id
    {
      assert s[j] == rest[j - 1];
      if i > 0 {
        assert s[i] == rest[i - 1];
      }
    }
  }

  /** An id absent from a queue is absent from its selection. */
  lemma IdsOfSelected(rules: RuleConfig, queue: seq<QueueItem>, id: int)
    requires forall k :: 0 <= k < |queue| ==> queue[k].id != id
    ensures forall k :: 0 <= k < |Select(rules, queue)| ==> Select(rules, queue)[k].id != id
  {
  }

  /** A failing remove or block call never changes what the pass does next:
      with the same queue, the calls made are the same whatever the download
      manager answers. */
  lemma FailureIsolation(config: Config, queue: Option<seq<QueueItem>>, f: Call -> bool, g: Call -> bool)
    ensures Calls(CleanQueue(config, Gateway(queue, f))) == Calls(CleanQueue(config, Gateway(queue, g)))
  {
    var s := CleanQueue(config, Gateway(queue, f));
    var t := CleanQueue(config, Gateway(queue, g));
    assert |s| == |t|;
    forall k | 0 <= k < |s|
      ensures s[k].call == t[k].call
    {
    }
  }

  /** After a successful fetch, the calls after the fetch follow the picked
      entries one to one. */
  lemma TraceFollowsSelection(config: Config, queue: seq<QueueItem>, accepts: Call -> bool)
    requires config.sonarr.enabled
    ensures var mutations := CleanQueue(config, Gateway(Some(queue), accepts))[1..];
      var picked := Select(config.rules, queue);
      && |mutations| == |picked|
      && forall k :: 0 <= k < |picked| ==> Targets(mutations[k].call, picked[k].id)
  {
  }

  /** An entry the predicate rejects gets no call. */
  lemma UnselectedNeverCalled(config: Config, queue: seq<QueueItem>, accepts: Call -> bool, i: nat)
    requires DistinctIds(queue)
    requires i < |queue| && !ShouldRemoveItem(config.rules, queue[i])
    ensures forall k :: 0 <= k < |CleanQueue(config, Gateway(Some(queue), accepts))| ==>
      !Targets(CleanQueue(config, Gateway(Some(queue), accepts))[k].call, queue[i].id)
  {
    if config.sonarr.enabled {
      var trace := CleanQueue(config, Gateway(Some(queue), accepts));
      TraceFollowsSelection(config, queue, accepts);
      PickedAvoidsId(config.rules, queue, i);
      forall k | 1 <= k < |trace|
        ensures !Targets(trace[k].call, queue[i].id)
      {
        assert trace[k] == trace[1..][k - 1];
      }
    }
  }

  /** With distinct ids, no picked entry shares its id with a rejected one. */
  lemma PickedAvoidsId(rules: RuleConfig, queue: seq<QueueItem>, i: nat)
    requires DistinctIds(queue)
    requires i < |queue| && !ShouldRemoveItem(rules, queue[i])
    ensures forall k :: 0 <= k < |Select(rules, queue)| ==> Select(rules, queue)[k].id != queue[i].id
  {
    var picked := Select(rules, queue);
    forall k | 0 <= k < |picked|
      ensures picked[k].id != queue[i].id
    {
      var j :| 0 <= j < |queue| && queue[j] == picked[k];
      assert j != i;
    }
  }

  /** Exactly one of the calls mutates the entry with this id. */
  ghost predicate CalledOnce(calls: seq<Call>, id: int) {
    && (exists k :: 0 <= k < |calls| && Targets(calls[k], id))
    && (forall k, l :: 0 <= k < |calls| && 0 <= l < |calls| && Targets(calls[k], id) && Targets(calls[l], id) ==> k == l)
  }

  /** Calls that follow a list with distinct ids one to one target each
      member's id exactly once. */
  lemma TargetsExactlyOnce(calls: seq<Call>, items: seq<QueueItem>, item: QueueItem)
    requires |calls| == |items| && DistinctIds(items) && item in items
    requires forall k :: 0 <= k < |items| ==> Targets(calls[k], items[k].id)
    ensures CalledOnce(calls, item.id)
  {
    var j :| 0 <= j < |items| && items[j] == item;
    assert Targets(calls[j], item.id);
    forall k, l | 0 <= k < |calls| && 0 <= l < |calls| && Targets(calls[k], item.id) && Targets(calls[l], item.id)
      ensures k == l
    {
      assert items[k].id == item.id && items[l].id == item.id;
    }
  }

  /** A picked entry gets exactly one of the calls that follow the fetch. */
  lemma SelectedCalledOnce(config: Config, queue: seq<QueueItem>, accepts: Call -> bool, i: nat)
    requires config.sonarr.enabled
    requires DistinctIds(queue)
    requires i < |queue| && ShouldRemoveItem(config.rules, queue[i])
    ensures CalledOnce(Calls(CleanQueue(config, Gateway(Some(queue), accepts))[1..]), queue[i].id)
  {
    var mutations := Calls(CleanQueue(config, Gateway(Some(queue), accepts))[1..]);
    var picked := Select(config.rules, queue);
    TraceFollowsSelection(config, queue, accepts);
    SelectKeepsDistinctIds(config.rules, queue);
    TargetsExactlyOnce(mutations, picked, queue[i]);
  }

  /** The block decision follows any archive-file message even when only the
      quality rule picked the entry: with the archive rule off, an entry whose
      messages mention both issues is blocklisted by the archive flag. */
  lemma ArchiveMessageChoosesArchiveFlag(rules: RuleConfig, item: QueueItem, accepts: Call -> bool)
    requires !rules.removeArchiveBlocked
    requires ShouldRemoveItem(rules, item) && ItemMentions(item, ArchiveText)
    ensures ItemMentions(item, QualityText)
    ensures ProcessItem(rules, item, accepts).call
         == if rules.blockRemovedArchiveReleases then Block(item.id) else Remove(item.id)
  {
  }

  // The queue entries of the unit tests.

  function TestItem(messages: seq<string>): QueueItem {
    QueueItem(123, "Test.Show.S01E01", "completed", "warning", "importPending",
              Some([StatusMessage(None, Some(messages))]), None)
  }

  const QualityMessage := "upgrade for existing episode"
  const ArchivePrefix := "Found "
  const ArchiveSuffix := ", might need to be extracted"
  const ArchiveMessage := ArchivePrefix + ArchiveText + ArchiveSuffix

  function QualityBlockedItem(): QueueItem { TestItem([QualityMessage]) }
  function ArchiveBlockedItem(): QueueItem { TestItem([ArchiveMessage]) }

  function RulesWith(quality: bool, blockQuality: bool, archive: bool, blockArchive: bool): RuleConfig {
    RuleConfig(quality, blockQuality, archive, blockArchive, false, false, false, false, false, false, false)
  }

  function ConfigWith(rules: RuleConfig): Config {
    Config(SonarrSettings("http://localhost:8989", "test-api-key", true), rules, false, "*/5 * * * *", "info")
  }

  /** An entry with one block of one message mentions what that message
      contains. */
  lemma OneMessageMentions(item: QueueItem, text: string)
    requires item.statusMessages.Some? && |item.statusMessages.value| == 1
    requires item.statusMessages.value[0].messages.Some? && |item.statusMessages.value[0].messages.value| == 1
    ensures ItemMentions(item, text) <==> Contains(item.statusMessages.value[0].messages.value[0], text)
  {
    var sm := item.statusMessages.value[0];
    if Contains(sm.messages.value[0], text) {
      assert Mentions(sm, text);
    }
  }

  lemma QualityMessageContents()
    ensures Contains(QualityMessage, QualityText) && !Contains(QualityMessage, ArchiveText)
  {
    assert OccursAt(QualityMessage, QualityText, 0);
    MissingCharNotContained(QualityMessage, ArchiveText, 'c');
  }

  lemma ArchiveMessageContains()
    ensures Contains(ArchiveMessage, ArchiveText)
  {
    assert ArchiveMessage[|ArchivePrefix|..|ArchivePrefix| + |ArchiveText|] == ArchiveText;
    assert OccursAt(ArchiveMessage, ArchiveText, |ArchivePrefix|);
  }

  lemma ArchiveMessageLacksQuality()
    ensures !Contains(ArchiveMessage, QualityText)
  {
    assert 'p' !in ArchivePrefix && 'p' !in ArchiveText && 'p' !in ArchiveSuffix;
    MissingCharNotContained(ArchiveMessage, QualityText, 'p');
  }

  lemma QualityItemMentions()
    ensures ItemMentions(QualityBlockedItem(), QualityText)
    ensures !ItemMentions(QualityBlockedItem(), ArchiveText)
  {
    var item := QualityBlockedItem();
    OneMessageMentions(item, QualityText);
    OneMessageMentions(item, ArchiveText);
    QualityMessageContents();
  }

  lemma ArchiveItemMentions()
    ensures ItemMentions(ArchiveBlockedItem(), ArchiveText)
    ensures !ItemMentions(ArchiveBlockedItem(), QualityText)
  {
    var item := ArchiveBlockedItem();
    OneMessageMentions(item, ArchiveText);
    OneMessageMentions(item, QualityText);
    ArchiveMessageContains();
    ArchiveMessageLacksQuality();
  }

  /** A quality-blocked entry is picked exactly when the quality rule is on,
      and an archive-blocked entry exactly when the archive rule is on. */
  lemma TestItemsPicked(rules: RuleConfig)
    ensures ShouldRemoveItem(rules, QualityBlockedItem()) == rules.removeQualityBlocked
    ensures ShouldRemoveItem(rules, ArchiveBlockedItem()) == rules.removeArchiveBlocked
  {
    QualityItemMentions();
    ArchiveItemMentions();
    var q := QualityBlockedItem().statusMessages.value;
    var a := ArchiveBlockedItem().statusMessages.value;
    assert RuleHit(rules, q[0]) == rules.removeQualityBlocked;
    assert RuleHit(rules, a[0]) == rules.removeArchiveBlocked;
  }

  /** The end-to-end scenario: a quality-blocked entry with id 123 is removed
      once, and blocklisted instead exactly when the quality block flag is on. */
  lemma QualityScenario(blockQuality: bool, accepts: Call -> bool)
    ensures Calls(CleanQueue(ConfigWith(RulesWith(true, blockQuality, false, false)),
                             Gateway(Some([QualityBlockedItem()]), accepts)))
         == [GetQueue, if blockQuality then Block(123) else Remove(123)]
  {
    var rules := RulesWith(true, blockQuality, false, false);
    TestItemsPicked(rules);
    QualityItemMentions();
    SelectSingle(rules, QualityBlockedItem());
  }

  /** An archive-blocked entry is blocklisted exactly when the archive block
      flag is on. */
  lemma ArchiveScenario(blockArchive: bool, accepts: Call -> bool)
    ensures Calls(CleanQueue(ConfigWith(RulesWith(false, false, true, blockArchive)),
                             Gateway(Some([ArchiveBlockedItem()]), accepts)))
         == [GetQueue, if blockArchive then Block(123) else Remove(123)]
  {
    var rules := RulesWith(false, false, true, blockArchive);
    TestItemsPicked(rules);
    ArchiveItemMentions();
    SelectSingle(rules, ArchiveBlockedItem());
  }

  /** With both test entries queued, each is picked exactly when its rule is on. */
  lemma TestQueuePicked(rules: RuleConfig)
    ensures Select(rules, [QualityBlockedItem(), ArchiveBlockedItem()])
         == (if rules.removeQualityBlocked then [QualityBlockedItem()] else [])
          + (if rules.removeArchiveBlocked then [ArchiveBlockedItem()] else [])
  {
    var q, a := QualityBlockedItem(), ArchiveBlockedItem();
    TestItemsPicked(rules);
    SelectAppend(rules, [q], [a]);
    assert [q, a] == [q] + [a];
    SelectSingle(rules, q);
    SelectSingle(rules, a);
  }

  /** The rule combinations: with both block flags off, a queue holding one
      quality-blocked and one archive-blocked entry gets one removal per
      enabled rule, in queue order. */
  lemma RuleCombinations(quality: bool, archive: bool, accepts: Call -> bool)
    ensures Calls(CleanQueue(ConfigWith(RulesWith(quality, false, archive, false)),
                             Gateway(Some([QualityBlockedItem(), ArchiveBlockedItem()]), accepts)))
         == [GetQueue] + (if quality then [Remove(123)] else []) + (if archive then [Remove(123)] else [])
  {
    var rules := RulesWith(quality, false, archive, false);
    TestQueuePicked(rules);
    PairOnlyRemoved(ConfigWith(rules), QualityBlockedItem(), ArchiveBlockedItem(), quality, archive, accepts);
  }

  /** The test queue with a third entry that is not completed, such as one
      still downloading: that entry changes nothing, and each blocked entry
      is removed exactly when its rule is on (with both on, two removals). */
  lemma AllMatchingRemoved(quality: bool, archive: bool, accepts: Call -> bool, other: QueueItem)
    requires other.status != "completed"
    ensures Calls(CleanQueue(ConfigWith(RulesWith(quality, false, archive, false)),
                             Gateway(Some([QualityBlockedItem(), ArchiveBlockedItem(), other]), accepts)))
         == [GetQueue] + (if quality then [Remove(123)] else []) + (if archive then [Remove(123)] else [])
  {
    var q, a := QualityBlockedItem(), ArchiveBlockedItem();
    RuleCombinations(quality, archive, accepts);
    RejectedEntryAppended(ConfigWith(RulesWith(quality, false, archive, false)), [q, a], other, accepts,
                          [GetQueue] + (if quality then [Remove(123)] else []) + (if archive then [Remove(123)] else []));
    assert [q, a] + [other] == [q, a, other];
  }

  /** Calls of a pass, kept when an entry the predicate rejects is appended. */
  lemma RejectedEntryAppended(config: Config, queue: seq<QueueItem>, item: QueueItem, accepts: Call -> bool, calls: seq<Call>)
    requires !ShouldRemoveItem(config.rules, item)
    requires Calls(CleanQueue(config, Gateway(Some(queue), accepts))) == calls
    ensures Calls(CleanQueue(config, Gateway(Some(queue + [item]), accepts))) == calls
  {
    RejectedEntryAdded(config, queue, item, accepts);
  }

  /** Appending an entry the predicate rejects does not change the pass. */
  lemma RejectedEntryAdded(config: Config, queue: seq<QueueItem>, item: QueueItem, accepts: Call -> bool)
    requires !ShouldRemoveItem(config.rules, item)
    ensures CleanQueue(config, Gateway(Some(queue + [item]), accepts)) == CleanQueue(config, Gateway(Some(queue), accepts))
  {
    SelectAppend(config.rules, queue, [item]);
    SelectSingle(config.rules, item);
    assert Select(config.rules, queue) + [] == Select(config.rules, queue);
  }

  /** Two entries sharing an id, of which the predicate picks some, are
      removed in queue order when both block flags are off. */
  lemma PairOnlyRemoved(config: Config, x: QueueItem, y: QueueItem, first: bool, second: bool, accepts: Call -> bool)
    requires config.sonarr.enabled
    requires !config.rules.blockRemovedQualityReleases && !config.rules.blockRemovedArchiveReleases
    requires x.id == y.id
    requires Select(config.rules, [x, y]) == (if first then [x] else []) + (if second then [y] else [])
    ensures Calls(CleanQueue(config, Gateway(Some([x, y]), accepts)))
         == [GetQueue] + (if first then [Remove(x.id)] else []) + (if second then [Remove(x.id)] else [])
  {
    NoBlockFlagsOnlyRemoves(config, [x, y], accepts);
    RemovalsOfPair(x, y, first, second);
  }

  /** The removal calls for the picked entries, in order. The ensures repeat
      the body so that proofs need not unfold it. */
  function Removals(picked: seq<QueueItem>): (calls: seq<Call>)
    ensures |calls| == |picked|
    ensures forall k :: 0 <= k < |picked| ==> calls[k] == Remove(picked[k].id)
  {
    seq(|picked|, k requires 0 <= k < |picked| => Remove(picked[k].id))
  }

  /** Removals of at most two entries that share an id. */
  lemma RemovalsOfPair(x: QueueItem, y: QueueItem, first: bool, second: bool)
    requires x.id == y.id
    ensures Removals((if first then [x] else []) + (if second then [y] else []))
         == (if first then [Remove(x.id)] else []) + (if second then [Remove(x.id)] else [])
  {
    var picked := (if first then [x] else []) + (if second then [y] else []);
    var expected := (if first then [Remove(x.id)] else []) + (if second then [Remove(x.id)] else []);
    assert forall k :: 0 <= k < |picked| ==> picked[k].id == x.id;
    assert forall k :: 0 <= k < |picked| ==> Removals(picked)[k] == expected[k];
  }

  /** With both block flags off, the pass only removes: after the fetch come
      plain removals of the picked entries, in queue order. */
  lemma NoBlockFlagsOnlyRemoves(config: Config, queue: seq<QueueItem>, accepts: Call -> bool)
    requires config.sonarr.enabled
    requires !config.rules.blockRemovedQualityReleases && !config.rules.blockRemovedArchiveReleases
    ensures Calls(CleanQueue(config, Gateway(Some(queue), accepts))) == [GetQueue] + Removals(Select(config.rules, queue))
  {
    var calls := Calls(CleanQueue(config, Gateway(Some(queue), accepts)));
    var expected := [GetQueue] + Removals(Select(config.rules, queue));
    CallsAfterFetch(config, queue, accepts);
    assert forall k :: 0 <= k < |calls| ==> calls[k] == expected[k];
  }

  /** Each call after the fetch is the plain removal of the matching picked
      entry. */
  lemma CallsAfterFetch(config: Config, queue: seq<QueueItem>, accepts: Call -> bool)
    requires config.sonarr.enabled
    requires !config.rules.blockRemovedQualityReleases && !config.rules.blockRemovedArchiveReleases
    ensures var calls := Calls(CleanQueue(config, Gateway(Some(queue), accepts)));
      var picked := Select(config.rules, queue);
      && |calls| == 1 + |picked| && calls[0] == GetQueue
      && forall k :: 1 <= k < |calls| ==> calls[k] == Remove(picked[k - 1].id)
  {
    var trace := CleanQueue(config, Gateway(Some(queue), accepts));
    var picked := Select(config.rules, queue);
    PlainRemovals(config.rules, picked, accepts);
    forall k | 1 <= k < |trace|
      ensures trace[k].call == Remove(picked[k - 1].id)
    {
      assert trace[k] == trace[1..][k - 1];
    }
  }

  /** With both block flags off every attempt is a plain removal. */
  lemma PlainRemovals(rules: RuleConfig, picked: seq<QueueItem>, accepts: Call -> bool)
    requires !rules.blockRemovedQualityReleases && !rules.blockRemovedArchiveReleases
    ensures forall k :: 0 <= k < |picked| ==> ProcessItem(rules, picked[k], accepts).call == Remove(picked[k].id)
  {
  }

  /** A disabled instance is left alone whatever its queue and rules. */
  lemma DisabledInstanceUntouched(config: Config, gateway: Gateway)
    requires !config.sonarr.enabled
    ensures Calls(CleanQueue(config, gateway)) == []
  {
  }

  /** A failed fetch ends the pass after the fetch. */
  lemma FetchFailureStopsPass(config: Config, accepts: Call -> bool)
    requires config.sonarr.enabled
    ensures Calls(CleanQueue(config, Gateway(None, accepts))) == [GetQueue]
  {
  }
}
