# Formal model of the image pipeline's coordination code

A Dafny project that models the coordination and indexing code of the image pipeline and
proves what the pipeline relies on. Rasterising is not modelled.

- **Delivery** (`Delivery`, `ChannelSessions`, `RabbitMqClient`): the two-tier poll over
  strict and round-robin queues, delivery tags across reconnections, acks and nacks. The
  class `RabbitMqClient` mirrors the client's fields; each of its methods is proved equal
  to a step of the pure session model, and `Play` carries its run theorems over.
- **Tracking** (`ProgressTracker`, `Pipeline`, `SingleCopy`, `SelfHealing`): the progress
  table, a step system of one producer, three queues, any number of workers and a broker
  that may requeue at any moment, the orphan reclaim behind the depth gate, and the
  producer's own tick.
- **Fast forms and their simple forms** (`NearestAzimuth`, `KeyTemplate`, `Wildcards`,
  `WindowedLister`, `TimelineCodec`, `MetricsRepository`, `JobSummaries`, `Percentile`).
- **Windows and calendar** (`Calendar`, `GoesNames`, `IsoTimestamps`, `GlmAnchors`,
  `GlmWindows`, `GlmDiscovery`): UTC instants as microseconds, clock-aligned windows,
  completeness by distinct minutes, names that sort in time order.
- **GRIB scan and GFS scheduler** (`GribScan`, `GfsNames`, `GfsScheduler`,
  `GfsConvergence`); `DiscoveryGuards` connects both sources to the step system.
- **Small machines** (`ClientCache`, `Shutdown`, `DepthMonitor`).
- `Common`, `Arithmetic`, `Text`, `Sorting`, `Names` hold shared definitions and lemmas.

Network, SQLite, broker and clock are parameters or steps: failures, times and what a
listing returns are chosen freely. `dafny verify dfyconfig.toml` checks the project.

## Where the code is looser than its documentation

The model follows the code. These differences are theorems below.

- `poll_one` returning None does not mean that all queues are empty: an undecodable head is
  reported as absent (`Delivery.NoneMeansEmptyUnlessSpoiled`, `Delivery.NoneHidesMessage`).
- When an ack raises, the worker's error path acks the same tag again, and `consume` nacks
  it (`ChannelSessions.WorkerMisdirectsExactlyWhen`, `ChannelSessions.ConsumeSettlesTwice`).
- The reclaim can delete the row of a waiting message's key: when the message was received
  after waiting longer than the TTL and put back unmarked while the depths were being read, or
  when the row belongs to a later publication of the key that was lost
  (`Pipeline.ReclaimLosesExactlyWhen`, `Pipeline.BouncedRowCanBeLost`,
  `Pipeline.RetriedRowCanBeLost`, `Pipeline.ReclaimLosesOnlyAdded`).
- After a failed publish the one image already marked waits for the orphan reclaim, not for
  the next tick, unless an older message of it has released the row
  (`SelfHealing.FailedPublishOrphans`, `SelfHealing.CalmFailedPublishBlocks`).
- The queue-depth probe backs off from failed connects, but not from those the client makes by
  itself during a read (`DepthMonitors.RedialWithoutBackoff`).
- GLM anchors are clock-aligned across hours only for cadences that divide the hour or
  windows that fit into the remainder (`GlmAnchors.AnchorsAlignedExactlyWhen`), and a window
  anchored just before the age cutoff can still be complete (`GlmWindows.AgeFilterEffect`,
  `GlmWindows.OldWindowCanBeComplete`).
- `{HH!s}` passes validation but keeps the daily step (`KeyTemplate.ConvertedHourMisses`).
- A folder whose name holds an asterisk keeps the wildcard worklist from ever emptying
  (`Wildcards.TerminatesExactlyWhen`, `Wildcards.StarredFolderNeverEnds`).
- Trailing octets after the last GRIB message read as truncation, and a file cut inside its
  first four octets as a wrong payload (`GribScan.TrailingJunkScansAsCut`,
  `GribScan.PrefixVerdict`).
- `cycles_to_maintain` below one still yields one cycle, and above eight yields eight
  (`GfsScheduler.CandidateCycles`).
- The filename parser accepts more segments than the documented pattern and never reads the
  creation time; the segment after the end time may be anything (`GoesNames.ParsesExactlyWhen`).

## Model

| member | source | states |
|---|---|---|
| `Delivery.ScanMeaning` | src/clients/rabbitmq_client.py:380-416 | Over queues listed once, trying them in order delivers the decodable head of the first queue that has one; every undecodable head met on the way is dead-lettered, the unacked map gains exactly the delivery, and acks and unlisted queues stay as they are |
| `Delivery.ScanAccounts` | src/clients/rabbitmq_client.py:380-416 | and what stays in each queue is what was behind the heads it took, in its order |
| `Delivery.NoneHidesMessage` | src/clients/rabbitmq_client.py:366-416 | For any two bodies there is a state in which a poll returns None and leaves a decodable message waiting behind the head it dead-lettered |
| `Delivery.LightOvertakesStrict` | src/clients/rabbitmq_client.py:366-393 | and one in which a poll serves a light queue while a strict queue holds a decodable message behind its undecodable head |
| `Delivery.StrictPriority` | src/clients/rabbitmq_client.py:366-393 | A light-queue message is served only if every strict queue was empty or had an undecodable head, and each such head was dead-lettered by this poll |
| `Delivery.PollFindsReady` | src/clients/rabbitmq_client.py:366-416 | Over distinct queues a poll reports nothing exactly when no listed queue had a decodable head |
| `Delivery.NoneMeansEmptyUnlessSpoiled` | src/clients/rabbitmq_client.py:366-416 | The docstring's reading of None as "all queues empty" is right exactly in the states with some decodable head or no undecodable one |
| `Delivery.BoundedWaiting` | src/clients/rabbitmq_client.py:386-393 | While one of n light queues keeps a decodable head unserved, the other light queues are served at most its cyclic distance from the cursor, hence at most n - 1 times, whatever happens between polls |
| `Delivery.LightTurn` | src/clients/rabbitmq_client.py:386-393 | One poll that serves another light queue brings the cursor strictly closer to the waiting one; a poll that serves none leaves the distance alone |
| `Delivery.PollAccounts` | src/clients/rabbitmq_client.py:366-416 | Queue by queue there is one prefix that a poll removed: its decodable bodies are what was delivered, its undecodable ones what was dead-lettered, each in order, and the rest of the queue waits as before |
| `Delivery.PollMakesProgress` | src/clients/rabbitmq_client.py:366-416 | Every poll shortens the listed queues in total unless all of them are empty |
| `Delivery.DrainDeliversOnce` | src/clients/rabbitmq_client.py:366-416 | Polling a fixed backlog to the end terminates with the queues empty, each decodable message delivered once and each undecodable one dead-lettered once, in queue order |
| `RabbitMqClients.RabbitMqClient.constructor` | src/clients/rabbitmq_client.py:44-82 | A new client has no channel, nothing outstanding and the cursor at the first light queue |
| `RabbitMqClients.RabbitMqClient.BasicGetOne` | src/clients/rabbitmq_client.py:395-416 | One basic_get on the live channel is the specification's GetOne: take the head, dead-letter it if it does not decode, else hand out a fresh tag |
| `RabbitMqClients.RabbitMqClient.PollStrictTier` | src/clients/rabbitmq_client.py:384-387 | The loop over the strict queues is the ordered scan |
| `RabbitMqClients.RabbitMqClient.PollLightTier` | src/clients/rabbitmq_client.py:386-393 | The loop over the light queues from the cursor is the rotated scan, and moves the cursor past the queue it served |
| `RabbitMqClients.RabbitMqClient.PollOne` | src/clients/rabbitmq_client.py:366-393 | The whole poll is the session's poll step: it raises without an open channel and counts what it hands out |
| `RabbitMqClients.RabbitMqClient.SettleDelivery` | src/clients/rabbitmq_client.py:441-443 | The outstanding counter falls by one and never below zero |
| `RabbitMqClients.RabbitMqClient.Ack` | src/clients/rabbitmq_client.py:429-433 | An ack retires one from the counter and sends the bare tag number on the current channel, whichever that is |
| `RabbitMqClients.RabbitMqClient.Nack` | src/clients/rabbitmq_client.py:435-439 | The same for nack, requeueing or rejecting |
| `RabbitMqClients.RabbitMqClient.DiscardConnection` | src/clients/rabbitmq_client.py:242-253 | Dropping the connection forgets the channel and resets the counter |
| `RabbitMqClients.RabbitMqClient.EnsureChannel` | src/clients/rabbitmq_client.py:198-240 | An open channel is kept; otherwise reconnection is refused while anything is outstanding, and else gives a new channel or fails |
| `RabbitMqClients.RabbitMqClient.Publish` | src/clients/rabbitmq_client.py:255-283 | A publish goes through the channel check and appends to the queue; on a channel the broker has dropped it raises if the client notices, and else returns normally with the message lost |
| `RabbitMqClients.RabbitMqClient.GetQueueSize` | src/clients/rabbitmq_client.py:445-453 | The reported depth is the number of waiting messages, or a failure without a usable channel |
| `RabbitMqClients.RabbitMqClient.ServiceEvents` | src/clients/rabbitmq_client.py:418-427 | Servicing lets the client notice a channel the broker has dropped, raising if the connection went with it, and changes nothing else |
| `RabbitMqClients.RabbitMqClient.Close` | src/clients/rabbitmq_client.py:192-196 | Closing returns the unacked messages and leaves no open channel |
| `ChannelSessions.StepKeepsTagsSound` | src/clients/rabbitmq_client.py:198-253 | Each event a disciplined caller can cause, and each the broker can, keeps the tag invariant |
| `ChannelSessions.TagSafety` | src/clients/rabbitmq_client.py:198-253 | If every tag handed out is settled at most once, then after any run the counter is the number of unsettled tags, all of the current channel, no settlement was sent on another channel, and exactly the caller's own acks removed messages |
| `ChannelSessions.ConnectedIsSound` | src/clients/rabbitmq_client.py:44-125 | A client satisfies the tag invariant before and after its first connection, which opens channel 0 |
| `ChannelSessions.SettlementMeans` | src/clients/rabbitmq_client.py:429-443 | On a live channel a requeue puts the message back at the head of its queue, a reject dead-letters it and an ack removes it for good; other queues, the other lists and the other unacked messages stay as they are |
| `ChannelSessions.PublishAppends` | src/clients/rabbitmq_client.py:255-283 | On a live channel a published message joins its queue behind what waits there, and nothing else changes |
| `ChannelSessions.DropPutsBackInOrder` | src/clients/rabbitmq_client.py:242-253 | A lost channel puts every unacked message back in front of its queue, in the order of the tags |
| `ChannelSessions.PollRaisesExactlyWhen` | src/clients/rabbitmq_client.py:366-393 | A poll raises exactly without an open channel, or on a dead one when there is a queue to ask, and then takes nothing |
| `ChannelSessions.EnsureMeans` | src/clients/rabbitmq_client.py:198-253 | An open channel is kept; nothing happens while deliveries are outstanding; otherwise the client ends on a fresh channel with fresh tags, or on none |
| `ChannelSessions.MeasureFailsExactlyWhen` | src/clients/rabbitmq_client.py:445-453 | A depth cannot be read exactly on a dead channel, or when no new one may or can be opened |
| `ChannelSessions.PublishVanishesExactlyWhen` | src/clients/rabbitmq_client.py:255-283 | A publish is reported as sent and leaves no copy behind exactly on a dead channel that the client still believes open and does not notice to be dead |
| `ChannelSessions.Conservation` | src/clients/rabbitmq_client.py:198-283 | Every event of every run, disciplined or not, keeps the number of copies of each message over queues, unacked, dead-lettered and acked; a publish adds a copy only if it arrived |
| `ChannelSessions.AtLeastOnce` | src/clients/rabbitmq_client.py:198-443 | Over a disciplined run a message stays waiting, unacked or dead-lettered, copy for copy, unless the caller acked its own delivery of it |
| `ChannelSessions.OnlySettlementsRemove` | src/clients/rabbitmq_client.py:366-443 | Over a disciplined run a message is acked exactly as often as deliveries of it were acked, and one that decodes is dead-lettered exactly as often as deliveries of it were rejected |
| `ChannelSessions.SpoiledWaitsOrIsDead` | src/clients/rabbitmq_client.py:395-416 | and one that does not decode is never handed out or acked: copy for copy it waits or is dead-lettered |
| `ChannelSessions.WorkerMisdirectsExactlyWhen` | src/worker/worker.py:240-343 | The worker's error path, which acks again after an ack that raised, sends that ack on a channel that never issued the tag exactly when the channel was dead unnoticed, the worker is not shutting down, this was its only unsettled unit and the broker is reachable |
| `ChannelSessions.WorkerDisconnectsExactlyWhen` | src/worker/worker.py:240-343 | and it ends without a channel exactly in the same case with the broker out of reach; a worker that is shutting down never reconnects |
| `ChannelSessions.ConsumeSettlesTwice` | src/clients/rabbitmq_client.py:346-364 | consume() settles twice when its ack raises; nothing is misdirected, and the counter stays right exactly when the ack did not raise or nothing else was pending |
| `ChannelSessions.DoubleSettleAcksAnotherDelivery` | src/clients/rabbitmq_client.py:240-253 | A run in which settling one tag twice across a reconnection acks a delivery nobody acknowledged |
| `RabbitMqClients.Play` | src/clients/rabbitmq_client.py:183-453 | Any sequence of calls and broker events on the object is the session's run, and a disciplined one keeps the tag invariant |
| `ProgressTrackers.ProgressTracker.CleanupStale` | src/clients/progress_tracker.py:74-86 | Deletes exactly the PROCESSING rows last touched before now minus the TTL |
| `ProgressTrackers.ProgressTracker.ReclaimOrphanInProgress` | src/clients/progress_tracker.py:88-110 | Deletes exactly the IN_PROGRESS rows older than the grace period and returns how many |
| `ProgressTrackers.ProgressTracker.MarkInProgress` | src/clients/progress_tracker.py:112-123 | Writes a fresh IN_PROGRESS row for the key, replacing what was there |
| `ProgressTrackers.ProgressTracker.MarkProcessing` | src/clients/progress_tracker.py:125-141 | Moves an existing row to PROCESSING keeping its creation time; an absent row stays absent |
| `ProgressTrackers.ProgressTracker.MarkCompleted` | src/clients/progress_tracker.py:143-150 | Removes the key's row and no other |
| `ProgressTrackers.ProgressTracker.GetInProgressImages` | src/clients/progress_tracker.py:152-162 | Returns exactly the images with a row for the band, in either status |
| `ProgressTrackers.MaintenanceIsTight` | src/producer/image_discovery_producer.py:80-92 | After a tick's maintenance a row is left exactly if it is younger than the TTL, or IN_PROGRESS with the gate not passed; rows left are unchanged and are exactly what discovery sees as tracked |
| `IsoTimestamps.IsoOrder` | src/clients/progress_tracker.py:81-86 | Comparing two UTC isoformat strings as text compares the instants, although Python drops a zero fraction |
| `IsoTimestamps.IsoShowsTheDate` | src/clients/progress_tracker.py:81-86 | For every date and time the text is year, month, day, T, hour, minute, second, a fraction unless it is zero, and +00:00 |
| `Pipeline.StepKeepsGateSound` | src/producer/image_discovery_producer.py:171-195 | Every step of producer, worker and broker keeps the gate invariant: in a queue already read as empty only marked or bounced publications wait with their own row |
| `Pipeline.InitialIsGateSound` | src/producer/image_discovery_producer.py:171-195 | The empty system satisfies the gate invariant |
| `Pipeline.RunsAreGateSound` | src/producer/image_discovery_producer.py:171-195 | So every reachable state satisfies it |
| `Pipeline.ReclaimSparesWaiting` | src/producer/image_discovery_producer.py:85-92 | After any run, with the depths read one after another, the reclaim never deletes the row a waiting message's own publication wrote, unless the message was fetched and put back unmarked while the depths were being read |
| `Pipeline.ReclaimLosesExactlyWhen` | src/producer/image_discovery_producer.py:85-92 | In a reachable state with the gate passed, the reclaim deletes the row of some waiting message's key if and only if such a row is IN_PROGRESS and past the TTL and its message bounced during the depth readings or a later publication of the key wrote the row |
| `Pipeline.ReclaimLosesOnlyAdded` | src/producer/image_discovery_producer.py:171-195 | In every run, with the gate passed, the reclaim deletes the row of a waiting message's key if and only if that row is IN_PROGRESS and past the TTL and the message was retried, put back or fanned out since the gate was opened; without such an event nothing waits at all |
| `Pipeline.BouncedRowCanBeLost` | src/clients/progress_tracker.py:88-110 | For every key and TTL there is a run that reaches such a state by a bounce |
| `Pipeline.RetriedRowCanBeLost` | src/worker/worker.py:309-335 | and one that reaches it with nothing bounced: a retry waits behind the depth reading while its key's row belongs to a later, lost publication |
| `SingleCopy.StepIsCalm` | src/producer/image_discovery_producer.py:296-345 | One step of a calm run keeps the one-copy invariant for the keys the producer discovers: rows cover copies, the batch's remaining keys have none; whatever happens to other keys, fan-outs included, does not matter |
| `SingleCopy.CalmRunsKeepOneCopy` | src/producer/image_discovery_producer.py:296-345 | If, for the keys the producer discovers, workers mark on delivery, batches are distinct, started units end within the TTL and nothing is redelivered, retried or fanned out, every reachable state has at most one live copy of each such key; messages of other keys are unrestricted |
| `SingleCopy.OverlongUnitDoubles` | src/producer/image_discovery_producer.py:296-345 | For every key and TTL there is a run in which a unit outlasts the TTL and a second copy of its key is published beside it |
| `SingleCopy.RetryDoubles` | src/worker/worker.py:309-335 | and one in which a retry waits beside the delivery it replaces |
| `SingleCopy.InitialIsCalm` | src/producer/image_discovery_producer.py:296-345 | The empty system satisfies the one-copy invariant |
| `SelfHealing.StepChanges` | src/worker/worker.py:240-343 | A publication, a retry or a fan-out makes one copy of its message, an ack or a purge destroys one, and every other step of producer, worker and broker only moves copies between queue, hands and release |
| `SelfHealing.CopiesAddUp` | src/worker/worker.py:240-343 | so over every run the copies of a message, wherever they are, add up |
| `SelfHealing.ActedLeavesOrphan` | src/clients/progress_tracker.py:74-110 | A producer step leaves an orphaned row alone or removes it, and the maintenance for its status removes it once past the TTL |
| `SelfHealing.OrphansHeal` | src/producer/image_discovery_producer.py:80-92 | In every run an image orphaned by a crash or a lost publish becomes untracked, hence rediscoverable, once the maintenance for its status runs past the TTL |
| `SelfHealing.FailedPublishOrphans` | src/producer/image_discovery_producer.py:321-350 | In every run from the empty system whose batches are distinct, when a publish fails the rest of the batch can be discovered again at once; the failed key can be exactly if an older message of it has released its row, and is orphaned exactly if its row is there and no older copy of it is left |
| `SelfHealing.FailedBatchHeals` | src/producer/image_discovery_producer.py:321-350 | and the rest stays discoverable, whatever workers, broker and producer do, until its keys are marked again |
| `SelfHealing.CalmFailedPublishBlocks` | src/producer/image_discovery_producer.py:321-350 | In a calm run the failed key is always still tracked, IN_PROGRESS, and an orphan unless a released delivery of it is not acked yet |
| `SelfHealing.OlderMessageReleases` | src/producer/image_discovery_producer.py:321-350 | For every key and TTL there is a run in which an older message has released the failed key's row |
| `SelfHealing.LastCopyGoneOrphans` | src/worker/worker.py:240-343 | A message purged from its queue, or acked without a release, orphans its key if and only if it was the key's last copy, the key still has its row and the producer is not about to publish it |
| `SelfHealing.AllQueuedAt` | src/producer/image_discovery_producer.py:329-345 | Marking a batch rewrites exactly the batch's rows |
| `SelfHealing.ImageDiscoveryProducer.Maintain` | src/producer/image_discovery_producer.py:80-92 | The code that opens a tick computes the maintenance whose frame is proved above; an unreadable depth counts as not empty |
| `SelfHealing.ImageDiscoveryProducer.PublishBatch` | src/producer/image_discovery_producer.py:325-350 | What was sent is a prefix of the batch and what was marked is that prefix plus the one image whose publish raised |
| `NearestAzimuth.BracketsSuffice` | src/processors/radar_processor.py:45-72 | In sorted order one of the wrapping predecessor and successor is at least as close as any ray |
| `NearestAzimuth.NearestIsClosest` | src/processors/radar_processor.py:45-72 | The returned original-order index has the least circular distance of all rays |
| `NearestAzimuth.NearestRefinesArgMin` | src/processors/radar_processor.py:45-72 | The binary search attains the per-angle argmin's distance, and its index when only one ray is that close |
| `NearestAzimuth.ArgMinIsFirst` | src/processors/radar_processor.py:45-52 | The per-angle argmin is the first of the rays at the least distance |
| `NearestAzimuth.TieGoesToPredecessor` | src/processors/radar_processor.py:59-72 | Between two bracketing rays the earlier one is kept unless the later one is strictly closer |
| `NearestAzimuth.GapIsCircular` | src/processors/radar_processor.py:65-70 | For angles on the dial the computed distance is the least over all numbers of whole turns |
| `NearestAzimuth.PickedRayIsClosestOnCircle` | src/processors/radar_processor.py:428-436 | For any real bearing, normalised by the modulus, the picked ray is as close on the circle as any other |
| `GoesNames.IdRoundTrip` | src/data_sources/goes19_glm.py:257-274 | A window id parses back to its instant to the second, leap years included |
| `GoesNames.TokenRoundTrip` | src/models/goes19_glm_config.py:28-41 | A token that parses is named back identically if and only if its fields are in calendar range and its decisecond is zero |
| `GoesNames.InRangeParses` | src/models/goes19_glm_config.py:28-41 | A token with in-range fields never overflows and gives the instant with those fields |
| `GoesNames.IdOrder` | src/data_sources/goes19_glm.py:257-274 | Ids compare as strings exactly as their instants compare to the second |
| `GoesNames.IdShowsTheDate` | src/data_sources/goes19_glm.py:257-274 | For every date and time the id is the year, the day of the year, hour, minute and second, and a zero decisecond |
| `GoesNames.NamedFileParses` | src/models/goes19_glm_config.py:44-76 | A file named by the documented pattern after two instants is parsed to its platform, mode and those instants, with or without further segments |
| `GoesNames.ParsesExactlyWhen` | src/models/goes19_glm_config.py:44-76 | A name parses if and only if, its extension dropped, it is underscore-free segments of the documented shape, with any text for the creation time and perhaps more segments, whose two time tokens parse |
| `GoesNames.ShapedNameParses` | src/models/goes19_glm_config.py:44-76 | and then it is read as its own platform, mode and times |
| `GoesNames.JoinOfSplit` | src/models/goes19_glm_config.py:57-61 | Splitting on the underscore loses nothing |
| `GoesNames.SplitOfJoin` | src/models/goes19_glm_config.py:57-61 | Joining separator-free segments and splitting gives them back |
| `GlmAnchors.AnchorsCovering` | src/data_sources/goes19_glm.py:195-213 | The loop returns the descending anchors whose window holds the file |
| `GlmAnchors.AnchorsFromMembers` | src/data_sources/goes19_glm.py:195-213 | They are exactly the whole steps below the latest anchor whose half-open window holds the time |
| `GlmAnchors.AlignedAnchorsListed` | src/data_sources/goes19_glm.py:195-213 | Under the condition below a file gets exactly the clock-aligned anchors that cover it |
| `GlmAnchors.AnchorsAlignedExactlyWhen` | src/data_sources/goes19_glm.py:195-213 | All files get exactly their clock-aligned windows if and only if the cadence divides 60 minutes or the windows are no longer than the remainder |
| `GlmAnchors.WindowsPerFile` | src/data_sources/goes19_glm.py:195-213 | When the cadence divides the window length every file is in exactly length/cadence windows |
| `GlmAnchors.EqualCadencePartitions` | src/data_sources/goes19_glm.py:195-213 | With equal cadence and length dividing the hour, the windows partition the files |
| `GlmWindows.Group` | src/data_sources/goes19_glm.py:173-185 | One listed file: skipped if it does not parse or is too old, else appended to each of its windows |
| `GlmWindows.GroupIntoWindows` | src/data_sources/goes19_glm.py:159-193 | The dictionary holds, in listing order, exactly each window's members; an OverflowError from a name is not caught and ends the discovery |
| `GlmWindows.OneFilePerMinute` | src/data_sources/goes19_glm.py:241-255 | Each covered minute is mapped to the file with the greatest name among its files |
| `GlmWindows.CountIsCoverage` | src/data_sources/goes19_glm.py:227-236 | Counting distinct minutes is testing coverage: the count equals the window length exactly when every minute has a file |
| `GlmWindows.AnchorsOnMinutes` | src/data_sources/goes19_glm.py:195-213 | Anchors fall on whole minutes and their window holds the file |
| `GlmWindows.SelectCompleteReadyWindows` | src/data_sources/goes19_glm.py:215-239 | A window is selected exactly if it ends by the lagged time and every minute is covered; its list is the newest file of each minute in name order |
| `GlmWindows.RecentWindowsUnaffected` | src/data_sources/goes19_glm.py:162-167 | The age filter never changes a window anchored at or after the cutoff |
| `GlmWindows.AgeFilterEffect` | src/data_sources/goes19_glm.py:162-167 | An older window stays complete exactly when it was and its first minute has a file starting at or after the cutoff |
| `GlmWindows.OldWindowsNeverComplete` | src/data_sources/goes19_glm.py:162-167 | A window whose first minute ends by the cutoff is never complete |
| `GlmWindows.OldWindowCanBeComplete` | src/data_sources/goes19_glm.py:162-167 | For every minute, a listing that completes a one-minute window anchored a second before the cutoff |
| `GlmDiscovery.ReadyAnchor` | src/data_sources/goes19_glm.py:215-239 | A ready window has a member and its anchor is an instant on a whole minute |
| `GlmDiscovery.EmitUnpublished` | src/data_sources/goes19_glm.py:118-136 | Of the newest target windows, one image for each that is neither stored nor in flight, in order |
| `GlmDiscovery.ReadyWindows` | src/data_sources/goes19_glm.py:105-116 | Grouping, selecting and sorting list exactly the ready windows, newest first |
| `GlmDiscovery.DiscoverImages` | src/data_sources/goes19_glm.py:99-143 | The whole discovery: the newest target ready windows, newest first, each with its manifest; there is an image for each of them whose id is neither stored nor in flight, and for no other, so at most target of them |
| `GlmDiscovery.DescribedAreWanted` | src/data_sources/goes19_glm.py:117-136 | The images are exactly those of the first target ready windows whose ids are in neither set |
| `GlmDiscovery.BatchIdsDescend` | src/data_sources/goes19_glm.py:113-136 | The ids of the images one discovery returns strictly descend as strings, so the batch it hands to the producer is distinct |
| `DiscoveryGuards.GlmBatchMayBeDiscovered` | src/producer/image_discovery_producer.py:292-310 | With the tracked images of the band as in-progress images, the batch one discovery returns has no tracked key and no key twice, which is what the step system asks of a batch |
| `DiscoveryGuards.GfsBatchMayBeDiscovered` | src/producer/image_discovery_producer.py:292-310 | and so has what one tick of the forecast source emits |
| `KeyTemplate.PlainHourIsHourly` | src/models/s3_key_template.py:37-37 | A plain hour placeholder selects the hourly step |
| `KeyTemplate.SourcesAsWritten` | src/models/s3_key_template.py:14-29 | The placeholders and escaped braces as they stand in a format string |
| `KeyTemplate.FieldsSpellTheDate` | src/models/s3_key_template.py:41-43 | For every date and hour each placeholder is filled with its part of the date, zero-padded to four, two or three digits |
| `KeyTemplate.ExampleFolders` | src/models/s3_key_template.py:41-43 | Six o'clock on 15 March 2026 fills year, month, day, day of the year and hour as 2026/03/15/074/06/ |
| `KeyTemplate.ExpandTimePrefixes` | src/models/s3_key_template.py:31-45 | The loop returns, each once and in time order, the filled template of every step from the floor of the start to the end |
| `KeyTemplate.CoversEveryWindowExactlyWhen` | src/models/s3_key_template.py:31-51 | The expansion holds the partition of every instant of every window if and only if an hour placeholder, where there is one, reads {HH} in the template |
| `KeyTemplate.ExpansionIsTight` | src/models/s3_key_template.py:31-51 | Under the same condition every prefix is the partition of an instant in the window |
| `KeyTemplate.ConvertedHourMisses` | src/models/s3_key_template.py:37-37 | The placeholder {HH!s}, which the validation accepts, misses partitions |
| `KeyTemplate.SamePartition` | src/models/s3_key_template.py:41-43 | Times of the same day, and of the same hour if it is named, have the same partition |
| `KeyTemplate.HoursArePartitions` | src/models/s3_key_template.py:41-43 | With the hour named, two hours of a day have different partitions |
| `Wildcards.FoldersOfKeys` | src/clients/s3_client.py:940-961 | A folder is listed exactly if some key contributes it |
| `Wildcards.FolderShape` | src/clients/s3_client.py:940-961 | A listed folder is the head extended by one name without a slash, and the key lies below it |
| `Wildcards.NextMeans` | src/data_sources/s3_windowed_lister.py:124-132 | One pop keeps what the worklist and the resolved prefixes together can be filled to |
| `Wildcards.NextFillings` | src/data_sources/s3_windowed_lister.py:124-132 | and how often: a pop only moves the popped pattern's fillings |
| `Wildcards.NextIsLighter` | src/data_sources/s3_windowed_lister.py:124-132 | Every pop lowers a measure over the remaining wildcards |
| `Wildcards.ResolveWildcards` | src/data_sources/s3_windowed_lister.py:119-133 | Returns, sorted and as often as there are ways, exactly the prefixes got by filling every wildcard with an existing folder, listing each head at most once |
| `Wildcards.StarredFolderComesBack` | src/data_sources/s3_windowed_lister.py:126-132 | A folder with an asterisk in its name is found again when the prefix it filled is split |
| `Wildcards.TerminatesExactlyWhen` | src/data_sources/s3_windowed_lister.py:124-132 | The worklist runs empty if and only if no wildcard ever meets a folder with an asterisk in its name |
| `Wildcards.StarredFolderNeverEnds` | src/data_sources/s3_windowed_lister.py:124-132 | With a key a*/k in the bucket the pattern */ is still being filled after any number of pops |
| `WindowedLister.KeepInputFiles` | src/data_sources/s3_windowed_lister.py:116-117 | Sorted, exactly the keys with one of the suffixes in any case, with multiplicity |
| `WindowedLister.LowerMeans` | src/data_sources/s3_windowed_lister.py:116-117 | Lower-casing moves the ASCII capitals to the small letters and leaves every other character |
| `WindowedLister.InputMeans` | src/data_sources/s3_windowed_lister.py:116-117 | A key is an input file exactly if it is no folder marker and its last characters, in any case, are one of the suffixes |
| `WindowedLister.ListPrefixes` | src/data_sources/s3_windowed_lister.py:135-143 | The listings of all prefixes one after another, hence exactly the keys below any of them |
| `WindowedLister.ListPartitions` | src/data_sources/s3_windowed_lister.py:98-114 | The input files that lie in a folder some partition of the window can be filled to, sorted, a key once for each such folder it lies below |
| `WindowedLister.Lister.constructor` | src/data_sources/s3_windowed_lister.py:40-56 | Suffixes are lower-cased and nothing is cached |
| `WindowedLister.Lister.ListAll` | src/data_sources/s3_windowed_lister.py:94-96 | The sorted input files below the whole prefix |
| `WindowedLister.Lister.ListWindow` | src/data_sources/s3_windowed_lister.py:71-92 | A failed or empty partition listing falls back to the whole prefix; anything not caught propagates |
| `WindowedLister.Lister.ListKeys` | src/data_sources/s3_windowed_lister.py:58-69 | The one cached entry is always the last successful listing of its own window; a cached window is not listed again and a failed listing changes nothing |
| `WindowedLister.PartitionsLieBelowPrefix` | src/data_sources/s3_windowed_lister.py:98-104 | Partition listings find nothing outside the whole-prefix listing |
| `WindowedLister.WindowListingAgreesWithFull` | src/data_sources/s3_windowed_lister.py:58-117 | For files that lie under the partition of their scan time, and scan times inside the window, whatever a window listing returns agrees with the full listing |
| `TimelineCodec.Deltas` | src/metrics_api/timeline_codec.py:88-95 | The loop computes consecutive differences from the origin |
| `TimelineCodec.RoundTrip` | src/metrics_api/timeline_codec.py:32-67 | Decoding the payload recovers every row's id, type, outcome, worker, start and finish, in start order |
| `TimelineCodec.StartOrderIsStable` | src/metrics_api/timeline_codec.py:32-40 | Start order is a permutation that keeps rows of equal start in their order |
| `TimelineCodec.StartOrderIsOrdered` | src/metrics_api/timeline_codec.py:32-40 | and is sorted by start |
| `TimelineCodec.PayloadIsCompact` | src/metrics_api/timeline_codec.py:32-67 | Start differences are non-negative and begin with zero, dictionaries have no repeats and every type has a label |
| `TimelineCodec.TypesAreTheRowsTypes` | src/metrics_api/timeline_codec.py:77-79 | The type dictionary is exactly the set of types of the rows |
| `TimelineCodec.FirstSeenInOrder` | src/metrics_api/timeline_codec.py:77-79 | A dictionary lists its values in the order in which the column first shows them |
| `TimelineCodec.LabelIsLatest` | src/metrics_api/timeline_codec.py:40-51 | Each type's label is that of its latest-starting row |
| `GribScan.ScanGrib` | src/services/gfs_grib_validation.py:101-124 | The loop computes the walk over section-0 lengths and whether it ends exactly at the end of the file |
| `GribScan.ScanIsExact` | src/services/gfs_grib_validation.py:101-124 | The scan reports (k, true) exactly when the file is a chain of k length-linked headers ending at its end |
| `GribScan.LengthIsBigEndian` | src/services/gfs_grib_validation.py:101-124 | The length is the octets nine to sixteen of the header, the most significant first |
| `GribScan.HeaderShowsMagic` | src/services/gfs_grib_validation.py:101-124 | A header is sixteen octets that begin with the letters GRIB and declare a positive length |
| `GribScan.WholeFileScans` | src/services/gfs_grib_validation.py:101-124 | A concatenation of k messages of at least 16 octets carrying their own lengths scans as (k, true) |
| `GribScan.CutFileScans` | src/services/gfs_grib_validation.py:101-124 | Cut strictly inside a message it scans as the whole messages before it and false |
| `GribScan.TrailingJunkScansAsCut` | src/services/gfs_grib_validation.py:101-124 | Trailing octets that are no header scan as false as well, although nothing was cut |
| `GribScan.GribFile.Validate` | src/services/gfs_grib_validation.py:29-98 | The verdict is the specification's, and the file is removed unless it is accepted |
| `GribScan.PrefixVerdict` | src/services/gfs_grib_validation.py:29-98 | A proper prefix is transient exactly when it ends inside a message and shows at least the four octets of the magic; on a boundary it is judged by its count |
| `GribScan.WholeFileVerdict` | src/services/gfs_grib_validation.py:29-98 | The whole file is accepted exactly with 13 messages, and otherwise refused for good |
| `GfsNames.KeyRoundTrip` | src/data_sources/gfs_producer_source.py:222-231 | The step parsed from a cached key is the step that named it |
| `GfsNames.NamesShowTheDate` | src/data_sources/gfs_producer_source.py:212-219 | For every date, hour and step: the cycle's name, the image id and the cache key, character by character |
| `GfsNames.ParseIntMeans` | src/data_sources/gfs_producer_source.py:222-231 | A step is read exactly from decimal digits with at most one sign in front |
| `GfsNames.ImageIdIsFaithful` | src/data_sources/gfs_producer_source.py:212-219 | An image id determines its cycle and step |
| `GfsScheduler.ForecastSteps` | src/models/gfs_config.py:86-97 | The 33 steps: every 3 h to +48 h, then every 6 h to +144 h |
| `GfsScheduler.CandidateCycles` | src/data_sources/gfs_producer_source.py:198-209 | The 48-probe loop returns the newest max(1, min(N, 8)) cycle times, newest first |
| `GfsScheduler.CandidatesAreNewest` | src/data_sources/gfs_producer_source.py:198-209 | They are exactly the multiples of six hours among the newest k not after now, each once |
| `GfsScheduler.CachedSteps` | src/data_sources/gfs_producer_source.py:168-187 | The steps readable from the cycle's keys; a failed LIST reads as nothing cached |
| `GfsScheduler.FolderMarkersAreSkipped` | src/data_sources/gfs_producer_source.py:168-187 | A key that ends in a slash is never taken for a GRIB |
| `GfsScheduler.StoredStepIsCached` | src/data_sources/gfs_producer_source.py:168-187 | A stored GRIB is seen as cached by the next successful LIST |
| `GfsScheduler.DiscoverCycle` | src/data_sources/gfs_producer_source.py:110-166 | The first missing steps of an eligible cycle, up to the budget; none for a cycle too young or given up |
| `GfsScheduler.DiscoverImages` | src/data_sources/gfs_producer_source.py:70-97 | A tick emits the first cap of all missing steps, newest cycle first; a cap of zero or less emits none |
| `GfsConvergence.AllMissingMeans` | src/data_sources/gfs_producer_source.py:118-143 | Missing means: a forecast step of an eligible candidate cycle, neither cached nor in progress |
| `GfsConvergence.MissingByAge` | src/data_sources/gfs_producer_source.py:118-143 | The same in the settings' hours: no step of a cycle younger than probe_from_hours, and none of one older than probe_to_hours unless something of it is cached |
| `GfsConvergence.ColdCycle` | src/data_sources/gfs_producer_source.py:118-143 | With nothing cached or in flight all 33 steps of a candidate cycle are missing between the two ages, and none before or after |
| `GfsConvergence.ColdStartWithDefaults` | src/data_sources/gfs_producer_source.py:118-143 | With 3 and 8 hours an empty bucket is worked on from the third to the eighth hour |
| `GfsConvergence.EmittedUnits` | src/data_sources/gfs_producer_source.py:70-97 | A tick emits at most the cap, only missing steps, and no image id twice |
| `GfsConvergence.TickShrinks` | src/data_sources/gfs_producer_source.py:70-97 | When emitted steps stay in progress or cached and the eligible cycles stay, each tick works off a full cap of the backlog or all of it |
| `GfsConvergence.BacklogFillsUp` | src/data_sources/gfs_producer_source.py:70-97 | So once cap times the number of ticks reaches the backlog, nothing is missing and the next tick emits nothing |
| `MetricsRepositories.MetricsRepository.Record` | src/clients/metrics_repository.py:80-106 | One row with a fresh id, or none if the insert failed |
| `MetricsRepositories.MetricsRepository.ImportJobs` | src/clients/metrics_repository.py:327-376 | Old rows stay in front, accepted jobs follow with fresh ids, inserted plus skipped is the batch size, and a failed insert leaves the table as it was |
| `MetricsRepositories.SameKey` | src/clients/metrics_repository.py:345-363 | Two jobs count as the same exactly if work unit, image, finish time and outcome agree |
| `MetricsRepositories.AcceptedKeys` | src/clients/metrics_repository.py:345-363 | Exactly the keys that are new to the table are accepted |
| `MetricsRepositories.AcceptedOnce` | src/clients/metrics_repository.py:345-363 | and no key twice |
| `MetricsRepositories.ImportIsIdempotent` | src/clients/metrics_repository.py:327-376 | Importing the same batch again, or an export of the table, changes nothing |
| `MetricsRepositories.MetricsRepository.PruneToMaxRows` | src/clients/metrics_repository.py:108-129 | A positive cap keeps exactly the newest max_rows rows and reports the number deleted; a cap of zero or less does nothing |
| `MetricsRepositories.SkipScanIsDistinctTypes` | src/clients/metrics_repository.py:28-42 | The recursive query ends and lists every distinct job type exactly once, in order |
| `MetricsRepositories.MetricsRepository.KnownTypes` | src/clients/metrics_repository.py:388-403 | The job types of the table, each once, ascending, each with the label and finish time of one of its rows that finished last |
| `JobSummaries.GroupByType` | src/clients/metrics_repository.py:150-152 | Each type's rows in reading order, under the types in the order they were met |
| `JobSummaries.WindowHoldsLatest` | src/clients/metrics_repository.py:432-441 | For a type with a job in the window, its last finish in the window is its last finish ever |
| `JobSummaries.CountOutcomes` | src/clients/metrics_repository.py:425-429 | The loop counts the rows of each known outcome, and all rows |
| `JobSummaries.OneMoreRowCounts` | src/clients/metrics_repository.py:425-429 | One more row raises the total and the count of its own outcome, and no other |
| `JobSummaries.CountsWithinTotal` | src/clients/metrics_repository.py:425-429 | The five outcome counts never exceed the total, and reach it exactly when every row has one of the five outcomes |
| `JobSummaries.ErrorRateIsFraction` | src/clients/metrics_repository.py:432-439 | The error rate lies between zero and one, and is zero exactly without failures and one exactly if all jobs failed |
| `JobSummaries.ErrorRateMeans` | src/clients/metrics_repository.py:432-439 | The error rate times the number of rows is the number of rows whose outcome is error or dlq |
| `JobSummaries.WindowMeans` | src/clients/metrics_repository.py:378-386 | The window holds exactly the rows with finished_at >= since, and all rows without since |
| `JobSummaries.AverageStages` | src/clients/metrics_repository.py:447-463 | Exactly the stages that occur in the rows, each with the average of its times |
| `JobSummaries.Summary` | src/clients/metrics_repository.py:133-165 | One entry for every type ever recorded, busiest first and idle types last: the label and time of its last job ever, and, over its jobs in the window, outcome counts and error rate, and timing statistics and stage averages of the successful ones |
| `JobSummaries.TotalsAddUp` | src/clients/metrics_repository.py:133-164 | The totals add up to the number of jobs in the window |
| `JobSummaries.OneSuccess` | src/clients/metrics_repository.py:423-446 | A table of one successful job is described by its own label, finish time and three durations, one success and error rate zero |
| `Percentiles.StatsInOrder` | src/clients/metrics_repository.py:465-477 | Statistics exist exactly if some value is present; average and 95th percentile lie between the extremes, which are values that occur |
| `Percentiles.StatsOfTwo` | src/clients/metrics_repository.py:465-477 | Of two values and a gap: the mean, the smaller, the larger, and 95 percent of the way between them |
| `Percentiles.PercentileInterpolates` | src/clients/metrics_repository.py:479-489 | The percentile is the sorted values interpolated linearly at rank (n - 1) * pct |
| `Percentiles.PercentileInRange` | src/clients/metrics_repository.py:479-489 | The interpolated percentile lies between the smallest and the largest value and reaches both |
| `Percentiles.PercentileIsMonotone` | src/clients/metrics_repository.py:479-489 | and never falls when the percentage rises |
| `Percentiles.PercentileIgnoresOrder` | src/clients/metrics_repository.py:479-489 | and does not depend on the order of the values |
| `ClientCache.NoForeignClients` | src/clients/s3_client.py:291-325 | Under every interleaving, even across loops, no caller gets a client made on another loop |
| `ClientCache.NoLostLock` | src/clients/s3_client.py:291-325 | In every run a lock is held exactly by one call that is creating; with nobody creating, every waiting call can go on |
| `ClientCache.StepStaysFrugal` | src/clients/s3_client.py:274-332 | With loops used one after another, each step keeps: at most one call creates, and only when no client is cached |
| `ClientCache.FewClients` | src/clients/s3_client.py:274-332 | so at most one client is made per loop switch or dropped client, plus one |
| `ClientCache.OneLoopSharesOneClient` | src/clients/s3_client.py:291-325 | On one loop with nothing dropped all callers share one client, however their steps interleave |
| `Shutdown.WorkHandler.Register` | src/worker/work_handler.py:312-312 | The subprocess joins the live set |
| `Shutdown.WorkHandler.Check` | src/worker/work_handler.py:313-317 | A shutdown that began before the spawn is passed on to it |
| `Shutdown.WorkHandler.Abort` | src/worker/work_handler.py:221-241 | Every registered subprocess still running is sent SIGTERM |
| `Shutdown.WorkHandler.Leave` | src/worker/work_handler.py:362-363 | The waiter leaves the live set; one that leaves a running subprocess before the shutdown abandons it |
| `Shutdown.WorkHandler.ForceKill` | src/worker/work_handler.py:243-254 | After the grace period every registered subprocess still running is sent SIGKILL |
| `Shutdown.Serve` | src/worker/work_handler.py:221-317 | After any sequence of spawns, checks, exits and signals, once a shutdown has begun every running subprocess past its check has been sent SIGTERM unless its waiter had abandoned it before |
| `DepthMonitors.QueueDepthMonitor.MarkHealthy` | src/metrics_api/queue_monitor.py:124-127 | Logs a recovery exactly when it was known to be failing |
| `DepthMonitors.QueueDepthMonitor.MarkUnhealthy` | src/metrics_api/queue_monitor.py:129-138 | Logs a failure exactly when it was not known to be failing, drops the client and sets the back-off after a failed connect |
| `DepthMonitors.QueueDepthMonitor.EnsureClient` | src/metrics_api/queue_monitor.py:113-122 | A live connection is reused, anything else is replaced by one connect attempt |
| `DepthMonitors.QueueDepthMonitor.Probe` | src/metrics_api/queue_monitor.py:72-101 | No connect, by the factory or by a redial inside a read, is made within 30 s of a failed factory call; failed and recovered logs strictly alternate, failures first, and tell the current health |
| `DepthMonitors.QueueDepthMonitor.Redial` | src/clients/rabbitmq_client.py:198-240 | While the depths are read a lost connection is dialled again inside the client, until one redial fails |
| `DepthMonitors.RedialWithoutBackoff` | src/metrics_api/queue_monitor.py:94-99 | A failed redial sets no back-off: in this run the factory is called at the very time it failed |
| `DepthMonitors.QueueDepthMonitor.Close` | src/metrics_api/queue_monitor.py:63-66 | Closing drops the client and keeps the probe's invariants |

## Left out

- Raster processing, reprojection, contouring, palettes and tile counting
  (`src/services/processing_steps.py` included): the meaning lies in imported libraries or in
  the tables.
- `S3Client.download_to_file`'s buffering and retries, uploads, and the health and HTTP layers.
- Configuration parsing, registries, routing of units to queues and unit serialisation: a
  reading of one branch settles them.
- `consume()` as a loop and `connect()`'s half-finished set-ups: the settlement at the end of a
  consumed message is modelled, the callback around it is not. A queue that was never declared
  reads as an empty one.
- SingleCopy.CalmRunsKeepOneCopy: for the keys the producer discovers, retries, redeliveries and fan-outs onto them are excluded by assumption; without these assumptions two copies of a key can be live (SingleCopy.OverlongUnitDoubles, SingleCopy.RetryDoubles).
- GoesNames.InRangeParses: `str.isdigit` and `int` also accept non-ASCII digits, which the model's digits are not.
- GlmAnchors.AnchorsCovering: times are unbounded below and above, so datetime's own range errors within one window of year 1 or year 9999 are not modelled.
- GlmDiscovery.DiscoverImages: requires, as datetime does, that the current time minus the age limit lies at least one window after the start of year 1.
- GfsScheduler.CandidateCycles: requires, as datetime does, a clock at least 48 hours after the start of year 1.
- GlmWindows.GroupIntoWindows: the name of a path is what follows its last slash; pathlib's treatment of trailing slashes and dot segments is not modelled.
- KeyTemplate.ExpandTimePrefixes: format specifications such as `{HH:>3}` are not modelled, and years are rendered with four digits, which strftime pads to only from year 1000 on. `validate_key_template` is not modelled.
- Wildcards.ResolveWildcards: requires that no wildcard meets a folder with an asterisk in its name, because the code does not end otherwise; Wildcards.TerminatesExactlyWhen shows that this is exact. Listings are taken from one unchanging bucket.
- WindowedLister.Lister.ListKeys: letters are lower-cased in ASCII only, and the lock serialises callers, so calls follow one another.
- WindowedLister.ListPartitions: the limit of eight concurrent listings, which does not change the result, is not modelled.
- TimelineCodec.RoundTrip: starts and finishes are integer milliseconds; the rounding of ISO timestamps to them is not modelled.
- JobSummaries.Summary: figures are reals, without floating-point rounding; the stage timings are given as parsed, an unreadable JSON text as none.
- MetricsRepositories.MetricsRepository.ImportJobs: columns other than the natural key, the type, the label and the timings are one opaque text.
- Percentiles.PercentileInRange: over reals; floating-point rounding is not modelled. The same holds for NearestAzimuth.
- GfsNames.KeyRoundTrip: `int` of the text after the marker is modelled for an optional sign and ASCII digits; blanks and underscores, which Python also accepts, are not.
- GfsConvergence.BacklogFillsUp: assumes that the candidate and eligible cycles stay the same over the ticks, that LISTs succeed, and that stored files stay.
- ClientCache.FewClients: assumes, as the code's comment does, that loops are used one after another. Closing is one step at the moment the client is forgotten.
- Shutdown.Serve: SIGTERM delivery itself and the exit of a subprocess are outside; a subprocess whose waiter was cancelled before the shutdown is not reached, and the contract says so.
- DepthMonitors.QueueDepthMonitor.Probe: the thread pool is taken to run probes one at a time, and the reconnecting info log is not modelled. A probe may redial any number of times, and the two tries of one redial count as one connect.
