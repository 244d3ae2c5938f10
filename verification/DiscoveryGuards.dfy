/**
 The batches that discovery hands to the producer meet the guard of the step system: with
 the tracked images of the band as `in_progress_images`
 (src/producer/image_discovery_producer.py), no key of a batch has a row, and none occurs
 twice.
 */
module DiscoveryGuards {
  import opened Common
  import opened ProgressTrackers
  import GfsConvergence
  import GfsNames
  import GfsScheduler
  import Glm = GlmDiscovery
  import P = Pipeline
  import Calendar
  import GlmAnchors
  import SelfHealing

  /** Ids that are distinct and untracked make a batch that may be discovered. */
  lemma UntrackedIdsAreABatch(s: P.State, ids: seq<string>, band: string)
    requires s.phase.Idle? && Distinct(ids) && forall i :: 0 <= i < |ids| ==> ids[i] !in Tracked(s.rows, band)
    ensures P.MayAct(s, P.Discover(SelfHealing.Keys(ids, band)))
    ensures P.DistinctBatch(P.Producer(P.Discover(SelfHealing.Keys(ids, band))))
  {
    var keys := SelfHealing.Keys(ids, band);
    forall k | k in keys ensures k !in s.rows {
      var i :| 0 <= i < |keys| && keys[i] == k;
      assert ids[i] !in Tracked(s.rows, band);
    }
    forall i, j | 0 <= i < j < |keys| ensures keys[i] != keys[j] {
      assert ids[i] != ids[j];
    }
  }

  /** The lightning windows of one discovery. */
  lemma GlmBatchMayBeDiscovered(s: P.State, band: string, images: seq<Glm.WindowImage>, uris: seq<string>,
                                cutoff: int, limit: int, target: int, existing: set<string>,
                                cadence: GlmAnchors.Cadence)
    requires s.phase.Idle? && cadence.Valid() && cutoff >= cadence.Accum()
    requires Glm.Discovered(images, uris, cutoff, limit, target, existing, Tracked(s.rows, band), cadence)
    ensures P.MayAct(s, P.Discover(SelfHealing.Keys(Glm.Ids(images), band)))
    ensures P.DistinctBatch(P.Producer(P.Discover(SelfHealing.Keys(Glm.Ids(images), band))))
  {
    Glm.BatchIdsDescend(images, uris, cutoff, limit, target, existing, Tracked(s.rows, band), cadence);
    Glm.DiscoveredAreNew(images, uris, cutoff, limit, target, existing, Tracked(s.rows, band), cadence);
    UntrackedIdsAreABatch(s, Glm.Ids(images), band);
  }

  function UnitIds(units: seq<GfsScheduler.Unit>): (ids: seq<string>)
    ensures |ids| == |units|
    ensures forall i :: 0 <= i < |ids| ==> ids[i] == GfsNames.ImageId(units[i].cycle, units[i].step)
  {
    seq(|units|, i requires 0 <= i < |units| => GfsNames.ImageId(units[i].cycle, units[i].step))
  }

  /** The forecast steps of one tick. */
  lemma GfsBatchMayBeDiscovered(s: P.State, band: string, w: GfsScheduler.World, settings: GfsScheduler.Settings)
    requires s.phase.Idle? && w.inProgress == Tracked(s.rows, band)
    requires w.now >= 48 * Calendar.HOUR && Calendar.Instant(w.now)
    ensures
      var keys := SelfHealing.Keys(UnitIds(GfsConvergence.Emitted(w, settings)), band);
      P.MayAct(s, P.Discover(keys)) && P.DistinctBatch(P.Producer(P.Discover(keys)))
  {
    var units := GfsConvergence.Emitted(w, settings);
    GfsConvergence.EmittedUnits(w, settings);
    forall i | 0 <= i < |units| ensures UnitIds(units)[i] !in w.inProgress {
      assert units[i] in units;
    }
    UntrackedIdsAreABatch(s, UnitIds(units), band);
  }
}
