/**
 The progress table of src/clients/progress_tracker.py: one row per (image, band),
 IN_PROGRESS while queued and PROCESSING while a worker is on it.  Times are
 microseconds; the code compares ISO strings, which IsoTimestamps proves equivalent.
 */
module ProgressTrackers {

  datatype Key = Key(image: string, band: string)

  datatype Status = InProgress | Processing

  datatype Row = Row(status: Status, createdAt: int, updatedAt: int)

  type Rows = map<Key, Row>

  function CleanedUp(rows: Rows, cutoff: int): Rows {
    map k | k in rows && !(rows[k].status.Processing? && rows[k].updatedAt < cutoff) :: rows[k]
  }

  function Reclaimed(rows: Rows, cutoff: int): Rows {
    map k | k in rows && !(rows[k].status.InProgress? && rows[k].updatedAt < cutoff) :: rows[k]
  }

  function Queued(rows: Rows, key: Key, now: int): Rows {
    rows[key := Row(InProgress, now, now)]
  }

  function PickedUp(rows: Rows, key: Key, now: int): Rows {
    if key in rows then rows[key := rows[key].(status := Processing, updatedAt := now)] else rows
  }

  function Tracked(rows: Rows, band: string): set<string> {
    set k | k in rows && k.band == band :: k.image
  }

  class ProgressTracker {
    var rows: Rows
    const ttl: int

    constructor (ttl: int)
      ensures rows == map[] && this.ttl == ttl
    {
      rows := map[];
      this.ttl := ttl;
    }

    method CleanupStale(now: int)
      modifies this
      ensures rows == CleanedUp(old(rows), now - ttl)
      ensures forall k :: k in rows <==>
                k in old(rows) && (old(rows)[k].status == InProgress || old(rows)[k].updatedAt >= now - ttl)
      ensures forall k :: k in rows ==> rows[k] == old(rows)[k]
    {
      var cutoff := now - ttl;
      rows := map k | k in rows && (rows[k].status.InProgress? || rows[k].updatedAt >= cutoff) :: rows[k];
    }

    method ReclaimOrphanInProgress(now: int, grace: int) returns (deleted: nat)
      modifies this
      ensures rows == Reclaimed(old(rows), now - grace)
      ensures forall k :: k in rows <==>
                k in old(rows) && (old(rows)[k].status == Processing || old(rows)[k].updatedAt >= now - grace)
      ensures forall k :: k in rows ==> rows[k] == old(rows)[k]
      ensures deleted == |old(rows)| - |rows|
    {
      var cutoff := now - grace;
      var orphans := set k | k in rows && rows[k].status.InProgress? && rows[k].updatedAt < cutoff;
      assert rows.Keys == orphans + (rows - orphans).Keys;
      deleted := |orphans|;
      rows := rows - orphans;
    }

    method MarkInProgress(key: Key, now: int)
      modifies this
      ensures rows == Queued(old(rows), key, now)
      ensures key in rows && rows[key] == Row(InProgress, now, now)
      ensures forall k :: k != key ==> (k in rows <==> k in old(rows)) && (k in rows ==> rows[k] == old(rows)[k])
    {
      rows := rows[key := Row(InProgress, now, now)];
    }

    method MarkProcessing(key: Key, now: int)
      modifies this
      ensures rows == PickedUp(old(rows), key, now)
      ensures key in rows <==> key in old(rows)
      ensures key in rows ==> rows[key] == Row(Processing, old(rows)[key].createdAt, now)
      ensures forall k :: k != key ==> (k in rows <==> k in old(rows)) && (k in rows ==> rows[k] == old(rows)[k])
    {
      if key in rows {
        rows := rows[key := Row(Processing, rows[key].createdAt, now)];
      }
    }

    method MarkCompleted(key: Key)
      modifies this
      ensures rows == old(rows) - {key}
    {
      rows := map k | k in rows && k != key :: rows[k];
    }

    method GetInProgressImages(band: string) returns (images: set<string>)
      ensures images == Tracked(rows, band)
      ensures forall image :: image in images <==> Key(image, band) in rows
    {
      images := set k | k in rows && k.band == band :: k.image;
      forall image ensures image in images <==> Key(image, band) in rows {
        if Key(image, band) in rows {
          assert Key(image, band).image in images;
        }
      }
    }
  }

  /**
   A tick's maintenance at time `now`: what the tracker forgets is exactly the
   PROCESSING rows past the TTL, plus the IN_PROGRESS ones when the gate passed;
   every other row survives unchanged.
   */
  function Maintained(rows: Rows, now: int, ttl: int, gatePassed: bool): Rows {
    var cleaned := CleanedUp(rows, now - ttl);
    if gatePassed then Reclaimed(cleaned, now - ttl) else cleaned
  }

  lemma MaintenanceIsTight(rows: Rows, now: int, ttl: int, gatePassed: bool, key: Key)
    ensures
      var after := Maintained(rows, now, ttl, gatePassed);
      && (key in after <==>
            key in rows && (rows[key].updatedAt >= now - ttl || (rows[key].status.InProgress? && !gatePassed)))
      && (key in after ==> after[key] == rows[key])
      && (key.image in Tracked(after, key.band) <==> key in after)
  {
    var after := Maintained(rows, now, ttl, gatePassed);
    if key.image in Tracked(after, key.band) {
      var k :| k in after && k.band == key.band && k.image == key.image;
      assert k == key;
    }
    if key in after {
      assert key.band == key.band && key.image in Tracked(after, key.band);
    }
  }
}
