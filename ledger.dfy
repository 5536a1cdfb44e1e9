/**
 * The convergence ledger: when each named thing was last updated, which
 * one-time actions have run, and the fingerprint last recorded for each
 * hashed item, plus a `dirty` flag that says whether the ledger changed
 * since it was loaded and so must be written back.
 *
 * The clock is a `now` parameter of the operations that read it. The
 * fingerprint of a hashed value is a parameter `fp`, one fixed deterministic
 * function from values to 64-bit digests.
 */
module Ledger {
  import opened Wrappers

  /** A point in time. */
  type Time = int

  /** A stored fingerprint and when it was recorded. */
  datatype Hashed = Hashed(hash: bv64, updated: Time)

  /** `DiskState`: the three maps as they are persisted, without the dirty flag. */
  datatype DiskState = DiskState(
    lastUpdate: map<string, Time>,
    once: map<string, Time>,
    hashes: map<string, Hashed>)

  /** `State`: the ledger in memory. */
  class State {
    var dirty: bool
    var lastUpdate: map<string, Time>
    var once: map<string, Time>
    var hashes: map<string, Hashed>

    /** The ledger a run starts from without a state file (`State::default`): empty and clean. */
    constructor ()
      ensures !dirty && lastUpdate == map[] && once == map[] && hashes == map[]
      ensures Serialize() == None
    {
      dirty := false;
      lastUpdate := map[];
      once := map[];
      hashes := map[];
    }

    /** `DiskState::to_state`: a clean ledger holding the snapshot's maps. */
    constructor FromDisk(disk: DiskState)
      ensures !dirty
      ensures lastUpdate == disk.lastUpdate && once == disk.once && hashes == disk.hashes
      ensures Serialize() == None
    {
      dirty := false;
      lastUpdate := disk.lastUpdate;
      once := disk.once;
      hashes := disk.hashes;
    }

    /** `State::last_update`: the recorded time of `name`, if any. */
    function LastUpdate(name: string): (r: Option<Time>)
      reads this
      ensures r.Some? <==> name in lastUpdate
      ensures r.Some? ==> r.value == lastUpdate[name]
    {
      if name in lastUpdate then Some(lastUpdate[name]) else None
    }

    /** `State::touch`: records `now` for `name` and marks the ledger dirty. */
    method Touch(name: string, now: Time)
      modifies this
      ensures dirty
      ensures lastUpdate == old(lastUpdate)[name := now]
      ensures once == old(once) && hashes == old(hashes)
      ensures LastUpdate(name) == Some(now)
      ensures forall other | other != name :: LastUpdate(other) == old(LastUpdate(other))
      ensures Serialize() == Some(DiskState(lastUpdate, once, hashes))
    {
      dirty := true;
      lastUpdate := lastUpdate[name := now];
    }

    /** `State::has_run_once`: whether `id` has a one-time mark. */
    predicate HasRunOnce(id: string): (r: bool)
      reads this
      ensures r <==> id in once.Keys
    {
      id in once
    }

    /** `State::touch_once`: marks `id` as done, at `now`, and the ledger dirty. */
    method TouchOnce(id: string, now: Time)
      modifies this
      ensures dirty
      ensures once == old(once)[id := now]
      ensures lastUpdate == old(lastUpdate) && hashes == old(hashes)
      ensures HasRunOnce(id)
      ensures forall other | other != id :: HasRunOnce(other) == old(HasRunOnce(other))
      ensures Serialize() == Some(DiskState(lastUpdate, once, hashes))
    {
      dirty := true;
      once := once[id := now];
    }

    /**
     * `State::is_hash_fresh`: whether the fingerprint stored for `id` is that
     * of `value`; an id with no stored fingerprint is never fresh.
     */
    function IsHashFresh<H>(id: string, value: H, fp: H -> bv64): (r: bool)
      reads this
      ensures id !in hashes ==> !r
      ensures r <==> id in hashes && hashes[id].hash == fp(value)
    {
      if id !in hashes then false else hashes[id].hash == fp(value)
    }

    /** `State::touch_hash`: stores the fingerprint of `value` for `id`, at `now`, and marks the ledger dirty. */
    method TouchHash<H>(id: string, value: H, fp: H -> bv64, now: Time)
      modifies this
      ensures dirty
      ensures hashes == old(hashes)[id := Hashed(fp(value), now)]
      ensures lastUpdate == old(lastUpdate) && once == old(once)
      ensures IsHashFresh(id, value, fp)
      ensures forall other: H :: IsHashFresh(id, other, fp) <==> fp(other) == fp(value)
      ensures Serialize() == Some(DiskState(lastUpdate, once, hashes))
    {
      dirty := true;
      hashes := hashes[id := Hashed(fp(value), now)];
    }

    /**
     * `State::extend`: when `other` is dirty, merges its update times and
     * one-time marks into this ledger, `other` winning on a shared key, and
     * marks this ledger dirty; fingerprints are not merged. A clean `other`
     * changes nothing.
     */
    method Extend(other: State)
      modifies this
      ensures !old(other.dirty) ==>
        dirty == old(dirty) && lastUpdate == old(lastUpdate) && once == old(once) && hashes == old(hashes)
      ensures old(other.dirty) ==> dirty
      ensures old(other.dirty) ==> lastUpdate == old(lastUpdate) + old(other.lastUpdate)
      ensures old(other.dirty) ==> once == old(once) + old(other.once)
      ensures hashes == old(hashes)
      ensures dirty == (old(dirty) || old(other.dirty))
    {
      if !other.dirty {
        return;
      }
      dirty := true;
      lastUpdate := lastUpdate + other.lastUpdate;
      once := once + other.once;
    }

    /** `State::serialize`: the snapshot of the three maps, or nothing when the ledger is clean. */
    function Serialize(): (r: Option<DiskState>)
      reads this
      ensures r.None? <==> !dirty
      ensures r.Some? ==> r.value.lastUpdate == lastUpdate && r.value.once == once && r.value.hashes == hashes
    {
      if dirty then Some(DiskState(lastUpdate, once, hashes)) else None
    }
  }

  /**
   * A run over a loaded snapshot: what was touched is in the snapshot
   * written at the end, and every entry that was not touched is kept.
   */
  method RoundTrip(disk: DiskState, name: string, id: string, now: Time) returns (out: Option<DiskState>)
    ensures out == Some(DiskState(disk.lastUpdate[name := now], disk.once[id := now], disk.hashes))
  {
    var state := new State.FromDisk(disk);
    state.Touch(name, now);
    state.TouchOnce(id, now);
    out := state.Serialize();
  }
}
