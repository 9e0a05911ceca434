/** The per-state disk snapshot of live records: `_save_to_local_cache` and
    `_load_from_local_cache` (services.py:620-670). A snapshot directory is a map from
    file key to file contents; the clock is a count of seconds. */
module Snapshots {
  import opened Wrappers
  import opened Text
  import opened Records

  /** A snapshot file: its `timestamp` (`None` when missing or empty) and its `records`
      (`None` when missing or not a collection), or a file that cannot be read as a
      JSON object with a parsable timestamp. */
  datatype Snapshot = Snapshot(timestamp: Option<int>, records: Option<Payload>) | Unreadable

  /** The validity window: twelve hours, in seconds. */
  const MaxAge: int := 12 * 3600

  /** The file a state's snapshot lives in: `{state.lower()}_cache.json`. */
  function FileKey(state: string): string { Lower(state) }

  /** What `_load_from_local_cache` returns for `state` at time `now`. */
  function LoadSpec(files: map<string, Snapshot>, now: int, state: string): Option<Payload> {
    var key := FileKey(state);
    if key !in files then None
    else
      match files[key]
      case Unreadable => None
      case Snapshot(ts, records) =>
        if ts.None? || now - ts.value > MaxAge then None else records
  }

  /** The directory after `_save_to_local_cache(state, p)` at time `now`. */
  function Saved(files: map<string, Snapshot>, now: int, state: string, p: Payload): map<string, Snapshot> {
    files[FileKey(state) := Snapshot(Some(now), Some(p))]
  }

  /** A snapshot saved at `saved` is read back unchanged, under any spelling of the state
      that lower-cases alike, until it is more than twelve hours old. */
  lemma SaveThenLoad(files: map<string, Snapshot>, saved: int, now: int, state: string, query: string, p: Payload)
    requires Lower(query) == Lower(state)
    requires now - saved <= MaxAge
    ensures LoadSpec(Saved(files, saved, state, p), now, query) == Some(p)
  {
  }

  /** Once more than twelve hours old, a snapshot reads as missing. */
  lemma ExpiredIsMissing(files: map<string, Snapshot>, saved: int, now: int, state: string, p: Payload)
    requires now - saved > MaxAge
    ensures LoadSpec(Saved(files, saved, state, p), now, state).None?
  {
  }

  /** A load answers only from a readable, timestamped snapshot at most twelve hours old. */
  lemma LoadAnswersFromFresh(files: map<string, Snapshot>, now: int, state: string)
    ensures LoadSpec(files, now, state).Some? <==>
      && FileKey(state) in files
      && files[FileKey(state)].Snapshot?
      && files[FileKey(state)].timestamp.Some?
      && now - files[FileKey(state)].timestamp.value <= MaxAge
      && files[FileKey(state)].records.Some?
  {
  }

  /** Saving one state's snapshot leaves what every other file key loads unchanged. */
  lemma SaveLeavesOtherStates(files: map<string, Snapshot>, saved: int, now: int, state: string, other: string, p: Payload)
    requires FileKey(other) != FileKey(state)
    ensures LoadSpec(Saved(files, saved, state, p), now, other) == LoadSpec(files, now, other)
  {
  }

  /** The snapshot directory together with the clock it is read against. */
  class SnapshotStore {
    var files: map<string, Snapshot>
    var now: int

    constructor (files: map<string, Snapshot>, now: int)
      ensures this.files == files && this.now == now
    {
      this.files := files;
      this.now := now;
    }

    /** `_save_to_local_cache`: overwrite the state's file with the records, stamped now. */
    method Save(state: string, p: Payload)
      modifies this
      ensures files == Saved(old(files), old(now), state, p)
      ensures now == old(now)
    {
      files := files[FileKey(state) := Snapshot(Some(now), Some(p))];
    }

    /** `_load_from_local_cache` */
    method Load(state: string) returns (r: Option<Payload>)
      ensures r == LoadSpec(files, now, state)
    {
      var key := FileKey(state);
      if key !in files {
        return None;
      }
      match files[key] {
        case Unreadable =>
          return None;
        case Snapshot(ts, records) =>
          if ts.None? {
            return None;
          }
          if now - ts.value > MaxAge {
            return None;
          }
          return records;
      }
    }
  }
}
