/** deleteOldPDFs, the hourly expiry sweep over the "./pdf" directory.
    The directory is given as a map from entry name to its last-modified
    time in milliseconds, and the clock as `now`. */
module Sweeper {

  const HourInMilliseconds: int := 60 * 60 * 1000

  /** An entry is reclaimed when it was last modified strictly more than
      one hour before `now`. */
  predicate Expired(mtime: int, now: int)
  {
    now - mtime > HourInMilliseconds
  }

  /** The directory after a sweep at time `now`. */
  function Swept(entries: map<string, int>, now: int): map<string, int>
  {
    map name | name in entries && !Expired(entries[name], now) :: entries[name]
  }

  /** deleteOldPDFs: visits every entry once and deletes those that have
      expired; every other entry stays with its modification time. */
  method DeleteOldPDFs(entries: map<string, int>, now: int) returns (kept: map<string, int>)
    ensures forall name :: name in kept <==> name in entries && now - entries[name] <= HourInMilliseconds
    ensures forall name :: name in kept ==> kept[name] == entries[name]
    ensures kept == Swept(entries, now)
  {
    kept := entries;
    var files := entries.Keys;
    while files != {}
      invariant files <= entries.Keys
      invariant kept.Keys <= entries.Keys
      invariant forall name :: name in kept ==> kept[name] == entries[name]
      invariant forall name :: name in entries && name !in files ==>
        (name in kept <==> !Expired(entries[name], now))
      invariant forall name :: name in files ==> name in kept
      decreases files
    {
      var file :| file in files;
      if now - entries[file] > HourInMilliseconds {
        kept := kept - {file};
      }
      files := files - {file};
    }
  }

  /** An entry exactly one hour old is kept; one a millisecond older is
      deleted. */
  lemma ExpiryBoundary(mtime: int)
    ensures !Expired(mtime, mtime + HourInMilliseconds)
    ensures Expired(mtime, mtime + HourInMilliseconds + 1)
  {
  }

  /** With the clock fixed, a second sweep deletes nothing more. */
  lemma SweepIsIdempotent(entries: map<string, int>, now: int)
    ensures Swept(Swept(entries, now), now) == Swept(entries, now)
  {
  }

  /** A later sweep keeps no entry that an earlier one deleted. */
  lemma LaterSweepKeepsLess(entries: map<string, int>, earlier: int, later: int)
    requires earlier <= later
    ensures Swept(entries, later).Keys <= Swept(entries, earlier).Keys
    ensures Swept(Swept(entries, earlier), later) == Swept(entries, later)
  {
  }
}
