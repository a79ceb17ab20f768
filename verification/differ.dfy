/** The set difference the full pass runs twice: remote participants against
    stored participants of one event, and guild members against stored users. */
module Differ {

  datatype Delta<T> = Delta(added: set<T>, removed: set<T>)

  /** Applying a delta to a local set: add, then remove. */
  function ApplyDelta<T>(local: set<T>, d: Delta<T>): set<T> {
    (local + d.added) - d.removed
  }

  /** `new = remote - local`, `removed = local - remote`. */
  function Diff<T>(remote: set<T>, local: set<T>): (d: Delta<T>)
    ensures d.added !! d.removed
    ensures d.added !! local && d.added <= remote
    ensures d.removed <= local && d.removed !! remote
    ensures ApplyDelta(local, d) == remote
  {
    Delta(remote - local, local - remote)
  }

  /** The delta is the only one that brings `local` to `remote` by adding only
      what is missing and removing only what is there. */
  lemma DiffUnique<T>(remote: set<T>, local: set<T>, d: Delta<T>)
    requires d.added !! local && d.removed <= local
    requires ApplyDelta(local, d) == remote
    ensures d == Diff(remote, local)
  {
    assert d.added == remote - local;
    assert d.removed == local - remote;
  }

  /** Once the local side equals the remote side there is nothing to do. */
  lemma DiffOfApplied<T>(remote: set<T>, local: set<T>)
    ensures Diff(remote, ApplyDelta(local, Diff(remote, local))) == Delta({}, {})
  {
  }

  /** What is both local and remote is neither added nor removed. */
  lemma DiffKeepsCommon<T>(remote: set<T>, local: set<T>, x: T)
    requires x in remote && x in local
    ensures x !in Diff(remote, local).added && x !in Diff(remote, local).removed
  {
  }
}
