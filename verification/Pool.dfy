/** The content-addressed storage pool: one transfer job at a time (`_transfer_loop`), fetched
    from a peer and then, if that fails, relayed through the backend; a garbage collector that
    runs between any two awaits of the transfer; and a process that may die between any two
    effects. Names are directory entries, inodes hold the bytes, and an open file handle is an
    inode, so writing goes on behind an unlinked name as it does on POSIX.

    `Step` is one atomic piece of the source per event; an event carries what the outside
    world answered. Every interleaving is a sequence of events. */
module Pool {
  newtype Byte = i: int | 0 <= i < 256
  type Bytes = seq<Byte>
  type Inode = nat

  datatype Job = Job(id: string, sha: string, chunksTotal: nat)

  datatype Phase =
    | Idle
    | HaveAck(job: Job)
    | PeerConnecting(job: Job)
    | PeerStreaming(job: Job, handle: Inode, hashed: Bytes)
    | PeerAck(job: Job)
    | PeerFailed(job: Job)
    | RelayStart(job: Job)
    | RelayStreaming(job: Job, handle: Inode, hashed: Bytes, next: nat)
    | RelayAck(job: Job)
    | RelayFailed(job: Job)
    | RelayError(job: Job)
  {
    predicate Streaming() {
      PeerStreaming? || RelayStreaming?
    }

    predicate Acking() {
      HaveAck? || PeerAck? || RelayAck?
    }
  }

  datatype State = State(files: map<string, Inode>, data: map<Inode, Bytes>, nextInode: Inode, phase: Phase)

  datatype Event =
    | Start(newJob: Job, peer: bool)         // peer: a source address that is not our own
    | PeerRefuses                            // non-200: soft failure, no exception
    | PeerAccepts(created: bool)              // 200, then open(tmp, "wb")
    | PeerChunk(bytes: Bytes)
    | Raises(partial: Bytes)                 // network or disk error, after a partial write
    | StreamEnds(renamed: bool)              // last chunk done: compare digests, rename
    | Unlinks(removed: bool)                 // tmp.unlink(missing_ok=True) of a handler
    | RelayOpens(created: bool)
    | RelayChunk(bytes: Bytes)
    | AckPosted(delivered: bool)
    | ErrorPosted
    | Gc(active: set<string>, undeletable: set<string>)
    | Crash

  const TMP := ".tmp"

  predicate EndsIn(name: string, tail: string) {
    |tail| <= |name| && name[|name| - |tail|..] == tail
  }

  predicate IsTmp(name: string) {
    EndsIn(name, TMP)
  }

  predicate IsHexDigit(c: char) {
    '0' <= c <= '9' || 'a' <= c <= 'f'
  }

  ghost predicate HexDigest(name: string) {
    |name| == 64 && forall i :: 0 <= i < 64 ==> IsHexDigit(name[i])
  }

  function TmpOf(job: Job): string {
    job.sha + TMP
  }

  // ---- file system ---------------------------------------------------------------

  /** `open(name, "wb")`: truncate the file of that name, or create one. */
  function OpenWb(s: State, name: string): (State, Inode) {
    if name in s.files then
      (s.(data := s.data[s.files[name] := []]), s.files[name])
    else
      (s.(files := s.files[name := s.nextInode], data := s.data[s.nextInode := []], nextInode := s.nextInode + 1),
       s.nextInode)
  }

  function Append(s: State, h: Inode, bytes: Bytes): State {
    s.(data := s.data[h := (if h in s.data then s.data[h] else []) + bytes])
  }

  function Remove(s: State, name: string): State {
    s.(files := s.files - {name})
  }

  /** What one garbage-collection pass may delete. */
  predicate Stale(name: string, active: set<string>) {
    IsTmp(name) || (|name| == 64 && name !in active)
  }

  function AfterGc(files: map<string, Inode>, active: set<string>, undeletable: set<string>): map<string, Inode> {
    map n | n in files && (!Stale(n, active) || n in undeletable) :: files[n]
  }

  lemma EndsInExactly(name: string, tail: string)
    ensures EndsIn(name, tail) <==> exists head :: name == head + tail
  {
    if EndsIn(name, tail) {
      assert name == name[..|name| - |tail|] + tail;
    }
  }

  /** What a pass of the collector promises, case by case: it takes the temporary files and the
      files of 64 characters that the manifest does not list, as far as they can be deleted;
      a listed file and every other one stays, and what stays is the file it was. */
  ghost predicate Collected(before: map<string, Inode>, after: map<string, Inode>, manifest: set<string>,
                            undeletable: set<string>)
  {
    && (forall n :: n in after ==> n in before && after[n] == before[n])
    && (forall n :: n in before && n in undeletable ==> n in after)
    && (forall n :: n in after && EndsIn(n, ".tmp") ==> n in undeletable)
    && (forall n :: n in after && |n| == 64 && n !in manifest ==> n in undeletable)
    && (forall n :: n in before && !EndsIn(n, ".tmp") && |n| == 64 && n in manifest ==> n in after)
    && (forall n :: n in before && !EndsIn(n, ".tmp") && |n| != 64 ==> n in after)
  }

  lemma AfterGcCollects(files: map<string, Inode>, active: set<string>, undeletable: set<string>)
    ensures Collected(files, AfterGc(files, active, undeletable), active, undeletable)
  {
    hide EndsIn;
  }

  // ---- the transfer, the collector and the crash ---------------------------------

  /** Digest comparison and rename at the end of a download. */
  function Finish(hash: Bytes -> string, s: State, renamed: bool, stored: Phase, failed: Phase): State
    requires s.phase.Streaming()
  {
    var job := s.phase.job;
    if hash(s.phase.hashed) != job.sha || !renamed || TmpOf(job) !in s.files then
      s.(phase := failed)
    else
      s.(files := (s.files - {TmpOf(job)})[job.sha := s.files[TmpOf(job)]], phase := stored)
  }

  function Step(hash: Bytes -> string, s: State, e: Event): State {
    match (e, s.phase)
    case (Start(job, peer), Idle) =>
      if job.sha in s.files then s.(phase := HaveAck(job))
      else if peer then s.(phase := PeerConnecting(job))
      else s.(phase := RelayStart(job))
    case (PeerRefuses, PeerConnecting(job)) => s.(phase := RelayStart(job))
    case (PeerAccepts(created), PeerConnecting(job)) =>
      if !created then s.(phase := PeerFailed(job)) else
        var (s', h) := OpenWb(s, TmpOf(job));
        s'.(phase := PeerStreaming(job, h, []))
    case (PeerChunk(bytes), PeerStreaming(job, h, hashed)) =>
      Append(s, h, bytes).(phase := PeerStreaming(job, h, hashed + bytes))
    case (Raises(_), PeerConnecting(job)) => s.(phase := PeerFailed(job))
    case (Raises(partial), PeerStreaming(job, h, _)) => Append(s, h, partial).(phase := PeerFailed(job))
    case (StreamEnds(renamed), PeerStreaming(job, _, _)) => Finish(hash, s, renamed, PeerAck(job), PeerFailed(job))
    case (Unlinks(removed), PeerFailed(job)) =>
      if removed then Remove(s, TmpOf(job)).(phase := RelayStart(job)) else s.(phase := Idle)
    case (RelayOpens(created), RelayStart(job)) =>
      if !created then s.(phase := RelayFailed(job)) else
        var (s', h) := OpenWb(s, TmpOf(job));
        s'.(phase := RelayStreaming(job, h, [], 0))
    case (RelayChunk(bytes), RelayStreaming(job, h, hashed, next)) =>
      if next < job.chunksTotal
      then Append(s, h, bytes).(phase := RelayStreaming(job, h, hashed + bytes, next + 1))
      else s
    case (Raises(partial), RelayStreaming(job, h, _, _)) => Append(s, h, partial).(phase := RelayFailed(job))
    case (StreamEnds(renamed), RelayStreaming(job, _, _, next)) =>
      if next < job.chunksTotal then s else Finish(hash, s, renamed, RelayAck(job), RelayFailed(job))
    case (Unlinks(removed), RelayFailed(job)) =>
      if removed then Remove(s, TmpOf(job)).(phase := RelayError(job)) else s.(phase := Idle)
    case (AckPosted(_), HaveAck(_)) => s.(phase := Idle)
    case (AckPosted(delivered), PeerAck(job)) => s.(phase := if delivered then Idle else PeerFailed(job))
    case (AckPosted(delivered), RelayAck(job)) => s.(phase := if delivered then Idle else RelayFailed(job))
    case (ErrorPosted, RelayError(_)) => s.(phase := Idle)
    case (Gc(active, undeletable), _) => s.(files := AfterGc(s.files, active, undeletable))
    case (Crash, _) => s.(phase := Idle)
    case _ => s
  }

  function Run(hash: Bytes -> string, s: State, es: seq<Event>): State {
    if es == [] then s else Step(hash, Run(hash, s, es[..|es| - 1]), es[|es| - 1])
  }

  // ---- the collector as the loop it is ---------------------------------------------

  /** The directory while the names `pending` are still to be looked at. */
  function Survivors(files: map<string, Inode>, pending: set<string>, active: set<string>, undeletable: set<string>)
    : map<string, Inode>
  {
    map n | n in files && (n in pending || !Stale(n, active) || n in undeletable) :: files[n]
  }

  lemma SurvivorsStep(files: map<string, Inode>, pending: set<string>, name: string, active: set<string>,
                      undeletable: set<string>)
    requires name in pending && name in files
    ensures name in Survivors(files, pending, active, undeletable)
    ensures Survivors(files, pending - {name}, active, undeletable)
         == if Stale(name, active) && name !in undeletable
            then Survivors(files, pending, active, undeletable) - {name}
            else Survivors(files, pending, active, undeletable)
  {
    hide Stale;
  }

  lemma RemoveShrinks(files: map<string, Inode>, name: string)
    requires name in files
    ensures |files - {name}| == |files| - 1
  {
    assert (files - {name}).Keys == files.Keys - {name};
  }

  class PoolDirectory {
    var files: map<string, Inode>

    /** The body of `_storage_gc_loop` over one manifest, in whatever order the directory
        lists its entries: no await, so no interleaving. */
    method CollectGarbage(active: set<string>, undeletable: set<string>) returns (removed: nat)
      modifies this
      ensures files == AfterGc(old(files), active, undeletable)
      ensures Collected(old(files), files, active, undeletable)
      ensures removed == |old(files)| - |files|
    {
      AfterGcCollects(files, active, undeletable);
      hide Stale, Collected;
      removed := 0;
      var pending := files.Keys;
      while pending != {}
        invariant pending <= old(files).Keys
        invariant files == Survivors(old(files), pending, active, undeletable)
        invariant removed == |old(files)| - |files|
        decreases pending
      {
        var name :| name in pending;
        SurvivorsStep(old(files), pending, name, active, undeletable);
        pending := pending - {name};
        if Stale(name, active) && name !in undeletable {
          RemoveShrinks(files, name);
          files := files - {name};
          removed := removed + 1;
        }
      }
    }
  }
}
