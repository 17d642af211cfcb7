/** What every interleaving of transfer, garbage collection and crash keeps. */
module PoolSafety {
  import opened Pool

  ghost predicate Digest(hash: Bytes -> string) {
    forall b :: HexDigest(hash(b))
  }

  lemma DigestIsNoTmp(name: string)
    requires HexDigest(name)
    ensures !IsTmp(name)
  {
    assert name[60..][1] == name[61];
    assert !IsHexDigit(TMP[1]);
  }

  /** The pool holds nothing wrong: the bytes of every file with a digest name hash to that
      name, whatever other files lie beside them. */
  ghost predicate Sound(hash: Bytes -> string, s: State) {
    forall n :: n in s.files && HexDigest(n) ==> s.files[n] in s.data && hash(s.data[s.files[n]]) == n
  }

  /** No two names share a file, and what was hashed is what the open file holds. */
  ghost predicate Linked(s: State) {
    && (forall n :: n in s.files ==> s.files[n] in s.data)
    && (forall h :: h in s.data ==> h < s.nextInode)
    && (forall m, n :: m in s.files && n in s.files && s.files[m] == s.files[n] ==> m == n)
    && (s.phase.Streaming() ==>
          && s.phase.handle in s.data && s.data[s.phase.handle] == s.phase.hashed
          && (TmpOf(s.phase.job) in s.files ==> s.files[TmpOf(s.phase.job)] == s.phase.handle)
          && (forall n :: n in s.files && s.files[n] == s.phase.handle ==> n == TmpOf(s.phase.job)))
  }

  ghost predicate Inv(hash: Bytes -> string, s: State) {
    Sound(hash, s) && Linked(s)
  }

  lemma TmpIsNoDigest(job: Job)
    ensures !HexDigest(TmpOf(job))
  {
    assert TmpOf(job)[|TmpOf(job)| - 4..] == TMP;
    if HexDigest(TmpOf(job)) {
      DigestIsNoTmp(TmpOf(job));
    }
  }

  lemma OpenKeepsInv(hash: Bytes -> string, s: State, job: Job, p: Phase)
    requires Inv(hash, s) && !s.phase.Streaming()
    requires p.Streaming() && p.job == job && p.handle == OpenWb(s, TmpOf(job)).1 && p.hashed == []
    ensures Inv(hash, OpenWb(s, TmpOf(job)).0.(phase := p))
  {
    TmpIsNoDigest(job);
    hide HexDigest;
  }

  lemma AppendKeepsInv(hash: Bytes -> string, s: State, bytes: Bytes, p: Phase)
    requires Inv(hash, s) && s.phase.Streaming()
    requires p.Streaming() ==> p.job == s.phase.job && p.handle == s.phase.handle && p.hashed == s.phase.hashed + bytes
    ensures Inv(hash, Append(s, s.phase.handle, bytes).(phase := p))
  {
    TmpIsNoDigest(s.phase.job);
    hide HexDigest;
  }

  lemma FinishKeepsInv(hash: Bytes -> string, s: State, renamed: bool, stored: Phase, failed: Phase)
    requires Digest(hash) && Inv(hash, s) && s.phase.Streaming() && !stored.Streaming() && !failed.Streaming()
    ensures Inv(hash, Finish(hash, s, renamed, stored, failed))
  {}

  /** Forgetting names and leaving a download never hurts. */
  lemma FewerNamesKeepInv(hash: Bytes -> string, s: State, files: map<string, Inode>, p: Phase)
    requires Inv(hash, s) && (p == s.phase || !p.Streaming())
    requires forall n :: n in files ==> n in s.files && s.files[n] == files[n]
    ensures Inv(hash, s.(files := files, phase := p))
  {}

  lemma DownloadStepKeepsInv(hash: Bytes -> string, s: State, e: Event)
    requires Digest(hash) && Inv(hash, s) && s.phase.Streaming()
    ensures Inv(hash, Step(hash, s, e))
  {
    hide IsTmp, Append, Finish, Sound, Linked, Digest, AfterGc;
    var s' := Step(hash, s, e);
    match (e, s.phase)
    case (PeerChunk(bytes), PeerStreaming(_, _, _)) => AppendKeepsInv(hash, s, bytes, s'.phase);
    case (RelayChunk(bytes), RelayStreaming(job, _, _, next)) =>
      if next < job.chunksTotal { AppendKeepsInv(hash, s, bytes, s'.phase); }
    case (Raises(partial), _) => AppendKeepsInv(hash, s, partial, s'.phase);
    case (StreamEnds(renamed), PeerStreaming(job, _, _)) =>
      FinishKeepsInv(hash, s, renamed, PeerAck(job), PeerFailed(job));
    case (StreamEnds(renamed), RelayStreaming(job, _, _, _)) =>
      FinishKeepsInv(hash, s, renamed, RelayAck(job), RelayFailed(job));
    case (Gc(active, undeletable), _) =>
      GcForgets(s, active, undeletable);
      FewerNamesKeepInv(hash, s, s'.files, s'.phase);
    case _ => FewerNamesKeepInv(hash, s, s'.files, s'.phase);
  }

  lemma QuietStepKeepsInv(hash: Bytes -> string, s: State, e: Event)
    requires Inv(hash, s) && !s.phase.Streaming()
    ensures Inv(hash, Step(hash, s, e))
  {
    hide IsTmp, OpenWb, Sound, Linked, AfterGc;
    var s' := Step(hash, s, e);
    match (e, s.phase)
    case (PeerAccepts(true), PeerConnecting(job)) => OpenKeepsInv(hash, s, job, s'.phase);
    case (RelayOpens(true), RelayStart(job)) => OpenKeepsInv(hash, s, job, s'.phase);
    case (Gc(active, undeletable), _) =>
      GcForgets(s, active, undeletable);
      FewerNamesKeepInv(hash, s, s'.files, s'.phase);
    case _ => FewerNamesKeepInv(hash, s, s'.files, s'.phase);
  }

  lemma StepKeepsInv(hash: Bytes -> string, s: State, e: Event)
    requires Digest(hash) && Inv(hash, s)
    ensures Inv(hash, Step(hash, s, e))
  {
    hide *;
    if s.phase.Streaming() {
      DownloadStepKeepsInv(hash, s, e);
    } else {
      QuietStepKeepsInv(hash, s, e);
    }
  }

  lemma GcForgets(s: State, active: set<string>, undeletable: set<string>)
    ensures forall n :: n in AfterGc(s.files, active, undeletable) ==>
      n in s.files && s.files[n] == AfterGc(s.files, active, undeletable)[n]
  {}

  /** In every reachable state the content of every file with a digest name hashes to it. */
  lemma {:induction false} PoolStaysSound(hash: Bytes -> string, s: State, es: seq<Event>)
    requires Digest(hash) && Inv(hash, s)
    ensures Inv(hash, Run(hash, s, es))
  {
    if es != [] {
      PoolStaysSound(hash, s, es[..|es| - 1]);
      StepKeepsInv(hash, Run(hash, s, es[..|es| - 1]), es[|es| - 1]);
    }
  }

  // ---- the collector ---------------------------------------------------------------------

  /** A pass of the collector keeps its promise wherever it falls in a transfer, and touches
      neither what the files hold nor the transfer itself. */
  lemma CollectsExactly(hash: Bytes -> string, s: State, manifest: set<string>, undeletable: set<string>)
    ensures var s' := Step(hash, s, Gc(manifest, undeletable));
      Collected(s.files, s'.files, manifest, undeletable) && s' == s.(files := s'.files)
  {
    AfterGcCollects(s.files, manifest, undeletable);
    hide Collected, AfterGc;
  }

  /** The collector lists the name whenever it runs. */
  predicate AlwaysListed(es: seq<Event>, name: string) {
    forall i :: 0 <= i < |es| && es[i].Gc? ==> name in es[i].active
  }

  lemma ListedStep(hash: Bytes -> string, s: State, e: Event, name: string)
    requires HexDigest(name) && name in s.files && (e.Gc? ==> name in e.active)
    ensures name in Step(hash, s, e).files
  {
    DigestIsNoTmp(name);
    if e.Gc? {
      CollectsExactly(hash, s, e.active, e.undeletable);
      assert |name| == 64;
    } else if !s.phase.Idle? {
      TmpIsNoDigest(s.phase.job);
    }
    hide HexDigest, AfterGc, TmpOf;
  }

  /** A stored file that every manifest lists stays in the pool through every interleaving, and
      keeps the content its name stands for. */
  lemma {:induction false} ListedStays(hash: Bytes -> string, s: State, es: seq<Event>, name: string)
    requires Digest(hash) && Inv(hash, s) && HexDigest(name) && name in s.files && AlwaysListed(es, name)
    ensures var s' := Run(hash, s, es);
      name in s'.files && s'.files[name] in s'.data && hash(s'.data[s'.files[name]]) == name
  {
    PoolStaysSound(hash, s, es);
    hide HexDigest, Digest, Step, Linked;
    if es != [] {
      var n := |es| - 1;
      ListedStays(hash, s, es[..n], name);
      ListedStep(hash, Run(hash, s, es[..n]), es[n], name);
    }
  }

  /** No name leads to the open file `h`, and none will. */
  ghost predicate Unlinked(s: State, h: Inode) {
    && h < s.nextInode && (forall n :: n in s.files ==> s.files[n] != h)
    && (s.phase.Streaming() && s.phase.handle == h ==> TmpOf(s.phase.job) !in s.files)
  }

  /** A download into such a file goes on, fails, or dies with the process. */
  predicate OnlyFails(before: Phase, after: Phase, h: Inode) {
    before.Streaming() && before.handle == h ==>
      (after.Streaming() && after.handle == h) || after.Idle? || after.PeerFailed? || after.RelayFailed?
  }

  lemma StepUnlinked(hash: Bytes -> string, s: State, e: Event, h: Inode)
    requires Unlinked(s, h)
    ensures Unlinked(Step(hash, s, e), h) && OnlyFails(s.phase, Step(hash, s, e).phase, h)
  {
    hide IsTmp, Stale, TmpOf;
  }

  /** A download whose temporary file the collector took stores nothing: in no run from there
      does any name ever lead to what it wrote, and the download itself never gets to an
      acknowledgement. */
  lemma {:induction false} LostTmpOnlyFails(hash: Bytes -> string, s: State, es: seq<Event>)
    requires Inv(hash, s) && s.phase.Streaming() && TmpOf(s.phase.job) !in s.files
    ensures Unlinked(Run(hash, s, es), s.phase.handle)
    ensures forall i :: 0 <= i < |es| ==>
      OnlyFails(Run(hash, s, es[..i]).phase, Run(hash, s, es[..i + 1]).phase, s.phase.handle)
  {
    if es != [] {
      var n := |es| - 1;
      hide Step, TmpOf, Unlinked, OnlyFails, Inv;
      LostTmpOnlyFails(hash, s, es[..n]);
      StepUnlinked(hash, Run(hash, s, es[..n]), es[n], s.phase.handle);
      assert es[..n + 1] == es;
      forall i | 0 <= i < n
        ensures OnlyFails(Run(hash, s, es[..i]).phase, Run(hash, s, es[..i + 1]).phase, s.phase.handle)
      {
        assert es[..n][..i] == es[..i] && es[..n][..i + 1] == es[..i + 1];
      }
    }
  }

  // ---- acknowledgements ------------------------------------------------------------

  /** The pool holds a complete file for the job, with the right bytes. */
  ghost predicate Stored(hash: Bytes -> string, s: State, job: Job) {
    job.sha in s.files && s.files[job.sha] in s.data && hash(s.data[s.files[job.sha]]) == job.sha
  }

  /** Entering an acknowledging phase: the file is there. */
  lemma EnteringAckIsStored(hash: Bytes -> string, s: State, e: Event)
    requires Digest(hash) && Inv(hash, s)
    ensures var p := Step(hash, s, e).phase;
      p.Acking() && HexDigest(p.job.sha) && p != s.phase ==> Stored(hash, Step(hash, s, e), p.job)
  {
    var s' := Step(hash, s, e);
    if s'.phase.Acking() && HexDigest(s'.phase.job.sha) && s'.phase != s.phase {
      StepKeepsInv(hash, s, e);
      hide HexDigest, IsTmp, Linked, Digest, OpenWb, Append, AfterGc;
      assert s'.phase.job.sha in s'.files;
    }
  }

  /** An ack is only ever on its way for a job whose file, with the right bytes, stood in the
      pool at a moment since which nothing but the ack was pending. */
  lemma {:induction false} AckedWasStored(hash: Bytes -> string, s: State, es: seq<Event>, job: Job) returns (k: nat)
    requires Digest(hash) && Inv(hash, s) && s.phase == Idle
    requires HexDigest(job.sha)
    requires Run(hash, s, es).phase.Acking() && Run(hash, s, es).phase.job == job
    ensures 0 < k <= |es| && Stored(hash, Run(hash, s, es[..k]), job)
    ensures forall i :: k <= i <= |es| ==> Run(hash, s, es[..i]).phase == Run(hash, s, es).phase
  {
    hide Stored, HexDigest, Inv, Digest, Step;
    var n := |es| - 1;
    assert es != [];
    var before := Run(hash, s, es[..n]);
    RunSnoc(hash, s, es);
    assert es[..|es|] == es;
    hide Run;
    if before.phase == Run(hash, s, es).phase {
      k := AckedWasStored(hash, s, es[..n], job);
      assert forall i :: 0 <= i <= n ==> es[..n][..i] == es[..i];
      assert Run(hash, s, es[..|es|]).phase == before.phase;
    } else {
      PoolStaysSound(hash, s, es[..n]);
      EnteringAckIsStored(hash, before, es[n]);
      k := |es|;
    }
  }

  lemma RunSnoc(hash: Bytes -> string, s: State, es: seq<Event>)
    requires es != []
    ensures Run(hash, s, es) == Step(hash, Run(hash, s, es[..|es| - 1]), es[|es| - 1])
  {}

  // ---- errors reported for a stored file -----------------------------------------------

  /** Failure phases, and the phases a job passes through on its way to them. */
  predicate Working(p: Phase) {
    !p.Idle? && !p.Acking()
  }

  predicate Collects(e: Event, name: string) {
    e.Gc? && Stale(name, e.active) && name !in e.undeletable
  }

  predicate LosesAck(s: State, e: Event, job: Job) {
    (s.phase == PeerAck(job) || s.phase == RelayAck(job)) && e == AckPosted(false)
  }

  /** Event `k` loses the ack of `job` while the job's file stands in the pool; the job goes on
      working from there, and no collector takes the file. */
  ghost predicate LostAckAt(hash: Bytes -> string, s: State, es: seq<Event>, job: Job, k: int) {
    && 0 <= k < |es| && LosesAck(Run(hash, s, es[..k]), es[k], job) && job.sha in Run(hash, s, es[..k]).files
    && (forall i :: k < i <= |es| ==> Working(Run(hash, s, es[..i]).phase))
    && (forall i :: k < i < |es| ==> !Collects(es[i], job.sha))
  }

  lemma WorkingStep(hash: Bytes -> string, s: State, e: Event)
    requires Working(Step(hash, s, e).phase)
    ensures var s' := Step(hash, s, e); var job := s'.phase.job;
      && (Working(s.phase) ==> s.phase.job == job)
      && (job.sha in s'.files <==>
            job.sha in s.files && ((Working(s.phase) && !Collects(e, job.sha)) || LosesAck(s, e, job)))
  {
    if !s.phase.Idle? { TmpIsNotDest(s.phase.job); }
    hide TmpOf, Stale;
  }

  lemma LostAckLater(hash: Bytes -> string, s: State, es: seq<Event>, job: Job, k: int)
    requires es != [] && k < |es| - 1 && Working(Run(hash, s, es).phase)
    ensures LostAckAt(hash, s, es, job, k) <==>
      LostAckAt(hash, s, es[..|es| - 1], job, k) && !Collects(es[|es| - 1], job.sha)
  {
    hide Run, Working, Collects, LosesAck;
    var init := es[..|es| - 1];
    assert es[..|es|] == es;
    assert forall i :: 0 <= i <= |init| ==> init[..i] == es[..i];
    assert forall i :: 0 <= i < |init| ==> init[i] == es[i];
  }

  lemma LostAckNow(hash: Bytes -> string, s: State, es: seq<Event>, job: Job)
    requires es != [] && Working(Run(hash, s, es).phase)
    ensures var n := |es| - 1; var before := Run(hash, s, es[..n]);
      LostAckAt(hash, s, es, job, n) <==> LosesAck(before, es[n], job) && job.sha in before.files
  {
    hide Run, Working, Collects, LosesAck;
    assert es[..|es|] == es;
  }

  /** The file of a job that is not finished, or about to be reported as failed, is in the pool
      exactly if an ack of that very job was lost while the file stood there, the job has been
      at work ever since, and no collector has taken the file. */
  lemma {:induction false} StoredWhileWorking(hash: Bytes -> string, s: State, es: seq<Event>)
    requires s.phase == Idle && Working(Run(hash, s, es).phase)
    ensures var s' := Run(hash, s, es); var job := s'.phase.job;
      job.sha in s'.files <==> exists k :: LostAckAt(hash, s, es, job, k)
  {
    var job := Run(hash, s, es).phase.job;
    hide Step, Working, Collects, LosesAck;
    assert es != [] by { assert !Working(Idle) by { NotWorking(); } }
    var n := |es| - 1;
    var before := Run(hash, s, es[..n]);
    RunSnoc(hash, s, es);
    hide Run;
    WorkingStep(hash, before, es[n]);
    LostAckNow(hash, s, es, job);
    forall k | k < n ensures LostAckAt(hash, s, es, job, k)
        <==> LostAckAt(hash, s, es[..n], job, k) && !Collects(es[n], job.sha)
    {
      LostAckLater(hash, s, es, job, k);
    }
    LostAckWithin(hash, s, es, job);
    if Working(before.phase) {
      StoredWhileWorking(hash, s, es[..n]);
      WorkingLosesNoAck(before, es[n], job);
      LostAckWithin(hash, s, es[..n], job);
    } else {
      assert forall k :: k < n ==> !LostAckAt(hash, s, es, job, k);
    }
    hide LostAckAt;
  }

  lemma LostAckWithin(hash: Bytes -> string, s: State, es: seq<Event>, job: Job)
    ensures forall k :: LostAckAt(hash, s, es, job, k) ==> k < |es|
  {
    hide Run, Working, Collects, LosesAck;
  }

  lemma WorkingLosesNoAck(s: State, e: Event, job: Job)
    requires Working(s.phase)
    ensures !LosesAck(s, e, job)
  {}

  lemma NotWorking()
    ensures !Working(Idle)
  {}

  /** And it does happen: the peer's file is stored, the ack is lost, the relay then fails
      to open its temporary file, and an error is reported for a stored file. */
  lemma ErrorForStored(hash: Bytes -> string, s: State, job: Job, bytes: Bytes)
    requires Digest(hash) && Inv(hash, s) && s.phase == Idle && job.sha !in s.files && hash(bytes) == job.sha
    ensures exists es :: Run(hash, s, es).phase == RelayError(job) && Stored(hash, Run(hash, s, es), job)
  {
    assert Run(hash, s, []) == s;
    var t := PeerStores(hash, s, job, bytes);
    LostAckErrs(hash, t, job);
    hide *;
    var es, s' := Then(hash, s, [], Start(job, true));
    es, s' := Then(hash, s, es, PeerAccepts(true));
    es, s' := Then(hash, s, es, PeerChunk(bytes));
    es, s' := Then(hash, s, es, StreamEnds(true));
    es, s' := Then(hash, s, es, AckPosted(false));
    es, s' := Then(hash, s, es, Unlinks(true));
    es, s' := Then(hash, s, es, RelayOpens(false));
    es, s' := Then(hash, s, es, Unlinks(true));
  }

  lemma PeerStores(hash: Bytes -> string, s: State, job: Job, bytes: Bytes) returns (t: State)
    requires s.phase == Idle && job.sha !in s.files && hash(bytes) == job.sha && Linked(s)
    ensures t == Step(hash, Step(hash, Step(hash, Step(hash, s,
      Start(job, true)), PeerAccepts(true)), PeerChunk(bytes)), StreamEnds(true))
    ensures t.phase == PeerAck(job) && Stored(hash, t, job)
  {
    TmpIsNotDest(job);
    assert [] + bytes == bytes;
    hide TmpOf;
    var s1 := Step(hash, s, Start(job, true));
    var s2 := Step(hash, s1, PeerAccepts(true));
    assert s2.phase.PeerStreaming? && s2.data[s2.phase.handle] == [] && s2.files[TmpOf(job)] == s2.phase.handle;
    var s3 := Step(hash, s2, PeerChunk(bytes));
    assert s3.phase.hashed == bytes && s3.data[s3.phase.handle] == bytes && s3.files == s2.files;
    t := Step(hash, s3, StreamEnds(true));
  }

  lemma LostAckErrs(hash: Bytes -> string, t: State, job: Job)
    requires t.phase == PeerAck(job) && Stored(hash, t, job)
    ensures var e := Step(hash, Step(hash, Step(hash, Step(hash, t,
        AckPosted(false)), Unlinks(true)), RelayOpens(false)), Unlinks(true));
      e.phase == RelayError(job) && Stored(hash, e, job)
  {
    TmpIsNotDest(job);
    hide TmpOf;
  }

  lemma Then(hash: Bytes -> string, s: State, es: seq<Event>, e: Event) returns (es': seq<Event>, s': State)
    ensures s' == Run(hash, s, es') == Step(hash, Run(hash, s, es), e)
  {
    es' := es + [e];
    assert es'[..|es|] == es;
    s' := Run(hash, s, es');
  }

  // ---- inodes are invisible: the pool as a map from names to bytes ----------------------

  function View(s: State): map<string, Bytes> {
    map n | n in s.files :: if s.files[n] in s.data then s.data[s.files[n]] else []
  }

  function Erase(p: Phase): Phase {
    match p
    case PeerStreaming(job, _, hashed) => PeerStreaming(job, 0, hashed)
    case RelayStreaming(job, _, hashed, next) => RelayStreaming(job, 0, hashed, next)
    case _ => p
  }

  ghost predicate Alike(a: State, b: State) {
    View(a) == View(b) && Erase(a.phase) == Erase(b.phase)
  }

  /** Opening a file that is there truncates that very file; otherwise the handle is a new one. */
  lemma OpenTruncates(s: State, name: string)
    ensures var (s', h) := OpenWb(s, name);
      && s'.files == s.files[name := h] && s'.data == s.data[h := []] && s'.phase == s.phase
      && (name in s.files ==> h == s.files[name])
      && (name !in s.files ==> h == s.nextInode < s'.nextInode)
  {
    assert name in s.files ==> s.files[name := s.files[name]] == s.files;
  }

  lemma OpenView(hash: Bytes -> string, s: State, name: string)
    requires Inv(hash, s)
    ensures View(OpenWb(s, name).0) == View(s)[name := []]
  {}

  lemma AppendView(hash: Bytes -> string, s: State, bytes: Bytes)
    requires Inv(hash, s) && s.phase.Streaming()
    ensures var t := TmpOf(s.phase.job);
      View(Append(s, s.phase.handle, bytes)) == if t in View(s) then View(s)[t := s.phase.hashed + bytes] else View(s)
  {}

  lemma FinishView(hash: Bytes -> string, s: State, renamed: bool, stored: Phase, failed: Phase)
    requires Inv(hash, s) && s.phase.Streaming()
    ensures var job := s.phase.job; var s' := Finish(hash, s, renamed, stored, failed);
      if hash(s.phase.hashed) != job.sha || !renamed || TmpOf(job) !in View(s)
      then s' == s.(phase := failed)
      else s'.phase == stored && View(s') == (View(s) - {TmpOf(job)})[job.sha := s.phase.hashed]
  {}

  lemma PhaseView(s: State, p: Phase)
    ensures View(s.(phase := p)) == View(s)
  {}

  lemma GcView(s: State, active: set<string>, undeletable: set<string>, p: Phase)
    ensures View(s.(files := AfterGc(s.files, active, undeletable), phase := p))
         == map n | n in View(s) && (!Stale(n, active) || n in undeletable) :: View(s)[n]
  {
    hide Stale;
  }

  lemma RemoveView(s: State, name: string, p: Phase)
    ensures View(Remove(s, name).(phase := p)) == View(s) - {name}
  {}

  lemma DownloadStepAlike(hash: Bytes -> string, a: State, b: State, e: Event)
    requires Inv(hash, a) && Inv(hash, b) && Alike(a, b) && a.phase.Streaming()
    ensures Alike(Step(hash, a, e), Step(hash, b, e))
  {
    hide IsTmp, Inv, View, Append, Finish, AfterGc;
    var a', b' := Step(hash, a, e), Step(hash, b, e);
    PhaseView(a, a'.phase);
    PhaseView(b, b'.phase);
    match e
    case PeerChunk(bytes) => AppendAlike(hash, a, b, bytes, a'.phase, b'.phase);
    case RelayChunk(bytes) => AppendAlike(hash, a, b, bytes, a'.phase, b'.phase);
    case Raises(partial) => AppendAlike(hash, a, b, partial, a'.phase, b'.phase);
    case StreamEnds(renamed) => FinishAlike(hash, a, b, renamed);
    case Gc(active, undeletable) =>
      GcView(a, active, undeletable, a.phase);
      GcView(b, active, undeletable, b.phase);
    case _ =>
  }

  lemma AppendAlike(hash: Bytes -> string, a: State, b: State, bytes: Bytes, p: Phase, q: Phase)
    requires Inv(hash, a) && Inv(hash, b) && Alike(a, b) && a.phase.Streaming()
    ensures View(Append(a, a.phase.handle, bytes).(phase := p)) == View(Append(b, b.phase.handle, bytes).(phase := q))
  {
    hide Inv, View, Append;
    AppendPhaseView(hash, a, bytes, p);
    AppendPhaseView(hash, b, bytes, q);
  }

  lemma FinishAlikeTo(hash: Bytes -> string, a: State, b: State, renamed: bool, stored: Phase, failed: Phase)
    requires Inv(hash, a) && Inv(hash, b) && View(a) == View(b) && a.phase.Streaming() && b.phase.Streaming()
    requires a.phase.job == b.phase.job && a.phase.hashed == b.phase.hashed
    ensures var x, y := Finish(hash, a, renamed, stored, failed), Finish(hash, b, renamed, stored, failed);
      View(x) == View(y) && x.phase == y.phase
  {
    FinishView(hash, a, renamed, stored, failed);
    FinishView(hash, b, renamed, stored, failed);
    PhaseView(a, failed);
    PhaseView(b, failed);
    hide Inv, View, Finish, TmpOf;
  }

  lemma StreamEndsIs(hash: Bytes -> string, s: State, renamed: bool)
    requires s.phase.Streaming()
    ensures var job := s.phase.job;
      Step(hash, s, StreamEnds(renamed))
      == if s.phase.PeerStreaming? then Finish(hash, s, renamed, PeerAck(job), PeerFailed(job))
         else if s.phase.next < job.chunksTotal then s
         else Finish(hash, s, renamed, RelayAck(job), RelayFailed(job))
  {
    hide Finish;
  }

  lemma FinishAlike(hash: Bytes -> string, a: State, b: State, renamed: bool)
    requires Inv(hash, a) && Inv(hash, b) && Alike(a, b) && a.phase.Streaming()
    ensures Alike(Step(hash, a, StreamEnds(renamed)), Step(hash, b, StreamEnds(renamed)))
  {
    var job := a.phase.job;
    StreamEndsIs(hash, a, renamed);
    StreamEndsIs(hash, b, renamed);
    hide Inv, View, Finish, Step;
    if a.phase.PeerStreaming? {
      FinishAlikeTo(hash, a, b, renamed, PeerAck(job), PeerFailed(job));
    } else {
      FinishAlikeTo(hash, a, b, renamed, RelayAck(job), RelayFailed(job));
    }
  }

  lemma ViewKeys(s: State)
    ensures View(s).Keys == s.files.Keys
  {}

  lemma GcAlike(a: State, b: State, active: set<string>, undeletable: set<string>)
    requires View(a) == View(b)
    ensures View(a.(files := AfterGc(a.files, active, undeletable)))
         == View(b.(files := AfterGc(b.files, active, undeletable)))
  {
    GcView(a, active, undeletable, a.phase);
    GcView(b, active, undeletable, b.phase);
    hide View, AfterGc, Stale;
  }

  lemma QuietStepAlike(hash: Bytes -> string, a: State, b: State, e: Event)
    requires Inv(hash, a) && Inv(hash, b) && Alike(a, b) && !a.phase.Streaming()
    ensures Alike(Step(hash, a, e), Step(hash, b, e))
  {
    hide IsTmp, Inv, View, OpenWb, AfterGc, Remove, TmpOf, Append, Finish;
    assert a.phase == b.phase;
    var a', b' := Step(hash, a, e), Step(hash, b, e);
    PhaseView(a, a'.phase);
    PhaseView(b, b'.phase);
    if e.Start? {
      ViewKeys(a);
      ViewKeys(b);
    } else if e.PeerAccepts? || e.RelayOpens? {
      OpenAlike(hash, a, b, a.phase, a'.phase, b'.phase);
    } else if e.Gc? {
      GcAlike(a, b, e.active, e.undeletable);
    } else if e.Unlinks? {
      RemoveAlike(a, b, a.phase, a'.phase, b'.phase);
    }
  }

  lemma RemoveAlike(a: State, b: State, at: Phase, p: Phase, q: Phase)
    requires View(a) == View(b)
    ensures !at.Idle? ==> View(Remove(a, TmpOf(at.job)).(phase := p)) == View(Remove(b, TmpOf(at.job)).(phase := q))
  {
    if !at.Idle? {
      RemoveView(a, TmpOf(at.job), p);
      RemoveView(b, TmpOf(at.job), q);
    }
  }

  lemma OpenAlike(hash: Bytes -> string, a: State, b: State, at: Phase, p: Phase, q: Phase)
    requires Inv(hash, a) && Inv(hash, b) && View(a) == View(b)
    ensures !at.Idle? ==>
      View(OpenWb(a, TmpOf(at.job)).0.(phase := p)) == View(OpenWb(b, TmpOf(at.job)).0.(phase := q))
  {
    if !at.Idle? {
      OpenPhaseView(hash, a, at.job, p);
      OpenPhaseView(hash, b, at.job, q);
    }
  }

  lemma OpenPhaseView(hash: Bytes -> string, s: State, job: Job, p: Phase)
    requires Inv(hash, s)
    ensures View(OpenWb(s, TmpOf(job)).0.(phase := p)) == View(s)[TmpOf(job) := []]
  {
    hide Inv, View, OpenWb;
    OpenView(hash, s, TmpOf(job));
    PhaseView(OpenWb(s, TmpOf(job)).0, p);
  }

  /** Alike states stay alike under every run: which inodes back the files never shows. */
  lemma {:induction false} RunAlike(hash: Bytes -> string, a: State, b: State, es: seq<Event>)
    requires Digest(hash) && Inv(hash, a) && Inv(hash, b) && Alike(a, b)
    ensures Alike(Run(hash, a, es), Run(hash, b, es))
  {
    hide Step, Inv, View, Digest;
    if es != [] {
      var init, e := es[..|es| - 1], es[|es| - 1];
      var a', b' := Run(hash, a, init), Run(hash, b, init);
      RunAlike(hash, a, b, init);
      PoolStaysSound(hash, a, init);
      PoolStaysSound(hash, b, init);
      if a'.phase.Streaming() {
        DownloadStepAlike(hash, a', b', e);
      } else {
        QuietStepAlike(hash, a', b', e);
      }
    }
  }

  lemma AppendPhaseView(hash: Bytes -> string, s: State, bytes: Bytes, p: Phase)
    requires Inv(hash, s) && s.phase.Streaming()
    ensures var t := TmpOf(s.phase.job);
      View(Append(s, s.phase.handle, bytes).(phase := p))
        == if t in View(s) then View(s)[t := s.phase.hashed + bytes] else View(s)
  {
    hide Inv, View, Append;
    AppendView(hash, s, bytes);
    PhaseView(Append(s, s.phase.handle, bytes), p);
  }

  lemma TmpIsNotDest(job: Job)
    ensures TmpOf(job) != job.sha
  {
    assert |TmpOf(job)| == |job.sha| + 4;
  }
}
