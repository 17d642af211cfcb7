/** What a failed peer fetch leaves behind, and what the relay stores. */
module PoolRelay {
  import opened Pool
  import opened PoolSafety

  // ---- a failed peer fetch leaves no trace -------------------------------------------

  /** Events of the transfer itself while it deals with the peer. */
  predicate PeerEvent(e: Event) {
    e.PeerRefuses? || e.PeerAccepts? || e.PeerChunk? || e.Raises? || e.StreamEnds? || e.Unlinks? || e.AckPosted?
  }

  predicate InPeerPart(p: Phase, job: Job) {
    p.Idle?
    || ((p.PeerConnecting? || p.PeerStreaming? || p.PeerAck? || p.PeerFailed? || p.RelayStart?) && p.job == job)
  }

  /** The pools agree on every name but the job's own two. */
  ghost predicate AgreeOff(v: map<string, Bytes>, w: map<string, Bytes>, job: Job) {
    v - {TmpOf(job)} - {job.sha} == w - {TmpOf(job)} - {job.sha}
  }

  lemma AgreeOffUpdates(v: map<string, Bytes>, job: Job, x: Bytes)
    ensures AgreeOff(v[TmpOf(job) := x], v, job) && AgreeOff(v - {TmpOf(job)}, v, job)
    ensures AgreeOff((v - {TmpOf(job)})[job.sha := x], v, job)
  {
    hide TmpOf;
  }

  lemma PeerStepAgrees(hash: Bytes -> string, s: State, job: Job, e: Event)
    requires Inv(hash, s) && InPeerPart(s.phase, job) && PeerEvent(e)
    ensures InPeerPart(Step(hash, s, e).phase, job) && AgreeOff(View(Step(hash, s, e)), View(s), job)
  {
    var s' := Step(hash, s, e);
    PhaseView(s, s'.phase);
    AgreeOffUpdates(View(s), job, []);
    hide Inv, View, OpenWb, Append, Finish, IsTmp, Remove, TmpOf, AgreeOff;
    assert AgreeOff(View(s), View(s), job) by { AgreeOffSelf(View(s), job); }
    match e
    case PeerAccepts(_) =>
      OpenPhaseView(hash, s, job, s'.phase);
    case PeerChunk(bytes) =>
      if s.phase.PeerStreaming? {
        AppendPhaseView(hash, s, bytes, s'.phase);
        AgreeOffUpdates(View(s), job, s.phase.hashed + bytes);
      }
    case Raises(partial) =>
      if s.phase.PeerStreaming? {
        AppendPhaseView(hash, s, partial, s'.phase);
        AgreeOffUpdates(View(s), job, s.phase.hashed + partial);
      }
    case StreamEnds(renamed) =>
      if s.phase.PeerStreaming? {
        FinishView(hash, s, renamed, PeerAck(job), PeerFailed(job));
        AgreeOffUpdates(View(s), job, s.phase.hashed);
      }
    case Unlinks(_) => RemoveView(s, TmpOf(job), s'.phase);
    case _ =>
  }

  lemma AgreeOffSelf(v: map<string, Bytes>, job: Job)
    ensures AgreeOff(v, v, job)
  {}

  function Kept(v: map<string, Bytes>, active: set<string>, undeletable: set<string>): map<string, Bytes> {
    map n | n in v && (!Stale(n, active) || n in undeletable) :: v[n]
  }

  lemma KeptAgrees(v: map<string, Bytes>, w: map<string, Bytes>, job: Job, active: set<string>,
                   undeletable: set<string>)
    requires AgreeOff(v, w, job)
    ensures AgreeOff(Kept(v, active, undeletable), Kept(w, active, undeletable), job)
  {
    hide Stale, TmpOf;
    var a, b := Kept(v, active, undeletable), Kept(w, active, undeletable);
    assert forall n :: n != TmpOf(job) && n != job.sha ==>
      (n in v <==> n in v - {TmpOf(job)} - {job.sha}) && (n in w <==> n in w - {TmpOf(job)} - {job.sha});
    assert forall n :: n in v - {TmpOf(job)} - {job.sha} ==> v[n] == (v - {TmpOf(job)} - {job.sha})[n];
    assert forall n :: n in w - {TmpOf(job)} - {job.sha} ==> w[n] == (w - {TmpOf(job)} - {job.sha})[n];
  }

  /** The passes of the collector among these events. */
  function Collections(es: seq<Event>): seq<Event> {
    if es == [] then []
    else Collections(es[..|es| - 1]) + if es[|es| - 1].Gc? then [es[|es| - 1]] else []
  }

  /** A job about to be relayed, its file not in the pool. */
  ghost predicate ToRelay(hash: Bytes -> string, s: State, job: Job) {
    Inv(hash, s) && s.phase == RelayStart(job) && job.sha !in s.files
  }

  lemma GcToRelay(hash: Bytes -> string, s: State, job: Job, e: Event)
    requires Digest(hash) && ToRelay(hash, s, job) && e.Gc?
    ensures ToRelay(hash, Step(hash, s, e), job) && View(Step(hash, s, e)) == Kept(View(s), e.active, e.undeletable)
  {
    StepKeepsInv(hash, s, e);
    GcView(s, e.active, e.undeletable, s.phase);
    hide Inv, View, Stale, Digest;
  }

  lemma GcInPeerPart(hash: Bytes -> string, s: State, job: Job, e: Event)
    requires InPeerPart(s.phase, job) && e.Gc?
    ensures InPeerPart(Step(hash, s, e).phase, job) && View(Step(hash, s, e)) == Kept(View(s), e.active, e.undeletable)
  {
    GcView(s, e.active, e.undeletable, s.phase);
    hide View, Stale;
  }

  lemma CollectionsMore(hash: Bytes -> string, b: State, es: seq<Event>)
    requires es != []
    ensures var n := |es| - 1;
      Run(hash, b, Collections(es)) == if es[n].Gc? then Step(hash, Run(hash, b, Collections(es[..n])), es[n])
                                       else Run(hash, b, Collections(es[..n]))
  {
    hide Step;
    var n := |es| - 1;
    assert (Collections(es[..n]) + [es[n]])[..|Collections(es[..n])|] == Collections(es[..n]);
    assert Collections(es[..n]) + [] == Collections(es[..n]);
  }

  lemma AgreeOffTrans(u: map<string, Bytes>, v: map<string, Bytes>, w: map<string, Bytes>, job: Job)
    requires AgreeOff(u, v, job) && AgreeOff(v, w, job)
    ensures AgreeOff(u, w, job)
  {}

  /** While the peer is tried in `s` and only the collector runs in `b`, the two pools agree on
      every name but the job's own. */
  lemma {:induction false} TriedAgrees(hash: Bytes -> string, s: State, b: State, job: Job, peer: seq<Event>)
    requires Digest(hash) && Inv(hash, s) && InPeerPart(s.phase, job) && ToRelay(hash, b, job)
    requires AgreeOff(View(s), View(b), job)
    requires forall i :: 0 <= i < |peer| ==> PeerEvent(peer[i]) || peer[i].Gc?
    ensures Inv(hash, Run(hash, s, peer)) && InPeerPart(Run(hash, s, peer).phase, job)
    ensures ToRelay(hash, Run(hash, b, Collections(peer)), job)
    ensures AgreeOff(View(Run(hash, s, peer)), View(Run(hash, b, Collections(peer))), job)
  {
    hide Inv, View, Digest, Step, PeerEvent, InPeerPart, ToRelay, AgreeOff, Kept;
    if peer != [] {
      var n := |peer| - 1;
      var e, s', b' := peer[n], Run(hash, s, peer[..n]), Run(hash, b, Collections(peer[..n]));
      TriedAgrees(hash, s, b, job, peer[..n]);
      CollectionsMore(hash, b, peer);
      RunSnoc(hash, s, peer);
      StepKeepsInv(hash, s', e);
      hide Run, Collections;
      if e.Gc? {
        GcInPeerPart(hash, s', job, e);
        GcToRelay(hash, b', job, e);
        KeptAgrees(View(s'), View(b'), job, e.active, e.undeletable);
      } else {
        PeerStepAgrees(hash, s', job, e);
        AgreeOffTrans(View(Step(hash, s', e)), View(s'), View(b'), job);
      }
    }
  }

  /** The job as it stands when the peer was tried, the collector running meanwhile. */
  function Tried(hash: Bytes -> string, s: State, job: Job, peer: seq<Event>): State {
    Run(hash, Step(hash, s, Start(job, true)), peer)
  }

  /** The job as it would stand had only the collector run. */
  function Straight(hash: Bytes -> string, s: State, job: Job, peer: seq<Event>): State {
    Run(hash, Step(hash, s, Start(job, false)), Collections(peer))
  }

  lemma TriedMeets(hash: Bytes -> string, s: State, job: Job, peer: seq<Event>)
    requires Digest(hash) && Inv(hash, s) && s.phase == Idle && job.sha !in s.files
    requires forall i :: 0 <= i < |peer| ==> PeerEvent(peer[i]) || peer[i].Gc?
    ensures Inv(hash, Tried(hash, s, job, peer)) && ToRelay(hash, Straight(hash, s, job, peer), job)
    ensures AgreeOff(View(Tried(hash, s, job, peer)), View(Straight(hash, s, job, peer)), job)
  {
    hide Inv, View, Digest, Step, Run, PeerEvent, InPeerPart, AgreeOff, Collections;
    StartedView(hash, s, job, true);
    StartedView(hash, s, job, false);
    AgreeOffSelf(View(s), job);
    TriedAgrees(hash, Step(hash, s, Start(job, true)), Step(hash, s, Start(job, false)), job, peer);
  }

  /** However a peer fetch failed, the collector taking its temporary file included: once the
      relay has opened its own, everything goes as if the relay had been asked first, under
      the same collections. Same phases, same pool contents, whatever happens next. */
  lemma RelayAfterPeer(hash: Bytes -> string, s: State, job: Job, peer: seq<Event>, rest: seq<Event>)
    requires Digest(hash) && Inv(hash, s) && s.phase == Idle && job.sha !in s.files
    requires forall i :: 0 <= i < |peer| ==> PeerEvent(peer[i]) || peer[i].Gc?
    requires Tried(hash, s, job, peer).phase == RelayStart(job) && job.sha !in Tried(hash, s, job, peer).files
    ensures var a := Step(hash, Tried(hash, s, job, peer), RelayOpens(true));
      var b := Step(hash, Straight(hash, s, job, peer), RelayOpens(true));
      Alike(Run(hash, a, rest), Run(hash, b, rest))
  {
    TriedMeets(hash, s, job, peer);
    var tried, straight := Tried(hash, s, job, peer), Straight(hash, s, job, peer);
    hide Tried, Straight, Inv, View, Digest, Step, Run, PeerEvent, AgreeOff, Alike;
    ViewKeys(tried);
    ViewKeys(straight);
    SameFile(View(tried), View(straight), job);
    RelayMeets(hash, job, tried, straight);
    RunAlike(hash, Step(hash, tried, RelayOpens(true)), Step(hash, straight, RelayOpens(true)), rest);
  }

  lemma SameFile(v: map<string, Bytes>, w: map<string, Bytes>, job: Job)
    requires AgreeOff(v, w, job) && job.sha !in v && job.sha !in w
    ensures v - {TmpOf(job)} == w - {TmpOf(job)}
  {
    hide TmpOf;
    assert v - {TmpOf(job)} - {job.sha} == v - {TmpOf(job)};
    assert w - {TmpOf(job)} - {job.sha} == w - {TmpOf(job)};
  }

  lemma SameOnceStored(v: map<string, Bytes>, w: map<string, Bytes>, job: Job, bytes: Bytes)
    requires AgreeOff(v, w, job)
    ensures (v - {TmpOf(job)})[job.sha := bytes] == (w - {TmpOf(job)})[job.sha := bytes]
  {
    hide TmpOf;
    assert (v - {TmpOf(job)})[job.sha := bytes] == (v - {TmpOf(job)} - {job.sha})[job.sha := bytes];
    assert (w - {TmpOf(job)})[job.sha := bytes] == (w - {TmpOf(job)} - {job.sha})[job.sha := bytes];
  }

  /** Even where the peer's file was stored and only its ack was lost: the relay that follows,
      left alone, stores the very pool that a relay without the peer stores. */
  lemma RelayStoresTheSame(hash: Bytes -> string, s: State, job: Job, peer: seq<Event>, chunks: seq<Bytes>)
    requires Digest(hash) && Inv(hash, s) && s.phase == Idle && job.sha !in s.files
    requires forall i :: 0 <= i < |peer| ==> PeerEvent(peer[i]) || peer[i].Gc?
    requires Tried(hash, s, job, peer).phase == RelayStart(job)
    requires |chunks| == job.chunksTotal && hash(Concat(chunks)) == job.sha
    ensures var a := Relayed(hash, Tried(hash, s, job, peer), chunks);
      var b := Relayed(hash, Straight(hash, s, job, peer), chunks);
      View(a) == View(b) && a.phase == b.phase == RelayAck(job)
  {
    TriedMeets(hash, s, job, peer);
    var tried, straight := Tried(hash, s, job, peer), Straight(hash, s, job, peer);
    hide Tried, Straight, Inv, View, Digest, Step, Run, PeerEvent, AgreeOff, Concat, RelayEvents;
    RelayStores(hash, tried, job, chunks);
    RelayStores(hash, straight, job, chunks);
    SameOnceStored(View(tried), View(straight), job, Concat(chunks));
  }

  lemma RelayMeets(hash: Bytes -> string, job: Job, tried: State, straight: State)
    requires Digest(hash) && Inv(hash, tried) && Inv(hash, straight)
    requires tried.phase == straight.phase == RelayStart(job)
    requires View(tried) - {TmpOf(job)} == View(straight) - {TmpOf(job)}
    ensures var a, b := Step(hash, tried, RelayOpens(true)), Step(hash, straight, RelayOpens(true));
      Inv(hash, a) && Inv(hash, b) && Alike(a, b)
  {
    hide Inv, View, TmpOf, Digest, Step, Alike;
    RelayOpened(hash, tried, job);
    RelayOpened(hash, straight, job);
    SameOff(View(tried), View(straight), TmpOf(job));
    AreAlike(Step(hash, tried, RelayOpens(true)), Step(hash, straight, RelayOpens(true)));
  }

  lemma AreAlike(a: State, b: State)
    requires View(a) == View(b) && Erase(a.phase) == Erase(b.phase)
    ensures Alike(a, b)
  {}

  lemma SameOff(v: map<string, Bytes>, w: map<string, Bytes>, t: string)
    requires v - {t} == w - {t}
    ensures v[t := []] == w[t := []]
  {
    assert v[t := []] == (v - {t})[t := []];
    assert w[t := []] == (w - {t})[t := []];
  }

  lemma StartedView(hash: Bytes -> string, s: State, job: Job, peer: bool)
    requires Digest(hash) && Inv(hash, s) && s.phase == Idle && job.sha !in s.files
    ensures var s' := Step(hash, s, Start(job, peer));
      Inv(hash, s') && View(s') == View(s) && s'.phase == (if peer then PeerConnecting(job) else RelayStart(job))
      && job.sha !in s'.files && InPeerPart(s'.phase, job)
  {
    hide Inv, View, Digest;
    StepKeepsInv(hash, s, Start(job, peer));
    PhaseView(s, Step(hash, s, Start(job, peer)).phase);
  }

  lemma RelayOpened(hash: Bytes -> string, s: State, job: Job)
    requires Digest(hash) && Inv(hash, s) && s.phase == RelayStart(job)
    ensures var s' := Step(hash, s, RelayOpens(true));
      Inv(hash, s') && View(s') == View(s)[TmpOf(job) := []]
      && s'.phase.RelayStreaming? && s'.phase == RelayStreaming(job, s'.phase.handle, [], 0)
  {
    hide Inv, View, Digest, OpenWb;
    StepKeepsInv(hash, s, RelayOpens(true));
    OpenPhaseView(hash, s, job, Step(hash, s, RelayOpens(true)).phase);
  }

  // ---- from the peer to the relay, and to the end ---------------------------------------------

  /** A job whose file is there is only acknowledged; otherwise its peer is asked first, if it
      has one, and else the relay. The pool stays as it is. */
  lemma JobBegins(hash: Bytes -> string, s: State, job: Job, peer: bool, delivered: bool)
    requires s.phase == Idle
    ensures var begun := Step(hash, s, Start(job, peer));
      && (begun.phase == HaveAck(job) <==> job.sha in s.files)
      && (begun.phase == PeerConnecting(job) <==> job.sha !in s.files && peer)
      && (begun.phase == RelayStart(job) <==> job.sha !in s.files && !peer)
      && begun == s.(phase := begun.phase)
      && (job.sha in s.files ==> Step(hash, begun, AckPosted(delivered)) == s)
  {}

  /** A peer that refuses is followed by the relay at once, one that fails at any point after the
      removal of the temporary file: no failure of the peer ends the job. */
  lemma PeerGivesWay(hash: Bytes -> string, s: State, job: Job, partial: Bytes)
    requires s.phase == PeerConnecting(job) || (s.phase.PeerStreaming? && s.phase.job == job)
    ensures s.phase == PeerConnecting(job) ==> Step(hash, s, PeerRefuses) == s.(phase := RelayStart(job))
    ensures var cleared := Step(hash, Step(hash, s, Raises(partial)), Unlinks(true));
      cleared.phase == RelayStart(job) && cleared.files == s.files - {TmpOf(job)}
    ensures s.phase == PeerConnecting(job) ==>
      Step(hash, Step(hash, s, PeerAccepts(false)), Unlinks(true)) == Remove(s, TmpOf(job)).(phase := RelayStart(job))
  {
    hide TmpOf;
  }

  /** A job is done with exactly when the process dies, an ack goes through (or any ack of a file
      that was there already), the removal of its temporary file fails, or its error is posted. */
  lemma JobEndsExactly(hash: Bytes -> string, s: State, e: Event)
    requires s.phase != Idle
    ensures Step(hash, s, e).phase == Idle <==>
      || e == Crash
      || (s.phase.HaveAck? && e.AckPosted?)
      || ((s.phase.PeerAck? || s.phase.RelayAck?) && e == AckPosted(true))
      || ((s.phase.PeerFailed? || s.phase.RelayFailed?) && e == Unlinks(false))
      || (s.phase.RelayError? && e == ErrorPosted)
    ensures Step(hash, s, e).phase != Idle ==> Step(hash, s, e).phase.job == s.phase.job
  {
    hide TmpOf, Append, OpenWb, AfterGc, Remove;
  }

  // ---- what an undisturbed relay does -------------------------------------------------

  function Concat(chunks: seq<Bytes>): Bytes {
    if chunks == [] then [] else Concat(chunks[..|chunks| - 1]) + chunks[|chunks| - 1]
  }

  function RelayEvents(chunks: seq<Bytes>): seq<Event> {
    seq(|chunks|, i requires 0 <= i < |chunks| => RelayChunk(chunks[i]))
  }

  /** `b` relays the job that `s` was about to, with these chunks in so far. */
  ghost predicate Received(hash: Bytes -> string, s: State, b: State, job: Job, chunks: seq<Bytes>) {
    && Inv(hash, b) && b.phase.RelayStreaming? && b.phase.job == job && b.phase.next == |chunks|
    && b.phase.hashed == Concat(chunks) && View(b) == View(s)[TmpOf(job) := Concat(chunks)]
  }

  lemma {:induction false} RelayReceives(hash: Bytes -> string, s: State, job: Job, chunks: seq<Bytes>)
    requires Digest(hash) && Inv(hash, s) && s.phase == RelayStart(job) && |chunks| <= job.chunksTotal
    ensures Received(hash, s, Run(hash, Step(hash, s, RelayOpens(true)), RelayEvents(chunks)), job, chunks)
  {
    var first := Step(hash, s, RelayOpens(true));
    hide Inv, View, Step, Digest, TmpOf;
    if chunks == [] {
      RelayOpened(hash, s, job);
    } else {
      var n := |chunks| - 1;
      RelayEventsSnoc(chunks);
      RunSnoc(hash, first, RelayEvents(chunks));
      hide RelayEvents, Received, Run;
      RelayReceives(hash, s, job, chunks[..n]);
      RelayReceivesOne(hash, s, Run(hash, first, RelayEvents(chunks[..n])), job, chunks[..n], chunks[n]);
      assert chunks[..n] + [chunks[n]] == chunks;
    }
  }

  lemma RelayReceivesOne(hash: Bytes -> string, s: State, b: State, job: Job, chunks: seq<Bytes>, chunk: Bytes)
    requires Digest(hash) && Received(hash, s, b, job, chunks) && |chunks| < job.chunksTotal
    ensures Received(hash, s, Step(hash, b, RelayChunk(chunk)), job, chunks + [chunk])
  {
    hide Inv, View, Append, Digest, TmpOf;
    StepKeepsInv(hash, b, RelayChunk(chunk));
    AppendPhaseView(hash, b, chunk, Step(hash, b, RelayChunk(chunk)).phase);
    assert (chunks + [chunk])[..|chunks|] == chunks;
    UpdateTwice(View(s), TmpOf(job), Concat(chunks), Concat(chunks + [chunk]));
  }

  lemma UpdateTwice(v: map<string, Bytes>, t: string, x: Bytes, y: Bytes)
    ensures v[t := x][t := y] == v[t := y]
    ensures v[t := x] - {t} == v - {t}
    ensures t in v[t := x]
  {}

  lemma RelayEventsSnoc(chunks: seq<Bytes>)
    requires chunks != []
    ensures var es, n := RelayEvents(chunks), |chunks| - 1;
      |es| == n + 1 && es[..n] == RelayEvents(chunks[..n]) && es[n] == RelayChunk(chunks[n])
  {}

  /** A relay of these chunks, left to itself. */
  function Relayed(hash: Bytes -> string, s: State, chunks: seq<Bytes>): State {
    Step(hash, Run(hash, Step(hash, s, RelayOpens(true)), RelayEvents(chunks)), StreamEnds(true))
  }

  /** Left alone, a relay of all its chunks stores the job's file exactly when their bytes
      hash to the job's name, and the file then holds exactly those bytes. */
  lemma RelayStores(hash: Bytes -> string, s: State, job: Job, chunks: seq<Bytes>)
    requires Digest(hash) && Inv(hash, s) && s.phase == RelayStart(job) && |chunks| == job.chunksTotal
    ensures var done := Relayed(hash, s, chunks);
      if hash(Concat(chunks)) == job.sha
      then done.phase == RelayAck(job) && View(done) == (View(s) - {TmpOf(job)})[job.sha := Concat(chunks)]
      else done.phase == RelayFailed(job) && View(done) == View(s)[TmpOf(job) := Concat(chunks)]
  {
    hide Inv, View, Finish, Run, Digest, TmpOf, RelayEvents, Concat, Step;
    RelayReceives(hash, s, job, chunks);
    var b := Run(hash, Step(hash, s, RelayOpens(true)), RelayEvents(chunks));
    RelayFinishes(hash, b);
    UpdateTwice(View(s), TmpOf(job), Concat(chunks), []);
  }

  lemma RelayFinishes(hash: Bytes -> string, b: State)
    requires Inv(hash, b) && b.phase.RelayStreaming? && b.phase.next >= b.phase.job.chunksTotal
    requires TmpOf(b.phase.job) in View(b)
    ensures var job := b.phase.job; var done := Step(hash, b, StreamEnds(true));
      if hash(b.phase.hashed) == job.sha
      then done.phase == RelayAck(job) && View(done) == (View(b) - {TmpOf(job)})[job.sha := b.phase.hashed]
      else done.phase == RelayFailed(job) && View(done) == View(b)
  {
    var job := b.phase.job;
    hide Inv, View, Finish, TmpOf;
    FinishView(hash, b, true, RelayAck(job), RelayFailed(job));
    PhaseView(b, RelayFailed(job));
  }

  // ---- a peer file that was stored, its ack lost ------------------------------------------

  predicate InRelayPart(p: Phase, job: Job) {
    p.Idle? || ((p.RelayStreaming? || p.RelayAck? || p.RelayFailed? || p.RelayError?) && p.job == job)
  }

  /** The pool, as names and bytes, after one event of a relay. */
  function ViewAfter(hash: Bytes -> string, v: map<string, Bytes>, p: Phase, e: Event): map<string, Bytes> {
    match (e, p)
    case (RelayChunk(bytes), RelayStreaming(job, _, hashed, next)) =>
      if next < job.chunksTotal && TmpOf(job) in v then v[TmpOf(job) := hashed + bytes] else v
    case (Raises(partial), RelayStreaming(job, _, hashed, _)) =>
      if TmpOf(job) in v then v[TmpOf(job) := hashed + partial] else v
    case (StreamEnds(renamed), RelayStreaming(job, _, hashed, next)) =>
      if next >= job.chunksTotal && hash(hashed) == job.sha && renamed && TmpOf(job) in v
      then (v - {TmpOf(job)})[job.sha := hashed] else v
    case (Unlinks(true), RelayFailed(job)) => v - {TmpOf(job)}
    case (Gc(active, undeletable), _) => Kept(v, active, undeletable)
    case _ => v
  }

  lemma StreamStepView(hash: Bytes -> string, s: State, e: Event)
    requires Inv(hash, s) && s.phase.RelayStreaming? && (e.RelayChunk? || e.Raises? || e.StreamEnds?)
    ensures View(Step(hash, s, e)) == ViewAfter(hash, View(s), s.phase, e)
    ensures InRelayPart(Step(hash, s, e).phase, s.phase.job)
  {
    hide Inv, View, Append, TmpOf;
    var s' := Step(hash, s, e);
    match e
    case RelayChunk(bytes) => AppendPhaseView(hash, s, bytes, s'.phase);
    case Raises(partial) => AppendPhaseView(hash, s, partial, s'.phase);
    case StreamEnds(renamed) =>
      FinishView(hash, s, renamed, RelayAck(s.phase.job), RelayFailed(s.phase.job));
      PhaseView(s, RelayFailed(s.phase.job));
  }

  lemma RelayStepView(hash: Bytes -> string, s: State, job: Job, e: Event)
    requires Inv(hash, s) && InRelayPart(s.phase, job) && !e.Start?
    ensures View(Step(hash, s, e)) == ViewAfter(hash, View(s), s.phase, e)
    ensures InRelayPart(Step(hash, s, e).phase, job)
  {
    hide Inv, View, Append, Finish, TmpOf, AfterGc, Remove, Kept;
    var s' := Step(hash, s, e);
    PhaseView(s, s'.phase);
    if s.phase.RelayStreaming? && (e.RelayChunk? || e.Raises? || e.StreamEnds?) {
      StreamStepView(hash, s, e);
    } else if e.Gc? {
      GcKept(s, e.active, e.undeletable);
    } else {
      RemoveView(s, TmpOf(job), s'.phase);
    }
  }

  lemma GcKept(s: State, active: set<string>, undeletable: set<string>)
    ensures View(s.(files := AfterGc(s.files, active, undeletable))) == Kept(View(s), active, undeletable)
  {
    GcView(s, active, undeletable, s.phase);
    hide View, Stale, AfterGc;
  }

  lemma PhaseMoves(hash: Bytes -> string, a: State, b: State, job: Job, e: Event)
    requires Erase(a.phase) == Erase(b.phase) && InRelayPart(a.phase, job) && !e.Start?
    requires TmpOf(job) in a.files <==> TmpOf(job) in b.files
    ensures Erase(Step(hash, a, e).phase) == Erase(Step(hash, b, e).phase)
  {
    hide TmpOf, Append, AfterGc, Remove;
  }

  /** The pools agree on every name but `x`. */
  ghost predicate AgreeBut(v: map<string, Bytes>, w: map<string, Bytes>, x: string) {
    v - {x} == w - {x}
  }

  lemma AgreeButUpdates(v: map<string, Bytes>, w: map<string, Bytes>, x: string, t: string, y: Bytes)
    requires AgreeBut(v, w, x) && t != x
    ensures t in v <==> t in w
    ensures AgreeBut(v[t := y], w[t := y], x) && AgreeBut(v - {t}, w - {t}, x)
    ensures (v - {t})[x := y] == (w - {t})[x := y] && AgreeBut((v - {t})[x := y], (w - {t})[x := y], x)
  {
    assert t in v <==> t in v - {x};
    assert t in w <==> t in w - {x};
    assert v[t := y] - {x} == (v - {x})[t := y] && w[t := y] - {x} == (w - {x})[t := y];
    assert v - {t} - {x} == v - {x} - {t} && w - {t} - {x} == w - {x} - {t};
    assert (v - {t})[x := y] == (v - {x} - {t})[x := y] && (w - {t})[x := y] == (w - {x} - {t})[x := y];
  }

  lemma AgreeButKept(v: map<string, Bytes>, w: map<string, Bytes>, x: string, e: Event)
    requires AgreeBut(v, w, x) && e.Gc?
    ensures AgreeBut(Kept(v, e.active, e.undeletable), Kept(w, e.active, e.undeletable), x)
    ensures Collects(e, x) ==> Kept(v, e.active, e.undeletable) == Kept(w, e.active, e.undeletable)
    ensures !Collects(e, x) ==>
      (x in Kept(v, e.active, e.undeletable) <==> x in v) && (x in Kept(w, e.active, e.undeletable) <==> x in w)
  {
    hide Stale;
    assert forall n :: n in v - {x} <==> n in v && n != x;
    assert forall n :: n in w - {x} <==> n in w && n != x;
    assert forall n :: n in v - {x} ==> v[n] == (v - {x})[n];
    assert forall n :: n in w - {x} ==> w[n] == (w - {x})[n];
  }

  /** The relay stores its file with this event. */
  predicate Stores(hash: Bytes -> string, s: State, e: Event) {
    s.phase.RelayStreaming? && Step(hash, s, e).phase.RelayAck?
  }

  /** The event brings the pools together: the relay renames its file, or a collection takes
      the peer's. */
  predicate Merges(hash: Bytes -> string, s: State, e: Event, x: string) {
    Stores(hash, s, e) || Collects(e, x)
  }

  /** The same relay in two pools that agree on every name but the job's. */
  ghost predicate Near(hash: Bytes -> string, a: State, b: State, job: Job) {
    && Inv(hash, a) && Inv(hash, b) && Erase(a.phase) == Erase(b.phase) && InRelayPart(a.phase, job)
    && AgreeBut(View(a), View(b), job.sha)
  }

  /** Only the first pool holds the job's file. */
  predicate Apart(v: map<string, Bytes>, w: map<string, Bytes>, x: string) {
    x in v && x !in w
  }

  lemma ViewsMove(hash: Bytes -> string, v: map<string, Bytes>, w: map<string, Bytes>, p: Phase, q: Phase, job: Job,
                  e: Event, stores: bool)
    requires AgreeBut(v, w, job.sha) && Erase(p) == Erase(q) && InRelayPart(p, job)
    requires stores == (p.RelayStreaming? && e.StreamEnds? && p.next >= job.chunksTotal
                        && hash(p.hashed) == job.sha && e.renamed && TmpOf(job) in v)
    ensures var v', w' := ViewAfter(hash, v, p, e), ViewAfter(hash, w, q, e);
      && AgreeBut(v', w', job.sha)
      && (stores || Collects(e, job.sha) ==> v' == w')
      && (!stores && !Collects(e, job.sha) && Apart(v, w, job.sha) ==> Apart(v', w', job.sha))
  {
    TmpIsNotDest(job);
    hide TmpOf, AgreeBut, Kept, Stale;
    var t := TmpOf(job);
    if e.Gc? {
      AgreeButKept(v, w, job.sha, e);
    } else if p.RelayStreaming? {
      var y := p.hashed + if e.RelayChunk? then e.bytes else if e.Raises? then e.partial else [];
      AgreeButUpdates(v, w, job.sha, t, y);
      AgreeButUpdates(v, w, job.sha, t, p.hashed);
    } else {
      AgreeButUpdates(v, w, job.sha, t, []);
    }
  }

  lemma StoresWhen(hash: Bytes -> string, s: State, job: Job, e: Event)
    requires InRelayPart(s.phase, job)
    ensures Stores(hash, s, e) <==>
      s.phase.RelayStreaming? && e.StreamEnds? && s.phase.next >= job.chunksTotal
      && hash(s.phase.hashed) == job.sha && e.renamed && TmpOf(job) in View(s)
  {
    ViewKeys(s);
    hide TmpOf, View, Append, AfterGc;
  }

  lemma NearStep(hash: Bytes -> string, a: State, b: State, job: Job, e: Event)
    requires Digest(hash) && Near(hash, a, b, job) && !e.Start?
    ensures var a', b' := Step(hash, a, e), Step(hash, b, e);
      && Near(hash, a', b', job)
      && (Merges(hash, b, e, job.sha) ==> View(a') == View(b'))
      && (!Merges(hash, b, e, job.sha) && Apart(View(a), View(b), job.sha) ==> Apart(View(a'), View(b'), job.sha))
  {
    hide Digest, Inv, View, TmpOf, Step, ViewAfter, AgreeBut, InRelayPart, Collects, Apart;
    StepKeepsInv(hash, a, e);
    StepKeepsInv(hash, b, e);
    SameJob(a.phase, b.phase, job);
    RelayStepView(hash, a, job, e);
    RelayStepView(hash, b, job, e);
    SameTmp(a, b, job);
    PhaseMoves(hash, a, b, job, e);
    assert Stores(hash, a, e) == Stores(hash, b, e);
    StoresWhen(hash, a, job, e);
    ViewsMove(hash, View(a), View(b), a.phase, b.phase, job, e, Stores(hash, a, e));
    hide Erase;
  }

  lemma SameJob(p: Phase, q: Phase, job: Job)
    requires Erase(p) == Erase(q) && InRelayPart(p, job)
    ensures InRelayPart(q, job)
  {}

  lemma SameTmp(a: State, b: State, job: Job)
    requires AgreeBut(View(a), View(b), job.sha)
    ensures TmpOf(job) in a.files <==> TmpOf(job) in b.files
  {
    ViewKeys(a);
    ViewKeys(b);
    TmpIsNotDest(job);
    AgreeButUpdates(View(a), View(b), job.sha, TmpOf(job), []);
    hide View, TmpOf;
  }

  // ---- and over any run ---------------------------------------------------------------------

  /** No other job is begun. */
  predicate NoStart(es: seq<Event>) {
    forall i :: 0 <= i < |es| ==> !es[i].Start?
  }

  predicate MergesAt(hash: Bytes -> string, s: State, es: seq<Event>, x: string, k: int) {
    0 <= k < |es| && Merges(hash, Run(hash, s, es[..k]), es[k], x)
  }

  ghost predicate Merged(hash: Bytes -> string, s: State, es: seq<Event>, x: string) {
    exists k :: MergesAt(hash, s, es, x, k)
  }

  lemma MergedMore(hash: Bytes -> string, s: State, es: seq<Event>, x: string)
    requires es != []
    ensures var n := |es| - 1;
      Merged(hash, s, es, x) <==> Merged(hash, s, es[..n], x) || Merges(hash, Run(hash, s, es[..n]), es[n], x)
  {
    hide Run, Merges;
    var n := |es| - 1;
    forall k | 0 <= k < n ensures MergesAt(hash, s, es[..n], x, k) == MergesAt(hash, s, es, x, k) {
      assert es[..n][..k] == es[..k];
    }
    if k :| MergesAt(hash, s, es[..n], x, k) {
      assert MergesAt(hash, s, es, x, k);
    }
    assert MergesAt(hash, s, es, x, n) <==> Merges(hash, Run(hash, s, es[..n]), es[n], x);
  }

  lemma {:induction false} NearRuns(hash: Bytes -> string, a: State, b: State, job: Job, es: seq<Event>)
    requires Digest(hash) && Near(hash, a, b, job) && Apart(View(a), View(b), job.sha) && NoStart(es)
    ensures var x, y := Run(hash, a, es), Run(hash, b, es);
      && Near(hash, x, y, job)
      && if Merged(hash, b, es, job.sha) then Alike(x, y) else Apart(View(x), View(y), job.sha)
  {
    hide Digest, Inv, View, Step, AgreeBut, InRelayPart, Apart, Merges, Erase;
    if es == [] {
      assert !Merged(hash, b, es, job.sha);
    } else {
      var n := |es| - 1;
      NearRuns(hash, a, b, job, es[..n]);
      RunSnoc(hash, a, es);
      RunSnoc(hash, b, es);
      MergedMore(hash, b, es, job.sha);
      hide Run, Merged;
      var x, y := Run(hash, a, es[..n]), Run(hash, b, es[..n]);
      NearStep(hash, x, y, job, es[n]);
      if Merged(hash, b, es[..n], job.sha) {
        RunAlike(hash, x, y, [es[n]]);
        OneEvent(hash, x, es[n]);
        OneEvent(hash, y, es[n]);
      }
    }
  }

  lemma OneEvent(hash: Bytes -> string, s: State, e: Event)
    ensures Run(hash, s, [e]) == Step(hash, s, e)
  {
    assert Run(hash, s, []) == s;
    hide Step;
  }

  /** Where the peer's file was stored and only its ack lost, the relay that follows goes, event
      by event to the end of the job, as a relay without the peer: the same phases, and the same
      pool but for the job's file, which a failing relay leaves behind. All is the same exactly
      once the relay has renamed its own file or a collection has taken the peer's (from when
      on it stays so, by `RunAlike`). */
  lemma RelayAfterStored(hash: Bytes -> string, s: State, job: Job, peer: seq<Event>, rest: seq<Event>)
    requires Digest(hash) && Inv(hash, s) && s.phase == Idle && job.sha !in s.files
    requires forall i :: 0 <= i < |peer| ==> PeerEvent(peer[i]) || peer[i].Gc?
    requires Tried(hash, s, job, peer).phase == RelayStart(job) && job.sha in Tried(hash, s, job, peer).files
    requires NoStart(rest)
    ensures var a := Step(hash, Tried(hash, s, job, peer), RelayOpens(true));
      var b := Step(hash, Straight(hash, s, job, peer), RelayOpens(true));
      var x, y := Run(hash, a, rest), Run(hash, b, rest);
      && Erase(x.phase) == Erase(y.phase) && AgreeBut(View(x), View(y), job.sha)
      && (Alike(x, y) <==> Merged(hash, b, rest, job.sha))
      && (!Alike(x, y) ==> job.sha in x.files && job.sha !in y.files)
  {
    TriedMeets(hash, s, job, peer);
    var tried, straight := Tried(hash, s, job, peer), Straight(hash, s, job, peer);
    hide Tried, Straight, Inv, View, Digest, Step, Run, PeerEvent, AgreeOff, Merged, AgreeBut;
    var a, b := Step(hash, tried, RelayOpens(true)), Step(hash, straight, RelayOpens(true));
    OpenedNear(hash, tried, straight, job);
    NearRuns(hash, a, b, job, rest);
    var x, y := Run(hash, a, rest), Run(hash, b, rest);
    ViewKeys(x);
    ViewKeys(y);
    assert Apart(View(x), View(y), job.sha) ==> View(x) != View(y);
  }

  lemma OpenedNear(hash: Bytes -> string, tried: State, straight: State, job: Job)
    requires Digest(hash) && Inv(hash, tried) && tried.phase == RelayStart(job) && job.sha in tried.files
    requires ToRelay(hash, straight, job) && AgreeOff(View(tried), View(straight), job)
    ensures var a, b := Step(hash, tried, RelayOpens(true)), Step(hash, straight, RelayOpens(true));
      Near(hash, a, b, job) && Apart(View(a), View(b), job.sha)
  {
    hide Inv, View, Digest, Step, AgreeOff, AgreeBut, TmpOf;
    RelayOpened(hash, tried, job);
    RelayOpened(hash, straight, job);
    ViewKeys(tried);
    ViewKeys(straight);
    TmpIsNotDest(job);
    OffMeets(View(tried), View(straight), job);
  }

  lemma OffMeets(v: map<string, Bytes>, w: map<string, Bytes>, job: Job)
    requires AgreeOff(v, w, job)
    ensures AgreeBut(v[TmpOf(job) := []], w[TmpOf(job) := []], job.sha)
  {
    TmpIsNotDest(job);
    hide TmpOf;
    var t, x := TmpOf(job), job.sha;
    assert v[t := []] - {x} == (v - {t} - {x})[t := []];
    assert w[t := []] - {x} == (w - {t} - {x})[t := []];
  }
}
