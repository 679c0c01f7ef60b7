/** What every run of the wizard's handlers and bootstraps keeps, and what it can still reach. */
module WizardLaws {
  import opened Wrappers
  import opened Wizard

  // ---------- runs ----------

  /** The stored session, the bootstraps still running, and the submissions it accepted. */
  datatype World = World(stored: Option<State>, running: seq<State>, accepted: nat)

  datatype Op =
    | Create(id: string, io: Io)
    | Delete(id: string, io: Io)
    | Submit(id: string, step: Option<Step>, body: Body, dns: Option<DomainResult>, io: Io)
    | RunPreflight(id: string, connects: bool, ran: Option<PreflightResult>, io: Io)
    | StartCommit(id: string, io: Io)
    | Finish(which: nat, b: Bootstrap, first: Io, second: Io)

  predicate Accepts(stored: Option<State>, op: Op)
    requires op.Submit?
  {
    Is(stored, op.id) && op.io.loads && op.io.saves && Submitted(stored.value, op.step, op.body, op.dns).Ok?
  }

  function Next(w: World, op: Op): World {
    match op
    case Create(id, io) =>
      if w.stored.None? && io.loads && io.saves then World(Some(NewState(id)), w.running, 0) else w
    case Delete(id, io) =>
      if Is(w.stored, id) && io.loads && io.saves then w.(stored := None) else w
    case Submit(id, step, body, dns, io) =>
      if Accepts(w.stored, op)
      then w.(stored := Some(Submitted(w.stored.value, step, body, dns).value), accepted := w.accepted + 1) else w
    case RunPreflight(id, connects, ran, io) =>
      if Is(w.stored, id) && io.loads
      then w.(stored := SavedAs(w.stored, Preflighted(w.stored.value, connects, ran), io.saves)) else w
    case StartCommit(id, io) =>
      if io.loads && io.saves && Committable(w.stored, id) then w.(running := w.running + [w.stored.value]) else w
    case Finish(i, b, first, second) =>
      if i >= |w.running| then w
      else World(Finished(w.stored, w.running[i], b, first, second), w.running[..i] + w.running[i + 1..], w.accepted)
  }

  function Run(w: World, ops: seq<Op>): World {
    if ops == [] then w else Next(Run(w, ops[..|ops| - 1]), ops[|ops| - 1])
  }

  // ---------- what each request makes of a session ----------

  /** A new session has nothing in it and stands at the first step. */
  lemma NewSession(id: string)
    ensures var s := NewState(id);
      && s.sessionID == id && s.step == Welcome && s.status == InProgress && s.progress == 0 && s.errorMessage == ""
      && s.inputs.ssh == None && s.inputs.domainMode == "" && s.inputs.domain == "" && s.inputs.cloudflareToken == ""
      && !s.inputs.nipio && s.inputs.firstPeerName == "" && s.inputs.firstPortExpose == None
      && s.preflight == None && s.domainCheck == None
  {
  }

  /** A submission for no step or another step than the session's is refused; four steps take none. */
  lemma RefusedSubmissions(s: State, step: Option<Step>, b: Body, dns: Option<DomainResult>)
    ensures step == None ==> Submitted(s, step, b, dns) == Err(422)
    ensures step.Some? && step.value != s.step ==> Submitted(s, step, b, dns) == Err(409)
    ensures s.step in {Preflight, Commit, Success, Error} ==> Submitted(s, Some(s.step), b, dns) == Err(422)
  {
  }

  lemma SubmittedAtWelcome(s: State, b: Body, dns: Option<DomainResult>)
    requires s.step == Welcome
    ensures Submitted(s, Some(Welcome), b, dns) == Ok(s.(step := SSH, progress := 12))
  {
  }

  /** The credentials are stored as they were sent. */
  lemma SubmittedAtSSH(s: State, b: Body, dns: Option<DomainResult>)
    requires s.step == SSH
    ensures Submitted(s, Some(SSH), b, dns) ==
      if b.decodes && b.ssh.host != "" && b.ssh.port > 0 && b.ssh.user != "" && b.ssh.authType != ""
      then Ok(s.(inputs := s.inputs.(ssh := Some(b.ssh)), step := Preflight, progress := 25)) else Err(422)
  {
  }

  lemma SubmittedAtDomainMode(s: State, b: Body, dns: Option<DomainResult>)
    requires s.step == DomainMode
    ensures Submitted(s, Some(DomainMode), b, dns) ==
      if b.decodes && b.mode == "nipio"
      then Ok(s.(inputs := s.inputs.(domainMode := "nipio", nipio := true), step := CreatePeer, progress := 75))
      else if b.decodes && b.mode == "byo"
      then Ok(s.(inputs := s.inputs.(domainMode := "byo", nipio := false), step := DomainCheck, progress := 50))
      else Err(422)
  {
  }

  /** Without feasible TLS the next step is resolved to one the table does not allow. */
  lemma SubmittedAtDomainCheck(s: State, b: Body, dns: Option<DomainResult>)
    requires s.step == DomainCheck
    ensures Submitted(s, Some(DomainCheck), b, dns) ==
      if !b.decodes || b.domain == "" || dns == None then Err(422)
      else if !dns.value.tlsFeasible then Err(500)
      else
        var t := s.(inputs := s.inputs.(domain := b.domain), domainCheck := dns);
        Ok(if dns.value.cloudflareDetected then t.(step := Cloudflare, progress := 62)
           else t.(step := CreatePeer, progress := 75))
  {
  }

  /** An empty token is accepted as input when Cloudflare is not enabled, but leads nowhere. */
  lemma SubmittedAtCloudflare(s: State, b: Body, dns: Option<DomainResult>)
    requires s.step == Cloudflare
    ensures Submitted(s, Some(Cloudflare), b, dns) ==
      if b.decodes && b.token != ""
      then Ok(s.(inputs := s.inputs.(cloudflareToken := b.token), step := CreatePeer, progress := 75))
      else if b.decodes && !b.enabled then Err(500) else Err(422)
  {
  }

  lemma SubmittedAtCreatePeer(s: State, b: Body, dns: Option<DomainResult>)
    requires s.step == CreatePeer
    ensures Submitted(s, Some(CreatePeer), b, dns) ==
      if b.decodes && b.peerName != ""
      then Ok(s.(inputs := s.inputs.(firstPeerName := b.peerName, firstPortExpose := b.exposePort),
                 step := Commit, progress := 87))
      else Err(422)
  {
  }

  /** A preflight is stored whether it is compatible or not, and only a compatible one moves on. */
  lemma PreflightedExactly(s: State, connects: bool, ran: Option<PreflightResult>)
    ensures Preflighted(s, connects, ran) ==
      if s.step != Preflight then Err(409)
      else if s.inputs.ssh == None then Err(422)
      else if !connects then Err(502)
      else if ran == None then Err(500)
      else if ran.value.compatible then Ok(s.(preflight := ran, step := DomainMode, progress := 37))
      else Ok(s.(preflight := ran))
  {
  }

  /** A commit is launched on the stored session, which stays as it is. */
  lemma LaunchedIff(w: World, id: string, io: Io)
    ensures var v := Next(w, StartCommit(id, io));
      v.stored == w.stored &&
      v.running ==
        if io.loads && io.saves && w.stored.Some? && w.stored.value.sessionID == id &&
           w.stored.value.step == Commit && w.stored.value.status == InProgress
        then w.running + [w.stored.value] else w.running
  {
  }

  /** The end of a bootstrap changes nothing of a session but where it stands. */
  lemma FinishedExactly(s: State, snapshot: State, b: Bootstrap, first: Io, second: Io)
    ensures var good := first.loads && b.boots && b.createsPeer &&
        (snapshot.inputs.firstPortExpose == None || b.exposesRoute);
      Finished(Some(s), snapshot, b, first, second) ==
        if s.step == Commit && good && first.saves
        then Some(s.(step := Success, status := Committed, progress := 100))
        else if s.step == Commit && !good && second.loads && second.saves
        then Some(s.(step := Error, errorMessage := ""))
        else Some(s)
    ensures Finished(None, snapshot, b, first, second) == None
  {
  }

  // ---------- the invariant ----------

  /** Complete SSH credentials. */
  predicate SSHReady(s: State) {
    s.inputs.ssh.Some? &&
    var i := s.inputs.ssh.value;
    i.host != "" && i.port > 0 && i.user != "" && i.authType != ""
  }

  predicate VPSReady(s: State) {
    SSHReady(s) && s.preflight.Some? && s.preflight.value.compatible
  }

  /** Either nip.io, or a domain on which TLS is feasible, with a token if Cloudflare serves it. */
  predicate DomainReady(s: State) {
    || (s.inputs.domainMode == "nipio" && s.inputs.nipio)
    || (s.inputs.domainMode == "byo" && !s.inputs.nipio && s.inputs.domain != "" &&
        s.domainCheck.Some? && s.domainCheck.value.tlsFeasible &&
        (s.domainCheck.value.cloudflareDetected ==> s.inputs.cloudflareToken != ""))
  }

  /** What a session must have brought to stand at its step. */
  predicate Earned(s: State) {
    match s.step
    case Welcome => true
    case SSH => true
    case Preflight => SSHReady(s)
    case DomainMode => VPSReady(s)
    case DomainCheck => VPSReady(s) && s.inputs.domainMode == "byo" && !s.inputs.nipio
    case Cloudflare =>
      VPSReady(s) && s.inputs.domainMode == "byo" && !s.inputs.nipio && s.inputs.domain != "" && s.domainCheck.Some? &&
      s.domainCheck.value.cloudflareDetected && s.domainCheck.value.tlsFeasible
    case CreatePeer => VPSReady(s) && DomainReady(s)
    case _ => VPSReady(s) && DomainReady(s) && s.inputs.firstPeerName != ""
  }

  predicate Good(s: State) {
    && Earned(s)
    && (s.status == Committed <==> s.step == Success)
    && s.status != Abandoned
    && s.progress == (if s.step == Error then StepProgress(Commit) else StepProgress(s.step))
  }

  /** How many submissions a session can still have accepted. */
  function Remaining(s: Step): nat {
    match s
    case Welcome => 6 case SSH => 5 case Preflight => 4 case DomainMode => 4 case DomainCheck => 3
    case Cloudflare => 2 case CreatePeer => 1 case Commit => 0 case Success => 0 case Error => 0
  }

  predicate Inv(w: World) {
    w.stored.Some? ==> Good(w.stored.value) && w.accepted + Remaining(w.stored.value.step) <= 6
  }

  lemma SubmittedIsGood(s: State, step: Option<Step>, b: Body, dns: Option<DomainResult>)
    requires Good(s) && Submitted(s, step, b, dns).Ok?
    ensures var t := Submitted(s, step, b, dns).value;
      && Good(t)
      && t.sessionID == s.sessionID
      && t.progress > s.progress
      && Remaining(t.step) < Remaining(s.step)
  {
  }

  lemma PreflightedIsGood(s: State, connects: bool, ran: Option<PreflightResult>)
    requires Good(s) && Preflighted(s, connects, ran).Ok?
    ensures var t := Preflighted(s, connects, ran).value;
      && Good(t)
      && t.sessionID == s.sessionID
      && t.progress >= s.progress
      && Remaining(t.step) <= Remaining(s.step)
  {
  }

  lemma FinishedIsGood(stored: Option<State>, snapshot: State, b: Bootstrap, first: Io, second: Io)
    requires stored.Some? && Good(stored.value)
    ensures var t := Finished(stored, snapshot, b, first, second);
      && t.Some? && Good(t.value)
      && t.value.sessionID == stored.value.sessionID
      && t.value.progress >= stored.value.progress
      && Remaining(t.value.step) <= Remaining(stored.value.step)
  {
  }

  lemma NextKeepsInv(w: World, op: Op)
    requires Inv(w)
    ensures Inv(Next(w, op))
  {
    match op
    case Submit(id, step, body, dns, io) =>
      if Accepts(w.stored, op) { SubmittedIsGood(w.stored.value, step, body, dns); }
    case RunPreflight(id, connects, ran, io) =>
      if Is(w.stored, id) && Preflighted(w.stored.value, connects, ran).Ok? {
        PreflightedIsGood(w.stored.value, connects, ran);
      }
    case Finish(i, b, first, second) =>
      if i < |w.running| && w.stored.Some? { FinishedIsGood(w.stored, w.running[i], b, first, second); }
    case _ =>
  }

  const NO_SESSION := World(None, [], 0)

  /**
   On every run from no session: a stored session has earned its step, it is committed iff it
   succeeded, and however the requests are ordered it accepts at most six submissions.
   */
  lemma {:induction false} SessionsAreGood(ops: seq<Op>)
    ensures Inv(Run(NO_SESSION, ops))
  {
    if ops != [] {
      SessionsAreGood(ops[..|ops| - 1]);
      NextKeepsInv(Run(NO_SESSION, ops[..|ops| - 1]), ops[|ops| - 1]);
    }
  }

  lemma CommittedSessionIsComplete(ops: seq<Op>)
    ensures var w := Run(NO_SESSION, ops);
      w.stored.Some? && w.stored.value.status == Committed ==>
        && w.stored.value.step == Success && w.stored.value.progress == 100
        && VPSReady(w.stored.value) && DomainReady(w.stored.value) && w.stored.value.inputs.firstPeerName != ""
        && w.accepted <= 6
  {
    SessionsAreGood(ops);
  }

  /** Progress of a session never goes back, and every accepted submission moves it forward. */
  lemma ProgressNeverDecreases(ops: seq<Op>, op: Op)
    ensures var w := Run(NO_SESSION, ops); var v := Next(w, op);
      && (w.stored.Some? && v.stored.Some? && !op.Create? ==>
            v.stored.value.sessionID == w.stored.value.sessionID && v.stored.value.progress >= w.stored.value.progress)
      && (op.Submit? && Accepts(w.stored, op) ==>
            v.stored.Some? && v.stored.value.progress > w.stored.value.progress)
  {
    SessionsAreGood(ops);
    var w := Run(NO_SESSION, ops);
    match op
    case Submit(id, step, body, dns, io) =>
      if Accepts(w.stored, op) { SubmittedIsGood(w.stored.value, step, body, dns); }
    case RunPreflight(id, connects, ran, io) =>
      if Is(w.stored, id) && Preflighted(w.stored.value, connects, ran).Ok? {
        PreflightedIsGood(w.stored.value, connects, ran);
      }
    case Finish(i, b, first, second) =>
      if i < |w.running| && w.stored.Some? { FinishedIsGood(w.stored, w.running[i], b, first, second); }
    case _ =>
  }

  // ---------- what can still be reached ----------

  const WORKS := Io(true, true)
  const GOOD_BODY := Body(
    true, SSHInput("host", 22, "root", "key", "", ""), "nipio", "example.org", "token", true, "peer", None)

  /** A request, or the end of a bootstrap, that moves a session one step on. */
  function Push(w: World): Op
    requires w.stored.Some?
  {
    var s := w.stored.value;
    match s.step
    case Preflight => RunPreflight(s.sessionID, true, Some(PreflightResult(true, true)), WORKS)
    case Commit =>
      if w.running == [] then StartCommit(s.sessionID, WORKS)
      else Finish(0, Bootstrap(true, true, true), WORKS, WORKS)
    case _ => Submit(s.sessionID, Some(s.step), GOOD_BODY, Some(DomainResult(false, true)), WORKS)
  }

  predicate Stuck(s: State) { s.step == Error || s.step == Success }

  predicate BeforeCommit(s: State) { !Stuck(s) && s.step != Commit }

  /** Distance to success, with one more for a bootstrap that has yet to be started. */
  function Distance(w: World): nat
    requires w.stored.Some?
  {
    match w.stored.value.step
    case Welcome => 9 case SSH => 8 case Preflight => 7 case DomainMode => 6 case DomainCheck => 5
    case Cloudflare => 4 case CreatePeer => 3
    case Commit => if w.running == [] then 2 else 1
    case _ => 0
  }

  /** The good body is accepted at every step that takes one. */
  lemma PushIsAccepted(s: State)
    requires Good(s) && BeforeCommit(s) && s.step != Preflight
    ensures var r := Submitted(s, Some(s.step), GOOD_BODY, Some(DomainResult(false, true)));
      && r.Ok? && Remaining(r.value.step) < Remaining(s.step)
      && r.value.step != Success && r.value.sessionID == s.sessionID
  {
  }

  lemma PushMoves(w: World)
    requires Inv(w) && w.stored.Some? && !Stuck(w.stored.value)
    ensures var v := Next(w, Push(w));
      && Inv(v) && v.stored.Some? && v.stored.value.step != Error
      && v.stored.value.sessionID == w.stored.value.sessionID
      && Distance(v) < Distance(w)
  {
    NextKeepsInv(w, Push(w));
    if BeforeCommit(w.stored.value) && w.stored.value.step != Preflight {
      PushIsAccepted(w.stored.value);
    }
  }

  lemma {:induction false} RunConcat(w: World, a: seq<Op>, b: seq<Op>)
    ensures Run(w, a + b) == Run(Run(w, a), b)
    decreases b
  {
    if b == [] {
      assert a + b == a;
    } else {
      var n := |b| - 1;
      assert (a + b)[..|a + b| - 1] == a + b[..n];
      RunConcat(w, a, b[..n]);
    }
  }

  lemma RunOne(w: World, op: Op)
    ensures Run(w, [op]) == Next(w, op)
  {
  }

  /** No session short of an error is a dead end: some requests still bring it to success. */
  lemma {:induction false} SuccessIsReachable(w: World) returns (ops: seq<Op>)
    requires Inv(w) && w.stored.Some? && w.stored.value.step != Error
    ensures var v := Run(w, ops);
      v.stored.Some? && v.stored.value.step == Success && v.stored.value.sessionID == w.stored.value.sessionID
    decreases Distance(w)
  {
    if w.stored.value.step == Success {
      ops := [];
    } else {
      PushMoves(w);
      ops := SuccessIsReachable(Next(w, Push(w)));
      RunOne(w, Push(w));
      RunConcat(w, [Push(w)], ops);
      ops := [Push(w)] + ops;
    }
  }

  /** A session in error stays as it is until it is deleted: no handler dispatches a retry. */
  lemma ErrorIsFinal(w: World, op: Op)
    requires w.stored.Some? && w.stored.value.step == Error
    ensures Next(w, op).stored == w.stored || (op.Delete? && Next(w, op).stored == None)
  {
  }

  /** So is a session that succeeded. */
  lemma SuccessIsFinal(w: World, op: Op)
    requires w.stored.Some? && w.stored.value.step == Success
    ensures Next(w, op).stored == w.stored || (op.Delete? && Next(w, op).stored == None)
  {
  }

  /** This bootstrap changes the status of whatever session is stored. */
  predicate Commits(w: World, op: Op) {
    var v := Next(w, op);
    v.stored.Some? && v.stored.value.status == Committed && (w.stored.Some? ==> w.stored.value.status != Committed)
  }

  predicate Fails(w: World, op: Op) {
    var v := Next(w, op);
    v.stored.Some? && v.stored.value.step == Error && (w.stored.Some? ==> w.stored.value.step != Error)
  }

  /**
   A bootstrap does not check which session it ran for. However its phases and its file
   operations turn out, it commits the session stored at its end iff it succeeds, the state file
   can be read and written, and that session stands at the commit step; it puts that session
   into error iff it fails or cannot read the file at first, and can read and write it after that.
   */
  lemma BootstrapEndsIff(w: World, which: nat, b: Bootstrap, first: Io, second: Io)
    requires Inv(w) && which < |w.running|
    ensures var op := Finish(which, b, first, second);
      var good := Succeeds(w.running[which], b) && first.loads;
      var atCommit := w.stored.Some? && w.stored.value.step == Commit;
      && (Commits(w, op) <==> atCommit && good && first.saves)
      && (Fails(w, op) <==> atCommit && !good && second.loads && second.saves)
  {
  }

  /** Requests alone bring a fresh session to the commit step. */
  lemma {:induction false} CommitIsReachable(w: World) returns (ops: seq<Op>)
    requires Inv(w) && w.stored.Some? && !Stuck(w.stored.value)
    ensures var v := Run(w, ops);
      && Inv(v) && v.stored.Some? && v.stored.value.step == Commit
      && v.stored.value.sessionID == w.stored.value.sessionID && v.running == w.running
    ensures forall op :: op in ops ==> !op.StartCommit?
    decreases Distance(w)
  {
    if w.stored.value.step == Commit {
      ops := [];
    } else {
      PushMoves(w);
      ops := CommitIsReachable(Next(w, Push(w)));
      RunOne(w, Push(w));
      RunConcat(w, [Push(w)], ops);
      ops := [Push(w)] + ops;
    }
  }

  /** A fresh session at the commit step, over whatever bootstraps are running. */
  lemma FreshSessionToCommit(w: World, id: string) returns (ops: seq<Op>)
    requires w.stored.None?
    ensures var v := Run(w, ops);
      && Inv(v) && v.stored.Some? && v.stored.value.step == Commit
      && v.stored.value.sessionID == id && v.running == w.running
    ensures forall op :: op in ops ==> !op.StartCommit?
  {
    var v := Next(w, Create(id, WORKS));
    RunOne(w, Create(id, WORKS));
    ops := CommitIsReachable(v);
    RunConcat(w, [Create(id, WORKS)], ops);
    ops := [Create(id, WORKS)] + ops;
  }

  /** A session that starts a bootstrap and is deleted leaves the bootstrap running. */
  lemma LaunchedAndDeleted(id: string) returns (ops: seq<Op>)
    ensures Run(NO_SESSION, ops).stored.None? && |Run(NO_SESSION, ops).running| == 1
    ensures forall op :: op in ops && op.StartCommit? ==> op.id == id
  {
    ops := FreshSessionToCommit(NO_SESSION, id);
    var w := Run(NO_SESSION, ops);
    var launch, delete := StartCommit(id, WORKS), Delete(id, WORKS);
    RunConcat(NO_SESSION, ops, [launch]);
    RunOne(w, launch);
    RunConcat(NO_SESSION, ops + [launch], [delete]);
    RunOne(Next(w, launch), delete);
    ops := ops + [launch] + [delete];
  }

  /** One session starts a bootstrap and is deleted; another stands at the commit step meanwhile. */
  lemma BootstrapOutlivesSession(first: string, second: string) returns (ops: seq<Op>)
    requires first != second
    ensures var w := Run(NO_SESSION, ops);
      && w.stored.Some? && w.stored.value.sessionID == second && w.stored.value.step == Commit && |w.running| == 1
    ensures forall op :: op in ops && op.StartCommit? ==> op.id == first
  {
    var a := LaunchedAndDeleted(first);
    var b := FreshSessionToCommit(Run(NO_SESSION, a), second);
    RunConcat(NO_SESSION, a, b);
    ops := a + b;
  }

  /**
   So a session can be committed or put into error that never started a bootstrap: the one that
   is still running for a deleted session ends.
   */
  lemma ForeignBootstrapEnds(first: string, second: string, works: bool) returns (ops: seq<Op>)
    requires first != second
    ensures var w := Run(NO_SESSION, ops);
      w.stored.Some? && w.stored.value.sessionID == second && w.stored.value.step == if works then Success else Error
    ensures forall op :: op in ops && op.StartCommit? ==> op.id == first
  {
    ops := BootstrapOutlivesSession(first, second);
    var w, finish := Run(NO_SESSION, ops), Finish(0, Bootstrap(works, true, true), WORKS, WORKS);
    RunConcat(NO_SESSION, ops, [finish]);
    RunOne(w, finish);
    ops := ops + [finish];
  }
}
