/**
 The setup wizard: a guarded state machine stored in one file, driven by HTTP handlers and by
 bootstraps that finish in the background. Each handler loads, reduces and saves in one step;
 SSH, DNS, the bootstrap itself and the file system are arbitrary outcomes.
 */
module Wizard {
  import opened Wrappers

  datatype Step =
    | Welcome | SSH | Preflight | DomainMode | DomainCheck | Cloudflare | CreatePeer | Commit | Success | Error

  datatype Status = InProgress | Committed | Abandoned

  datatype SSHInput = SSHInput(
    host: string, port: int, user: string, authType: string, keyPath: string, password: string)

  datatype PortExpose = PortExpose(localPort: int, subdomain: string)

  datatype Inputs = Inputs(
    ssh: Option<SSHInput>, domainMode: string, domain: string, cloudflareToken: string, nipio: bool,
    firstPeerName: string, firstPortExpose: Option<PortExpose>)

  datatype PreflightResult = PreflightResult(compatible: bool, port80Free: bool)

  datatype DomainResult = DomainResult(cloudflareDetected: bool, tlsFeasible: bool)

  datatype State = State(
    sessionID: string, step: Step, status: Status, inputs: Inputs,
    preflight: Option<PreflightResult>, domainCheck: Option<DomainResult>, progress: int, errorMessage: string)

  function NewState(id: string): State {
    State(id, Welcome, InProgress, Inputs(None, "", "", "", false, "", None), None, None, 0, "")
  }

  function StepProgress(s: Step): int {
    match s
    case Welcome => 0 case SSH => 12 case Preflight => 25 case DomainMode => 37 case DomainCheck => 50
    case Cloudflare => 62 case CreatePeer => 75 case Commit => 87 case Success => 100 case Error => 0
  }

  // ---------- the reducer ----------

  /** The transition table: the first entry for a pair of steps decides. */
  predicate Allowed(from: Step, to: Step, s: State) {
    match (from, to)
    case (Welcome, SSH) => true
    case (SSH, Welcome) => true
    case (SSH, Preflight) => s.inputs.ssh.Some?
    case (Preflight, SSH) => true
    case (Preflight, DomainMode) => s.preflight.Some? && s.preflight.value.compatible
    case (DomainMode, Preflight) => true
    case (DomainMode, DomainCheck) => s.inputs.domainMode == "byo"
    case (DomainMode, CreatePeer) => s.inputs.domainMode == "nipio"
    case (DomainCheck, DomainMode) => true
    case (DomainCheck, Cloudflare) =>
      s.domainCheck.Some? && s.domainCheck.value.cloudflareDetected && s.domainCheck.value.tlsFeasible
    case (DomainCheck, CreatePeer) =>
      s.domainCheck.Some? && s.domainCheck.value.tlsFeasible && !s.domainCheck.value.cloudflareDetected
    case (Cloudflare, DomainCheck) => true
    case (Cloudflare, CreatePeer) => s.inputs.cloudflareToken != ""
    case (CreatePeer, Cloudflare) => true
    case (CreatePeer, DomainMode) => true
    case (CreatePeer, Commit) => s.inputs.firstPeerName != ""
    case (Commit, Success) => true
    case (Commit, Error) => true
    case (Error, SSH) => true
    case (Error, Welcome) => true
    case _ => false
  }

  /** The actions that handlers and bootstraps dispatch. */
  datatype Action =
    | StepComplete(target: Step)
    | PreflightDone(result: PreflightResult)
    | CommitStart
    | CommitSuccess
    | CommitFailure(message: string)
    | Abandon

  /** The reducer; None stands for its errors, among them a session that is no longer there. */
  function Reduce(stored: Option<State>, a: Action): Option<State> {
    if stored.None? then None
    else
      var s := stored.value;
      match a
      case StepComplete(t) =>
        if Allowed(s.step, t, s) then Some(s.(step := t, progress := StepProgress(t))) else None
      case PreflightDone(r) =>
        if s.step != Preflight then None
        else if r.compatible then
          Some(s.(preflight := Some(r), step := DomainMode, progress := StepProgress(DomainMode)))
        else Some(s.(preflight := Some(r)))
      case CommitStart => if s.step == Commit then stored else None
      case CommitSuccess =>
        if s.step == Commit then Some(s.(step := Success, status := Committed, progress := 100)) else None
      case CommitFailure(m) =>
        if s.step == Commit then Some(s.(step := Error, errorMessage := m)) else None
      case Abandon => Some(s.(status := Abandoned))
  }

  // ---------- the handlers ----------

  /** A request body: the fields of every step, zero when absent; a body may not decode. */
  datatype Body = Body(
    decodes: bool, ssh: SSHInput, mode: string, domain: string, token: string, enabled: bool,
    peerName: string, exposePort: Option<PortExpose>)

  /** Whether loading and saving the state file work. */
  datatype Io = Io(loads: bool, saves: bool)

  function ApplyStepInput(s: State, b: Body): Option<State> {
    match s.step
    case Welcome => Some(s)
    case SSH =>
      if b.decodes && b.ssh.host != "" && b.ssh.port > 0 && b.ssh.user != "" && b.ssh.authType != ""
      then Some(s.(inputs := s.inputs.(ssh := Some(b.ssh)))) else None
    case DomainMode =>
      if b.decodes && (b.mode == "byo" || b.mode == "nipio")
      then Some(s.(inputs := s.inputs.(domainMode := b.mode, nipio := b.mode == "nipio"))) else None
    case DomainCheck =>
      if b.decodes && b.domain != "" then Some(s.(inputs := s.inputs.(domain := b.domain))) else None
    case Cloudflare =>
      if b.decodes && !(b.enabled && b.token == "")
      then Some(s.(inputs := s.inputs.(cloudflareToken := b.token))) else None
    case CreatePeer =>
      if b.decodes && b.peerName != ""
      then Some(s.(inputs := s.inputs.(firstPeerName := b.peerName, firstPortExpose := b.exposePort))) else None
    case _ => None
  }

  function ResolveNextStep(s: State): Option<Step> {
    match s.step
    case Welcome => Some(SSH)
    case SSH => Some(Preflight)
    case DomainMode => Some(if s.inputs.domainMode == "nipio" then CreatePeer else DomainCheck)
    case DomainCheck =>
      if s.domainCheck.Some? && s.domainCheck.value.cloudflareDetected && s.domainCheck.value.tlsFeasible
      then Some(Cloudflare) else Some(CreatePeer)
    case Cloudflare => Some(CreatePeer)
    case CreatePeer => Some(Commit)
    case _ => None
  }

  /** What a step submission makes of the loaded state, or the HTTP status of its refusal. */
  function Submitted(s: State, step: Option<Step>, b: Body, dns: Option<DomainResult>): Result<State, int> {
    if step.None? then Err(422)
    else if s.step != step.value then Err(409)
    else
      var input := ApplyStepInput(s, b);
      if input.None? then Err(422)
      else if s.step == DomainCheck && dns.None? then Err(422)
      else
        var s1 := if s.step == DomainCheck then input.value.(domainCheck := dns) else input.value;
        var next := ResolveNextStep(s1);
        if next.None? then Err(422)
        else
          var s2 := Reduce(Some(s1), StepComplete(next.value));
          if s2.None? then Err(500) else Ok(s2.value)
  }

  function Preflighted(s: State, connects: bool, ran: Option<PreflightResult>): Result<State, int> {
    if s.step != Preflight then Err(409)
    else if s.inputs.ssh.None? then Err(422)
    else if !connects then Err(502)
    else if ran.None? then Err(500)
    else Ok(Reduce(Some(s), PreflightDone(ran.value)).value)
  }

  /** The file after a handler that computed `r`. */
  function SavedAs(stored: Option<State>, r: Result<State, int>, saves: bool): Option<State> {
    if r.Ok? && saves then Some(r.value) else stored
  }

  predicate Is(stored: Option<State>, id: string) { stored.Some? && stored.value.sessionID == id }

  /** How the three phases of a bootstrap end; the route is only exposed if one was asked for. */
  datatype Bootstrap = Bootstrap(boots: bool, createsPeer: bool, exposesRoute: bool)

  predicate Succeeds(snapshot: State, b: Bootstrap) {
    b.boots && b.createsPeer && (snapshot.inputs.firstPortExpose.Some? ==> b.exposesRoute)
  }

  /** The file after a bootstrap: it reloads whatever session is stored by then. */
  function Finished(stored: Option<State>, snapshot: State, b: Bootstrap, first: Io, second: Io): Option<State> {
    if Succeeds(snapshot, b) && first.loads then Updated(stored, Reduce(stored, CommitSuccess), first.saves)
    else if second.loads then Updated(stored, Reduce(stored, CommitFailure("")), second.saves)
    else stored
  }

  function Updated(stored: Option<State>, reduced: Option<State>, saves: bool): Option<State> {
    if reduced.Some? && saves then reduced else stored
  }

  class Handler {
    var stored: Option<State>

    constructor (stored: Option<State>)
      ensures this.stored == stored
    {
      this.stored := stored;
    }

    method CreateSession(id: string, io: Io) returns (status: int)
      modifies this
      ensures stored == if old(stored).None? && io.loads && io.saves then Some(NewState(id)) else old(stored)
      ensures status == 200 <==> old(stored).None? && io.loads && io.saves
    {
      if !io.loads {
        return 500;
      }
      if stored.Some? {
        return 409;
      }
      if !io.saves {
        return 500;
      }
      stored := Some(NewState(id));
      status := 200;
    }

    /** The abandoned state is never saved: the file is deleted instead. */
    method DeleteSession(id: string, io: Io) returns (status: int)
      modifies this
      ensures stored == if Is(old(stored), id) && io.loads && io.saves then None else old(stored)
      ensures status == 200 <==> Is(old(stored), id) && io.loads && io.saves
    {
      if !io.loads {
        return 500;
      }
      if !Is(stored, id) {
        return 404;
      }
      var abandoned := Reduce(stored, Abandon);
      if abandoned.None? || !io.saves {
        return 500;
      }
      stored := None;
      status := 200;
    }

    method SubmitStep(id: string, step: Option<Step>, body: Body, dns: Option<DomainResult>, io: Io)
      returns (status: int)
      modifies this
      ensures stored ==
        if Is(old(stored), id) && io.loads
        then SavedAs(old(stored), Submitted(old(stored).value, step, body, dns), io.saves)
        else old(stored)
      ensures status == 200 <==>
        Is(old(stored), id) && io.loads && io.saves && Submitted(old(stored).value, step, body, dns).Ok?
    {
      if !io.loads {
        return 500;
      }
      if !Is(stored, id) {
        return 404;
      }
      if step.None? {
        return 422;
      }
      var state := stored.value;
      if state.step != step.value {
        return 409;
      }
      var input := ApplyStepInput(state, body);
      if input.None? {
        return 422;
      }
      state := input.value;
      if step.value == DomainCheck {
        if dns.None? {
          return 422;
        }
        state := state.(domainCheck := dns);
      }
      var next := ResolveNextStep(state);
      if next.None? {
        return 422;
      }
      var updated := Reduce(Some(state), StepComplete(next.value));
      if updated.None? || !io.saves {
        return 500;
      }
      stored := updated;
      status := 200;
    }

    method RunPreflight(id: string, connects: bool, ran: Option<PreflightResult>, io: Io) returns (status: int)
      modifies this
      ensures stored ==
        if Is(old(stored), id) && io.loads
        then SavedAs(old(stored), Preflighted(old(stored).value, connects, ran), io.saves)
        else old(stored)
    {
      if !io.loads {
        return 500;
      }
      if !Is(stored, id) {
        return 404;
      }
      var state := stored.value;
      if state.step != Preflight {
        return 409;
      }
      if state.inputs.ssh.None? {
        return 422;
      }
      if !connects {
        return 502;
      }
      if ran.None? {
        return 500;
      }
      var updated := Reduce(Some(state), PreflightDone(ran.value));
      if updated.None? || !io.saves {
        return 500;
      }
      stored := updated;
      status := if ran.value.compatible then 200 else 422;
    }

    /** Starts a bootstrap; the result is the snapshot it runs on. */
    method StartCommit(id: string, io: Io) returns (launched: Option<State>)
      modifies this
      ensures stored == old(stored)
      ensures launched == if io.loads && io.saves && Committable(stored, id) then stored else None
    {
      if !io.loads || !Is(stored, id) || stored.value.step != Commit || stored.value.status != InProgress {
        return None;
      }
      var updated := Reduce(stored, CommitStart);
      if updated.None? || !io.saves {
        return None;
      }
      stored := updated;
      launched := updated;
    }

    method RunBootstrap(snapshot: State, b: Bootstrap, first: Io, second: Io)
      modifies this
      ensures stored == Finished(old(stored), snapshot, b, first, second)
    {
      if !b.boots {
        FailCommit(second);
        return;
      }
      if !b.createsPeer {
        FailCommit(second);
        return;
      }
      if snapshot.inputs.firstPortExpose.Some? && !b.exposesRoute {
        FailCommit(second);
        return;
      }
      if !first.loads {
        FailCommit(second);
        return;
      }
      var updated := Reduce(stored, CommitSuccess);
      if updated.None? || !first.saves {
        return;
      }
      stored := updated;
    }

    method FailCommit(io: Io)
      modifies this
      ensures stored ==
        if io.loads then Updated(old(stored), Reduce(old(stored), CommitFailure("")), io.saves) else old(stored)
    {
      if !io.loads {
        return;
      }
      var updated := Reduce(stored, CommitFailure(""));
      if updated.None? || !io.saves {
        return;
      }
      stored := updated;
    }
  }

  predicate Committable(stored: Option<State>, id: string) {
    Is(stored, id) && stored.value.step == Commit && stored.value.status == InProgress
  }
}
