/** Authentication and handshake of a session that requires authentication (incoming.go,
    session.go). A call reads the session state in its guards and acts later, so between the two
    any other goroutine may run: a passed guard leaves a ticket, and a later step spends it. */
module AuthHistory {
  import opened Base

  datatype Role = Client | Server

  datatype State =
    | New | AuthPending | AuthAccepted | AuthRejected | HelloSent | Established | Draining | Closing | Closed | Failed

  /** What a received frame leads to. `capability` is the one its type requires, if any, and
      `whileDraining` says whether its type is still allowed in a draining session. A handler
      frame is a text, request, response or transfer frame that reaches an application handler. */
  datatype Frame =
    | Auth
    | AuthAccept
    | AuthReject
    | Hello(capabilities: set<nat>)
    | HelloAck(capabilities: set<nat>)
    | Close(drain: bool)
    | CloseAck
    | GoAway(drain: bool)
    | Handled(capability: Option<nat>, whileDraining: bool)
    | Other(capability: Option<nat>, whileDraining: bool)

  const GRACEFUL_CLOSE := 10

  /** Where an operation stands after the guards it has passed. */
  datatype Ticket =
    | Deciding                    // HandleAuth may accept or reject
    | Accepting                   // HandleAuthAccept will store the state
    | Authenticated(frame: Frame) // EnsureAuthenticatedFor let the frame pass
    | Allowed(frame: Frame)       // so did ensureIncomingState
    | Capable(frame: Frame)       // and requireCapability
    | Establishing                // the remote Hello was stored, established() is next
    | EstablishingByHand          // the same, in a call that no guard preceded
    | Greeting                    // SendHello is allowed, HelloSent is next
    | Drains(force: bool)         // a drain was found to be supported

  /** `accepted`, `calls` record history: whether the session ever became authenticated, and how
      many application handlers were called. */
  datatype Session = Session(
    role: Role, capabilities: set<nat>, state: State, remoteCaps: set<nat>, tickets: multiset<Ticket>,
    accepted: bool, calls: nat)

  datatype Step =
    | Arrive(frame: Frame)
    | CheckState(frame: Frame)
    | CheckCapability(frame: Frame)
    | Decide(accept: bool)
    | StoreAccepted
    | StoreHello(frame: Frame)
    | Establish
    | CallHandler(frame: Frame)
    | GoAwayReceived(frame: Frame)
    | CloseReceived(frame: Frame)
    | StartDrain(ticket: Ticket)
    | LocalAcceptAuth
    | LocalSendHello
    | SendHelloNow
    | LocalHelloAck
    | LocalHandleHello(capabilities: set<nat>)
    | LocalHandleHelloAck(capabilities: set<nat>)
    | EstablishByHand
    | LocalDrain(force: bool)
    | Pend
    | Shut(to: State)
    | Drop(ticket: Ticket)

  /** The states in which `EnsureAuthenticatedFor` lets a frame pass. */
  predicate Trusted(state: State) {
    state.AuthAccepted? || state.HelloSent? || state.Established? || state.Draining?
  }

  /** The first guard of `HandleFrame`, and the ticket it leaves. */
  function Admission(s: Session, f: Frame): Option<Ticket> {
    match f
    case Auth => if s.role == Server && (s.state.New? || s.state.AuthPending?) then Some(Deciding) else None
    case AuthAccept => if s.role == Client && s.state.AuthPending? then Some(Accepting) else None
    case AuthReject => None
    case Close(_) => Some(Authenticated(f))
    case _ => if Trusted(s.state) then Some(Authenticated(f)) else None
  }

  /** `ensureIncomingState`. */
  predicate StateAllows(s: Session, f: Frame) {
    match f
    case Hello(_) => s.role == Server && (s.state.New? || s.state.AuthAccepted?)
    case HelloAck(_) => s.role == Client && s.state.HelloSent?
    case Close(_) => true
    case CloseAck => s.state.Closing? || s.state.Draining? || s.state.Closed?
    case GoAway(_) => s.state.Established?
    case Handled(_, whileDraining) => s.state.Established? || (whileDraining && s.state.Draining?)
    case Other(_, whileDraining) => s.state.Established? || (whileDraining && s.state.Draining?)
    case _ => false
  }

  predicate Supports(s: Session, capability: nat) {
    capability in s.capabilities && capability in s.remoteCaps
  }

  /** `requireCapability`, for the capability of the frame type or of a draining close. */
  predicate CapabilityAllows(s: Session, f: Frame) {
    match f
    case Close(drain) => drain ==> Supports(s, GRACEFUL_CLOSE)
    case GoAway(drain) => drain ==> Supports(s, GRACEFUL_CLOSE)
    case Handled(Some(c), _) => Supports(s, c)
    case Other(Some(c), _) => Supports(s, c)
    case _ => true
  }

  predicate Enabled(s: Session, step: Step) {
    match step
    case Arrive(f) => Admission(s, f).Some?
    case CheckState(f) => Authenticated(f) in s.tickets && StateAllows(s, f)
    case CheckCapability(f) => Allowed(f) in s.tickets && CapabilityAllows(s, f)
    case Decide(_) => Deciding in s.tickets
    case StoreAccepted => Accepting in s.tickets
    case StoreHello(f) => Capable(f) in s.tickets && (f.Hello? || f.HelloAck?)
    case Establish => Establishing in s.tickets
    case CallHandler(f) => Capable(f) in s.tickets && f.Handled?
    case GoAwayReceived(f) => Capable(f) in s.tickets && f.GoAway?
    case CloseReceived(f) => Capable(f) in s.tickets && f.Close?
    case StartDrain(t) => t in s.tickets && t.Drains?
    case LocalAcceptAuth => true
    case LocalSendHello => s.role == Client && (s.state.New? || s.state.AuthAccepted?) && Trusted(s.state)
    case SendHelloNow => Greeting in s.tickets
    case LocalHelloAck => s.role == Server
    case LocalHandleHello(_) => true
    case LocalHandleHelloAck(_) => true
    case EstablishByHand => EstablishingByHand in s.tickets
    case LocalDrain(_) => Supports(s, GRACEFUL_CLOSE)
    case Pend => true
    case Shut(to) => to.AuthRejected? || to.Closing? || to.Closed? || to.Failed?
    case Drop(t) => t in s.tickets
  }

  function Spend(s: Session, t: Ticket): Session {
    s.(tickets := s.tickets - multiset{t})
  }

  function Exchange(s: Session, t: Ticket, next: Ticket): Session {
    s.(tickets := s.tickets - multiset{t} + multiset{next})
  }

  /** `beginPeerClose` towards `Draining`, `beginLocalClose`, or the plain store of `SendGoAway`. */
  function DrainState(state: State, force: bool): State {
    if force then Draining
    else if state.Closed? || state.Closing? || state.Draining? then state
    else Draining
  }

  /** A remote Hello handed to the session by a direct call: `HandleHello` and `HandleHelloAck` are
      exported and store it without looking at the session state. `next` says whether the call
      goes on to establish the session. */
  function StoreByHand(s: Session, capabilities: set<nat>, next: bool): Session {
    s.(remoteCaps := capabilities * s.capabilities,
       tickets := if next then s.tickets + multiset{EstablishingByHand} else s.tickets)
  }

  /** `Pend` and `Shut` stand for the stores of `AuthPending`, `AuthRejected`, `Closing`, `Closed`
      and `Failed`, wherever they happen. */
  function Do(s: Session, step: Step): Session
    requires Enabled(s, step)
  {
    match step
    case Arrive(f) => s.(tickets := s.tickets + multiset{Admission(s, f).value})
    case CheckState(f) => Exchange(s, Authenticated(f), Allowed(f))
    case CheckCapability(f) => Exchange(s, Allowed(f), Capable(f))
    case Decide(accept) =>
      if accept then Spend(s, Deciding).(state := AuthAccepted, accepted := true)
      else Spend(s, Deciding).(state := AuthRejected)
    case StoreAccepted => Spend(s, Accepting).(state := AuthAccepted, accepted := true)
    case StoreHello(f) =>
      Exchange(s, Capable(f), Establishing).(remoteCaps := f.capabilities * s.capabilities)
    case Establish => Spend(s, Establishing).(state := Established)
    case CallHandler(f) => Spend(s, Capable(f)).(calls := s.calls + 1)
    case GoAwayReceived(f) =>
      if f.drain then Exchange(s, Capable(f), Drains(true)) else Spend(s, Capable(f)).(state := Closing)
    case CloseReceived(f) =>
      if f.drain then Exchange(s, Capable(f), Drains(false))
      else Spend(s, Capable(f)).(state := if s.state.Closed? then Closed else Closing)
    case StartDrain(t) => Spend(s, t).(state := DrainState(s.state, t.force))
    case LocalAcceptAuth => s.(state := AuthAccepted, accepted := true)
    case LocalSendHello => s.(tickets := s.tickets + multiset{Greeting})
    case SendHelloNow => Spend(s, Greeting).(state := HelloSent)
    case LocalHelloAck => s.(state := Established)
    case LocalHandleHello(capabilities) => StoreByHand(s, capabilities, s.role == Server)
    case LocalHandleHelloAck(capabilities) => StoreByHand(s, capabilities, true)
    case EstablishByHand => Spend(s, EstablishingByHand).(state := Established)
    case LocalDrain(force) => s.(tickets := s.tickets + multiset{Drains(force)})
    case Pend => s.(state := AuthPending)
    case Shut(to) => s.(state := to)
    case Drop(t) => Spend(s, t)
  }

  // ---------------------------------------------------------------- safety

  /** A sign that the session is treated as authenticated. */
  predicate Privileged(s: Session) {
    s.remoteCaps != {} || Trusted(s.state) || s.calls > 0
  }

  /** The history safety property. */
  predicate Safe(s: Session) {
    Privileged(s) ==> s.accepted
  }

  /** A ticket that only an authenticated session hands out. */
  predicate NeedsAuth(t: Ticket) {
    match t
    case Deciding => false
    case Accepting => false
    case EstablishingByHand => false
    case Authenticated(f) => !f.Close?
    case Allowed(f) => !f.Close?
    case Capable(f) => !f.Close? || f.drain
    case _ => true
  }

  predicate Clean(s: Session) {
    !Privileged(s) && forall t :: t in s.tickets ==> !NeedsAuth(t)
  }

  predicate Inv(s: Session) {
    s.accepted || Clean(s)
  }

  /** A store made by a direct call of `SendHelloAck`, `HandleHello` or `HandleHelloAck` that has
      an effect, in a session that was never authenticated. */
  predicate Unearned(s: Session, step: Step) {
    && !s.accepted
    && match step
       case LocalHelloAck => s.role == Server
       case LocalHandleHello(capabilities) => capabilities * s.capabilities != {}
       case LocalHandleHelloAck(capabilities) => capabilities * s.capabilities != {}
       case EstablishByHand => true
       case _ => false
  }

  /** A direct call of one of the three. */
  predicate ByHand(step: Step) {
    step.LocalHelloAck? || step.LocalHandleHello? || step.LocalHandleHelloAck?
  }

  lemma ExchangeClean(s: Session, t: Ticket, next: Ticket)
    requires Clean(s) && t in s.tickets && !NeedsAuth(next)
    ensures Clean(Exchange(s, t, next)) && Clean(Spend(s, t))
  {
  }

  /** What can happen at all while no ticket of an authenticated session is around. */
  predicate Unprivileged(step: Step) {
    match step
    case Arrive(_) => true
    case CheckState(f) => f.Close?
    case CheckCapability(f) => f.Close?
    case Decide(_) => true
    case StoreAccepted => true
    case CloseReceived(f) => f.Close? && !f.drain
    case LocalAcceptAuth => true
    case LocalHandleHello(_) => true
    case LocalHandleHelloAck(_) => true
    case Pend => true
    case Shut(_) => true
    case Drop(_) => true
    case _ => false
  }

  lemma OnlyUnprivileged(s: Session, step: Step)
    requires Clean(s) && !s.accepted && Enabled(s, step) && !Unearned(s, step)
    ensures Unprivileged(step)
  {
    hide Do;
  }

  lemma ArrivalClean(s: Session, f: Frame)
    requires Clean(s) && Admission(s, f).Some?
    ensures Clean(Do(s, Arrive(f)))
  {
  }

  /** A capability check passes for a close only if it does not ask for a drain. */
  lemma CapabilityClean(s: Session, f: Frame)
    requires Clean(s) && f.Close? && Allowed(f) in s.tickets && CapabilityAllows(s, f)
    ensures Clean(Exchange(s, Allowed(f), Capable(f)))
  {
    ExchangeClean(s, Allowed(f), Capable(f));
  }

  lemma AcceptedKept(s: Session, step: Step)
    requires s.accepted && Enabled(s, step)
    ensures Do(s, step).accepted
  {
    hide Admission, StateAllows, CapabilityAllows, DrainState;
  }

  lemma CloseClean(s: Session, f: Frame)
    requires Clean(s) && f.Close? && !f.drain && Capable(f) in s.tickets
    ensures Clean(Do(s, CloseReceived(f)))
  {
    ExchangeClean(s, Capable(f), Deciding);
  }

  lemma StoreClean(s: Session, capabilities: set<nat>, next: bool)
    requires Clean(s) && capabilities * s.capabilities == {}
    ensures Clean(StoreByHand(s, capabilities, next))
  {
  }

  lemma DecisionInv(s: Session, accept: bool)
    requires Clean(s) && Deciding in s.tickets
    ensures Inv(Do(s, Decide(accept)))
  {
    ExchangeClean(s, Deciding, Deciding);
  }

  lemma StepInv(s: Session, step: Step)
    requires Inv(s) && Enabled(s, step) && !Unearned(s, step)
    ensures Inv(Do(s, step))
  {
    hide Admission, StateAllows, CapabilityAllows, Exchange, Spend;
    if s.accepted {
      AcceptedKept(s, step);
    } else {
      OnlyUnprivileged(s, step);
      match step {
        case Arrive(f) => ArrivalClean(s, f);
        case CheckState(f) => ExchangeClean(s, Authenticated(f), Allowed(f));
        case CheckCapability(f) => CapabilityClean(s, f);
        case CloseReceived(f) => CloseClean(s, f);
        case Decide(accept) => DecisionInv(s, accept);
        case Drop(t) => ExchangeClean(s, t, Deciding);
        case LocalHandleHello(capabilities) => StoreClean(s, capabilities, s.role == Server);
        case LocalHandleHelloAck(capabilities) => StoreClean(s, capabilities, true);
        case _ =>
      }
    }
  }

  // ---------------------------------------------------------------- whole runs

  predicate StepAt(run: seq<Session>, steps: seq<Step>, i: nat)
    requires i < |steps| < |run|
  {
    Enabled(run[i], steps[i]) && run[i + 1] == Do(run[i], steps[i])
  }

  /** A new session that requires authentication and starts without capabilities. */
  predicate Initial(s: Session) {
    s.state == New && s.remoteCaps == {} && s.tickets == multiset{} && !s.accepted && s.calls == 0
  }

  predicate IsRun(run: seq<Session>, steps: seq<Step>) {
    && |run| == |steps| + 1
    && Initial(run[0])
    && forall i :: 0 <= i < |steps| ==> StepAt(run, steps, i)
  }

  predicate UnearnedAt(run: seq<Session>, steps: seq<Step>, i: nat)
    requires i < |steps| < |run|
  {
    Unearned(run[i], steps[i])
  }

  lemma {:induction false} InvInEveryRun(run: seq<Session>, steps: seq<Step>, n: nat)
    requires IsRun(run, steps) && n <= |steps|
    requires forall i :: 0 <= i < n ==> !UnearnedAt(run, steps, i)
    ensures Inv(run[n])
  {
    if n == 0 {
    } else {
      InvInEveryRun(run, steps, n - 1);
      assert StepAt(run, steps, n - 1) && !UnearnedAt(run, steps, n - 1);
      StepInv(run[n - 1], steps[n - 1]);
    }
  }

  /** In every interleaving, capabilities, a trusted state or a handler call imply an earlier
      authentication throughout the run exactly if no direct call of `SendHelloAck`, `HandleHello`
      or `HandleHelloAck` took effect before the session was authenticated. */
  lemma SafeIff(run: seq<Session>, steps: seq<Step>)
    requires IsRun(run, steps)
    ensures (forall n :: 0 <= n <= |steps| ==> Safe(run[n]))
       <==> (forall i :: 0 <= i < |steps| ==> !UnearnedAt(run, steps, i))
  {
    if forall i :: 0 <= i < |steps| ==> !UnearnedAt(run, steps, i) {
      forall n | 0 <= n <= |steps| ensures Safe(run[n]) {
        InvInEveryRun(run, steps, n);
      }
    } else {
      var i :| 0 <= i < |steps| && UnearnedAt(run, steps, i);
      assert StepAt(run, steps, i);
      UnearnedIsUnsafe(run[i], steps[i]);
      assert !Safe(run[i + 1]);
    }
  }

  lemma UnearnedIsUnsafe(s: Session, step: Step)
    requires Enabled(s, step) && Unearned(s, step)
    ensures !Safe(Do(s, step))
  {
  }

  predicate ByHandAt(steps: seq<Step>, i: nat)
    requires i < |steps|
  {
    ByHand(steps[i])
  }

  /** Frames, timers and the other local calls alone never lead to an unauthenticated session
      that is treated as authenticated. */
  lemma FramesAreSafe(run: seq<Session>, steps: seq<Step>, n: nat)
    requires IsRun(run, steps) && n <= |steps|
    requires forall i :: 0 <= i < |steps| ==> !ByHandAt(steps, i)
    ensures Safe(run[n])
  {
    forall i | 0 <= i < n ensures !UnearnedAt(run, steps, i) {
      assert StepAt(run, steps, i) && !ByHandAt(steps, i);
      NoTicketByHand(run, steps, i);
    }
    InvInEveryRun(run, steps, n);
  }

  /** Without a direct call there is no ticket of one. */
  lemma {:induction false} NoTicketByHand(run: seq<Session>, steps: seq<Step>, n: nat)
    requires IsRun(run, steps) && n <= |steps|
    requires forall i :: 0 <= i < n ==> !ByHandAt(steps, i)
    ensures !HasTicketByHand(run[n])
  {
    hide Do, Enabled;
    if n == 0 {
    } else {
      NoTicketByHand(run, steps, n - 1);
      assert StepAt(run, steps, n - 1) && !ByHandAt(steps, n - 1);
      NoTicketFrom(run[n - 1], steps[n - 1]);
    }
  }

  predicate HasTicketByHand(s: Session) {
    EstablishingByHand in s.tickets
  }

  lemma Exchanged(s: Session, t: Ticket, next: Ticket)
    requires !HasTicketByHand(s) && !next.EstablishingByHand?
    ensures !HasTicketByHand(Exchange(s, t, next)) && !HasTicketByHand(Spend(s, t))
  {
  }

  lemma NoTicketFrom(s: Session, step: Step)
    requires Enabled(s, step) && !HasTicketByHand(s) && !ByHand(step)
    ensures !HasTicketByHand(Do(s, step))
  {
    hide StateAllows, CapabilityAllows, DrainState, Exchange, Spend;
    match step {
      case CheckState(f) => Exchanged(s, Authenticated(f), Allowed(f));
      case CheckCapability(f) => Exchanged(s, Allowed(f), Capable(f));
      case Decide(_) => Exchanged(s, Deciding, Deciding);
      case StoreAccepted => Exchanged(s, Accepting, Deciding);
      case StoreHello(f) => Exchanged(s, Capable(f), Establishing);
      case Establish => Exchanged(s, Establishing, Deciding);
      case CallHandler(f) => Exchanged(s, Capable(f), Deciding);
      case GoAwayReceived(f) => Exchanged(s, Capable(f), Drains(true));
      case CloseReceived(f) => Exchanged(s, Capable(f), Drains(false));
      case StartDrain(t) => Exchanged(s, t, Deciding);
      case SendHelloNow => Exchanged(s, Greeting, Deciding);
      case Drop(t) => Exchanged(s, t, Deciding);
      case _ =>
    }
  }

  /** The exported `SendHelloAck` checks only the role: on a fresh server session it establishes
      the session although authentication is required. */
  lemma HandSentAckCounterexample(s: Session)
    requires Initial(s) && s.role == Server
    ensures IsRun([s, Do(s, LocalHelloAck)], [LocalHelloAck]) && !Safe(Do(s, LocalHelloAck))
  {
    var run := [s, Do(s, LocalHelloAck)];
    assert StepAt(run, [LocalHelloAck], 0);
  }

  /** So do the exported `HandleHello` and `HandleHelloAck`, which check nothing: a HelloAck handed
      to a fresh session that requires authentication stores capabilities and establishes it. */
  lemma HandledAckCounterexample(s: Session, capabilities: set<nat>) returns (run: seq<Session>, steps: seq<Step>)
    requires Initial(s) && capabilities * s.capabilities != {}
    ensures IsRun(run, steps) && |steps| == 2 && run[0] == s && steps[0] == LocalHandleHelloAck(capabilities)
    ensures !Safe(run[1]) && run[2].state == Established && run[2].remoteCaps != {} && !run[2].accepted
  {
    var s1 := Do(s, LocalHandleHelloAck(capabilities));
    var s2 := Do(s1, EstablishByHand);
    run, steps := [s, s1, s2], [LocalHandleHelloAck(capabilities), EstablishByHand];
    assert StepAt(run, steps, 0) && StepAt(run, steps, 1);
  }

  // ---------------------------------------------------------------- how a handler call comes about

  /** The one step that hands out such a ticket, for the guards of received frames. */
  function Issuer(t: Ticket): Option<Step> {
    match t
    case Deciding => Some(Arrive(Auth))
    case Accepting => Some(Arrive(AuthAccept))
    case Authenticated(f) => Some(Arrive(f))
    case Allowed(f) => Some(CheckState(f))
    case Capable(f) => Some(CheckCapability(f))
    case _ => None
  }

  lemma IssuedBy(s: Session, step: Step, t: Ticket)
    requires Enabled(s, step) && Issuer(t).Some? && t in Do(s, step).tickets
    ensures t in s.tickets || Issuer(t) == Some(step)
  {
    if HandlesFrame(step) {
      FrameIssues(s, step, t);
    } else {
      OtherIssues(s, step, t);
    }
  }

  /** Steps of a received frame after its first guard. */
  predicate HandlesFrame(step: Step) {
    step.CheckState? || step.CheckCapability? || step.StoreHello? || step.CallHandler? || step.GoAwayReceived?
    || step.CloseReceived?
  }

  lemma FrameIssues(s: Session, step: Step, t: Ticket)
    requires Enabled(s, step) && HandlesFrame(step) && Issuer(t).Some? && t in Do(s, step).tickets
    ensures t in s.tickets || Issuer(t) == Some(step)
  {
    hide StateAllows, CapabilityAllows, Exchange, Spend;
    match step {
      case CheckState(f) => Kept(s, Authenticated(f), Allowed(f), t);
      case CheckCapability(f) => Kept(s, Allowed(f), Capable(f), t);
      case StoreHello(f) => Kept(s, Capable(f), Establishing, t);
      case CallHandler(f) => Kept(s, Capable(f), Establishing, t);
      case GoAwayReceived(f) => Kept(s, Capable(f), Drains(true), t);
      case CloseReceived(f) => Kept(s, Capable(f), Drains(false), t);
    }
  }

  lemma OtherIssues(s: Session, step: Step, t: Ticket)
    requires Enabled(s, step) && !HandlesFrame(step) && Issuer(t).Some? && t in Do(s, step).tickets
    ensures t in s.tickets || Issuer(t) == Some(step)
  {
    hide StateAllows, CapabilityAllows, DrainState, Exchange, Spend;
    match step {
      case Decide(_) => Kept(s, Deciding, Establishing, t);
      case StoreAccepted => Kept(s, Accepting, Establishing, t);
      case Establish => Kept(s, Establishing, Establishing, t);
      case StartDrain(u) => Kept(s, u, Establishing, t);
      case SendHelloNow => Kept(s, Greeting, Establishing, t);
      case EstablishByHand => Kept(s, EstablishingByHand, Establishing, t);
      case Drop(u) => Kept(s, u, Establishing, t);
      case _ =>
    }
  }

  lemma Kept(s: Session, spent: Ticket, next: Ticket, t: Ticket)
    ensures t in Exchange(s, spent, next).tickets ==> t in s.tickets || t == next
    ensures t in Spend(s, spent).tickets ==> t in s.tickets
  {
  }

  lemma {:induction false} TicketWasIssued(run: seq<Session>, steps: seq<Step>, n: nat, t: Ticket) returns (i: nat)
    requires IsRun(run, steps) && n <= |steps| && Issuer(t).Some? && t in run[n].tickets
    ensures i < n && Issuer(t) == Some(steps[i]) && Enabled(run[i], steps[i])
  {
    hide Do, Enabled;
    assert StepAt(run, steps, n - 1);
    IssuedBy(run[n - 1], steps[n - 1], t);
    if Issuer(t) == Some(steps[n - 1]) {
      i := n - 1;
    } else {
      i := TicketWasIssued(run, steps, n - 1, t);
    }
  }

  /** In every interleaving, a frame that reaches an application handler came in while the session
      was trusted, was then found to be allowed in its state, and then to be covered by a
      capability that both sides have. */
  lemma HandlerCallEarned(run: seq<Session>, steps: seq<Step>, n: nat) returns (i: nat, j: nat, k: nat)
    requires IsRun(run, steps) && n < |steps| && steps[n].CallHandler?
    ensures i < j < k < n && steps[n].frame.Handled?
    ensures steps[i] == Arrive(steps[n].frame)
    ensures run[i].state.AuthAccepted? || run[i].state.HelloSent? || run[i].state.Established? || run[i].state.Draining?
    ensures steps[j] == CheckState(steps[n].frame)
    ensures run[j].state.Established? || (steps[n].frame.whileDraining && run[j].state.Draining?)
    ensures steps[k] == CheckCapability(steps[n].frame)
    ensures steps[n].frame.capability.Some? ==>
      steps[n].frame.capability.value in run[k].capabilities && steps[n].frame.capability.value in run[k].remoteCaps
  {
    var f := steps[n].frame;
    assert StepAt(run, steps, n);
    k := TicketWasIssued(run, steps, n, Capable(f));
    j := TicketWasIssued(run, steps, k, Allowed(f));
    i := TicketWasIssued(run, steps, j, Authenticated(f));
  }

  lemma {:induction false} RoleKept(run: seq<Session>, steps: seq<Step>, n: nat, m: nat)
    requires IsRun(run, steps) && n <= m <= |steps|
    ensures run[m].role == run[n].role && (run[n].state != New ==> run[m].state != New)
    decreases m - n
  {
    if n == m {
    } else {
      RoleKept(run, steps, n, m - 1);
      assert StepAt(run, steps, m - 1);
    }
  }

  /** In every interleaving, a session becomes authenticated only by a local call, on a server by
      a decision about an Auth frame that came before any other, on a client by the answer to one. */
  lemma AcceptanceEarned(run: seq<Session>, steps: seq<Step>, n: nat) returns (i: nat)
    requires IsRun(run, steps) && n < |steps| && !run[n].accepted && run[n + 1].accepted
    ensures steps[n] == LocalAcceptAuth || i < n
    ensures steps[n] == LocalAcceptAuth
         || (&& steps[n] == Decide(true) && run[n].role == Server
             && steps[i] == Arrive(Auth) && (run[i].state == New || run[i].state == AuthPending))
         || (&& steps[n] == StoreAccepted && run[n].role == Client
             && steps[i] == Arrive(AuthAccept) && run[i].state == AuthPending)
  {
    assert StepAt(run, steps, n);
    i := 0;
    if steps[n].Decide? {
      i := TicketWasIssued(run, steps, n, Deciding);
      RoleKept(run, steps, i, n);
    } else if steps[n] == StoreAccepted {
      i := TicketWasIssued(run, steps, n, Accepting);
      RoleKept(run, steps, i, n);
    }
  }

  /** In every interleaving, a Hello is stored only by a server that was authenticated and not yet
      greeted when it looked, a HelloAck only by a client that had greeted. */
  lemma HelloEarned(run: seq<Session>, steps: seq<Step>, n: nat) returns (j: nat)
    requires IsRun(run, steps) && n < |steps| && steps[n].StoreHello?
    ensures j < n && steps[j] == CheckState(steps[n].frame)
    ensures (steps[n].frame.Hello? && run[j].role == Server && run[j].state == AuthAccepted)
         || (steps[n].frame.HelloAck? && run[j].role == Client && run[j].state == HelloSent)
  {
    var f := steps[n].frame;
    assert StepAt(run, steps, n);
    var k := TicketWasIssued(run, steps, n, Capable(f));
    j := TicketWasIssued(run, steps, k, Allowed(f));
    var i := TicketWasIssued(run, steps, j, Authenticated(f));
    RoleKept(run, steps, i, j);
  }

  /** What can lead to a drain. */
  predicate AsksToDrain(step: Step) {
    || step.LocalDrain?
    || (step.GoAwayReceived? && step.frame.GoAway? && step.frame.drain)
    || (step.CloseReceived? && step.frame.Close? && step.frame.drain)
  }

  lemma DrainAsked(s: Session, step: Step, t: Ticket)
    requires Enabled(s, step) && t.Drains? && t in Do(s, step).tickets
    ensures t in s.tickets || AsksToDrain(step)
  {
    hide StateAllows, CapabilityAllows, DrainState, Exchange, Spend;
    match step {
      case CheckState(f) => Kept(s, Authenticated(f), Allowed(f), t);
      case CheckCapability(f) => Kept(s, Allowed(f), Capable(f), t);
      case Decide(_) => Kept(s, Deciding, Establishing, t);
      case StoreAccepted => Kept(s, Accepting, Establishing, t);
      case StoreHello(f) => Kept(s, Capable(f), Establishing, t);
      case Establish => Kept(s, Establishing, Establishing, t);
      case CallHandler(f) => Kept(s, Capable(f), Establishing, t);
      case GoAwayReceived(f) => Kept(s, Capable(f), Drains(true), t);
      case CloseReceived(f) => Kept(s, Capable(f), Drains(false), t);
      case StartDrain(u) => Kept(s, u, Establishing, t);
      case SendHelloNow => Kept(s, Greeting, Establishing, t);
      case EstablishByHand => Kept(s, EstablishingByHand, Establishing, t);
      case Drop(u) => Kept(s, u, Establishing, t);
      case _ =>
    }
  }

  lemma {:induction false} DrainWasAsked(run: seq<Session>, steps: seq<Step>, n: nat, t: Ticket) returns (i: nat)
    requires IsRun(run, steps) && n <= |steps| && t.Drains? && t in run[n].tickets
    ensures i < n && Enabled(run[i], steps[i]) && AsksToDrain(steps[i])
  {
    hide Do, Enabled;
    assert StepAt(run, steps, n - 1);
    DrainAsked(run[n - 1], steps[n - 1], t);
    if t in run[n - 1].tickets {
      i := DrainWasAsked(run, steps, n - 1, t);
    } else {
      i := n - 1;
    }
  }

  /** In every interleaving, a session starts to drain only after graceful close was found to be
      supported by both sides, whoever asked for it. */
  lemma DrainEarned(run: seq<Session>, steps: seq<Step>, n: nat) returns (k: nat)
    requires IsRun(run, steps) && n < |steps| && steps[n].StartDrain?
    ensures k < n && GRACEFUL_CLOSE in run[k].capabilities && GRACEFUL_CLOSE in run[k].remoteCaps
  {
    assert StepAt(run, steps, n);
    var i := DrainWasAsked(run, steps, n, steps[n].ticket);
    if steps[i].LocalDrain? {
      k := i;
    } else {
      k := TicketWasIssued(run, steps, i, Capable(steps[i].frame));
    }
  }

  /** What a verdict, a farewell and a drain make of the session: a drain the peer or the
      application asks for does not reopen a session that is closing or closed, one after a
      GoAway does. */
  lemma StateAfter(s: Session, step: Step)
    requires Enabled(s, step)
    ensures step == Decide(false) ==> Do(s, step).state == AuthRejected && Do(s, step).accepted == s.accepted
    ensures step.CloseReceived? && !step.frame.drain ==>
      Do(s, step).state == if s.state == Closed then Closed else Closing
    ensures step.GoAwayReceived? && !step.frame.drain ==> Do(s, step).state == Closing
    ensures step.StartDrain? ==>
      (Do(s, step).state == Draining <==> step.ticket.force || (s.state != Closing && s.state != Closed))
    ensures step.StartDrain? && Do(s, step).state != Draining ==> Do(s, step).state == s.state
    ensures step.CallHandler? ==> Do(s, step).calls == s.calls + 1 && Do(s, step).state == s.state
    ensures step.Shut? ==> Do(s, step).state == step.to
  {
  }

  // ---------------------------------------------------------------- how a session gets there

  lemma Extended(run: seq<Session>, steps: seq<Step>, step: Step) returns (run': seq<Session>, steps': seq<Step>)
    requires IsRun(run, steps) && Enabled(run[|steps|], step)
    ensures IsRun(run', steps') && |run'| == |steps'| + 1 == |steps| + 2
    ensures run'[0] == run[0] && run'[|steps'|] == Do(run[|steps|], step)
  {
    hide Do, Enabled;
    run', steps' := run + [Do(run[|steps|], step)], steps + [step];
    forall i | 0 <= i < |steps'| ensures StepAt(run', steps', i) {
      if i < |steps| {
        assert StepAt(run, steps, i);
      }
    }
  }

  /** A frame that is let in, allowed and covered leaves a ticket to act. */
  lemma LetThrough(run: seq<Session>, steps: seq<Step>, f: Frame) returns (run': seq<Session>, steps': seq<Step>)
    requires IsRun(run, steps) && var s := run[|steps|];
      Admission(s, f) == Some(Authenticated(f)) && StateAllows(s, f) && CapabilityAllows(s, f)
    ensures IsRun(run', steps') && run'[0] == run[0] && Capable(f) in run'[|steps'|].tickets
    ensures run'[|steps'|] == run[|steps|].(tickets := run'[|steps'|].tickets)
  {
    run', steps' := Extended(run, steps, Arrive(f));
    run', steps' := Extended(run', steps', CheckState(f));
    run', steps' := Extended(run', steps', CheckCapability(f));
  }

  /** Which frames get past all three guards of a session that requires authentication: a Hello at a
      server just after authentication, a HelloAck at a client that greeted, a CloseAck only while
      draining, a GoAway once established, other frames once established or, if their type allows
      it, while draining; and each only with the capability it needs on both sides. An Auth frame
      takes another way, and a Close always gets through unless it asks for an unsupported drain. */
  lemma LetThroughIff(s: Session, f: Frame)
    ensures Admission(s, f) == Some(Authenticated(f)) && StateAllows(s, f) && CapabilityAllows(s, f) <==>
      match f
      case Hello(_) => s.role == Server && s.state == AuthAccepted
      case HelloAck(_) => s.role == Client && s.state == HelloSent
      case Close(drain) => drain ==> GRACEFUL_CLOSE in s.capabilities * s.remoteCaps
      case CloseAck => s.state == Draining
      case GoAway(drain) => s.state == Established && (drain ==> GRACEFUL_CLOSE in s.capabilities * s.remoteCaps)
      case Handled(needs, whileDraining) =>
        (s.state == Established || (whileDraining && s.state == Draining))
        && (needs.Some? ==> needs.value in s.capabilities * s.remoteCaps)
      case Other(needs, whileDraining) =>
        (s.state == Established || (whileDraining && s.state == Draining))
        && (needs.Some? ==> needs.value in s.capabilities * s.remoteCaps)
      case _ => false
  {
  }

  /** A session that supports it on both sides can drain, whether the application, a Close or a
      GoAway asks for it. */
  lemma CanDrain(run: seq<Session>, steps: seq<Step>, asked: Frame) returns (run': seq<Session>, steps': seq<Step>)
    requires IsRun(run, steps) && run[|steps|].state == Established
    requires GRACEFUL_CLOSE in run[|steps|].capabilities * run[|steps|].remoteCaps
    requires asked == Close(true) || asked == GoAway(true) || asked == CloseAck
    ensures IsRun(run', steps') && run'[0] == run[0] && run'[|steps'|].state == Draining
  {
    if asked == CloseAck {
      run', steps' := Extended(run, steps, LocalDrain(false));
      run', steps' := Extended(run', steps', StartDrain(Drains(false)));
    } else {
      run', steps' := LetThrough(run, steps, asked);
      run', steps' := Extended(run', steps', if asked.Close? then CloseReceived(asked) else GoAwayReceived(asked));
      run', steps' := Extended(run', steps', StartDrain(Drains(asked.GoAway?)));
    }
  }

  /** The application can accept by hand at any time; a Hello handed over directly goes on to
      establish the session only on a server, a HelloAck on either side. */
  lemma DirectCalls(s: Session, capabilities: set<nat>)
    ensures Enabled(s, LocalAcceptAuth) && Do(s, LocalAcceptAuth) == s.(state := AuthAccepted, accepted := true)
    ensures Enabled(s, LocalHandleHello(capabilities)) && Enabled(s, LocalHandleHelloAck(capabilities))
    ensures var z := Do(s, LocalHandleHello(capabilities));
      z.remoteCaps == capabilities * s.capabilities
      && z.tickets[EstablishingByHand] == s.tickets[EstablishingByHand] + if s.role == Server then 1 else 0
    ensures var z := Do(s, LocalHandleHelloAck(capabilities));
      z.remoteCaps == capabilities * s.capabilities
      && z.tickets[EstablishingByHand] == s.tickets[EstablishingByHand] + 1
  {
  }

  /** A server that authenticates its peer and then hears a Hello is established, with exactly the
      capabilities both sides have. */
  lemma ServerCanBeEstablished(s: Session, capabilities: set<nat>) returns (run: seq<Session>, steps: seq<Step>)
    requires Initial(s) && s.role == Server
    ensures IsRun(run, steps) && run[0] == s && var z := run[|steps|];
      z.state == Established && z.accepted && z.remoteCaps == capabilities * s.capabilities
  {
    run, steps := Begun(s);
    run, steps := Extended(run, steps, Arrive(Auth));
    run, steps := Extended(run, steps, Decide(true));
    run, steps := LetThrough(run, steps, Hello(capabilities));
    run, steps := Greeted(run, steps, Hello(capabilities));
  }

  lemma Begun(s: Session) returns (run: seq<Session>, steps: seq<Step>)
    requires Initial(s)
    ensures IsRun(run, steps) && run == [s] && steps == []
  {
    run, steps := [s], [];
  }

  /** The stored Hello and what follows it. */
  lemma Greeted(run: seq<Session>, steps: seq<Step>, f: Frame) returns (run': seq<Session>, steps': seq<Step>)
    requires IsRun(run, steps) && Capable(f) in run[|steps|].tickets && (f.Hello? || f.HelloAck?)
    ensures IsRun(run', steps') && run'[0] == run[0] && var s, z := run[|steps|], run'[|steps'|];
      z.state == Established && z.accepted == s.accepted && z.remoteCaps == f.capabilities * s.capabilities
  {
    run', steps' := Extended(run, steps, StoreHello(f));
    run', steps' := Extended(run', steps', Establish);
  }

  lemma Accepted(s: Session) returns (run: seq<Session>, steps: seq<Step>)
    requires Initial(s) && s.role == Client
    ensures IsRun(run, steps) && run[0] == s
    ensures run[|steps|] == s.(state := AuthAccepted, accepted := true)
  {
    run, steps := Begun(s);
    run, steps := Extended(run, steps, Pend);
    run, steps := Extended(run, steps, Arrive(AuthAccept));
    run, steps := Extended(run, steps, StoreAccepted);
  }

  /** A client that asks for authentication, is accepted and greets the server is established by
      the answer. */
  lemma ClientCanBeEstablished(s: Session, capabilities: set<nat>) returns (run: seq<Session>, steps: seq<Step>)
    requires Initial(s) && s.role == Client
    ensures IsRun(run, steps) && run[0] == s && var z := run[|steps|];
      z.state == Established && z.accepted && z.remoteCaps == capabilities * s.capabilities
  {
    run, steps := Accepted(s);
    run, steps := Extended(run, steps, LocalSendHello);
    run, steps := Extended(run, steps, SendHelloNow);
    run, steps := LetThrough(run, steps, HelloAck(capabilities));
    run, steps := Greeted(run, steps, HelloAck(capabilities));
  }

  // ---------------------------------------------------------------- each frame at most once

  function Arrivals(steps: seq<Step>, f: Frame, n: nat): nat
    requires n <= |steps|
  {
    if n == 0 then 0 else Arrivals(steps, f, n - 1) + if steps[n - 1] == Arrive(f) then 1 else 0
  }

  function Calls(steps: seq<Step>, f: Frame, n: nat): nat
    requires n <= |steps|
  {
    if n == 0 then 0 else Calls(steps, f, n - 1) + if steps[n - 1] == CallHandler(f) then 1 else 0
  }

  /** Tickets of a frame that is on its way to a handler. */
  function OnItsWay(tickets: multiset<Ticket>, f: Frame): nat {
    tickets[Authenticated(f)] + tickets[Allowed(f)] + tickets[Capable(f)]
  }

  lemma FrameWayStep(s: Session, step: Step, f: Frame)
    requires Enabled(s, step) && f.Handled? && HandlesFrame(step)
    ensures OnItsWay(Do(s, step).tickets, f) + (if step == CallHandler(f) then 1 else 0) <= OnItsWay(s.tickets, f)
  {
    hide StateAllows, CapabilityAllows, Exchange, Spend, OnItsWay;
    match step {
      case CheckState(g) => WayMoves(s, Authenticated(g), Allowed(g), f);
      case CheckCapability(g) => WayMoves(s, Allowed(g), Capable(g), f);
      case StoreHello(g) => WayMoves(s, Capable(g), Establishing, f);
      case CallHandler(g) => WayMoves(s, Capable(g), Deciding, f);
      case GoAwayReceived(g) => WayMoves(s, Capable(g), Drains(true), f);
      case CloseReceived(g) => WayMoves(s, Capable(g), Drains(false), f);
    }
  }

  lemma OtherWayStep(s: Session, step: Step, f: Frame)
    requires Enabled(s, step) && f.Handled? && !HandlesFrame(step)
    ensures OnItsWay(Do(s, step).tickets, f) <= OnItsWay(s.tickets, f) + (if step == Arrive(f) then 1 else 0)
  {
    hide StateAllows, CapabilityAllows, DrainState, Exchange, Spend, OnItsWay;
    match step {
      case Arrive(g) => WayGrows(s, Admission(s, g).value, f);
      case Decide(_) => WayMoves(s, Deciding, Deciding, f);
      case StoreAccepted => WayMoves(s, Accepting, Deciding, f);
      case Establish => WayMoves(s, Establishing, Deciding, f);
      case StartDrain(t) => WayMoves(s, t, Deciding, f);
      case LocalSendHello => WayGrows(s, Greeting, f);
      case SendHelloNow => WayMoves(s, Greeting, Deciding, f);
      case LocalHandleHello(_) => WayGrows(s, EstablishingByHand, f);
      case LocalHandleHelloAck(_) => WayGrows(s, EstablishingByHand, f);
      case EstablishByHand => WayMoves(s, EstablishingByHand, Deciding, f);
      case LocalDrain(force) => WayGrows(s, Drains(force), f);
      case Drop(t) => WayMoves(s, t, Deciding, f);
      case _ =>
    }
  }

  predicate OfFrame(t: Ticket, f: Frame) {
    t == Authenticated(f) || t == Allowed(f) || t == Capable(f)
  }

  /** Spending a ticket takes it from the frame's, exchanging it puts another one there. */
  lemma WayMoves(s: Session, spent: Ticket, next: Ticket, f: Frame)
    requires spent in s.tickets
    ensures OnItsWay(Spend(s, spent).tickets, f) == OnItsWay(s.tickets, f) - if OfFrame(spent, f) then 1 else 0
    ensures OnItsWay(Exchange(s, spent, next).tickets, f)
         == OnItsWay(s.tickets, f) - (if OfFrame(spent, f) then 1 else 0) + if OfFrame(next, f) then 1 else 0
  {
  }

  lemma WayGrows(s: Session, t: Ticket, f: Frame)
    ensures OnItsWay(s.tickets + multiset{t}, f) == OnItsWay(s.tickets, f) + if OfFrame(t, f) then 1 else 0
  {
  }

  /** However the goroutines interleave, no frame reaches a handler more often than it arrived. */
  lemma {:induction false} OneCallPerFrame(run: seq<Session>, steps: seq<Step>, f: Frame, n: nat)
    requires IsRun(run, steps) && f.Handled? && n <= |steps|
    ensures Calls(steps, f, n) + OnItsWay(run[n].tickets, f) <= Arrivals(steps, f, n)
  {
    hide Do, Enabled;
    if n == 0 {
    } else {
      OneCallPerFrame(run, steps, f, n - 1);
      assert StepAt(run, steps, n - 1);
      if HandlesFrame(steps[n - 1]) {
        FrameWayStep(run[n - 1], steps[n - 1], f);
      } else {
        OtherWayStep(run[n - 1], steps[n - 1], f);
      }
    }
  }
}
