/** The life of a listener (core/src/server_controller.cpp). */
module Listener {
  // Interleaved atomic steps of the accept thread, the session threads, `Start` and `Stop`, and of the rest of
  // the process, which opens and closes descriptors of its own: the kernel hands out any number that is not open.

  type Fd = nat
  type SessionId = nat

  /** Who closes an open descriptor. */
  datatype Owner = Elsewhere | ListenSocket | Acceptor | OfSession(id: SessionId)

  /** A session thread: serving, out of the set, or with its descriptor closed but still counted. */
  datatype Phase = Serving | Unlisted | Closed
  datatype Session = Session(fd: Fd, phase: Phase)

  /** Where the accept thread stands. */
  datatype AcceptAt =
    | NoThread
    | Checking
    | Waiting
    | Took(fd: Fd)
    | Admitted(fd: Fd)
    | Counted(fd: Fd)
    | Listed(fd: Fd)
    | Exited

  /** Where a call of `Stop` stands. */
  datatype StopAt = Idle | Flagged | Joined | Woken

  datatype State = State(
    open: map<Fd, Owner>,
    clientFds: set<Fd>,
    sessions: map<SessionId, Session>,
    active: int,
    listen: set<Fd>,
    stop: bool,
    running: bool,
    accept: AcceptAt,
    stopping: StopAt)

  const START: State := State(map[], {}, map[], 0, {}, false, false, NoThread, Idle)

  datatype Step =
    | OpenElsewhere(fd: Fd)
    | CloseElsewhere(fd: Fd)
    | Start(fd: Fd)
    | Check
    | AcceptFails
    | AcceptGives(fd: Fd)
    | TestCap
    | CountUp
    | ListFd
    | Spawn(id: SessionId)
    | Erase(id: SessionId)
    | CloseFd(id: SessionId)
    | CountDown(id: SessionId)
    | StopFlags
    | StopJoins
    | StopWakes
    | StopEnds

  predicate AtPhase(s: State, id: SessionId, phase: Phase) {
    id in s.sessions && s.sessions[id].phase == phase
  }

  /** When a step may happen. */
  predicate Can(s: State, step: Step) {
    match step
    case OpenElsewhere(fd) => fd !in s.open
    case CloseElsewhere(fd) => fd in s.open && s.open[fd].Elsewhere?
    case Start(fd) => fd !in s.open && s.stopping.Idle? && !s.running
    case Check => s.accept.Checking?
    case AcceptFails => s.accept.Waiting?
    case AcceptGives(fd) => s.accept.Waiting? && fd !in s.open
    case TestCap => s.accept.Took?
    case CountUp => s.accept.Admitted?
    case ListFd => s.accept.Counted?
    case Spawn(id) => s.accept.Listed? && id !in s.sessions
    case Erase(id) => AtPhase(s, id, Serving)
    case CloseFd(id) => AtPhase(s, id, Unlisted)
    case CountDown(id) => AtPhase(s, id, Closed)
    case StopFlags => s.stopping.Idle? && (s.running || !s.accept.NoThread?)
    case StopJoins => s.stopping.Flagged? && (s.accept.Exited? || s.accept.NoThread?)
    case StopWakes => s.stopping.Joined?
    case StopEnds => s.stopping.Woken?
  }

  function Set(s: State, id: SessionId, phase: Phase): State
    requires id in s.sessions
  {
    s.(sessions := s.sessions[id := s.sessions[id].(phase := phase)])
  }

  /** What a step does; `cap` is the limit on connections, none when it is not positive. */
  function Do(s: State, step: Step, cap: int): State
    requires Can(s, step)
  {
    match step
    case OpenElsewhere(fd) => s.(open := s.open[fd := Elsewhere])
    case CloseElsewhere(fd) => s.(open := s.open - {fd})
    case Start(fd) => s.(open := s.open[fd := ListenSocket], listen := {fd}, stop := false, running := true, accept := Checking)
    case Check => if s.stop then s.(accept := Exited, running := false) else s.(accept := Waiting)
    case AcceptFails => if s.stop then s.(accept := Exited, running := false) else s.(accept := Checking)
    case AcceptGives(fd) => s.(open := s.open[fd := Acceptor], accept := Took(fd))
    case TestCap =>
      if cap > 0 && s.active >= cap then s.(open := s.open - {s.accept.fd}, accept := Checking)
      else s.(accept := Admitted(s.accept.fd))
    case CountUp => s.(active := s.active + 1, accept := Counted(s.accept.fd))
    case ListFd => s.(clientFds := s.clientFds + {s.accept.fd}, accept := Listed(s.accept.fd))
    case Spawn(id) =>
      s.(open := s.open[s.accept.fd := OfSession(id)],
         sessions := s.sessions[id := Session(s.accept.fd, Serving)],
         accept := Checking)
    case Erase(id) => Set(s, id, Unlisted).(clientFds := s.clientFds - {s.sessions[id].fd})
    case CloseFd(id) => Set(s, id, Closed).(open := s.open - {s.sessions[id].fd})
    case CountDown(id) => s.(sessions := s.sessions - {id}, active := s.active - 1)
    case StopFlags => s.(stop := true, open := s.open - s.listen, listen := {}, stopping := Flagged)
    case StopJoins => s.(accept := NoThread, stopping := Joined)
    case StopWakes => s.(stopping := Woken)
    case StopEnds => s.(running := false, stopping := Idle)
  }

  // ---- the invariant ------------------------------------------------------

  /** A connection the accept thread holds. */
  predicate Holding(a: AcceptAt) {
    a.Took? || a.Admitted? || a.Counted? || a.Listed?
  }

  /** The descriptor is open and a live session thread, or the accept thread about to start one, will close it. */
  ghost predicate Live(s: State, fd: Fd) {
    && fd in s.open
    && (|| (s.accept == Listed(fd) && s.open[fd] == Acceptor)
        || (s.open[fd].OfSession? && s.open[fd].id in s.sessions && s.sessions[s.open[fd].id] == Session(fd, Serving)))
  }

  ghost predicate Owned(s: State) {
    && (forall id :: id in s.sessions && s.sessions[id].phase != Closed ==>
          s.sessions[id].fd in s.open && s.open[s.sessions[id].fd] == OfSession(id))
    && (Holding(s.accept) ==> s.accept.fd in s.open && s.open[s.accept.fd] == Acceptor)
    && (forall fd :: fd in s.listen ==> fd in s.open && s.open[fd] == ListenSocket)
  }

  ghost predicate ListedExactly(s: State) {
    forall fd :: fd in s.clientFds <==> Live(s, fd)
  }

  predicate CountedRight(s: State) {
    s.active == |s.sessions| + (if s.accept.Counted? || s.accept.Listed? then 1 else 0)
  }

  predicate UnderCap(s: State, cap: int) {
    cap > 0 ==> s.active <= cap && (s.accept.Admitted? ==> s.active < cap)
  }

  /** One accept thread at a time, and only `Stop` ends it. */
  predicate OneThread(s: State) {
    && (s.stopping.Idle? ==> (s.running <==> !s.accept.NoThread?) && !s.accept.Exited? && (s.running ==> !s.stop))
    && (!s.stopping.Idle? ==> s.stop)
    && (s.stopping.Joined? || s.stopping.Woken? ==> s.accept.NoThread?)
    && (s.listen != {} ==> s.stopping.Idle? && s.running)
  }

  ghost predicate Inv(s: State, cap: int) {
    Owned(s) && ListedExactly(s) && CountedRight(s) && UnderCap(s, cap) && OneThread(s)
  }

  lemma OwnedKept(s: State, step: Step, cap: int)
    requires Inv(s, cap) && Can(s, step)
    ensures Owned(Do(s, step, cap))
  {
    hide ListedExactly, CountedRight, UnderCap, Live;
  }

  lemma ListedKept(s: State, step: Step, cap: int)
    requires Inv(s, cap) && Can(s, step)
    ensures ListedExactly(Do(s, step, cap))
  {
    hide CountedRight, UnderCap;
    var s' := Do(s, step, cap);
    forall fd
      ensures fd in s'.clientFds <==> Live(s', fd)
    {
      assert fd in s.clientFds <==> Live(s, fd);
    }
  }

  lemma CountKept(s: State, step: Step, cap: int)
    requires Can(s, step) && CountedRight(s) && (step.Start? ==> s.accept.NoThread?)
    ensures CountedRight(Do(s, step, cap))
  {
    match step {
      case Spawn(id) => SizeAdded(s.sessions, id, Session(s.accept.fd, Serving));
      case CountDown(id) => SizeRemoved(s.sessions, id);
      case Erase(id) => SameSize(s.sessions, id, s.sessions[id].(phase := Unlisted));
      case CloseFd(id) => SameSize(s.sessions, id, s.sessions[id].(phase := Closed));
      case _ =>
    }
  }

  lemma CapKept(s: State, step: Step, cap: int)
    requires Can(s, step) && UnderCap(s, cap)
    ensures UnderCap(Do(s, step, cap), cap)
  {
  }

  lemma ThreadKept(s: State, step: Step, cap: int)
    requires Can(s, step) && OneThread(s)
    ensures OneThread(Do(s, step, cap))
  {
  }

  lemma SizeAdded(m: map<SessionId, Session>, id: SessionId, v: Session)
    requires id !in m
    ensures |m[id := v]| == |m| + 1
  {
    assert m[id := v].Keys == m.Keys + {id};
    SizeOfKeys(m);
    SizeOfKeys(m[id := v]);
  }

  lemma SizeRemoved(m: map<SessionId, Session>, id: SessionId)
    requires id in m
    ensures |m - {id}| == |m| - 1
  {
    assert (m - {id}).Keys == m.Keys - {id};
    SizeOfKeys(m);
    SizeOfKeys(m - {id});
  }

  lemma SizeOfKeys(m: map<SessionId, Session>)
    ensures |m| == |m.Keys|
  {
  }

  lemma SameSize(m: map<SessionId, Session>, id: SessionId, v: Session)
    requires id in m
    ensures |m[id := v]| == |m|
  {
    assert m[id := v].Keys == m.Keys;
    SizeOfKeys(m);
    SizeOfKeys(m[id := v]);
  }

  lemma StartsAlone(s: State, step: Step)
    requires Can(s, step) && OneThread(s)
    ensures step.Start? ==> s.accept.NoThread?
  {
  }

  /** Every step keeps the invariant. */
  lemma StepKeeps(s: State, step: Step, cap: int)
    requires Inv(s, cap) && Can(s, step)
    ensures Inv(Do(s, step, cap), cap)
  {
    hide Owned, ListedExactly, CountedRight, UnderCap, OneThread, Do, Can;
    StartsAlone(s, step);
    OwnedKept(s, step, cap);
    ListedKept(s, step, cap);
    CountKept(s, step, cap);
    CapKept(s, step, cap);
    ThreadKept(s, step, cap);
  }

  // ---- runs ---------------------------------------------------------------

  /** A state that some interleaving leads to. */
  ghost predicate Reaches(s: State, steps: seq<Step>, cap: int, s': State)
    decreases |steps|
  {
    if steps == [] then s' == s
    else Can(s, steps[0]) && Reaches(Do(s, steps[0], cap), steps[1..], cap, s')
  }

  lemma {:induction false} RunKeeps(s: State, steps: seq<Step>, cap: int, s': State)
    requires Inv(s, cap) && Reaches(s, steps, cap, s')
    ensures Inv(s', cap)
    decreases |steps|
  {
    hide Inv, Do, Can;
    if steps != [] {
      StepKeeps(s, steps[0], cap);
      RunKeeps(Do(s, steps[0], cap), steps[1..], cap, s');
    }
  }

  /** In every interleaving: each listed descriptor is open and a live session's own, so that waking the
      listed ones touches no descriptor whose number was handed out again; two sessions never share one;
      and active connections never exceed a positive cap. */
  lemma EveryRunIsSafe(steps: seq<Step>, cap: int, s: State)
    requires Reaches(START, steps, cap, s)
    ensures forall fd :: fd in s.clientFds <==> Live(s, fd)
    ensures forall id :: id in s.sessions && s.sessions[id].phase != Closed ==>
              s.sessions[id].fd in s.open && s.open[s.sessions[id].fd] == OfSession(id)
    ensures forall i, j :: AtPhase(s, i, Serving) && AtPhase(s, j, Serving) && s.sessions[i].fd == s.sessions[j].fd ==> i == j
    ensures cap > 0 ==> s.active <= cap
    ensures |s.sessions| <= s.active
  {
    RunKeeps(START, steps, cap, s);
  }

  /** Once the accept thread is joined and every session has ended, nothing is listed and nothing counted. */
  lemma DrainedIsEmpty(steps: seq<Step>, cap: int, s: State)
    requires Reaches(START, steps, cap, s)
    requires s.accept.NoThread? && s.sessions == map[]
    ensures s.clientFds == {} && s.active == 0
  {
    RunKeeps(START, steps, cap, s);
    assert forall fd :: !Live(s, fd);
  }

  /** When `Stop` wakes the sessions there is no accept thread left to add another, and the listening
      socket is closed. */
  lemma WakingIsFinal(steps: seq<Step>, cap: int, s: State)
    requires Reaches(START, steps, cap, s) && Can(s, StopWakes)
    ensures s.accept.NoThread? && s.listen == {}
    ensures forall fd :: fd in s.clientFds ==> fd in s.open && s.open[fd].OfSession? && AtPhase(s, s.open[fd].id, Serving)
  {
    RunKeeps(START, steps, cap, s);
  }

  // ---- why the order matters ----------------------------------------------

  /** Were the descriptor closed before it left the set, the kernel could hand its number out again while
      it is listed: `Stop` would then shut down a descriptor of someone else. */
  lemma CloseFirstIsUnsafe(cap: int, fd: Fd, id: SessionId, s: State)
    requires Inv(s, cap) && AtPhase(s, id, Serving) && s.sessions[id].fd == fd
    ensures var closed := s.(open := s.open - {fd});
            Can(closed, OpenElsewhere(fd)) &&
            var reused := Do(closed, OpenElsewhere(fd), cap);
            fd in reused.clientFds && reused.open[fd] == Elsewhere && !Live(reused, fd)
  {
    assert Live(s, fd);
  }
}
