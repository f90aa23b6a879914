/** The shutdown broadcast of `start_services`: a main task, up to four spawned
    tasks that each announce their end, and three receivers, in every interleaving. */
module Shutdown {
  import opened Wrappers

  /** Messages the channel keeps for a slow receiver. */
  const CAPACITY: nat := 10

  datatype Task = Signal | Prometheus | Sender | Server

  datatype Receiver = MainRx | PrometheusRx | ServerRx

  /** `Finished` tasks have ended normally and are about to announce it. */
  datatype TaskState = NotSpawned | Running | Finished | Sent | SendFailed | Panicked | Aborted

  datatype RxState = Unsubscribed | Listening(pos: nat) | Dropped

  datatype Pc =
    | Begin
    | Created
    | PrometheusSubscribed
    | ServerSubscribed
    | SignalsInstalled
    | PrometheusSpawned
    | SenderSpawned
    | Awaiting
    | Stopping
    | Returned
    | Failed

  datatype Tasks = Tasks(signal: TaskState, prometheus: TaskState, sender: TaskState, server: TaskState) {
    function Of(t: Task): TaskState {
      match t
      case Signal => signal
      case Prometheus => prometheus
      case Sender => sender
      case Server => server
    }

    function With(t: Task, st: TaskState): (r: Tasks)
      ensures forall x: Task :: r.Of(x) == if x == t then st else Of(x)
    {
      match t
      case Signal => this.(signal := st)
      case Prometheus => this.(prometheus := st)
      case Sender => this.(sender := st)
      case Server => this.(server := st)
    }
  }

  datatype Receivers = Receivers(main: RxState, prometheus: RxState, server: RxState) {
    function Of(r: Receiver): RxState {
      match r
      case MainRx => main
      case PrometheusRx => prometheus
      case ServerRx => server
    }

    function With(r: Receiver, st: RxState): (s: Receivers)
      ensures forall x: Receiver :: s.Of(x) == if x == r then st else Of(x)
    {
      match r
      case MainRx => this.(main := st)
      case PrometheusRx => this.(prometheus := st)
      case ServerRx => this.(server := st)
    }
  }

  datatype Heard = Nothing | Message | Lagged | Closed

  /** `log` lists who sent each broadcast message; `heard` is what the main
      task's receiver returned when it ended the wait. */
  datatype State = State(
    prometheusConfigured: bool,
    pc: Pc,
    tasks: Tasks,
    rx: Receivers,
    log: seq<Task>,
    signalled: bool,
    heard: Heard)

  function Initial(prometheusConfigured: bool): State {
    State(prometheusConfigured, Begin,
          Tasks(NotSpawned, NotSpawned, NotSpawned, NotSpawned),
          Receivers(Unsubscribed, Unsubscribed, Unsubscribed),
          [], false, Nothing)
  }

  // ---------- The broadcast channel ----------

  /** The main task keeps the original sender until it returns; a spawned task
      keeps its clone until it has ended. */
  predicate SenderAlive(s: State)
  {
    || !(s.pc in {Begin, Returned, Failed})
    || exists t: Task :: s.tasks.Of(t) in {Running, Finished}
  }

  predicate SomeoneListens(s: State)
  {
    exists r: Receiver :: s.rx.Of(r).Listening?
  }

  /** What `recv` gives a listening receiver now. */
  function Recv(s: State, r: Receiver): Heard
    requires s.rx.Of(r).Listening?
  {
    var pos := s.rx.Of(r).pos;
    if |s.log| > pos + CAPACITY then Lagged
    else if |s.log| > pos then Message
    else if SenderAlive(s) then Nothing
    else Closed
  }

  function Owned(t: Task): Option<Receiver> {
    match t
    case Prometheus => Some(PrometheusRx)
    case Server => Some(ServerRx)
    case _ => None
  }

  /** A task that ends drops the receiver it owns, if it still has it. */
  function DropOwned(s: State, t: Task): Receivers {
    if Owned(t).Some? then s.rx.With(Owned(t).value, Dropped) else s.rx
  }

  // ---------- Steps ----------

  datatype Action =
    | Main(ok: bool)
    | SignalArrives
    | Trigger(task: Task)
    | Finish(task: Task)
    | Panic(task: Task)
    | Announce(task: Task)

  predicate Enabled(s: State, a: Action) {
    match a
       case Main(ok) =>
         && !(s.pc in {Returned, Failed})
         && (s.pc == Awaiting ==> s.rx.Of(MainRx).Listening? && Recv(s, MainRx) != Nothing)
         && (!ok ==> s.pc in {ServerSubscribed, SenderSpawned})
       case SignalArrives => s.tasks.Of(Signal) == Running
       case Trigger(t) =>
         && Owned(t).Some? && s.tasks.Of(t) == Running
         && s.rx.Of(Owned(t).value).Listening? && Recv(s, Owned(t).value) != Nothing
       case Finish(t) => t != Signal && s.tasks.Of(t) == Running
       case Panic(t) => s.tasks.Of(t) == Running
       case Announce(t) => s.tasks.Of(t) == Finished
  }

  function Spawn(s: State, t: Task, pc: Pc): State {
    s.(tasks := s.tasks.With(t, Running), pc := pc)
  }

  function Subscribe(s: State, r: Receiver, pc: Pc): State {
    s.(rx := s.rx.With(r, Listening(|s.log|)), pc := pc)
  }

  /** Whatever the main task still holds goes when it is done. */
  function Leave(s: State, pc: Pc): State {
    var rx := s.rx.With(MainRx, Dropped);
    var rx' := if s.tasks.prometheus == NotSpawned then rx.With(PrometheusRx, Dropped) else rx;
    s.(pc := pc, rx := if s.tasks.server == NotSpawned then rx'.With(ServerRx, Dropped) else rx')
  }

  /** The statements of the main task in their order. Installing the signal
      handlers may fail; binding the listen address may panic. */
  function MainStep(s: State, ok: bool): State
    requires Enabled(s, Main(ok))
  {
    match s.pc
    case Begin => Subscribe(s, MainRx, Created)
    case Created => Subscribe(s, PrometheusRx, PrometheusSubscribed)
    case PrometheusSubscribed => Subscribe(s, ServerRx, ServerSubscribed)
    case ServerSubscribed => if ok then Spawn(s, Signal, SignalsInstalled) else Leave(s, Failed)
    case SignalsInstalled =>
      if s.prometheusConfigured then Spawn(s, Prometheus, PrometheusSpawned) else s.(pc := PrometheusSpawned)
    case PrometheusSpawned => Spawn(s, Sender, SenderSpawned)
    case SenderSpawned => if ok then Spawn(s, Server, Awaiting) else Leave(s, Failed)
    case Awaiting => s.(pc := Stopping, rx := s.rx.With(MainRx, Dropped), heard := Recv(s, MainRx))
    case Stopping =>
      var aborted := if s.tasks.Of(Sender) == Running then s.(tasks := s.tasks.With(Sender, Aborted)) else s;
      Leave(aborted, Returned)
    case Returned => s
    case Failed => s
  }

  function Apply(s: State, a: Action): State
    requires Enabled(s, a)
  {
    match a
    case Main(ok) => MainStep(s, ok)
    case SignalArrives => s.(tasks := s.tasks.With(Signal, Finished), signalled := true)
    case Trigger(t) => s.(rx := s.rx.With(Owned(t).value, Dropped))
    case Finish(t) => s.(tasks := s.tasks.With(t, Finished), rx := DropOwned(s, t))
    case Panic(t) => s.(tasks := s.tasks.With(t, Panicked), rx := DropOwned(s, t))
    case Announce(t) =>
      if SomeoneListens(s) then s.(tasks := s.tasks.With(t, Sent), log := s.log + [t])
      else s.(tasks := s.tasks.With(t, SendFailed))
  }

  function Run(s: State, actions: seq<Action>): Option<State> {
    if actions == [] then Some(s)
    else
      var n := |actions| - 1;
      match Run(s, actions[..n])
      case None => None
      case Some(t) => if Enabled(t, actions[n]) then Some(Apply(t, actions[n])) else None
  }

  // ---------- Invariant ----------

  /** How far the main task has come, as a number. */
  function Rank(pc: Pc): nat {
    match pc
    case Begin => 0
    case Created => 1
    case PrometheusSubscribed => 2
    case ServerSubscribed => 3
    case SignalsInstalled => 4
    case PrometheusSpawned => 5
    case SenderSpawned => 6
    case Awaiting => 7
    case Stopping => 8
    case Returned => 9
    case Failed => 9
  }

  /** Nothing is sent before everyone has subscribed, so every receiver starts
      at the first message. */
  ghost predicate SubscribedInv(s: State) {
    && (s.rx.main == Unsubscribed <==> Rank(s.pc) < 1)
    && (s.rx.prometheus == Unsubscribed <==> Rank(s.pc) < 2)
    && (s.rx.server == Unsubscribed <==> Rank(s.pc) < 3)
    && (s.rx.main == Listening(0) <==> 1 <= Rank(s.pc) <= 7)
    && (Rank(s.pc) >= 8 ==> s.rx.main == Dropped)
    && (forall r: Receiver :: s.rx.Of(r).Listening? ==> s.rx.Of(r).pos == 0)
    && (Rank(s.pc) < 4 ==> s.log == [])
    && (Rank(s.pc) < 4 ==> s.tasks.signal == NotSpawned)
    && (Rank(s.pc) < 5 ==> s.tasks.prometheus == NotSpawned)
    && (Rank(s.pc) < 6 ==> s.tasks.sender == NotSpawned)
    && (Rank(s.pc) < 7 ==> s.tasks.server == NotSpawned)
  }

  /** The messages are from tasks that have ended normally, one from each. */
  ghost predicate LogInv(s: State) {
    && (forall i :: 0 <= i < |s.log| ==> s.tasks.Of(s.log[i]) == Sent)
    && (forall i, j :: 0 <= i < j < |s.log| ==> s.log[i] != s.log[j])
    && (forall t: Task :: s.tasks.Of(t) == Sent ==> t in s.log)
    && (s.tasks.Of(Signal) in {Finished, Sent, SendFailed} ==> s.signalled)
  }

  /** A receiver that was handed over is there only while its task runs. */
  ghost predicate OwnerInv(s: State) {
    && (s.tasks.Of(Prometheus) !in {NotSpawned, Running} ==> s.rx.Of(PrometheusRx) == Dropped)
    && (s.tasks.Of(Server) !in {NotSpawned, Running} ==> s.rx.Of(ServerRx) == Dropped)
    && (s.tasks.Of(Prometheus) == NotSpawned && Rank(s.pc) == 9 ==> s.rx.Of(PrometheusRx) == Dropped)
    && (s.tasks.Of(Server) == NotSpawned && Rank(s.pc) == 9 ==> s.rx.Of(ServerRx) == Dropped)
    && (!s.prometheusConfigured ==> s.tasks.Of(Prometheus) == NotSpawned)
    && (!s.prometheusConfigured && 2 <= Rank(s.pc) <= 8 ==> s.rx.Of(PrometheusRx).Listening?)
  }

  ghost predicate MainInv(s: State) {
    && (s.pc in {Stopping, Returned} <==> s.heard != Nothing)
    && (s.heard != Nothing ==> s.heard == Message && s.log != [])
    && (forall t: Task :: s.tasks.Of(t) == Aborted ==> s.pc == Returned && t == Sender)
    && (s.pc == Returned ==> s.tasks.sender != Running)
    && (forall t: Task :: s.tasks.Of(t) == SendFailed ==> s.pc in {Stopping, Returned, Failed})
    && (!s.prometheusConfigured && (exists t: Task :: s.tasks.Of(t) == SendFailed) ==> s.pc in {Returned, Failed})
  }

  ghost predicate Inv(s: State) {
    SubscribedInv(s) && LogInv(s) && OwnerInv(s) && MainInv(s)
  }

  lemma FiveRepeat(log: seq<Task>)
    requires |log| >= 5
    ensures exists i, j :: 0 <= i < j < |log| && log[i] == log[j]
  {
    var a, b, c, d, e := log[0], log[1], log[2], log[3], log[4];
    assert a == b || a == c || a == d || a == e || b == c || b == d || b == e || c == d || c == e || d == e;
  }

  lemma DistinctTasks(log: seq<Task>)
    requires forall i, j :: 0 <= i < j < |log| ==> log[i] != log[j]
    ensures |log| <= 4
  {
    if |log| >= 5 {
      FiveRepeat(log);
    }
  }

  /** A listening receiver is never overrun and never finds the channel closed:
      it gets a message as soon as there is one. */
  lemma ReceiversHear(s: State, r: Receiver)
    requires Inv(s) && s.rx.Of(r).Listening?
    ensures Recv(s, r) == if s.log == [] then Nothing else Message
  {
    DistinctTasks(s.log);
    if s.log == [] && s.pc in {Begin, Returned, Failed} {
      if r == PrometheusRx {
        assert s.tasks.Of(Prometheus) == Running;
      } else if r == ServerRx {
        assert s.tasks.Of(Server) == Running;
      }
    }
  }

  lemma SubscribingKeeps(s: State, ok: bool)
    requires Inv(s) && Enabled(s, Main(ok)) && Rank(s.pc) < 3
    ensures Inv(MainStep(s, ok))
  {
  }

  lemma InstallingKeeps(s: State, ok: bool)
    requires Inv(s) && Enabled(s, Main(ok)) && s.pc == ServerSubscribed
    ensures Inv(MainStep(s, ok))
  {
  }

  /** A task that is spawned has not announced anything yet. */
  lemma SpawnKeepsLog(s: State, t: Task, pc: Pc)
    requires LogInv(s) && s.tasks.Of(t) == NotSpawned
    ensures LogInv(Spawn(s, t, pc))
  {
  }

  lemma SpawningKeeps(s: State, t: Task, pc: Pc)
    requires Inv(s) && s.tasks.Of(t) == NotSpawned && 4 <= Rank(s.pc) < Rank(pc) == Rank(s.pc) + 1 <= 7
    requires (s.pc == SignalsInstalled && t == Prometheus && s.prometheusConfigured) ||
             (s.pc == PrometheusSpawned && t == Sender) || (s.pc == SenderSpawned && t == Server)
    ensures Inv(Spawn(s, t, pc))
  {
    SpawnKeepsLog(s, t, pc);
  }

  lemma MiddleKeeps(s: State, ok: bool)
    requires Inv(s) && Enabled(s, Main(ok)) && 4 <= Rank(s.pc) < 7
    ensures Inv(MainStep(s, ok))
  {
    match s.pc {
      case SignalsInstalled =>
        if s.prometheusConfigured {
          SpawningKeeps(s, Prometheus, PrometheusSpawned);
        }
      case PrometheusSpawned => SpawningKeeps(s, Sender, SenderSpawned);
      case SenderSpawned =>
        if ok {
          SpawningKeeps(s, Server, Awaiting);
        }
      case _ =>
    }
  }

  lemma StoppingKeeps(s: State, ok: bool)
    requires Inv(s) && Enabled(s, Main(ok)) && Rank(s.pc) >= 7
    ensures Inv(MainStep(s, ok))
  {
    if s.pc == Awaiting {
      ReceiversHear(s, MainRx);
    }
  }

  lemma MainKeeps(s: State, ok: bool)
    requires Inv(s) && Enabled(s, Main(ok))
    ensures Inv(MainStep(s, ok))
  {
    if Rank(s.pc) < 3 {
      SubscribingKeeps(s, ok);
    } else if s.pc == ServerSubscribed {
      InstallingKeeps(s, ok);
    } else if Rank(s.pc) < 7 {
      MiddleKeeps(s, ok);
    } else {
      StoppingKeeps(s, ok);
    }
  }

  /** A message that someone hears. */
  lemma SentKeepsLog(s: State, t: Task)
    requires LogInv(s) && s.tasks.Of(t) == Finished
    ensures LogInv(s.(tasks := s.tasks.With(t, Sent), log := s.log + [t]))
  {
    var u := s.(tasks := s.tasks.With(t, Sent), log := s.log + [t]);
    forall i | 0 <= i < |u.log| ensures u.tasks.Of(u.log[i]) == Sent {
      assert i < |s.log| ==> s.log[i] == u.log[i] && s.tasks.Of(s.log[i]) == Sent;
    }
    forall i | 0 <= i < |s.log| ensures s.log[i] != t {
      assert s.tasks.Of(s.log[i]) == Sent;
    }
    forall x: Task | u.tasks.Of(x) == Sent ensures x in u.log {
      assert x != t ==> x in s.log;
    }
  }

  /** A message that nobody hears. */
  lemma LostKeeps(s: State, t: Task)
    requires Inv(s) && s.tasks.Of(t) == Finished && !SomeoneListens(s)
    ensures Inv(s.(tasks := s.tasks.With(t, SendFailed)))
  {
    assert !s.rx.Of(MainRx).Listening? && !s.rx.Of(PrometheusRx).Listening?;
    assert Rank(s.pc) >= 4;
  }

  lemma AnnounceKeeps(s: State, t: Task)
    requires Inv(s) && Enabled(s, Announce(t))
    ensures Inv(Apply(s, Announce(t)))
  {
    if SomeoneListens(s) {
      SentKeepsLog(s, t);
    } else {
      LostKeeps(s, t);
    }
  }

  lemma TriggerKeeps(s: State, t: Task)
    requires Inv(s) && Enabled(s, Trigger(t))
    ensures Inv(Apply(s, Trigger(t)))
  {
    assert t == Prometheus || t == Server;
  }

  /** A task ends, by itself or by a panic. */
  lemma EndKeeps(s: State, t: Task, st: TaskState)
    requires Inv(s) && s.tasks.Of(t) == Running && (st == Panicked || (st == Finished && t != Signal))
    ensures Inv(s.(tasks := s.tasks.With(t, st), rx := DropOwned(s, t)))
  {
  }

  lemma StepKeeps(s: State, a: Action)
    requires Inv(s) && Enabled(s, a)
    ensures Inv(Apply(s, a))
  {
    match a {
      case Main(ok) => MainKeeps(s, ok);
      case SignalArrives =>
      case Trigger(t) => TriggerKeeps(s, t);
      case Finish(t) => EndKeeps(s, t, Finished);
      case Panic(t) => EndKeeps(s, t, Panicked);
      case Announce(t) => AnnounceKeeps(s, t);
    }
  }

  lemma ConfigurationStays(s: State, a: Action)
    requires Enabled(s, a)
    ensures Apply(s, a).prometheusConfigured == s.prometheusConfigured
  {
  }

  lemma {:induction false} RunKeeps(s: State, actions: seq<Action>)
    requires Inv(s) && Run(s, actions).Some?
    ensures Inv(Run(s, actions).value) && Run(s, actions).value.prometheusConfigured == s.prometheusConfigured
  {
    if actions == [] {
    } else {
      var n := |actions| - 1;
      RunKeeps(s, actions[..n]);
      StepKeeps(Run(s, actions[..n]).value, actions[n]);
      ConfigurationStays(Run(s, actions[..n]).value, actions[n]);
    }
  }

  ghost predicate Reachable(configured: bool, s: State) {
    exists actions :: Run(Initial(configured), actions) == Some(s)
  }

  lemma ReachableInv(configured: bool, s: State)
    requires Reachable(configured, s)
    ensures Inv(s) && s.prometheusConfigured == configured
  {
    var actions :| Run(Initial(configured), actions) == Some(s);
    RunKeeps(Initial(configured), actions);
  }

  // ---------- Main results ----------

  /** In every interleaving at most four messages are sent, each by a task that
      ended normally, so the channel is never overrun. */
  lemma AtMostFourMessages(configured: bool, s: State)
    requires Reachable(configured, s)
    ensures |s.log| <= 4 <= CAPACITY
    ensures forall i, j :: 0 <= i < j < |s.log| ==> s.log[i] != s.log[j]
    ensures forall i :: 0 <= i < |s.log| ==> s.tasks.Of(s.log[i]) == Sent
  {
    ReachableInv(configured, s);
    DistinctTasks(s.log);
  }

  /** No receiver lags or sees the channel close: it hears the first message as
      soon as one was sent, and waits until then. */
  lemma NobodyMissesShutdown(configured: bool, s: State, r: Receiver)
    requires Reachable(configured, s) && s.rx.Of(r).Listening?
    ensures Recv(s, r) == if s.log == [] then Nothing else Message
    ensures s.log != [] && s.pc == Awaiting ==> Enabled(s, Main(true))
    ensures forall t: Task :: s.log != [] && Owned(t) == Some(r) && s.tasks.Of(t) == Running ==> Enabled(s, Trigger(t))
  {
    ReachableInv(configured, s);
    ReceiversHear(s, r);
    if s.pc == Awaiting {
      ReceiversHear(s, MainRx);
    }
  }

  /** The main task passes its trigger only on a message, and that message is
      from the signal handler after a signal or from a task that has ended. */
  lemma TriggerHasCause(configured: bool, s: State)
    requires Reachable(configured, s) && s.pc in {Stopping, Returned}
    ensures s.heard == Message && s.log != []
    ensures s.tasks.Of(s.log[0]) == Sent
    ensures s.log[0] == Signal ==> s.signalled
  {
    ReachableInv(configured, s);
  }

  /** While the main task waits nothing can happen any more exactly if every
      task that was spawned has panicked, which none of them announces. */
  lemma HangsIffAllPanicked(configured: bool, s: State)
    requires Reachable(configured, s) && s.pc == Awaiting
    ensures (forall a :: !Enabled(s, a)) <==>
            s.log == [] && forall t: Task :: s.tasks.Of(t) in {Panicked, NotSpawned}
  {
    ReachableInv(configured, s);
    ReceiversHear(s, MainRx);
    if forall a :: !Enabled(s, a) {
      assert !Enabled(s, Main(true));
      forall t: Task ensures s.tasks.Of(t) in {Panicked, NotSpawned} {
        assert !Enabled(s, Panic(t)) && !Enabled(s, Announce(t));
      }
    }
  }

  /** When the main task has returned the sender of transactions is not running
      any more, and only the return aborts it. */
  lemma SenderIsAborted(configured: bool, s: State)
    requires Reachable(configured, s)
    ensures s.pc == Returned ==> s.tasks.Of(Sender) != Running
    ensures forall t: Task :: s.tasks.Of(t) == Aborted ==> s.pc == Returned && t == Sender
  {
    ReachableInv(configured, s);
  }

  /** An announcement that finds no receiver comes after the main task was told,
      or after the start has failed and there is nothing to tell. */
  lemma FailedSendIsHarmless(configured: bool, s: State, t: Task)
    requires Reachable(configured, s) && s.tasks.Of(t) == SendFailed
    ensures s.pc in {Stopping, Returned, Failed}
    ensures s.pc != Failed ==> s.heard == Message
  {
    ReachableInv(configured, s);
  }

  lemma Snoc(s: State, actions: seq<Action>, t: State, a: Action) returns (more: seq<Action>, u: State)
    requires Run(s, actions) == Some(t) && Enabled(t, a)
    ensures Run(s, more) == Some(u) && u == Apply(t, a)
  {
    more, u := actions + [a], Apply(t, a);
    assert more[..|actions|] == actions;
  }

  lemma Subscribing() returns (actions: seq<Action>, s: State)
    ensures Run(Initial(true), actions) == Some(s)
    ensures s == State(true, ServerSubscribed, Tasks(NotSpawned, NotSpawned, NotSpawned, NotSpawned),
                       Receivers(Listening(0), Listening(0), Listening(0)), [], false, Nothing)
  {
    var s0 := Initial(true);
    actions, s := Snoc(s0, [], s0, Main(true));
    actions, s := Snoc(s0, actions, s, Main(true));
    actions, s := Snoc(s0, actions, s, Main(true));
  }

  /** The main task up to its wait, with metrics configured. */
  lemma Startup() returns (actions: seq<Action>, s: State)
    ensures Run(Initial(true), actions) == Some(s)
    ensures s == State(true, Awaiting, Tasks(Running, Running, Running, Running),
                       Receivers(Listening(0), Listening(0), Listening(0)), [], false, Nothing)
  {
    var s0 := Initial(true);
    actions, s := Subscribing();
    actions, s := Snoc(s0, actions, s, Main(true));
    actions, s := Snoc(s0, actions, s, Main(true));
    actions, s := Snoc(s0, actions, s, Main(true));
    actions, s := Snoc(s0, actions, s, Main(true));
  }

  /** A signal is announced and every receiver has heard it. */
  lemma Told() returns (actions: seq<Action>, s: State)
    ensures Run(Initial(true), actions) == Some(s)
    ensures s == State(true, Stopping, Tasks(Sent, Running, Running, Running),
                       Receivers(Dropped, Dropped, Dropped), [Signal], true, Message)
  {
    var s0 := Initial(true);
    actions, s := Startup();
    actions, s := Snoc(s0, actions, s, SignalArrives);
    assert s.rx.Of(MainRx).Listening?;
    actions, s := Snoc(s0, actions, s, Announce(Signal));
    actions, s := Snoc(s0, actions, s, Main(true));
    actions, s := Snoc(s0, actions, s, Trigger(Prometheus));
    actions, s := Snoc(s0, actions, s, Trigger(Server));
  }

  lemma FailedSendWithMetrics() returns (actions: seq<Action>, s: State)
    ensures Run(Initial(true), actions) == Some(s) && s.pc == Stopping && s.tasks.Of(Server) == SendFailed
  {
    actions, s := Told();
    actions, s := Snoc(Initial(true), actions, s, Finish(Server));
    actions, s := Snoc(Initial(true), actions, s, Announce(Server));
  }

  /** Such a wait without end does happen. */
  lemma HangHappens()
    ensures exists s :: Reachable(true, s) && s.pc == Awaiting && forall a :: !Enabled(s, a)
  {
    var s0 := Initial(true);
    var actions, s := Startup();
    actions, s := Snoc(s0, actions, s, Panic(Signal));
    actions, s := Snoc(s0, actions, s, Panic(Prometheus));
    actions, s := Snoc(s0, actions, s, Panic(Sender));
    actions, s := Snoc(s0, actions, s, Panic(Server));
    assert Reachable(true, s);
    HangsIffAllPanicked(true, s);
  }

  lemma NoFailedSendWithoutMetrics(s: State, t: Task)
    requires Reachable(false, s) && s.tasks.Of(t) == SendFailed
    ensures s.pc in {Returned, Failed}
  {
    ReachableInv(false, s);
  }

  /** No receiver is kept until the main task returns: a send can fail before
      that exactly when the metrics server is configured, because only an unused
      metrics receiver stays alive. */
  lemma SendFailsIffMetrics(configured: bool)
    ensures configured <==>
            exists s, t: Task :: Reachable(configured, s) && !(s.pc in {Returned, Failed}) && s.tasks.Of(t) == SendFailed
  {
    if configured {
      var actions, s := FailedSendWithMetrics();
      assert Reachable(true, s) && s.tasks.Of(Server) == SendFailed;
    } else {
      forall s, t: Task | Reachable(configured, s) && s.tasks.Of(t) == SendFailed ensures s.pc in {Returned, Failed} {
        NoFailedSendWithoutMetrics(s, t);
      }
    }
  }
}
