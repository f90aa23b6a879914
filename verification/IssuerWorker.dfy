/** The two workers as loops over the requests they receive, against a chain
    that decides the fate of each call, proved to take the steps of the protocol. */
module IssuerWorker {
  import opened Wrappers
  import L = RateLimiter
  import opened IssuerProtocol
  import Safety = IssuerSafety

  /** What the chain makes of a call: accept and acknowledge, accept and lose
      the acknowledgement to an error, or report an error without accepting. */
  datatype Fate = Acknowledge | AcceptThenFail(error: CallError) | FailWithoutEffect(error: CallError)

  /** What the world decides about one request. Before the call is taken up the
      chain may still accept a transaction whose call was given up. */
  datatype Verdict = Verdict(valid: bool, late: Option<Tx>, fate: Fate, secrets: bool)

  /** What happens from one receive to the next: requests arrive, the last
      sender may go, and the request that is then received meets its verdict. */
  datatype Turn = Turn(arrivals: seq<Message>, close: bool, verdict: Verdict)

  class Chain {
    var next: nat
    var accepted: seq<Tx>
    /** Sent and not accepted yet. */
    var outstanding: set<Tx>

    constructor (next: nat)
      ensures IsNew(next)
    {
      this.next, accepted, outstanding := next, [], {};
    }

    predicate IsNew(next: nat)
      reads this
    {
      this.next == next && accepted == [] && outstanding == {}
    }

    predicate CanAccept(tx: Tx)
      reads this
    {
      tx in outstanding && tx.nonce == next
    }

    /** The chain may take up a transaction whose call was given up. */
    method Settle(late: Option<Tx>)
      modifies this
      ensures if late.Some? && old(CanAccept(late.value))
              then next == old(next) + 1 && accepted == old(accepted) + [late.value] &&
                   outstanding == old(outstanding) - {late.value}
              else unchanged(this)
    {
      if late.Some? && CanAccept(late.value) {
        next, accepted, outstanding := next + 1, accepted + [late.value], outstanding - {late.value};
      }
    }

    /** A transaction under any nonce but the next one is an invalid argument. */
    method Submit(tx: Tx, fate: Fate) returns (r: Result<nat, CallError>)
      modifies this
      ensures if !fate.FailWithoutEffect? && tx.nonce == old(next)
              then next == old(next) + 1 && accepted == old(accepted) + [tx] && outstanding == old(outstanding)
              else next == old(next) && accepted == old(accepted) && outstanding == old(outstanding) + {tx}
      ensures r == match fate
                   case FailWithoutEffect(e) => Failure(e)
                   case Acknowledge => if tx.nonce == old(next) then Success(tx.nonce) else Failure(InvalidArgument)
                   case AcceptThenFail(e) => Failure(if tx.nonce == old(next) then e else InvalidArgument)
    {
      if fate.FailWithoutEffect? {
        outstanding := outstanding + {tx};
        return Failure(fate.error);
      }
      if tx.nonce != next {
        outstanding := outstanding + {tx};
        return Failure(InvalidArgument);
      }
      next, accepted := next + 1, accepted + [tx];
      r := if fate == Acknowledge then Success(tx.nonce) else Failure(fate.error);
    }
  }

  datatype Poll = Pending | Ready(message: Option<Message>)

  /** The receiving end of the request channel. */
  class Receiver {
    var queue: seq<Message>
    var open: bool

    constructor ()
      ensures IsNew()
    {
      queue, open := [], true;
    }

    predicate IsNew()
      reads this
    {
      queue == [] && open
    }

    /** Wait for a message while others arrive and the senders may go; a closed
        channel is read to its end. */
    method Receive(arrivals: seq<Message>, close: bool) returns (poll: Poll)
      modifies this
      ensures open == (old(open) && !close)
      ensures var q := old(queue) + arrivals;
              if q == [] then queue == [] && poll == (if open then Pending else Ready(None))
              else queue == q[1..] && poll == Ready(Some(q[0]))
    {
      queue, open := queue + arrivals, open && !close;
      if queue != [] {
        poll := Ready(Some(queue[0]));
        queue := queue[1..];
      } else {
        poll := if open then Pending else Ready(None);
      }
    }

    method Drop()
      modifies this`queue
      ensures queue == []
    {
      queue := [];
    }
  }

  // ---------- What a request comes to ----------

  predicate Settles(c: Core, late: Option<Tx>) {
    late.Some? && late.value in c.outstanding && late.value.nonce == c.chainNext
  }

  function Settled(c: Core, late: Option<Tx>): Core {
    if Settles(c, late) then Accept(c, late.value).(outstanding := c.outstanding - {late.value}) else c
  }

  /** The call of `m` ends in an error that is passed on. */
  function Failed(cfg: Config, c: Core, m: Message, error: CallError): Core {
    var d := Send(c.(worker := Idle), m.client, Refused(StatusFor(cfg.variant, error)));
    if cfg.variant == RateLimited && error == InvalidArgument then Stop(d) else d
  }

  /** The chain does not accept the transaction, for now. */
  function Unaccepted(cfg: Config, c: Core, m: Message, error: CallError): Core {
    Failed(cfg, c.(outstanding := c.outstanding + {TxOf(m, c.nonce)}), m, error)
  }

  /** The call of `m` is acknowledged; the secrets may be missing. */
  function Acknowledged(cfg: Config, c: Core, m: Message, secrets: bool): Core {
    var tx := TxOf(m, c.nonce);
    var d := Accept(c, tx).(worker := Idle, nonce := c.nonce + 1, acks := c.acks + [tx]);
    if cfg.variant == RateLimited && !secrets then Stop(Send(d, m.client, Refused(InternalServerError)))
    else Send(d, m.client, Issued(c.nonce))
  }

  /** What the answer of the chain comes to. */
  function Answered(cfg: Config, c: Core, m: Message, v: Verdict): Core {
    match v.fate
    case FailWithoutEffect(e) => Unaccepted(cfg, c, m, e)
    case AcceptThenFail(e) =>
      if c.nonce == c.chainNext then Failed(cfg, Accept(c, TxOf(m, c.nonce)), m, e)
      else Unaccepted(cfg, c, m, InvalidArgument)
    case Acknowledge =>
      if c.nonce == c.chainNext then Acknowledged(cfg, c, m, v.secrets)
      else Unaccepted(cfg, c, m, InvalidArgument)
  }

  /** What serving a received message comes to. */
  function Serve(cfg: Config, c: Core, m: Message, v: Verdict): Core {
    if cfg.variant == RateLimited && !v.valid then Send(c, m.client, Refused(BadRequest))
    else if !Allowed(cfg, c, m.userId) then Send(c, m.client, Refused(TooManyRequests))
    else Answered(cfg, Settled(c, v.late), m, v)
  }

  /** What serving the head of the queue comes to. */
  function Served(cfg: Config, c: Core, v: Verdict): Core
    requires c.channel != []
  {
    Serve(cfg, c.(channel := c.channel[1..]), c.channel[0], v)
  }

  // ---------- The steps behind one request ----------

  /** The steps of the protocol that serve the message at the head of the queue. */
  function Plan(cfg: Config, c: Core, v: Verdict): seq<Work>
    requires c.channel != []
  {
    if cfg.variant == RateLimited && !v.valid then [RejectInvalid]
    else if !Allowed(cfg, c, c.channel[0].userId) then [RejectLimited]
    else if Settles(c, v.late) then [LateAccept(v.late.value)] + CallPlan(cfg, Settled(c, v.late), v)
    else CallPlan(cfg, c, v)
  }

  function CallPlan(cfg: Config, c: Core, v: Verdict): seq<Work> {
    [Submit] + AnswerPlan(cfg, c.nonce == c.chainNext, v)
  }

  /** The steps after submission, if the nonce is current or not. */
  function AnswerPlan(cfg: Config, current: bool, v: Verdict): seq<Work> {
    match v.fate
    case FailWithoutEffect(e) => [ChainError(e)]
    case AcceptThenFail(e) => if current then [ChainAccept] + [ChainError(e)] else [ChainError(InvalidArgument)]
    case Acknowledge => if current then [ChainAccept] + [ChainAck] + [LastStep(cfg, v)] else [ChainError(InvalidArgument)]
  }

  function LastStep(cfg: Config, v: Verdict): Work {
    if cfg.variant == RateLimited && !v.secrets then SecretsFail else Issue
  }

  lemma {:induction false} RunConcat(cfg: Config, c: Core, xs: seq<Work>, ys: seq<Work>)
    requires RunWork(cfg, c, xs).Some?
    ensures RunWork(cfg, c, xs + ys) == RunWork(cfg, RunWork(cfg, c, xs).value, ys)
  {
    if ys == [] {
      assert xs + ys == xs;
    } else {
      RunConcat(cfg, c, xs, ys[..|ys| - 1]);
      assert (xs + ys)[..|xs + ys| - 1] == xs + ys[..|ys| - 1];
    }
  }

  lemma RunOne(cfg: Config, c: Core, w: Work)
    ensures RunWork(cfg, c, [w]) == if WorkEnabled(cfg, c, w) then Some(WorkStep(cfg, c, w)) else None
  {
    assert [w][..0] == [];
  }

  lemma RunFirst(cfg: Config, c: Core, w: Work, ws: seq<Work>)
    requires WorkEnabled(cfg, c, w)
    ensures RunWork(cfg, c, [w] + ws) == RunWork(cfg, WorkStep(cfg, c, w), ws)
  {
    RunOne(cfg, c, w);
    RunConcat(cfg, c, [w], ws);
  }

  lemma UnacceptedServes(cfg: Config, c: Core, m: Message, e: CallError)
    requires c.worker == InFlight(m, false)
    ensures RunWork(cfg, c, [ChainError(e)]) == Some(Unaccepted(cfg, c.(worker := Idle), m, e))
  {
    RunOne(cfg, c, ChainError(e));
  }

  lemma AcceptThenFailServes(cfg: Config, c: Core, m: Message, e: CallError)
    requires c.worker == InFlight(m, false) && c.nonce == c.chainNext
    ensures RunWork(cfg, c, [ChainAccept] + [ChainError(e)]) ==
            Some(Failed(cfg, Accept(c.(worker := Idle), TxOf(m, c.nonce)), m, e))
  {
    RunFirst(cfg, c, ChainAccept, [ChainError(e)]);
    RunOne(cfg, WorkStep(cfg, c, ChainAccept), ChainError(e));
  }

  lemma AcknowledgeServes(cfg: Config, c: Core, m: Message, v: Verdict)
    requires c.worker == InFlight(m, false) && c.nonce == c.chainNext
    ensures RunWork(cfg, c, [ChainAccept] + [ChainAck] + [LastStep(cfg, v)]) ==
            Some(Acknowledged(cfg, c.(worker := Idle), m, v.secrets))
  {
    var d := WorkStep(cfg, c, ChainAccept);
    var e := WorkStep(cfg, d, ChainAck);
    assert [ChainAccept] + [ChainAck] + [LastStep(cfg, v)] == [ChainAccept] + ([ChainAck] + [LastStep(cfg, v)]);
    RunFirst(cfg, c, ChainAccept, [ChainAck] + [LastStep(cfg, v)]);
    RunFirst(cfg, d, ChainAck, [LastStep(cfg, v)]);
    RunOne(cfg, e, LastStep(cfg, v));
  }

  lemma AnswerServes(cfg: Config, c: Core, m: Message, v: Verdict)
    requires c.worker == InFlight(m, false)
    ensures RunWork(cfg, c, AnswerPlan(cfg, c.nonce == c.chainNext, v)) == Some(Answered(cfg, c.(worker := Idle), m, v))
  {
    if v.fate.FailWithoutEffect? {
      UnacceptedServes(cfg, c, m, v.fate.error);
    } else if c.nonce != c.chainNext {
      UnacceptedServes(cfg, c, m, InvalidArgument);
    } else if v.fate == Acknowledge {
      AcknowledgeServes(cfg, c, m, v);
    } else {
      AcceptThenFailServes(cfg, c, m, v.fate.error);
    }
  }

  lemma CallServes(cfg: Config, c: Core, v: Verdict)
    requires c.worker == Idle && c.channel != [] && Allowed(cfg, c, c.channel[0].userId)
    ensures RunWork(cfg, c, CallPlan(cfg, c, v)) ==
            Some(Answered(cfg, c.(channel := c.channel[1..]), c.channel[0], v))
  {
    var d := WorkStep(cfg, c, Submit);
    RunFirst(cfg, c, Submit, AnswerPlan(cfg, c.nonce == c.chainNext, v));
    AnswerServes(cfg, d, c.channel[0], v);
    assert d.(worker := Idle) == c.(channel := c.channel[1..]);
  }

  /** Serving a message is a run of the protocol, whether or not the channel is
      still open. */
  lemma PlanServes(cfg: Config, c: Core, v: Verdict)
    requires c.worker == Idle && c.channel != []
    ensures RunWork(cfg, c, Plan(cfg, c, v)) == Some(Served(cfg, c, v))
  {
    if cfg.variant == RateLimited && !v.valid {
      RunOne(cfg, c, RejectInvalid);
    } else if !Allowed(cfg, c, c.channel[0].userId) {
      RunOne(cfg, c, RejectLimited);
    } else {
      var d := Settled(c, v.late);
      CallServes(cfg, d, v);
      assert d.(channel := d.channel[1..]) == Settled(c.(channel := c.channel[1..]), v.late);
      if Settles(c, v.late) {
        RunFirst(cfg, c, LateAccept(v.late.value), CallPlan(cfg, d, v));
      }
    }
  }

  /** Whatever a request meets, in a reachable state it leads to a reachable one. */
  lemma ServedIsReachable(cfg: Config, s: State, v: Verdict) returns (t: State)
    requires Reachable(cfg, s) && s.core.worker == Idle && s.core.channel != []
    ensures Reachable(cfg, t) && t.core == Served(cfg, s.core, v) && t.clients == s.clients
  {
    var actions :| Run(cfg, Initial(cfg), actions) == Some(s);
    PlanServes(cfg, s.core, v);
    var more;
    more, t := Safety.LiftWork(cfg, Initial(cfg), actions, s, Plan(cfg, s.core, v));
  }

  // ---------- The loop, with requests arriving while it runs ----------

  /** What waiting for a message comes to: a closed and exhausted queue ends the
      loop, and an empty open one is waited on. */
  function Awaited(cfg: Config, c: Core, v: Verdict): Core {
    if c.channel != [] then Served(cfg, c, v)
    else if c.open then c
    else Stop(c)
  }

  /** One turn of the loop. */
  function Turned(cfg: Config, c: Core, turn: Turn): Core {
    Awaited(cfg, c.(channel := c.channel + turn.arrivals, open := c.open && !turn.close), turn.verdict)
  }

  function ServeAll(cfg: Config, c: Core, turns: seq<Turn>): Core
    decreases |turns|
  {
    if turns == [] || c.worker != Idle then c else ServeAll(cfg, Turned(cfg, c, turns[0]), turns[1..])
  }

  function Arrived(clients: map<ClientId, Client>, arrivals: seq<Message>): map<ClientId, Client> {
    if arrivals == [] then clients
    else
      var n := |arrivals| - 1;
      Arrived(clients, arrivals[..n])[arrivals[n].client := Client(arrivals[n].userId, Waiting)]
  }

  /** A request can arrive from a client that is sending it, or from a new one
      while the service is open. */
  predicate CanArrive(open: bool, clients: map<ClientId, Client>, m: Message) {
    if m.client in clients then clients[m.client] == Client(m.userId, Sending) else open
  }

  predicate CanAllArrive(cfg: Config, c: Core, clients: map<ClientId, Client>, arrivals: seq<Message>) {
    && |c.channel| + |arrivals| <= cfg.capacity
    && (forall i :: 0 <= i < |arrivals| ==> CanArrive(c.open, clients, arrivals[i]))
    && (forall i, j :: 0 <= i < j < |arrivals| ==> arrivals[i].client != arrivals[j].client)
  }

  /** Turns that the clients and the channel allow. */
  predicate Possible(cfg: Config, c: Core, clients: map<ClientId, Client>, turn: Turn) {
    && CanAllArrive(cfg, c, clients, turn.arrivals)
    && (turn.close ==> c.open && NobodySends(Arrived(clients, turn.arrivals)))
  }

  predicate NobodySends(clients: map<ClientId, Client>) {
    forall client :: client in clients ==> clients[client].phase != Sending
  }

  predicate AllPossible(cfg: Config, c: Core, clients: map<ClientId, Client>, turns: seq<Turn>)
    decreases |turns|
  {
    turns == [] || c.worker != Idle ||
    (Possible(cfg, c, clients, turns[0]) &&
     AllPossible(cfg, Turned(cfg, c, turns[0]), Arrived(clients, turns[0].arrivals), turns[1..]))
  }

  lemma OneArrives(cfg: Config, actions: seq<Action>, s: State, m: Message) returns (more: seq<Action>, t: State)
    requires Run(cfg, Initial(cfg), actions) == Some(s)
    requires s.core.worker != Stopped && |s.core.channel| < cfg.capacity && CanArrive(s.core.open, s.clients, m)
    ensures Run(cfg, Initial(cfg), more) == Some(t) && t.core == s.core.(channel := s.core.channel + [m])
    ensures t.clients == s.clients[m.client := Client(m.userId, Waiting)]
  {
    more, t := actions, s;
    if m.client !in s.clients {
      Safety.Extend(cfg, Initial(cfg), more, t, Start(m.client, m.userId));
      more, t := more + [Start(m.client, m.userId)], Apply(cfg, t, Start(m.client, m.userId));
    }
    Safety.Extend(cfg, Initial(cfg), more, t, Enqueue(m.client));
    more, t := more + [Enqueue(m.client)], Apply(cfg, t, Enqueue(m.client));
  }

  lemma {:induction false} ArrivedOnly(clients: map<ClientId, Client>, arrivals: seq<Message>, client: ClientId)
    requires forall i :: 0 <= i < |arrivals| ==> arrivals[i].client != client
    ensures client in Arrived(clients, arrivals) <==> client in clients
    ensures client in clients ==> Arrived(clients, arrivals)[client] == clients[client]
  {
    if arrivals == [] {
    } else {
      ArrivedOnly(clients, arrivals[..|arrivals| - 1], client);
    }
  }

  lemma LastCanArrive(cfg: Config, c: Core, clients: map<ClientId, Client>, arrivals: seq<Message>)
    requires arrivals != [] && CanAllArrive(cfg, c, clients, arrivals)
    ensures var init, last := arrivals[..|arrivals| - 1], arrivals[|arrivals| - 1];
            CanAllArrive(cfg, c, clients, init) && CanArrive(c.open, Arrived(clients, init), last) &&
            |c.channel + init| < cfg.capacity && init + [last] == arrivals
  {
    ArrivedOnly(clients, arrivals[..|arrivals| - 1], arrivals[|arrivals| - 1].client);
  }

  lemma {:induction false} AllArrive(cfg: Config, actions: seq<Action>, s: State, arrivals: seq<Message>)
    returns (more: seq<Action>, t: State)
    requires Run(cfg, Initial(cfg), actions) == Some(s)
    requires s.core.worker != Stopped && CanAllArrive(cfg, s.core, s.clients, arrivals)
    ensures Run(cfg, Initial(cfg), more) == Some(t) && t.core == s.core.(channel := s.core.channel + arrivals)
    ensures t.clients == Arrived(s.clients, arrivals)
  {
    if arrivals == [] {
      more, t := actions, s;
    } else {
      var n := |arrivals| - 1;
      LastCanArrive(cfg, s.core, s.clients, arrivals);
      more, t := AllArrive(cfg, actions, s, arrivals[..n]);
      more, t := OneArrives(cfg, more, t, arrivals[n]);
    }
  }

  lemma CloseHappens(cfg: Config, actions: seq<Action>, s: State, close: bool) returns (more: seq<Action>, t: State)
    requires Run(cfg, Initial(cfg), actions) == Some(s) && (close ==> s.core.open && NobodySends(s.clients))
    ensures Run(cfg, Initial(cfg), more) == Some(t) && t.clients == s.clients
    ensures t.core == s.core.(open := s.core.open && !close)
  {
    more, t := actions, s;
    if close {
      Safety.Extend(cfg, Initial(cfg), more, t, Close);
      more, t := more + [Close], Apply(cfg, t, Close);
    }
  }

  lemma AwaitedHappens(cfg: Config, actions: seq<Action>, s: State, v: Verdict) returns (more: seq<Action>, t: State)
    requires Run(cfg, Initial(cfg), actions) == Some(s) && s.core.worker == Idle
    ensures Run(cfg, Initial(cfg), more) == Some(t) && t.clients == s.clients && t.core == Awaited(cfg, s.core, v)
  {
    var ws := [];
    if s.core.channel != [] {
      PlanServes(cfg, s.core, v);
      ws := Plan(cfg, s.core, v);
    } else if !s.core.open {
      RunOne(cfg, s.core, Drain);
      ws := [Drain];
    }
    more, t := Safety.LiftWork(cfg, Initial(cfg), actions, s, ws);
  }

  lemma TurnHappens(cfg: Config, actions: seq<Action>, s: State, turn: Turn) returns (more: seq<Action>, t: State)
    requires Run(cfg, Initial(cfg), actions) == Some(s)
    requires s.core.worker == Idle && Possible(cfg, s.core, s.clients, turn)
    ensures Run(cfg, Initial(cfg), more) == Some(t) && t.core == Turned(cfg, s.core, turn)
    ensures t.clients == Arrived(s.clients, turn.arrivals)
  {
    more, t := AllArrive(cfg, actions, s, turn.arrivals);
    more, t := CloseHappens(cfg, more, t, turn.close);
    more, t := AwaitedHappens(cfg, more, t, turn.verdict);
  }

  lemma {:induction false} TurnsHappen(cfg: Config, actions: seq<Action>, s: State, turns: seq<Turn>)
    returns (more: seq<Action>, t: State)
    requires Run(cfg, Initial(cfg), actions) == Some(s) && AllPossible(cfg, s.core, s.clients, turns)
    ensures Run(cfg, Initial(cfg), more) == Some(t) && t.core == ServeAll(cfg, s.core, turns)
    decreases |turns|
  {
    if turns == [] || s.core.worker != Idle {
      more, t := actions, s;
    } else {
      more, t := TurnHappens(cfg, actions, s, turns[0]);
      more, t := TurnsHappen(cfg, more, t, turns[1..]);
    }
  }

  /** The loop, with requests arriving and the senders going at any time, takes
      reachable states to reachable states, so that everything proved of the
      protocol holds of the loop. */
  lemma LoopIsReachable(cfg: Config, s: State, turns: seq<Turn>) returns (t: State)
    requires Reachable(cfg, s) && AllPossible(cfg, s.core, s.clients, turns)
    ensures Reachable(cfg, t) && t.core == ServeAll(cfg, s.core, turns)
  {
    var actions :| Run(cfg, Initial(cfg), actions) == Some(s);
    var more;
    more, t := TurnsHappen(cfg, actions, s, turns);
  }

  /** From a fresh start, whatever the turns: nonces are consecutive and at most
      one acceptance lacks its acknowledgement, the registered users respect the
      rate limit, and no client is answered twice. */
  lemma LoopIsSafe(cfg: Config, turns: seq<Turn>)
    requires AllPossible(cfg, Initial(cfg).core, map[], turns)
    ensures var c := ServeAll(cfg, Initial(cfg).core, turns);
            && 0 <= c.chainNext - c.nonce <= 1 && c.acks <= c.accepted
            && (forall i :: 0 <= i < |c.accepted| ==> c.accepted[i].nonce == cfg.firstNonce + i)
            && (cfg.variant == RateLimited ==> L.Spaced(Users(c.accepted), cfg.W() + 1, cfg.multiplicity))
            && (forall i, j :: 0 <= i < j < |c.sent| ==> c.sent[i].0 != c.sent[j].0)
  {
    assert Run(cfg, Initial(cfg), []) == Some(Initial(cfg));
    var t := LoopIsReachable(cfg, Initial(cfg), turns);
    Safety.NonceSafety(cfg, t);
    Safety.ReachableInv(cfg, t);
    if cfg.variant == RateLimited {
      Safety.RateLimitHolds(cfg, t);
    }
  }

  function AllArrivals(turns: seq<Turn>): seq<Message> {
    if turns == [] then [] else turns[0].arrivals + AllArrivals(turns[1..])
  }

  /** Requests are answered in the order in which they arrived, one response
      each, and while the worker runs those not yet answered are in the queue. */
  ghost predicate AnsweredInOrder(c: Core, arrivals: seq<Message>, d: Core) {
    var all, k := c.channel + arrivals, |d.sent| - |c.sent|;
    && 0 <= k <= |all| && c.sent <= d.sent
    && (forall i :: 0 <= i < k ==> d.sent[|c.sent| + i].0 == all[i].client)
    && (d.worker == Idle ==> d.channel == all[k..])
    && (d.worker == Stopped ==> d.channel == [])
    && (d.worker == Idle || d.worker == Stopped)
  }

  /** From `c`, with `m` in hand, one response goes to the client of `m`. */
  predicate AnsweredOne(c: Core, m: Message, d: Core) {
    && |d.sent| == |c.sent| + 1 && d.sent[..|c.sent|] == c.sent && d.sent[|c.sent|].0 == m.client
    && ((d.worker == Idle && d.channel == c.channel) || (d.worker == Stopped && d.channel == []))
    && d.open == c.open
  }

  lemma FailedAnswers(cfg: Config, c: Core, m: Message, e: CallError)
    ensures AnsweredOne(c, m, Failed(cfg, c, m, e))
  {
  }

  lemma AcknowledgedAnswers(cfg: Config, c: Core, m: Message, secrets: bool)
    requires c.worker == Idle
    ensures AnsweredOne(c, m, Acknowledged(cfg, c, m, secrets))
  {
  }

  lemma AnsweredAnswers(cfg: Config, c: Core, m: Message, v: Verdict)
    requires c.worker == Idle
    ensures AnsweredOne(c, m, Answered(cfg, c, m, v))
  {
    var tx := TxOf(m, c.nonce);
    if v.fate == Acknowledge && c.nonce == c.chainNext {
      AcknowledgedAnswers(cfg, c, m, v.secrets);
    } else {
      var e := if v.fate == Acknowledge then InvalidArgument else v.fate.error;
      FailedAnswers(cfg, Accept(c, tx), m, e);
      FailedAnswers(cfg, c.(outstanding := c.outstanding + {tx}), m, e);
      FailedAnswers(cfg, c.(outstanding := c.outstanding + {tx}), m, InvalidArgument);
    }
  }

  lemma ServeAnswers(cfg: Config, c: Core, m: Message, v: Verdict)
    requires c.worker == Idle
    ensures AnsweredOne(c, m, Serve(cfg, c, m, v))
  {
    AnsweredAnswers(cfg, Settled(c, v.late), m, v);
  }

  lemma TurnAnswers(cfg: Config, c: Core, turn: Turn)
    requires c.worker == Idle
    ensures AnsweredInOrder(c, turn.arrivals, Turned(cfg, c, turn))
  {
    var d := c.(channel := c.channel + turn.arrivals, open := c.open && !turn.close);
    if d.channel != [] {
      ServeAnswers(cfg, d.(channel := d.channel[1..]), d.channel[0], turn.verdict);
    }
  }

  lemma TwoLegs(c: Core, xs: seq<Message>, d: Core, ys: seq<Message>, e: Core)
    requires AnsweredInOrder(c, xs, d) && d.worker == Idle && AnsweredInOrder(d, ys, e)
    ensures AnsweredInOrder(c, xs + ys, e)
  {
    var all, k, n := c.channel + xs + ys, |d.sent| - |c.sent|, |e.sent| - |c.sent|;
    assert all == c.channel + (xs + ys);
    assert d.channel + ys == all[k..];
    forall i | 0 <= i < n ensures e.sent[|c.sent| + i].0 == all[i].client {
      if i < k {
        assert d.sent[|c.sent| + i] == e.sent[|c.sent| + i];
      } else {
        assert e.sent[|d.sent| + (i - k)].0 == (d.channel + ys)[i - k].client;
      }
    }
  }

  lemma {:induction false} AnswersInOrder(cfg: Config, c: Core, turns: seq<Turn>)
    requires c.worker == Idle
    ensures AnsweredInOrder(c, AllArrivals(turns), ServeAll(cfg, c, turns))
    decreases |turns|
  {
    if turns == [] {
    } else {
      var d := Turned(cfg, c, turns[0]);
      TurnAnswers(cfg, c, turns[0]);
      if d.worker == Idle {
        AnswersInOrder(cfg, d, turns[1..]);
        TwoLegs(c, turns[0].arrivals, d, AllArrivals(turns[1..]), ServeAll(cfg, d, turns[1..]));
      } else {
        assert c.channel + AllArrivals(turns) == c.channel + turns[0].arrivals + AllArrivals(turns[1..]);
      }
    }
  }

  /** Once the senders are gone the loop ends, after at most one turn for each
      request that is still queued and one more. */
  lemma {:induction false} ClosedLoopStops(cfg: Config, c: Core, turns: seq<Turn>)
    requires c.worker == Idle && !c.open && AllArrivals(turns) == [] && |turns| > |c.channel|
    ensures ServeAll(cfg, c, turns).worker == Stopped
    decreases |turns|
  {
    if c.channel == [] {
      assert Turned(cfg, c, turns[0]).worker == Stopped;
    } else {
      var d := Turned(cfg, c, turns[0]);
      assert c.channel + turns[0].arrivals == c.channel;
      ServeAnswers(cfg, c.(channel := c.channel[1..]), c.channel[0], turns[0].verdict);
      if d.worker == Idle {
        ClosedLoopStops(cfg, d, turns[1..]);
      }
    }
  }

  // ---------- The same, cause by cause ----------

  /** What one request does to worker and chain, and its response. */
  predicate ServedDirectly(cfg: Config, before: Core, m: Message, v: Verdict, reply: Response, stop: bool, after: Core) {
    if cfg.variant == RateLimited && !v.valid then
      reply == Refused(BadRequest) && !stop && NothingDone(before, after)
    else if cfg.variant == RateLimited && !L.Admits(Users(before.acks), cfg.W(), cfg.multiplicity, m.userId) then
      reply == Refused(TooManyRequests) && !stop && NothingDone(before, after)
    else CalledDirectly(cfg, Settled(before, v.late), m, v, reply, stop, after)
  }

  /** What the call of an admitted request does, once a late transaction was
      taken up. */
  predicate CalledDirectly(cfg: Config, c: Core, m: Message, v: Verdict, reply: Response, stop: bool, after: Core) {
    var tx := Tx(m.client, m.userId, c.nonce);
    if c.nonce == c.chainNext && v.fate == Acknowledge then
      && after.nonce == c.nonce + 1 && after.acks == c.acks + [tx]
      && after.chainNext == c.chainNext + 1 && after.accepted == c.accepted + [tx] && after.outstanding == c.outstanding
      && (if cfg.variant == RateLimited && !v.secrets then reply == Refused(InternalServerError) && stop
          else reply == Issued(c.nonce) && !stop)
    else if c.nonce == c.chainNext && v.fate.AcceptThenFail? then
      && after.nonce == c.nonce && after.acks == c.acks
      && after.chainNext == c.chainNext + 1 && after.accepted == c.accepted + [tx] && after.outstanding == c.outstanding
      && ErrorReply(cfg.variant, v.fate.error, reply, stop)
    else
      && after.nonce == c.nonce && after.acks == c.acks
      && after.chainNext == c.chainNext && after.accepted == c.accepted && after.outstanding == c.outstanding + {tx}
      && ErrorReply(cfg.variant, if v.fate.FailWithoutEffect? then v.fate.error else InvalidArgument, reply, stop)
  }

  predicate NothingDone(before: Core, after: Core) {
    && after.nonce == before.nonce && after.acks == before.acks
    && after.chainNext == before.chainNext && after.accepted == before.accepted
    && after.outstanding == before.outstanding
  }

  /** The response to a failed call, and whether the worker ends. */
  predicate ErrorReply(variant: Variant, error: CallError, reply: Response, stop: bool) {
    match error
    case InvalidArgument => reply == Refused(InternalServerError) && (stop <==> variant == RateLimited)
    case NodeRejected => reply == Refused(if variant == Plain then InternalServerError else BadRequest) && !stop
    case OtherError => reply == Refused(if variant == Plain then InternalServerError else BadGateway) && !stop
  }

  lemma FailedDirectly(cfg: Config, c: Core, m: Message, e: CallError)
    requires c.worker == Idle
    ensures var d := Failed(cfg, c, m, e);
            && |d.sent| == |c.sent| + 1 && NothingDone(c, d)
            && ErrorReply(cfg.variant, e, d.sent[|c.sent|].1, d.worker == Stopped)
  {
  }

  lemma AnsweredDirectly(cfg: Config, c: Core, m: Message, v: Verdict)
    requires c.worker == Idle
    ensures var d := Answered(cfg, c, m, v);
            |d.sent| == |c.sent| + 1 && CalledDirectly(cfg, c, m, v, d.sent[|c.sent|].1, d.worker == Stopped, d)
  {
    var tx := TxOf(m, c.nonce);
    if c.nonce == c.chainNext && v.fate == Acknowledge {
    } else if c.nonce == c.chainNext && v.fate.AcceptThenFail? {
      FailedDirectly(cfg, Accept(c, tx), m, v.fate.error);
    } else {
      FailedDirectly(cfg, c.(outstanding := c.outstanding + {tx}), m,
                     if v.fate.FailWithoutEffect? then v.fate.error else InvalidArgument);
    }
  }

  lemma ServeDirectly(cfg: Config, c: Core, m: Message, v: Verdict)
    requires c.worker == Idle
    ensures var d := Serve(cfg, c, m, v);
            |d.sent| == |c.sent| + 1 && ServedDirectly(cfg, c, m, v, d.sent[|c.sent|].1, d.worker == Stopped, d)
  {
    AnsweredDirectly(cfg, Settled(c, v.late), m, v);
  }

  lemma TurnDirectly(cfg: Config, c: Core, m: Message, v: Verdict, reply: Response, stop: bool, d: Core)
    requires c.worker == Idle && d.worker == Idle && d.sent == c.sent + [(m.client, reply)]
    requires Serve(cfg, c, m, v) == if stop then Stop(d) else d
    ensures ServedDirectly(cfg, c, m, v, reply, stop, d)
  {
    ServeDirectly(cfg, c, m, v);
  }

  /** Turn `k` of the loop made acknowledgement `i`: it received a valid request
      that the limit admits, and the chain acknowledged it. */
  ghost predicate AcknowledgedIn(cfg: Config, c: Core, turns: seq<Turn>, i: nat, k: nat) {
    && k < |turns|
    && i < |ServeAll(cfg, c, turns).acks|
    && turns[k].verdict.fate == Acknowledge
    && (cfg.variant == RateLimited ==> turns[k].verdict.valid)
    && var before := ServeAll(cfg, c, turns[..k]);
       var queue := before.channel + turns[k].arrivals;
       && before.worker == Idle && queue != []
       && before.acks == ServeAll(cfg, c, turns).acks[..i]
       && (cfg.variant == RateLimited ==>
             L.Admits(Users(before.acks), cfg.W(), cfg.multiplicity, queue[0].userId))
       && ServeAll(cfg, c, turns).acks[i] == Tx(queue[0].client, queue[0].userId, before.nonce)
  }

  lemma TurnAcknowledges(cfg: Config, c: Core, turn: Turn)
    requires c.worker == Idle
    ensures var d, queue := Turned(cfg, c, turn), c.channel + turn.arrivals;
            d.acks == c.acks ||
            (&& queue != [] && turn.verdict.fate == Acknowledge
             && (cfg.variant == RateLimited ==>
                   turn.verdict.valid && L.Admits(Users(c.acks), cfg.W(), cfg.multiplicity, queue[0].userId))
             && d.acks == c.acks + [Tx(queue[0].client, queue[0].userId, c.nonce)])
  {
    var d := c.(channel := c.channel + turn.arrivals, open := c.open && !turn.close);
    if d.channel != [] {
      ServeDirectly(cfg, d.(channel := d.channel[1..]), d.channel[0], turn.verdict);
    }
  }

  lemma {:induction false} AcksGrow(cfg: Config, c: Core, turns: seq<Turn>)
    ensures c.acks <= ServeAll(cfg, c, turns).acks
    decreases |turns|
  {
    if turns == [] || c.worker != Idle {
    } else {
      TurnAcknowledges(cfg, c, turns[0]);
      AcksGrow(cfg, Turned(cfg, c, turns[0]), turns[1..]);
    }
  }

  /** Every acknowledgement that the loop adds is made by one of its turns. */
  lemma {:induction false} AcknowledgedByTurn(cfg: Config, c: Core, turns: seq<Turn>, i: nat) returns (k: nat)
    requires |c.acks| <= i < |ServeAll(cfg, c, turns).acks|
    ensures AcknowledgedIn(cfg, c, turns, i, k)
    decreases |turns|
  {
    var d := Turned(cfg, c, turns[0]);
    TurnAcknowledges(cfg, c, turns[0]);
    AcksGrow(cfg, d, turns[1..]);
    if i < |d.acks| {
      k := 0;
    } else {
      var j := AcknowledgedByTurn(cfg, d, turns[1..], i);
      k := j + 1;
      assert turns[..k][0] == turns[0] && turns[..k][1..] == turns[1..][..j];
    }
  }

  /** Only a registered transaction can still fail for want of secrets. */
  lemma SecretsComeLast(cfg: Config, c: Core, m: Message, v: Verdict)
    requires c.worker == Idle && cfg.variant == RateLimited
    ensures var d := Answered(cfg, c, m, v.(secrets := true));
            |d.sent| == |c.sent| + 1 &&
            Answered(cfg, c, m, v) ==
            if v.secrets || !d.sent[|c.sent|].1.Issued? then d
            else Stop(d.(sent := c.sent + [(m.client, Refused(InternalServerError))]))
  {
  }

  // ---------- The workers ----------

  datatype RegisterError = LimitExceeded | CallFailed(error: CallError)

  /** How the rate-limited worker answers each result of a registration. */
  function ReplyFor(r: Result<nat, RegisterError>): Response {
    match r
    case Success(hash) => Issued(hash)
    case Failure(LimitExceeded) => Refused(TooManyRequests)
    case Failure(CallFailed(InvalidArgument)) => Refused(InternalServerError)
    case Failure(CallFailed(NodeRejected)) => Refused(BadRequest)
    case Failure(CallFailed(OtherError)) => Refused(BadGateway)
  }

  /** The worker of the Telegram and Discord issuers. */
  class RateLimitedWorker {
    const cfg: Config
    const chain: Chain
    const receiver: Receiver
    const limiter: L.RateLimiter
    var nonce: nat
    ghost var acks: seq<Tx>

    constructor (cfg: Config, chain: Chain, receiver: Receiver)
      requires cfg.variant == RateLimited
      ensures Valid() && this.cfg == cfg && this.chain == chain && this.receiver == receiver
      ensures nonce == cfg.firstNonce && acks == [] && fresh(limiter)
      ensures chain.IsNew(cfg.firstNonce) && receiver.IsNew() ==> AsCore(Idle, []) == Initial(cfg).core
    {
      this.cfg, this.chain, this.receiver := cfg, chain, receiver;
      limiter := new L.RateLimiter(cfg.maxQueueSize, cfg.multiplicity);
      nonce, acks := cfg.firstNonce, [];
    }

    ghost predicate Valid()
      reads this, limiter
    {
      && cfg.variant == RateLimited
      && limiter.Valid() && limiter.history == Users(acks)
      && limiter.multiplicity == cfg.multiplicity && limiter.maxQueueSize == cfg.maxQueueSize
    }

    /** The state of channel, worker and chain as the protocol sees it. */
    ghost function AsCore(worker: Worker, sent: seq<(ClientId, Response)>): Core
      reads this, chain, receiver
    {
      Core(receiver.queue, receiver.open, worker, nonce, acks, sent, chain.next, chain.accepted, chain.outstanding)
    }

    /** The contract call. Until it is answered the chain may take up an older
        transaction. */
    method Call(m: Message, v: Verdict, ghost sent: seq<(ClientId, Response)>) returns (r: Result<nat, CallError>)
      modifies chain
      ensures var c := Settled(old(AsCore(Idle, sent)), v.late);
              if r.Success? then
                v.fate == Acknowledge && r.value == nonce == c.chainNext &&
                AsCore(Idle, sent) == Accept(c, TxOf(m, nonce))
              else
                Answered(cfg, c, m, v.(secrets := true)) == Failed(cfg, AsCore(Idle, sent), m, r.error)
    {
      ghost var c := Settled(AsCore(Idle, sent), v.late);
      chain.Settle(v.late);
      assert AsCore(Idle, sent) == c;
      r := chain.Submit(TxOf(m, nonce), v.fate);
    }

    /** Take the next nonce and count the user. */
    method Advance(m: Message)
      requires Valid()
      modifies this, limiter
      ensures Valid() && acks == old(acks) + [TxOf(m, old(nonce))] && nonce == old(nonce) + 1
    {
      assert Users(acks + [TxOf(m, nonce)]) == Users(acks) + [m.userId];
      acks := acks + [TxOf(m, nonce)];
      nonce := nonce + 1;
      limiter.UpdateLimit(m.userId);
    }

    /** Check the limit, call the chain, and only on acknowledgement advance the
        nonce and record the user. */
    method RegisterCredential(m: Message, v: Verdict, ghost sent: seq<(ClientId, Response)>)
      returns (r: Result<nat, RegisterError>)
      requires Valid()
      modifies this, chain, limiter
      ensures Valid()
      ensures r == Failure(LimitExceeded) <==> !Allowed(cfg, old(AsCore(Idle, sent)), m.userId)
      ensures r == Failure(LimitExceeded) ==> AsCore(Idle, sent) == old(AsCore(Idle, sent))
      ensures r != Failure(LimitExceeded) ==>
                var c := AsCore(Idle, sent + [(m.client, ReplyFor(r))]);
                Answered(cfg, Settled(old(AsCore(Idle, sent)), v.late), m, v.(secrets := true)) ==
                if r == Failure(CallFailed(InvalidArgument)) then Stop(c) else c
    {
      var admitted := limiter.CheckLimit(m.userId);
      if !admitted {
        return Failure(LimitExceeded);
      }
      var answer := Call(m, v, sent);
      if answer.Failure? {
        return Failure(CallFailed(answer.error));
      }
      Advance(m);
      r := Success(answer.value);
    }

    /** The turn of a valid request: the reply, and whether the worker ends here. */
    method Register(m: Message, v: Verdict, ghost sent: seq<(ClientId, Response)>) returns (reply: Response, stop: bool)
      requires Valid() && v.valid
      modifies this, chain, limiter
      ensures Valid()
      ensures var c := AsCore(Idle, sent + [(m.client, reply)]);
              Serve(cfg, old(AsCore(Idle, sent)), m, v) == if stop then Stop(c) else c
    {
      SecretsComeLast(cfg, Settled(AsCore(Idle, sent), v.late), m, v);
      var registered := RegisterCredential(m, v, sent);
      match registered {
        case Failure(e) =>
          reply, stop := ReplyFor(registered), e == CallFailed(InvalidArgument);
        case Success(hash) =>
          if v.secrets {
            reply, stop := Issued(hash), false;
          } else {
            reply, stop := Refused(InternalServerError), true;
          }
      }
    }

    /** One turn of the loop: the reply, and whether the worker ends here. */
    method ServeOne(m: Message, v: Verdict, ghost sent: seq<(ClientId, Response)>)
      returns (reply: Response, stop: bool)
      requires Valid()
      modifies this, chain, limiter
      ensures Valid()
      ensures var c := AsCore(Idle, sent + [(m.client, reply)]);
              Serve(cfg, old(AsCore(Idle, sent)), m, v) == if stop then Stop(c) else c
      ensures ServedDirectly(cfg, old(AsCore(Idle, sent)), m, v, reply, stop, AsCore(Idle, sent + [(m.client, reply)]))
      ensures !v.valid ==>
                reply == Refused(BadRequest) && !stop &&
                nonce == old(nonce) && acks == old(acks) && limiter.history == old(limiter.history) &&
                chain.next == old(chain.next) && chain.accepted == old(chain.accepted) &&
                chain.outstanding == old(chain.outstanding)
      ensures var next := old(chain.next) + if v.late.Some? && old(chain.CanAccept(v.late.value)) then 1 else 0;
              acks == old(acks) +
              if v.valid && L.Admits(Users(old(acks)), cfg.W(), cfg.multiplicity, m.userId) &&
                 v.fate == Acknowledge && old(nonce) == next
              then [Tx(m.client, m.userId, old(nonce))] else []
    {
      ghost var before := AsCore(Idle, sent);
      if !v.valid {
        reply, stop := Refused(BadRequest), false;
      } else {
        reply, stop := Register(m, v, sent);
      }
      TurnDirectly(cfg, before, m, v, reply, stop, AsCore(Idle, sent + [(m.client, reply)]));
    }

    /** Serve requests until the channel is closed and exhausted, something ends
        the worker, or no more is known of the world. */
    method TxSender(turns: seq<Turn>) returns (sent: seq<(ClientId, Response)>, stopped: bool)
      requires Valid()
      modifies this, chain, limiter, receiver
      ensures Valid()
      ensures AsCore(if stopped then Stopped else Idle, sent) == ServeAll(cfg, old(AsCore(Idle, [])), turns)
    {
      sent, stopped := [], false;
      ghost var start := AsCore(Idle, []);
      assert turns[0..] == turns;
      for i := 0 to |turns|
        invariant Valid()
        invariant ServeAll(cfg, start, turns) == ServeAll(cfg, AsCore(Idle, sent), turns[i..])
      {
        assert turns[i..][1..] == turns[i + 1..] && turns[i..][0] == turns[i];
        var poll := receiver.Receive(turns[i].arrivals, turns[i].close);
        match poll {
          case Pending =>
          case Ready(None) =>
            stopped := true;
            return;
          case Ready(Some(m)) =>
            var reply, stop := ServeOne(m, turns[i].verdict, sent);
            sent := sent + [(m.client, reply)];
            if stop {
              receiver.Drop();
              stopped := true;
              return;
            }
        }
      }
    }
  }

  /** The worker of the plain issuer: no limit, no stop on an error. */
  class PlainWorker {
    const cfg: Config
    const chain: Chain
    const receiver: Receiver
    var nonce: nat
    ghost var acks: seq<Tx>

    constructor (cfg: Config, chain: Chain, receiver: Receiver)
      requires cfg.variant == Plain
      ensures this.cfg == cfg && this.chain == chain && this.receiver == receiver
      ensures nonce == cfg.firstNonce && acks == []
      ensures chain.IsNew(cfg.firstNonce) && receiver.IsNew() ==> AsCore(Idle, []) == Initial(cfg).core
    {
      this.cfg, this.chain, this.receiver := cfg, chain, receiver;
      nonce, acks := cfg.firstNonce, [];
    }

    ghost function AsCore(worker: Worker, sent: seq<(ClientId, Response)>): Core
      reads this, chain, receiver
    {
      Core(receiver.queue, receiver.open, worker, nonce, acks, sent, chain.next, chain.accepted, chain.outstanding)
    }

    method RegisterCredential(m: Message, v: Verdict, ghost sent: seq<(ClientId, Response)>)
      returns (r: Result<nat, CallError>)
      requires cfg.variant == Plain
      modifies this, chain
      ensures var reply := if r.Success? then Issued(r.value) else Refused(InternalServerError);
              AsCore(Idle, sent + [(m.client, reply)]) == Serve(cfg, old(AsCore(Idle, sent)), m, v)
      ensures var next := old(chain.next) + if v.late.Some? && old(chain.CanAccept(v.late.value)) then 1 else 0;
              if v.fate == Acknowledge && old(nonce) == next then
                r == Success(old(nonce)) && nonce == old(nonce) + 1 &&
                acks == old(acks) + [Tx(m.client, m.userId, old(nonce))]
              else r.Failure? && nonce == old(nonce) && acks == old(acks)
    {
      chain.Settle(v.late);
      assert AsCore(Idle, sent) == Settled(old(AsCore(Idle, sent)), v.late);
      r := chain.Submit(TxOf(m, nonce), v.fate);
      if r.Success? {
        acks := acks + [TxOf(m, nonce)];
        nonce := nonce + 1;
      }
    }

    method TxSender(turns: seq<Turn>) returns (sent: seq<(ClientId, Response)>, stopped: bool)
      requires cfg.variant == Plain
      modifies this, chain, receiver
      ensures AsCore(if stopped then Stopped else Idle, sent) == ServeAll(cfg, old(AsCore(Idle, [])), turns)
      ensures stopped ==> !receiver.open
    {
      sent, stopped := [], false;
      ghost var start := AsCore(Idle, []);
      assert turns[0..] == turns;
      for i := 0 to |turns|
        invariant ServeAll(cfg, start, turns) == ServeAll(cfg, AsCore(Idle, sent), turns[i..])
      {
        assert turns[i..][1..] == turns[i + 1..] && turns[i..][0] == turns[i];
        var poll := receiver.Receive(turns[i].arrivals, turns[i].close);
        match poll {
          case Pending =>
          case Ready(None) =>
            stopped := true;
            return;
          case Ready(Some(m)) =>
            var r := RegisterCredential(m, turns[i].verdict, sent);
            sent := sent + [(m.client, if r.Success? then Issued(r.value) else Refused(InternalServerError))];
        }
      }
    }
  }
}
