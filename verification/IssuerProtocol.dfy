/** The issuer as a system of concurrent steps: clients that may give up at any
    time, a bounded channel, one worker, and a chain that decides on its own
    what happens to a transaction. Both issuer services are instances. */
module IssuerProtocol {
  import opened Wrappers
  import opened RateLimiter

  /** The Telegram and Discord issuers validate, limit and add secrets in the
      worker and stop on an invalid argument; the plain issuer does none of these. */
  datatype Variant = RateLimited | Plain

  datatype Config = Config(variant: Variant, capacity: nat, maxQueueSize: nat, multiplicity: nat, firstNonce: nat) {
    function W(): nat {
      WindowSize(maxQueueSize)
    }
  }

  type ClientId = int

  datatype Message = Message(client: ClientId, userId: string)

  datatype Status = BadRequest | TooManyRequests | InternalServerError | BadGateway

  /** A transaction hash stands for the nonce of its transaction. */
  datatype Response = Issued(nonce: nat) | Refused(status: Status)

  /** A registration of `userId` that was sent for `client`. */
  datatype Tx = Tx(client: ClientId, userId: string, nonce: nat)

  /** Where the worker awaits: for a message, for the chain (which may already
      have accepted), or between acknowledgement and response. */
  datatype Worker =
    | Idle
    | InFlight(message: Message, accepted: bool)
    | Registered(message: Message, hash: nat)
    | Stopped

  /** Everything but the clients. `sent` lists the responses that the worker
      handed over, whether or not anyone was still listening; `accepted` are the
      transactions of the chain and `outstanding` those that were given up but
      that the chain may still accept. */
  datatype Core = Core(
    channel: seq<Message>,
    open: bool,
    worker: Worker,
    nonce: nat,
    acks: seq<Tx>,
    sent: seq<(ClientId, Response)>,
    chainNext: nat,
    accepted: seq<Tx>,
    outstanding: set<Tx>)

  function Users(txs: seq<Tx>): seq<string> {
    seq(|txs|, i requires 0 <= i < |txs| => txs[i].userId)
  }

  function TxOf(m: Message, nonce: nat): Tx {
    Tx(m.client, m.userId, nonce)
  }

  // ---------- Steps of the worker and the chain ----------

  datatype CallError = InvalidArgument | NodeRejected | OtherError

  datatype Work =
    | RejectInvalid
    | RejectLimited
    | Submit
    | ChainAccept
    | LateAccept(tx: Tx)
    | ChainAck
    | ChainError(error: CallError)
    | Issue
    | SecretsFail
    | Drain
    | Abort

  predicate Allowed(cfg: Config, c: Core, userId: string) {
    cfg.variant == RateLimited ==> Admits(Users(c.acks), cfg.W(), cfg.multiplicity, userId)
  }

  /** The chain accepts a transaction only under its own next nonce, at any time
      after it was sent; any error may be reported, before or after acceptance.
      Tasks are aborted only where they await. */
  predicate WorkEnabled(cfg: Config, c: Core, w: Work) {
    match w
    case RejectInvalid => c.worker == Idle && c.channel != [] && cfg.variant == RateLimited
    case RejectLimited => c.worker == Idle && c.channel != [] && !Allowed(cfg, c, c.channel[0].userId)
    case Submit => c.worker == Idle && c.channel != [] && Allowed(cfg, c, c.channel[0].userId)
    case ChainAccept => c.worker.InFlight? && !c.worker.accepted && c.nonce == c.chainNext
    case LateAccept(tx) => tx in c.outstanding && tx.nonce == c.chainNext
    case ChainAck => c.worker.InFlight? && c.worker.accepted
    case ChainError(_) => c.worker.InFlight?
    case Issue => c.worker.Registered?
    case SecretsFail => c.worker.Registered? && cfg.variant == RateLimited
    case Drain => c.worker == Idle && c.channel == [] && !c.open
    case Abort => c.worker == Idle || c.worker.InFlight?
  }

  /** Stopping drops the receiver, and with it every queued message. */
  function Stop(c: Core): Core {
    c.(worker := Stopped, channel := [])
  }

  /** The call under way is over for the worker; its transaction may live on. */
  function GiveUpCall(c: Core): Core {
    if c.worker.InFlight? && !c.worker.accepted
    then c.(outstanding := c.outstanding + {TxOf(c.worker.message, c.nonce)})
    else c
  }

  function Accept(c: Core, tx: Tx): Core {
    c.(chainNext := c.chainNext + 1, accepted := c.accepted + [tx])
  }

  function Send(c: Core, client: ClientId, r: Response): Core {
    c.(sent := c.sent + [(client, r)])
  }

  function StatusFor(variant: Variant, e: CallError): Status {
    if variant == Plain || e == InvalidArgument then InternalServerError
    else if e == NodeRejected then BadRequest
    else BadGateway
  }

  function WorkStep(cfg: Config, c: Core, w: Work): Core
    requires WorkEnabled(cfg, c, w)
  {
    match w
    case RejectInvalid =>
      Send(c.(channel := c.channel[1..]), c.channel[0].client, Refused(BadRequest))
    case RejectLimited =>
      Send(c.(channel := c.channel[1..]), c.channel[0].client, Refused(TooManyRequests))
    case Submit =>
      c.(channel := c.channel[1..], worker := InFlight(c.channel[0], false))
    case ChainAccept =>
      Accept(c, TxOf(c.worker.message, c.nonce)).(worker := InFlight(c.worker.message, true))
    case LateAccept(tx) =>
      Accept(c, tx).(outstanding := c.outstanding - {tx})
    case ChainAck =>
      var m := c.worker.message;
      c.(worker := Registered(m, c.nonce), nonce := c.nonce + 1, acks := c.acks + [TxOf(m, c.nonce)])
    case ChainError(e) =>
      var told := Send(GiveUpCall(c), c.worker.message.client, Refused(StatusFor(cfg.variant, e)));
      if cfg.variant == RateLimited && e == InvalidArgument then Stop(told) else told.(worker := Idle)
    case Issue =>
      Send(c, c.worker.message.client, Issued(c.worker.hash)).(worker := Idle)
    case SecretsFail =>
      Stop(Send(c, c.worker.message.client, Refused(InternalServerError)))
    case Drain => Stop(c)
    case Abort => Stop(GiveUpCall(c))
  }

  function RunWork(cfg: Config, c: Core, ws: seq<Work>): Option<Core> {
    if ws == [] then Some(c)
    else
      match RunWork(cfg, c, ws[..|ws| - 1])
      case None => None
      case Some(d) => if WorkEnabled(cfg, d, ws[|ws| - 1]) then Some(WorkStep(cfg, d, ws[|ws| - 1])) else None
  }

  // ---------- Steps of the clients ----------

  datatype Phase = Sending | Waiting | Cancelled | Done(result: Response)

  /** A client and the user it asked to register. */
  datatype Client = Client(userId: string, phase: Phase)

  /** `slots` are the oneshot channels that hold a response; `log` lists the
      results that clients got, in order. */
  datatype State = State(
    core: Core,
    clients: map<ClientId, Client>,
    slots: map<ClientId, Response>,
    log: seq<(ClientId, Response)>)

  datatype Action =
    | Do(work: Work)
    | Start(client: ClientId, userId: string)
    | Enqueue(client: ClientId)
    | EnqueueFail(client: ClientId)
    | GiveUp(client: ClientId)
    | Cancel(client: ClientId)
    | Receive(client: ClientId)
    | ObserveDrop(client: ClientId)
    | Close

  predicate Queued(c: Core, client: ClientId) {
    exists i :: 0 <= i < |c.channel| && c.channel[i].client == client
  }

  predicate InHand(c: Core, client: ClientId) {
    (c.worker.InFlight? || c.worker.Registered?) && c.worker.message.client == client
  }

  /** The worker side still holds the response sender of `client`. */
  predicate Pending(c: Core, client: ClientId) {
    Queued(c, client) || InHand(c, client)
  }

  predicate Is(s: State, client: ClientId, phase: Phase) {
    client in s.clients && s.clients[client].phase == phase
  }

  predicate Enabled(cfg: Config, s: State, a: Action) {
    match a
    case Do(w) => WorkEnabled(cfg, s.core, w)
    case Start(c, _) => c !in s.clients && s.core.open
    case Enqueue(c) => Is(s, c, Sending) && s.core.worker != Stopped && |s.core.channel| < cfg.capacity
    case EnqueueFail(c) => Is(s, c, Sending) && s.core.worker == Stopped
    case GiveUp(c) => Is(s, c, Sending)
    case Cancel(c) => Is(s, c, Waiting)
    case Receive(c) => Is(s, c, Waiting) && c in s.slots
    case ObserveDrop(c) => Is(s, c, Waiting) && c !in s.slots && !Pending(s.core, c)
    case Close => s.core.open && forall c :: c in s.clients ==> s.clients[c].phase != Sending
  }

  /** A response reaches its slot only if the client still listens. */
  function Deliver(s: State, core: Core): map<ClientId, Response> {
    if |core.sent| > |s.core.sent| && Is(s, core.sent[|core.sent| - 1].0, Waiting)
    then s.slots[core.sent[|core.sent| - 1].0 := core.sent[|core.sent| - 1].1]
    else s.slots
  }

  function Move(s: State, c: ClientId, phase: Phase): map<ClientId, Client>
    requires c in s.clients
  {
    s.clients[c := s.clients[c].(phase := phase)]
  }

  function Finish(s: State, c: ClientId, r: Response): State
    requires c in s.clients
  {
    s.(clients := Move(s, c, Done(r)), log := s.log + [(c, r)])
  }

  function Apply(cfg: Config, s: State, a: Action): State
    requires Enabled(cfg, s, a)
  {
    match a
    case Do(w) =>
      var core := WorkStep(cfg, s.core, w);
      s.(core := core, slots := Deliver(s, core))
    case Start(c, u) => s.(clients := s.clients[c := Client(u, Sending)])
    case Enqueue(c) =>
      s.(core := s.core.(channel := s.core.channel + [Message(c, s.clients[c].userId)]),
         clients := Move(s, c, Waiting))
    case EnqueueFail(c) => Finish(s, c, Refused(InternalServerError))
    case GiveUp(c) => s.(clients := Move(s, c, Cancelled))
    case Cancel(c) => s.(clients := Move(s, c, Cancelled))
    case Receive(c) => Finish(s, c, s.slots[c])
    case ObserveDrop(c) => Finish(s, c, Refused(InternalServerError))
    case Close => s.(core := s.core.(open := false))
  }

  function Initial(cfg: Config): State {
    State(Core([], true, Idle, cfg.firstNonce, [], [], cfg.firstNonce, [], {}), map[], map[], [])
  }

  /** A run is any sequence of enabled actions. */
  function Run(cfg: Config, s: State, actions: seq<Action>): Option<State> {
    if actions == [] then Some(s)
    else
      var n := |actions| - 1;
      match Run(cfg, s, actions[..n])
      case None => None
      case Some(t) => if Enabled(cfg, t, actions[n]) then Some(Apply(cfg, t, actions[n])) else None
  }

  ghost predicate Reachable(cfg: Config, s: State) {
    exists actions :: Run(cfg, Initial(cfg), actions) == Some(s)
  }
}
