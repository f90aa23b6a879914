/** What holds of the nonce, the rate limit and the clients in every run. */
module IssuerSafety {
  import opened Collections
  import opened Wrappers
  import opened RateLimiter
  import opened IssuerProtocol

  // ---------- Nonce and limiter ----------

  /** The chain has accepted consecutive nonces, the acknowledged transactions
      are the first of them, and at most one is not acknowledged. */
  ghost predicate NonceInv(cfg: Config, c: Core) {
    && c.chainNext == cfg.firstNonce + |c.accepted|
    && (forall i :: 0 <= i < |c.accepted| ==> c.accepted[i].nonce == cfg.firstNonce + i)
    && c.nonce == cfg.firstNonce + |c.acks|
    && c.acks <= c.accepted
    && |c.accepted| <= |c.acks| + 1
    && (c.worker.InFlight? && c.worker.accepted ==> c.accepted == c.acks + [TxOf(c.worker.message, c.nonce)])
    && (forall tx :: tx in c.outstanding ==> tx.nonce <= c.nonce)
  }

  /** Results and the acknowledgements behind them. */
  ghost predicate AckInv(cfg: Config, c: Core) {
    && (c.worker.Registered? ==> c.acks != [] && c.acks[|c.acks| - 1] == TxOf(c.worker.message, c.worker.hash))
    && (forall k :: 0 <= k < |c.sent| && c.sent[k].1.Issued? ==>
          exists i :: 0 <= i < |c.acks| && c.acks[i].client == c.sent[k].0 && c.acks[i].nonce == c.sent[k].1.nonce)
  }

  predicate Admissible(cfg: Config, acks: seq<Tx>, userId: string) {
    Admits(Users(acks), cfg.W(), cfg.multiplicity, userId)
  }

  /** The acknowledged users were admitted one by one, and so was every user
      whose transaction could still be accepted, or was without our knowing. */
  ghost predicate LimitInv(cfg: Config, c: Core) {
    && Admitted(Users(c.acks), cfg.W(), cfg.multiplicity)
    && UnderWayAdmissible(cfg, c)
  }

  ghost predicate UnderWayAdmissible(cfg: Config, c: Core) {
    && (c.worker.InFlight? ==> Admissible(cfg, c.acks, c.worker.message.userId))
    && (forall tx :: tx in c.outstanding && tx.nonce == c.nonce ==> Admissible(cfg, c.acks, tx.userId))
    && (|c.accepted| > |c.acks| ==> Admissible(cfg, c.acks, c.accepted[|c.acks|].userId))
  }

  lemma NonceStep(cfg: Config, c: Core, w: Work)
    requires NonceInv(cfg, c) && WorkEnabled(cfg, c, w)
    ensures NonceInv(cfg, WorkStep(cfg, c, w))
  {
  }

  lemma AckStep(cfg: Config, c: Core, w: Work)
    requires AckInv(cfg, c) && WorkEnabled(cfg, c, w)
    ensures AckInv(cfg, WorkStep(cfg, c, w))
  {
    var d := WorkStep(cfg, c, w);
    assert forall i :: 0 <= i < |c.acks| ==> d.acks[i] == c.acks[i];
    forall k | 0 <= k < |d.sent| && d.sent[k].1.Issued?
      ensures exists i :: 0 <= i < |d.acks| && d.acks[i].client == d.sent[k].0 && d.acks[i].nonce == d.sent[k].1.nonce
    {
      if k < |c.sent| {
        assert d.sent[k] == c.sent[k];
        var i :| 0 <= i < |c.acks| && c.acks[i].client == c.sent[k].0 && c.acks[i].nonce == c.sent[k].1.nonce;
        assert d.acks[i] == c.acks[i];
      } else {
        assert w == Issue;
        assert d.acks[|d.acks| - 1].client == d.sent[k].0;
      }
    }
  }

  lemma LimitStep(cfg: Config, c: Core, w: Work)
    requires cfg.variant == RateLimited && NonceInv(cfg, c) && LimitInv(cfg, c) && WorkEnabled(cfg, c, w)
    ensures LimitInv(cfg, WorkStep(cfg, c, w))
  {
    if w == ChainAck {
      AcknowledgedIsAdmitted(cfg, c);
    } else if w == Submit {
      assert Admissible(cfg, c.acks, c.channel[0].userId);
    } else if w.ChainError? || w == Abort {
      GivenUpIsAdmissible(cfg, c, w);
    } else if w == ChainAccept || w.LateAccept? {
      AcceptedIsAdmissible(cfg, c, w);
    }
  }

  lemma AcknowledgedIsAdmitted(cfg: Config, c: Core)
    requires NonceInv(cfg, c) && LimitInv(cfg, c) && WorkEnabled(cfg, c, ChainAck)
    ensures LimitInv(cfg, WorkStep(cfg, c, ChainAck))
  {
    var users, d := Users(c.acks), WorkStep(cfg, c, ChainAck);
    assert Users(d.acks) == users + [c.worker.message.userId];
    assert (users + [c.worker.message.userId])[..|users|] == users;
  }

  lemma GivenUpIsAdmissible(cfg: Config, c: Core, w: Work)
    requires UnderWayAdmissible(cfg, c) && WorkEnabled(cfg, c, w) && (w.ChainError? || w == Abort)
    ensures var d := WorkStep(cfg, c, w); d.acks == c.acks && UnderWayAdmissible(cfg, d)
  {
  }

  lemma AcceptedIsAdmissible(cfg: Config, c: Core, w: Work)
    requires NonceInv(cfg, c) && UnderWayAdmissible(cfg, c)
    requires WorkEnabled(cfg, c, w) && (w == ChainAccept || w.LateAccept?)
    ensures var d := WorkStep(cfg, c, w); d.acks == c.acks && UnderWayAdmissible(cfg, d)
  {
  }

  // ---------- Clients ----------

  predicate Answered(c: Core, client: ClientId) {
    exists k :: 0 <= k < |c.sent| && c.sent[k].0 == client
  }

  /** Each response sender is in one place: in the queue, in the worker's hand,
      used up, or dropped. */
  ghost predicate SenderInv(c: Core) {
    && (forall i, j :: 0 <= i < j < |c.channel| ==> c.channel[i].client != c.channel[j].client)
    && (forall i :: 0 <= i < |c.channel| ==> !InHand(c, c.channel[i].client))
    && (forall client :: Pending(c, client) ==> !Answered(c, client))
    && (forall i, j :: 0 <= i < j < |c.sent| ==> c.sent[i].0 != c.sent[j].0)
    && (c.worker == Stopped ==> c.channel == [])
  }

  ghost predicate ClientInv(s: State) {
    && (forall client :: Pending(s.core, client) || Answered(s.core, client) ==>
          client in s.clients && s.clients[client].phase != Sending)
    && (forall client :: Pending(s.core, client) ==> !s.clients[client].phase.Done?)
    && (forall client :: client in s.slots ==> (client, s.slots[client]) in s.core.sent)
    && (forall client :: Is(s, client, Waiting) ==>
          Pending(s.core, client) || client in s.slots || s.core.worker == Stopped)
    && (forall client :: Is(s, client, Waiting) && Answered(s.core, client) ==> client in s.slots)
  }

  ghost predicate LogInv(s: State) {
    && (forall i, j :: 0 <= i < j < |s.log| ==> s.log[i].0 != s.log[j].0)
    && (forall client, r :: (client, r) in s.log <==> Is(s, client, Done(r)))
    && (forall client, r :: Is(s, client, Done(r)) ==>
          (client, r) in s.core.sent || (r == Refused(InternalServerError) && s.core.worker == Stopped))
  }

  predicate Requested(s: State, client: ClientId, userId: string) {
    client in s.clients && s.clients[client].userId == userId
  }

  /** Messages and transactions are about the users that their clients named. */
  ghost predicate RequestInv(s: State) {
    && (forall i :: 0 <= i < |s.core.channel| ==> Requested(s, s.core.channel[i].client, s.core.channel[i].userId))
    && (s.core.worker.InFlight? || s.core.worker.Registered? ==>
          Requested(s, s.core.worker.message.client, s.core.worker.message.userId))
    && (forall i :: 0 <= i < |s.core.acks| ==> Requested(s, s.core.acks[i].client, s.core.acks[i].userId))
  }

  ghost predicate Inv(cfg: Config, s: State) {
    && NonceInv(cfg, s.core)
    && AckInv(cfg, s.core)
    && (cfg.variant == RateLimited ==> LimitInv(cfg, s.core))
    && SenderInv(s.core)
    && ClientInv(s)
    && LogInv(s)
    && RequestInv(s)
  }

  /** No step changes what a client asked for. */
  lemma RequestsStay(cfg: Config, s: State, a: Action)
    requires RequestInv(s) && Enabled(cfg, s, a)
    ensures RequestInv(Apply(cfg, s, a))
  {
    var t := Apply(cfg, s, a);
    assert forall client, userId :: Requested(s, client, userId) ==> Requested(t, client, userId);
    forall i | 0 <= i < |t.core.channel| ensures Requested(t, t.core.channel[i].client, t.core.channel[i].userId) {
      if t.core.channel == s.core.channel[if |s.core.channel| > 0 then 1 else 0..] {
        assert |s.core.channel| > 0 ==> t.core.channel[i] == s.core.channel[i + 1];
      }
    }
  }

  lemma TakeHead(c: Core, d: Core)
    requires SenderInv(c) && c.channel != [] && d.channel == c.channel[1..]
    ensures forall client :: Queued(c, client) <==> client == c.channel[0].client || Queued(d, client)
    ensures !Queued(d, c.channel[0].client)
  {
    forall client | Queued(c, client) ensures client == c.channel[0].client || Queued(d, client) {
      var i :| 0 <= i < |c.channel| && c.channel[i].client == client;
      assert i > 0 ==> d.channel[i - 1] == c.channel[i];
    }
    forall client | Queued(d, client) ensures Queued(c, client) && client != c.channel[0].client {
      var i :| 0 <= i < |d.channel| && d.channel[i].client == client;
      assert c.channel[i + 1] == d.channel[i];
    }
  }

  lemma SentGrows(c: Core, d: Core, client: ClientId, r: Response)
    requires d.sent == c.sent + [(client, r)]
    ensures forall x :: Answered(d, x) <==> Answered(c, x) || x == client
  {
    forall x | Answered(c, x) ensures Answered(d, x) {
      var k :| 0 <= k < |c.sent| && c.sent[k].0 == x;
      assert d.sent[k] == c.sent[k];
    }
    assert d.sent[|c.sent|].0 == client;
  }

  lemma AnsweredSame(c: Core, d: Core)
    requires d.sent == c.sent
    ensures forall client :: Answered(c, client) <==> Answered(d, client)
  {
  }

  /** The sender that a step of the worker uses up. */
  function UsedUp(c: Core, w: Work): Option<ClientId> {
    if w == RejectInvalid || w == RejectLimited then
      if c.channel != [] then Some(c.channel[0].client) else None
    else if w.ChainError? || w == Issue || w == SecretsFail then
      if c.worker.InFlight? || c.worker.Registered? then Some(c.worker.message.client) else None
    else None
  }

  /** How a worker step moves senders: at most one is used up, none appears,
      and unless the worker stops none is dropped. */
  ghost predicate Moved(c: Core, d: Core, used: Option<ClientId>) {
    && (forall x :: Pending(d, x) ==> Pending(c, x) && used != Some(x))
    && (forall x :: Pending(c, x) ==> Pending(d, x) || used == Some(x) || d.worker == Stopped)
    && (forall x :: Answered(d, x) <==> Answered(c, x) || used == Some(x))
    && (used.Some? ==> Pending(c, used.value) && |d.sent| == |c.sent| + 1)
    && (used.Some? ==> d.sent[..|c.sent|] == c.sent && d.sent[|c.sent|].0 == used.value)
    && (used.None? ==> d.sent == c.sent)
    && (c.worker == Stopped ==> d.worker == Stopped)
  }

  lemma SendersMove(cfg: Config, c: Core, w: Work)
    requires SenderInv(c) && WorkEnabled(cfg, c, w)
    ensures Moved(c, WorkStep(cfg, c, w), UsedUp(c, w))
  {
    var d := WorkStep(cfg, c, w);
    if UsedUp(c, w).Some? {
      SentGrows(c, d, UsedUp(c, w).value, d.sent[|c.sent|].1);
    } else {
      AnsweredSame(c, d);
    }
    if w == RejectInvalid || w == RejectLimited || w == Submit {
      TakeHead(c, d);
    } else if d.worker != Stopped {
      assert forall x :: Queued(c, x) <==> Queued(d, x);
    }
    if c.worker.InFlight? || c.worker.Registered? {
      assert InHand(c, c.worker.message.client);
      assert !Queued(c, c.worker.message.client);
    }
  }

  lemma WorkKeepsSenders(cfg: Config, c: Core, w: Work)
    requires SenderInv(c) && WorkEnabled(cfg, c, w)
    ensures SenderInv(WorkStep(cfg, c, w))
  {
    var d, used := WorkStep(cfg, c, w), UsedUp(c, w);
    SendersMove(cfg, c, w);
    if w == RejectInvalid || w == RejectLimited || w == Submit {
      TakeHead(c, d);
    }
    forall i | 0 <= i < |d.channel| ensures !InHand(d, d.channel[i].client) {
      assert Queued(d, d.channel[i].client);
    }
    if used.Some? {
      assert !Answered(c, used.value);
      forall i | 0 <= i < |c.sent| ensures d.sent[i].0 != used.value {
        assert d.sent[i] == c.sent[i];
        assert Answered(c, c.sent[i].0);
      }
    }
    forall i, j | 0 <= i < j < |d.sent| ensures d.sent[i].0 != d.sent[j].0 {
      assert i < |c.sent| ==> d.sent[i] == c.sent[i];
      assert j < |c.sent| ==> d.sent[j] == c.sent[j];
    }
  }

  lemma WorkKeepsClients(cfg: Config, s: State, w: Work)
    requires SenderInv(s.core) && ClientInv(s) && LogInv(s) && WorkEnabled(cfg, s.core, w)
    ensures ClientInv(Apply(cfg, s, Do(w))) && LogInv(Apply(cfg, s, Do(w)))
  {
    var t := Apply(cfg, s, Do(w));
    SendersMove(cfg, s.core, w);
    MovedKeepsClients(s, t, UsedUp(s.core, w));
  }

  lemma MovedKeepsClients(s: State, t: State, used: Option<ClientId>)
    requires ClientInv(s) && LogInv(s) && Moved(s.core, t.core, used)
    requires forall x :: Pending(s.core, x) ==> !Answered(s.core, x)
    requires t == s.(core := t.core, slots := Deliver(s, t.core))
    ensures ClientInv(t) && LogInv(t)
  {
    var c, d := s.core, t.core;
    forall x | x in c.sent ensures x in d.sent {
      var k :| 0 <= k < |c.sent| && c.sent[k] == x;
      assert d.sent[..|c.sent|][k] == x;
    }
    if used.Some? {
      assert d.sent[|c.sent|] in d.sent;
    }
    forall client | client in t.slots ensures (client, t.slots[client]) in d.sent {
      if client in s.slots && t.slots[client] == s.slots[client] {
        assert (client, s.slots[client]) in c.sent;
      }
    }
  }

  lemma EnqueueKeeps(cfg: Config, s: State, client: ClientId)
    requires SenderInv(s.core) && ClientInv(s) && LogInv(s) && Enabled(cfg, s, Enqueue(client))
    ensures var t := Apply(cfg, s, Enqueue(client)); SenderInv(t.core) && ClientInv(t) && LogInv(t)
  {
    var t := Apply(cfg, s, Enqueue(client));
    var c, d := s.core, t.core;
    AnsweredSame(c, d);
    assert !Pending(c, client) && !Answered(c, client);
    forall x ensures Queued(d, x) <==> Queued(c, x) || x == client {
      if Queued(c, x) {
        var i :| 0 <= i < |c.channel| && c.channel[i].client == x;
        assert d.channel[i] == c.channel[i];
      }
      assert d.channel[|c.channel|].client == client;
    }
    forall i | 0 <= i < |c.channel| ensures d.channel[i] == c.channel[i] && c.channel[i].client != client {
      assert Queued(c, c.channel[i].client);
    }
  }

  /** A client gets its one result. */
  lemma FinishKeeps(s: State, client: ClientId, r: Response)
    requires SenderInv(s.core) && ClientInv(s) && LogInv(s)
    requires client in s.clients && !Pending(s.core, client) && !s.clients[client].phase.Done?
    requires (client, r) in s.core.sent || (r == Refused(InternalServerError) && s.core.worker == Stopped)
    ensures ClientInv(Finish(s, client, r)) && LogInv(Finish(s, client, r))
  {
    var t := Finish(s, client, r);
    forall x, q ensures (x, q) in t.log <==> Is(t, x, Done(q)) {
      assert (x, q) in t.log <==> (x, q) in s.log || (x, q) == (client, r);
      assert (x, q) in s.log <==> Is(s, x, Done(q));
    }
    forall i | 0 <= i < |s.log| ensures s.log[i].0 != client {
      assert (s.log[i].0, s.log[i].1) in s.log;
    }
  }

  lemma StartKeeps(cfg: Config, s: State, client: ClientId, userId: string)
    requires Inv(cfg, s) && Enabled(cfg, s, Start(client, userId))
    ensures var t := Apply(cfg, s, Start(client, userId)); ClientInv(t) && LogInv(t)
  {
  }

  lemma LeaveKeeps(cfg: Config, s: State, client: ClientId)
    requires Inv(cfg, s) && (Is(s, client, Sending) || Is(s, client, Waiting))
    ensures var t := s.(clients := Move(s, client, Cancelled)); ClientInv(t) && LogInv(t)
  {
  }

  lemma CloseKeeps(cfg: Config, s: State)
    requires Inv(cfg, s) && Enabled(cfg, s, Close)
    ensures var t := Apply(cfg, s, Close); SenderInv(t.core) && ClientInv(t) && LogInv(t)
  {
    AnsweredSame(s.core, Apply(cfg, s, Close).core);
  }

  lemma StepKeeps(cfg: Config, s: State, a: Action)
    requires Inv(cfg, s) && Enabled(cfg, s, a)
    ensures Inv(cfg, Apply(cfg, s, a))
  {
    RequestsStay(cfg, s, a);
    match a {
      case Do(w) =>
        NonceStep(cfg, s.core, w);
        AckStep(cfg, s.core, w);
        if cfg.variant == RateLimited {
          LimitStep(cfg, s.core, w);
        }
        WorkKeepsSenders(cfg, s.core, w);
        WorkKeepsClients(cfg, s, w);
      case Start(c, u) => StartKeeps(cfg, s, c, u);
      case Enqueue(c) => EnqueueKeeps(cfg, s, c);
      case EnqueueFail(c) => FinishKeeps(s, c, Refused(InternalServerError));
      case GiveUp(c) => LeaveKeeps(cfg, s, c);
      case Cancel(c) => LeaveKeeps(cfg, s, c);
      case Receive(c) =>
        assert (c, s.slots[c]) in s.core.sent;
        var k :| 0 <= k < |s.core.sent| && s.core.sent[k] == (c, s.slots[c]);
        assert Answered(s.core, c);
        FinishKeeps(s, c, s.slots[c]);
      case ObserveDrop(c) => FinishKeeps(s, c, Refused(InternalServerError));
      case Close => CloseKeeps(cfg, s);
    }
  }

  lemma {:induction false} RunKeeps(cfg: Config, s: State, actions: seq<Action>)
    requires Inv(cfg, s) && Run(cfg, s, actions).Some?
    ensures Inv(cfg, Run(cfg, s, actions).value)
  {
    if actions == [] {
    } else {
      var n := |actions| - 1;
      RunKeeps(cfg, s, actions[..n]);
      StepKeeps(cfg, Run(cfg, s, actions[..n]).value, actions[n]);
    }
  }

  lemma ReachableInv(cfg: Config, s: State)
    requires Reachable(cfg, s)
    ensures Inv(cfg, s)
  {
    var actions :| Run(cfg, Initial(cfg), actions) == Some(s);
    RunKeeps(cfg, Initial(cfg), actions);
  }

  // ---------- Main results ----------

  /** In every run the chain is zero or one nonce ahead of the worker, no nonce
      is accepted twice, and the acknowledged transactions are the first of the
      accepted ones, with consecutive nonces from the start value. */
  lemma NonceSafety(cfg: Config, s: State)
    requires Reachable(cfg, s)
    ensures 0 <= s.core.chainNext - s.core.nonce <= 1
    ensures forall i, j :: 0 <= i < j < |s.core.accepted| ==> s.core.accepted[i].nonce != s.core.accepted[j].nonce
    ensures forall i :: 0 <= i < |s.core.accepted| ==> s.core.accepted[i].nonce == cfg.firstNonce + i
    ensures s.core.acks <= s.core.accepted
    ensures |s.core.accepted| - |s.core.acks| == s.core.chainNext - s.core.nonce
  {
    ReachableInv(cfg, s);
  }

  /** An acceptance whose acknowledgement will not come: the worker is one nonce
      behind and not waiting for an accepted transaction. */
  predicate Stuck(c: Core) {
    c.chainNext == c.nonce + 1 && !(c.worker.InFlight? && c.worker.accepted)
  }

  lemma StuckWork(cfg: Config, c: Core, w: Work)
    requires NonceInv(cfg, c) && Stuck(c) && WorkEnabled(cfg, c, w)
    ensures var d := WorkStep(cfg, c, w); Stuck(d) && d.accepted == c.accepted && d.acks == c.acks && d.nonce == c.nonce
  {
  }

  lemma StuckStep(cfg: Config, s: State, a: Action)
    requires NonceInv(cfg, s.core) && Stuck(s.core) && Enabled(cfg, s, a)
    ensures NonceInv(cfg, Apply(cfg, s, a).core)
    ensures var c := Apply(cfg, s, a).core;
            Stuck(c) && c.accepted == s.core.accepted && c.acks == s.core.acks && c.nonce == s.core.nonce
  {
    if a.Do? {
      StuckWork(cfg, s.core, a.work);
      NonceStep(cfg, s.core, a.work);
    }
  }

  /** Once an acknowledgement is lost nothing is accepted or acknowledged again. */
  lemma {:induction false} StuckForever(cfg: Config, s: State, actions: seq<Action>)
    requires NonceInv(cfg, s.core) && Stuck(s.core) && Run(cfg, s, actions).Some?
    ensures NonceInv(cfg, Run(cfg, s, actions).value.core)
    ensures var t := Run(cfg, s, actions).value;
            Stuck(t.core) && t.core.accepted == s.core.accepted &&
            t.core.acks == s.core.acks && t.core.nonce == s.core.nonce
  {
    if actions == [] {
    } else {
      var n := |actions| - 1;
      StuckForever(cfg, s, actions[..n]);
      StuckStep(cfg, Run(cfg, s, actions[..n]).value, actions[n]);
    }
  }

  /** What is registered on chain respects the rate limit in every run, even
      where the last acknowledgement was lost, and so does what is acknowledged. */
  lemma RateLimitHolds(cfg: Config, s: State)
    requires Reachable(cfg, s) && cfg.variant == RateLimited
    ensures Spaced(Users(s.core.accepted), cfg.W() + 1, cfg.multiplicity)
    ensures Spaced(Users(s.core.acks), cfg.W() + 1, cfg.multiplicity)
    ensures var block := if cfg.maxQueueSize == 0 then 2 else cfg.maxQueueSize + 1;
            forall i, j, id :: 0 <= i <= j <= |s.core.accepted| && j - i <= block
              ==> multiset(Users(s.core.accepted)[i..j])[id] <= cfg.multiplicity
  {
    ReachableInv(cfg, s);
    AdmittedIffSpaced(Users(s.core.acks), cfg.W(), cfg.multiplicity);
    LastAcceptedKeepsSpaced(cfg, s.core);
    SpacedByMultiplicity(Users(s.core.accepted), cfg.W() + 1, cfg.multiplicity);
  }

  lemma LastAcceptedKeepsSpaced(cfg: Config, c: Core)
    requires NonceInv(cfg, c) && UnderWayAdmissible(cfg, c)
    requires Spaced(Users(c.acks), cfg.W() + 1, cfg.multiplicity)
    ensures Spaced(Users(c.accepted), cfg.W() + 1, cfg.multiplicity)
  {
    if |c.accepted| == |c.acks| {
      assert c.accepted == c.acks;
    } else {
      var last := c.accepted[|c.acks|];
      assert Users(c.accepted) == Users(c.acks) + [last.userId];
      AdmittingKeepsSpaced(Users(c.acks), last.userId, cfg.W(), cfg.multiplicity);
    }
  }

  /** Each client gets at most one result, one that cancelled gets none, and
      successful results belong to different acknowledged transactions, each for
      the client that got it and the user that client asked for. */
  lemma OneOutcomeEach(cfg: Config, s: State)
    requires Reachable(cfg, s)
    ensures forall i, j :: 0 <= i < j < |s.log| ==> s.log[i].0 != s.log[j].0
    ensures forall client, r :: (client, r) in s.log <==> Is(s, client, Done(r))
    ensures forall i :: 0 <= i < |s.log| && s.log[i].1.Issued? ==>
              s.log[i].0 in s.clients &&
              Tx(s.log[i].0, s.clients[s.log[i].0].userId, s.log[i].1.nonce) in s.core.acks
    ensures forall i, j :: 0 <= i < j < |s.log| && s.log[i].1.Issued? && s.log[j].1.Issued? ==>
              s.log[i].1.nonce != s.log[j].1.nonce
  {
    ReachableInv(cfg, s);
    forall i | 0 <= i < |s.log| && s.log[i].1.Issued? ensures Backed(cfg, s, i) {
      IssuedIsBacked(cfg, s, i);
    }
    forall i, j | 0 <= i < j < |s.log| && s.log[i].1.Issued? && s.log[j].1.Issued?
      ensures s.log[i].1.nonce != s.log[j].1.nonce
    {
      assert Backed(cfg, s, i) && Backed(cfg, s, j);
    }
  }

  /** A result is the response that the worker sent to that client, or an
      internal error once the worker has stopped. */
  lemma ResultsAreResponses(cfg: Config, s: State, i: nat)
    requires Reachable(cfg, s) && i < |s.log|
    ensures s.log[i] in s.core.sent || (s.log[i].1 == Refused(InternalServerError) && s.core.worker == Stopped)
  {
    ReachableInv(cfg, s);
    assert (s.log[i].0, s.log[i].1) in s.log;
    assert Is(s, s.log[i].0, Done(s.log[i].1));
  }

  /** Result `i` is the acknowledgement of its nonce, for its client. */
  ghost predicate Backed(cfg: Config, s: State, i: nat)
    requires i < |s.log| && s.log[i].1.Issued?
  {
    var a := s.log[i].1.nonce - cfg.firstNonce;
    && s.log[i].0 in s.clients
    && 0 <= a < |s.core.acks|
    && s.core.acks[a] == Tx(s.log[i].0, s.clients[s.log[i].0].userId, s.log[i].1.nonce)
  }

  lemma IssuedIsBacked(cfg: Config, s: State, i: nat)
    requires Inv(cfg, s) && i < |s.log| && s.log[i].1.Issued?
    ensures Backed(cfg, s, i)
  {
    var (client, r) := s.log[i];
    assert (client, r) in s.log;
    assert Is(s, client, Done(r));
    assert (client, r) in s.core.sent;
    var k :| 0 <= k < |s.core.sent| && s.core.sent[k] == (client, r);
    var a :| 0 <= a < |s.core.acks| && s.core.acks[a].client == s.core.sent[k].0 &&
             s.core.acks[a].nonce == s.core.sent[k].1.nonce;
    assert s.core.acks[a].nonce == s.core.accepted[a].nonce == cfg.firstNonce + a;
    assert Requested(s, s.core.acks[a].client, s.core.acks[a].userId);
  }

  lemma QueueStep(cfg: Config, s: State, a: Action)
    requires |s.core.channel| <= cfg.capacity && Enabled(cfg, s, a)
    ensures |Apply(cfg, s, a).core.channel| <= cfg.capacity
  {
    if a.Do? {
      assert |WorkStep(cfg, s.core, a.work).channel| <= |s.core.channel|;
    }
  }

  /** In every run the queue stays within the capacity of the channel. */
  lemma {:induction false} QueueIsBounded(cfg: Config, s: State, actions: seq<Action>)
    requires |s.core.channel| <= cfg.capacity && Run(cfg, s, actions).Some?
    ensures |Run(cfg, s, actions).value.core.channel| <= cfg.capacity
  {
    if actions == [] {
    } else {
      var n := |actions| - 1;
      QueueIsBounded(cfg, s, actions[..n]);
      QueueStep(cfg, Run(cfg, s, actions[..n]).value, actions[n]);
    }
  }

  /** While it runs, the worker drops no request without a response. */
  lemma NoSilentDrop(cfg: Config, s: State, client: ClientId)
    requires Reachable(cfg, s) && s.core.worker != Stopped
    ensures !Enabled(cfg, s, ObserveDrop(client))
    ensures Is(s, client, Waiting) ==> Pending(s.core, client) || Enabled(cfg, s, Receive(client))
  {
    ReachableInv(cfg, s);
  }

  /** The ways in which a client can end once the worker has stopped. */
  ghost function WaysToEnd(cfg: Config, s: State, client: ClientId): set<Action> {
    set a | a in {EnqueueFail(client), Receive(client), ObserveDrop(client)} && Enabled(cfg, s, a)
  }

  lemma OneWayToEnd(cfg: Config, s: State, client: ClientId) returns (way: Action)
    requires Inv(cfg, s) && s.core.worker == Stopped
    requires Is(s, client, Sending) || Is(s, client, Waiting)
    ensures WaysToEnd(cfg, s, client) == {way}
    ensures exists r :: Apply(cfg, s, way) == Finish(s, client, r)
  {
    assert !Pending(s.core, client);
    if Is(s, client, Sending) {
      way := EnqueueFail(client);
      assert Apply(cfg, s, way) == Finish(s, client, Refused(InternalServerError));
    } else if client in s.slots {
      way := Receive(client);
      assert Apply(cfg, s, way) == Finish(s, client, s.slots[client]);
    } else {
      way := ObserveDrop(client);
      assert Apply(cfg, s, way) == Finish(s, client, Refused(InternalServerError));
    }
    forall a | a in WaysToEnd(cfg, s, client) ensures a == way {
    }
    assert way in WaysToEnd(cfg, s, client);
  }

  ghost function Unfinished(s: State): set<ClientId> {
    set c | c in s.clients && (s.clients[c].phase == Sending || s.clients[c].phase == Waiting)
  }

  ghost predicate AllEnded(s: State) {
    forall c :: c in s.clients ==>
      s.clients[c].phase == Cancelled || (s.clients[c].phase.Done? && exists i :: 0 <= i < |s.log| && s.log[i].0 == c)
  }

  lemma EndOne(cfg: Config, s: State, client: ClientId) returns (way: Action, t: State)
    requires Inv(cfg, s) && s.core.worker == Stopped && client in Unfinished(s)
    ensures way.EnqueueFail? || way.Receive? || way.ObserveDrop?
    ensures Enabled(cfg, s, way) && t == Apply(cfg, s, way)
    ensures Inv(cfg, t) && t.core.worker == Stopped && Unfinished(t) == Unfinished(s) - {client}
    ensures s.log <= t.log && forall c :: Is(s, c, Cancelled) <==> Is(t, c, Cancelled)
  {
    way := OneWayToEnd(cfg, s, client);
    assert way in WaysToEnd(cfg, s, client);
    t := Apply(cfg, s, way);
    StepKeeps(cfg, s, way);
  }

  lemma NobodyUnfinished(cfg: Config, s: State)
    requires Inv(cfg, s) && Unfinished(s) == {}
    ensures AllEnded(s)
  {
    forall c | c in s.clients
      ensures s.clients[c].phase == Cancelled ||
              (s.clients[c].phase.Done? && exists i :: 0 <= i < |s.log| && s.log[i].0 == c)
    {
      assert c !in Unfinished(s);
      if s.clients[c].phase.Done? {
        assert Is(s, c, Done(s.clients[c].phase.result));
        assert (c, s.clients[c].phase.result) in s.log;
      }
    }
  }

  /** Once the worker has stopped there is a schedule in which no client cancels
      any more and every one that has not cancelled gets its one result. */
  lemma {:induction false} SettlingIsPossible(cfg: Config, s: State) returns (actions: seq<Action>)
    requires Inv(cfg, s) && s.core.worker == Stopped
    ensures forall a :: a in actions ==> a.EnqueueFail? || a.Receive? || a.ObserveDrop?
    ensures Run(cfg, s, actions).Some? && Inv(cfg, Run(cfg, s, actions).value)
    ensures AllEnded(Run(cfg, s, actions).value)
    ensures s.log <= Run(cfg, s, actions).value.log
    ensures forall c :: Is(s, c, Cancelled) <==> Is(Run(cfg, s, actions).value, c, Cancelled)
    decreases Unfinished(s)
  {
    if Unfinished(s) == {} {
      actions := [];
      NobodyUnfinished(cfg, s);
    } else {
      var client := Member(Unfinished(s));
      var way, t := EndOne(cfg, s, client);
      var rest := SettlingIsPossible(cfg, t);
      actions := [way] + rest;
      RunFrom(cfg, s, way, rest);
    }
  }

  /** The steps by which a client ends, with a result or without. */
  predicate Ends(a: Action) {
    a.EnqueueFail? || a.Receive? || a.ObserveDrop? || a.Cancel? || a.GiveUp?
  }

  function CountEnds(actions: seq<Action>): nat {
    if actions == [] then 0
    else CountEnds(actions[..|actions| - 1]) + if Ends(actions[|actions| - 1]) then 1 else 0
  }

  /** Whatever happens, apart from new clients, an ending step takes one client
      out of the unfinished ones and no other step changes them. */
  lemma StoppedStep(cfg: Config, s: State, a: Action)
    requires Inv(cfg, s) && s.core.worker == Stopped && Enabled(cfg, s, a) && !a.Start?
    ensures var t := Apply(cfg, s, a);
            && Inv(cfg, t) && t.core.worker == Stopped
            && (Ends(a) ==> a.client in Unfinished(s) && Unfinished(t) == Unfinished(s) - {a.client})
            && (!Ends(a) ==> Unfinished(t) == Unfinished(s))
  {
    StepKeeps(cfg, s, a);
  }

  lemma NoWayLeft(cfg: Config, s: State)
    requires Inv(cfg, s) && s.core.worker == Stopped
    ensures (forall c :: WaysToEnd(cfg, s, c) == {}) <==> AllEnded(s)
  {
    if forall c :: WaysToEnd(cfg, s, c) == {} {
      if Unfinished(s) != {} {
        var c := Member(Unfinished(s));
        var way := OneWayToEnd(cfg, s, c);
        assert false;
      }
      NobodyUnfinished(cfg, s);
    }
  }

  /** In every schedule after the worker has stopped, as long as no client is
      new: each ending step takes one client away, so there are at most as many
      of them as unfinished clients, and the clients have no step left exactly
      when every one has cancelled or has its one result. */
  lemma {:induction false} StoppedSettles(cfg: Config, s: State, actions: seq<Action>)
    requires Inv(cfg, s) && s.core.worker == Stopped
    requires Run(cfg, s, actions).Some? && forall a :: a in actions ==> !a.Start?
    ensures var t := Run(cfg, s, actions).value;
            && Inv(cfg, t) && t.core.worker == Stopped
            && CountEnds(actions) + |Unfinished(t)| == |Unfinished(s)|
            && ((forall c :: WaysToEnd(cfg, t, c) == {}) <==> AllEnded(t))
            && (AllEnded(t) <==> CountEnds(actions) == |Unfinished(s)|)
  {
    var t := Run(cfg, s, actions).value;
    if actions == [] {
    } else {
      var n := |actions| - 1;
      StoppedSettles(cfg, s, actions[..n]);
      StoppedStep(cfg, Run(cfg, s, actions[..n]).value, actions[n]);
    }
    NoWayLeft(cfg, t);
    EndedIffFinished(cfg, t);
  }

  lemma EndedIffFinished(cfg: Config, s: State)
    requires Inv(cfg, s)
    ensures AllEnded(s) <==> |Unfinished(s)| == 0
  {
    if |Unfinished(s)| == 0 {
      NobodyUnfinished(cfg, s);
    }
    if AllEnded(s) {
      forall c | c in s.clients ensures c !in Unfinished(s) {
      }
      assert Unfinished(s) == {};
    }
  }

  lemma {:induction false} RunFrom(cfg: Config, s: State, a: Action, rest: seq<Action>)
    requires Enabled(cfg, s, a)
    ensures Run(cfg, s, [a] + rest) == Run(cfg, Apply(cfg, s, a), rest)
  {
    if rest == [] {
      assert ([a] + rest)[..0] == [];
    } else {
      RunFrom(cfg, s, a, rest[..|rest| - 1]);
      assert ([a] + rest)[..|rest|] == [a] + rest[..|rest| - 1];
    }
  }

  // ---------- Cancellation does not interfere ----------

  /** What a client does once its request is queued. */
  predicate Observes(a: Action) {
    a.Cancel? || a.Receive? || a.ObserveDrop?
  }

  function WithoutObservers(actions: seq<Action>): seq<Action> {
    if actions == [] then []
    else
      var n := |actions| - 1;
      WithoutObservers(actions[..n]) + if Observes(actions[n]) then [] else [actions[n]]
  }

  /** Equal but for what became of clients whose request was queued. */
  ghost predicate Alike(s: State, t: State) {
    && s.core == t.core
    && s.clients.Keys == t.clients.Keys
    && (forall c :: c in s.clients ==> s.clients[c].userId == t.clients[c].userId)
    && (forall c :: c in s.clients ==> (s.clients[c].phase == Sending <==> t.clients[c].phase == Sending))
  }

  lemma AlikeStep(cfg: Config, s: State, t: State, a: Action)
    requires Alike(s, t) && Enabled(cfg, s, a)
    ensures Observes(a) ==> Alike(Apply(cfg, s, a), t)
    ensures !Observes(a) ==> Enabled(cfg, t, a) && Alike(Apply(cfg, s, a), Apply(cfg, t, a))
  {
  }

  /** Take out of a run everything that clients do after queueing, cancelling
      included: what is left is a run, and the worker, its limiter, the chain
      and the responses come out the same. */
  lemma {:induction false} ObserversDoNotInterfere(cfg: Config, s: State, t: State, actions: seq<Action>)
    requires Alike(s, t) && Run(cfg, s, actions).Some?
    ensures Run(cfg, t, WithoutObservers(actions)).Some?
    ensures Alike(Run(cfg, s, actions).value, Run(cfg, t, WithoutObservers(actions)).value)
  {
    if actions == [] {
    } else {
      var n := |actions| - 1;
      ObserversDoNotInterfere(cfg, s, t, actions[..n]);
      var u, v := Run(cfg, s, actions[..n]).value, Run(cfg, t, WithoutObservers(actions[..n])).value;
      AlikeStep(cfg, u, v, actions[n]);
      assert WithoutObservers(actions[..n]) + [] == WithoutObservers(actions[..n]);
      assert (WithoutObservers(actions[..n]) + [actions[n]])[..|WithoutObservers(actions[..n])|]
          == WithoutObservers(actions[..n]);
    }
  }

  /** Two runs that differ only in which clients cancelled or looked at their
      response end with the same nonce, limiter history, transactions and responses. */
  lemma CancellationIsInvisible(cfg: Config, xs: seq<Action>, ys: seq<Action>)
    requires Run(cfg, Initial(cfg), xs).Some? && Run(cfg, Initial(cfg), ys).Some?
    requires WithoutObservers(xs) == WithoutObservers(ys)
    ensures Run(cfg, Initial(cfg), xs).value.core == Run(cfg, Initial(cfg), ys).value.core
  {
    ObserversDoNotInterfere(cfg, Initial(cfg), Initial(cfg), xs);
    ObserversDoNotInterfere(cfg, Initial(cfg), Initial(cfg), ys);
  }

  // ---------- The rate limit is exact ----------

  lemma Extend(cfg: Config, s: State, actions: seq<Action>, t: State, a: Action)
    requires Run(cfg, s, actions) == Some(t) && Enabled(cfg, t, a)
    ensures Run(cfg, s, actions + [a]) == Some(Apply(cfg, t, a))
  {
    assert (actions + [a])[..|actions|] == actions;
  }

  /** Nothing is under way and no acknowledgement was lost. */
  ghost predicate AtRest(s: State) {
    && s.core.worker == Idle && s.core.channel == [] && s.core.open
    && s.core.nonce == s.core.chainNext
    && (forall c :: c in s.clients ==> c < |s.core.acks|)
  }

  /** Whatever the worker does on its own it can do amid any clients. */
  lemma {:induction false} LiftWork(cfg: Config, s0: State, actions: seq<Action>, s: State, ws: seq<Work>)
    returns (more: seq<Action>, t: State)
    requires Run(cfg, s0, actions) == Some(s) && RunWork(cfg, s.core, ws).Some?
    ensures Run(cfg, s0, more) == Some(t) && t.clients == s.clients && t.core == RunWork(cfg, s.core, ws).value
  {
    if ws == [] {
      more, t := actions, s;
    } else {
      var n := |ws| - 1;
      more, t := LiftWork(cfg, s0, actions, s, ws[..n]);
      Extend(cfg, s0, more, t, Do(ws[n]));
      more, t := more + [Do(ws[n])], Apply(cfg, t, Do(ws[n]));
    }
  }

  lemma RunSnoc(cfg: Config, c: Core, ws: seq<Work>, d: Core, w: Work)
    requires RunWork(cfg, c, ws) == Some(d) && WorkEnabled(cfg, d, w)
    ensures RunWork(cfg, c, ws + [w]) == Some(WorkStep(cfg, d, w))
  {
    assert (ws + [w])[..|ws|] == ws;
  }

  /** A registration that meets no trouble. */
  lemma Registration(cfg: Config, c: Core) returns (ws: seq<Work>)
    requires c.worker == Idle && |c.channel| == 1 && Allowed(cfg, c, c.channel[0].userId) && c.nonce == c.chainNext
    ensures RunWork(cfg, c, ws).Some?
    ensures var d := RunWork(cfg, c, ws).value;
            d.worker == Idle && d.channel == [] && d.open == c.open && d.nonce == d.chainNext &&
            d.acks == c.acks + [TxOf(c.channel[0], c.nonce)]
  {
    var c1 := WorkStep(cfg, c, Submit);
    RunSnoc(cfg, c, [], c, Submit);
    var c2 := WorkStep(cfg, c1, ChainAccept);
    RunSnoc(cfg, c, [] + [Submit], c1, ChainAccept);
    var c3 := WorkStep(cfg, c2, ChainAck);
    RunSnoc(cfg, c, [] + [Submit] + [ChainAccept], c2, ChainAck);
    RunSnoc(cfg, c, [] + [Submit] + [ChainAccept] + [ChainAck], c3, Issue);
    ws := [] + [Submit] + [ChainAccept] + [ChainAck] + [Issue];
  }

  lemma QueueOne(cfg: Config, s: State, actions: seq<Action>, client: ClientId, userId: string)
    returns (more: seq<Action>, t: State)
    requires cfg.capacity > 0 && Run(cfg, Initial(cfg), actions) == Some(s)
    requires s.core.worker == Idle && s.core.channel == [] && s.core.open && client !in s.clients
    ensures Run(cfg, Initial(cfg), more) == Some(t)
    ensures t.core == s.core.(channel := [Message(client, userId)]) && t.clients.Keys == s.clients.Keys + {client}
  {
    var s1 := Apply(cfg, s, Start(client, userId));
    Extend(cfg, Initial(cfg), actions, s, Start(client, userId));
    t := Apply(cfg, s1, Enqueue(client));
    Extend(cfg, Initial(cfg), actions + [Start(client, userId)], s1, Enqueue(client));
    more := actions + [Start(client, userId)] + [Enqueue(client)];
  }

  /** One registration from start to response. */
  lemma RegisterOne(cfg: Config, s: State, actions: seq<Action>, userId: string) returns (more: seq<Action>, t: State)
    requires cfg.capacity > 0 && Run(cfg, Initial(cfg), actions) == Some(s) && AtRest(s)
    requires Allowed(cfg, s.core, userId)
    ensures Run(cfg, Initial(cfg), more) == Some(t) && AtRest(t)
    ensures Users(t.core.acks) == Users(s.core.acks) + [userId]
  {
    more, t := QueueOne(cfg, s, actions, |s.core.acks|, userId);
    var ws := Registration(cfg, t.core);
    more, t := LiftWork(cfg, Initial(cfg), more, t, ws);
  }

  lemma LastWasAdmitted(history: seq<string>, w: nat, multiplicity: nat) returns (init: seq<string>, last: string)
    requires history != [] && Admitted(history, w, multiplicity)
    ensures init + [last] == history && |init| < |history|
    ensures Admitted(init, w, multiplicity) && Admits(init, w, multiplicity, last)
  {
    init, last := history[..|history| - 1], history[|history| - 1];
  }

  ghost predicate Reaches(cfg: Config, actions: seq<Action>, s: State, history: seq<string>) {
    Run(cfg, Initial(cfg), actions) == Some(s) && AtRest(s) && Users(s.core.acks) == history
  }

  ghost predicate Happens(cfg: Config, history: seq<string>) {
    exists actions, s :: Reaches(cfg, actions, s, history)
  }

  lemma NothingHappens(cfg: Config)
    ensures Happens(cfg, [])
  {
    assert Reaches(cfg, [], Initial(cfg), []);
  }

  lemma OneMoreHappens(cfg: Config, history: seq<string>, userId: string)
    requires cfg.capacity > 0 && Happens(cfg, history)
    requires Admits(history, cfg.W(), cfg.multiplicity, userId)
    ensures Happens(cfg, history + [userId])
  {
    var actions, s :| Reaches(cfg, actions, s, history);
    var more, t := RegisterOne(cfg, s, actions, userId);
    assert Reaches(cfg, more, t, history + [userId]);
  }

  lemma {:induction false} AdmittedHappens(cfg: Config, history: seq<string>)
    requires cfg.capacity > 0 && Admitted(history, cfg.W(), cfg.multiplicity)
    ensures Happens(cfg, history)
  {
    if history == [] {
      NothingHappens(cfg);
    } else {
      var init, last := LastWasAdmitted(history, cfg.W(), cfg.multiplicity);
      AdmittedHappens(cfg, init);
      OneMoreHappens(cfg, init, last);
    }
  }

  /** A list of user ids is the acknowledged list of some run, and the accepted
      list of some run, exactly when it respects the rate limit: the limiter
      refuses nothing it need not refuse. */
  lemma RateLimitIsExact(cfg: Config, history: seq<string>)
    requires cfg.variant == RateLimited && cfg.capacity > 0
    ensures (exists s :: Reachable(cfg, s) && Users(s.core.acks) == history)
            <==> Spaced(history, cfg.W() + 1, cfg.multiplicity)
    ensures (exists s :: Reachable(cfg, s) && Users(s.core.accepted) == history)
            <==> Spaced(history, cfg.W() + 1, cfg.multiplicity)
  {
    if s :| Reachable(cfg, s) && Users(s.core.acks) == history {
      RateLimitHolds(cfg, s);
    }
    if s :| Reachable(cfg, s) && Users(s.core.accepted) == history {
      RateLimitHolds(cfg, s);
    }
    if Spaced(history, cfg.W() + 1, cfg.multiplicity) {
      AdmittedIffSpaced(history, cfg.W(), cfg.multiplicity);
      AdmittedHappens(cfg, history);
      var actions, s :| Reaches(cfg, actions, s, history);
      assert Reachable(cfg, s);
      NonceSafety(cfg, s);
      assert s.core.accepted == s.core.acks;
    }
  }
}
