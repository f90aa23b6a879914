/** The request handlers of the verifier over its database, and what holds of
    the store after any requests. Whether a presentation verifies is an input. */
module Verifier {
  import opened Wrappers
  import opened VerifierTypes
  import opened VerificationTables
  import opened S = VerificationStore
  import opened EntryFold
  import D = Database

  datatype StatusCode = Created | Ok | BadRequest

  datatype CredentialStatement =
    | Web3IdStatement(contract: ContractAddress, credential: CredentialHolderId)
    | AccountStatement

  datatype Request =
    | AddRequest(verified: bool, presentation: Presentation)
    | RemoveRequest(ok: bool, statements: seq<CredentialStatement>)

  /** The store transaction that a request leads to, if it gets that far. */
  function TransactionOf(reg: Registries, req: Request): Result<Transaction, RequestError> {
    match req
    case AddRequest(verified, presentation) =>
      if !verified then Failure(NotVerified)
      else (match EntryOf(reg, presentation)
            case Failure(e) => Failure(e)
            case Success(entry) => Success(AddVerification(entry)))
    case RemoveRequest(ok, statements) =>
      if !ok then Failure(NotVerified)
      else if |statements| != 1 then Failure(NotSingleStatement(|statements|))
      else (match statements[0]
            case AccountStatement => Failure(InvalidStatement)
            case Web3IdStatement(contract, credential) =>
              match PlatformFor(reg, contract)
              case Failure(e) => Failure(e)
              case Success(p) => Success(RemoveVerification(credential, p)))
  }

  ghost function Respond(reg: Registries, s: Store, req: Request): Result<StatusCode, RequestError> {
    match TransactionOf(reg, req)
    case Failure(e) => Failure(e)
    case Success(tx) =>
      match ReplyTo(s, tx)
      case Added(clash) => if clash.Some? then Failure(DuplicateUserIds(clash.value)) else Success(Created)
      case Removed(any) => Success(if any then Ok else BadRequest)
      case Found(_) => Success(Ok)
  }

  function Serve(reg: Registries, s: Store, req: Request): Store {
    match TransactionOf(reg, req)
    case Failure(_) => s
    case Success(tx) => Apply(s, tx)
  }

  function ServeAll(reg: Registries, s: Store, reqs: seq<Request>): Store {
    if reqs == [] then s else Serve(reg, ServeAll(reg, s, reqs[..|reqs| - 1]), reqs[|reqs| - 1])
  }

  // ---------- The responses, read off requests and store ----------

  /** A verified presentation of two or more credentials, each acceptable and
      no two of one kind. */
  ghost predicate Proper(reg: Registries, verified: bool, presentation: Presentation) {
    verified && |presentation.verifiableCredential| >= 2 && NoneBad(reg, presentation.verifiableCredential)
  }

  /** Storing `e`: a user id that a foreign entry has is reported, Telegram
      first, and otherwise `e` takes the place of those it shares a credential with. */
  ghost predicate Stores(before: Store, e: VerificationsEntry, r: Result<StatusCode, RequestError>, after: Store) {
    if ForeignHolder(before, e, Telegram) then r == Failure(DuplicateUserIds(e.telegram.value.id)) && after == before
    else if ForeignHolder(before, e, Discord) then r == Failure(DuplicateUserIds(e.discord.value.id)) && after == before
    else r == Success(Created) && forall x :: x in after <==> x == e || (x in before && !Shares(x, e))
  }

  /** Removing: the entry with the credential goes, and there must be one. */
  ghost predicate RemovesHolder(before: Store, p: Platform, cred: CredentialHolderId,
                                r: Result<StatusCode, RequestError>, after: Store)
  {
    && (r == Success(Ok) || r == Success(BadRequest))
    && (r == Success(Ok) <==> exists x :: x in before && x.Slot(p).Some? && x.Slot(p).value.credId == cred)
    && (forall x :: x in after <==> x in before && !(x.Slot(p).Some? && x.Slot(p).value.credId == cred))
  }

  /** A remove request, case by case. */
  ghost predicate RemovesDirectly(reg: Registries, before: Store, ok: bool, statements: seq<CredentialStatement>,
                                  r: Result<StatusCode, RequestError>, after: Store)
  {
    if !ok then r == Failure(NotVerified) && after == before
    else if |statements| != 1 then r == Failure(NotSingleStatement(|statements|)) && after == before
    else
      match statements[0]
      case AccountStatement => r == Failure(InvalidStatement) && after == before
      case Web3IdStatement(contract, credential) =>
        if contract == reg.telegram then RemovesHolder(before, Telegram, credential, r, after)
        else if contract == reg.discord then RemovesHolder(before, Discord, credential, r, after)
        else r == Failure(InvalidIssuer) && after == before
  }

  ghost predicate HandlesDirectly(reg: Registries, before: Store, req: Request,
                                  r: Result<StatusCode, RequestError>, after: Store)
  {
    match req
    case AddRequest(verified, presentation) => AddsDirectly(reg, before, verified, presentation, r, after)
    case RemoveRequest(ok, statements) => RemovesDirectly(reg, before, ok, statements, r, after)
  }

  lemma StoresOrClashes(s: Store, e: VerificationsEntry)
    ensures var clash := Clash(Kept(s, e), e);
            Stores(s, e, if clash.Some? then Failure(DuplicateUserIds(clash.value)) else Success(Created), Add(s, e))
  {
    var clash := Clash(Kept(s, e), e);
    if clash.Some? {
      ClashIsFirstForeign(s, e, clash.value);
    }
    if ForeignHolder(s, e, Telegram) {
      ClashIsFirstForeign(s, e, e.telegram.value.id);
    } else if ForeignHolder(s, e, Discord) {
      ClashIsFirstForeign(s, e, e.discord.value.id);
    }
  }

  /** An add request, case by case: the errors in the order of the checks, and
      for a proper request the entry that the presentation describes. */
  ghost predicate AddsDirectly(reg: Registries, before: Store, verified: bool, presentation: Presentation,
                               r: Result<StatusCode, RequestError>, after: Store)
  {
    var creds := presentation.verifiableCredential;
    && (!verified ==> r == Failure(NotVerified))
    && (verified && |creds| < 2 ==> r == Failure(NotEnoughStatements(|creds|)))
    && (verified && |creds| >= 2 ==>
          forall i: nat :: FirstBad(reg, creds, i) ==>
            r == Failure(if creds[i].Web3Id? && TwoTexts(creds[i].proofs) &&
                            creds[i].contract != reg.telegram && creds[i].contract != reg.discord
                         then InvalidIssuer else InvalidStatement))
    && (Proper(reg, verified, presentation) ==>
          exists e :: Describes(reg, presentation, e) && Stores(before, e, r, after))
    && (r == Success(Created) ==> Proper(reg, verified, presentation))
    && (r != Success(Created) ==> after == before)
  }

  lemma AddDirectly(reg: Registries, s: Store, verified: bool, presentation: Presentation)
    ensures var req := AddRequest(verified, presentation);
            AddsDirectly(reg, s, verified, presentation, Respond(reg, s, req), Serve(reg, s, req))
  {
    FoldDirectly(reg, presentation, presentation.verifiableCredential);
    if EntryOf(reg, presentation).Success? {
      EntryDescribes(reg, presentation);
      StoresOrClashes(s, EntryOf(reg, presentation).value);
    }
  }

  lemma HandleDirectly(reg: Registries, s: Store, req: Request)
    ensures HandlesDirectly(reg, s, req, Respond(reg, s, req), Serve(reg, s, req))
  {
    if req.AddRequest? {
      AddDirectly(reg, s, req.verified, req.presentation);
    }
  }

  /** The responses to requests to a fresh verifier. */
  ghost function Responses(reg: Registries, reqs: seq<Request>): seq<Result<StatusCode, RequestError>> {
    if reqs == [] then []
    else Responses(reg, reqs[..|reqs| - 1]) +
         [Respond(reg, ServeAll(reg, {}, reqs[..|reqs| - 1]), reqs[|reqs| - 1])]
  }

  lemma {:induction false} ResponseAt(reg: Registries, reqs: seq<Request>, i: nat)
    requires i < |reqs|
    ensures |Responses(reg, reqs)| == |reqs|
    ensures HandlesDirectly(reg, ServeAll(reg, {}, reqs[..i]), reqs[i], Responses(reg, reqs)[i],
                            ServeAll(reg, {}, reqs[..i + 1]))
  {
    var n := |reqs| - 1;
    ResponsesLength(reg, reqs[..n]);
    if i == n {
      HandleDirectly(reg, ServeAll(reg, {}, reqs[..n]), reqs[n]);
      assert reqs[..n + 1] == reqs;
    } else {
      ResponseAt(reg, reqs[..n], i);
      assert reqs[..n][..i] == reqs[..i] && reqs[..n][..i + 1] == reqs[..i + 1];
    }
  }

  lemma {:induction false} ResponsesLength(reg: Registries, reqs: seq<Request>)
    ensures |Responses(reg, reqs)| == |reqs|
  {
    if reqs == [] {
    } else {
      ResponsesLength(reg, reqs[..|reqs| - 1]);
    }
  }

  /** Each request of a history meets the store that the ones before it left. */
  lemma ResponsesInOrder(reg: Registries, reqs: seq<Request>)
    ensures |Responses(reg, reqs)| == |reqs|
    ensures forall i :: 0 <= i < |reqs| ==>
              HandlesDirectly(reg, ServeAll(reg, {}, reqs[..i]), reqs[i], Responses(reg, reqs)[i],
                              ServeAll(reg, {}, reqs[..i + 1]))
  {
    ResponsesLength(reg, reqs);
    forall i | 0 <= i < |reqs|
      ensures HandlesDirectly(reg, ServeAll(reg, {}, reqs[..i]), reqs[i], Responses(reg, reqs)[i],
                              ServeAll(reg, {}, reqs[..i + 1]))
    {
      ResponseAt(reg, reqs, i);
    }
  }

  /** The application state: the two registries and the database. */
  class AppState {
    const registries: Registries
    const database: D.Database

    constructor (registries: Registries, database: D.Database)
      ensures this.registries == registries && this.database == database
    {
      this.registries, this.database := registries, database;
    }

    /** The entry that the credentials of a presentation are folded into. */
    method EntryFor(presentation: Presentation) returns (r: Result<VerificationsEntry, RequestError>)
      ensures r == EntryOf(registries, presentation)
    {
      var proofs := presentation.verifiableCredential;
      if |proofs| < 2 {
        return Failure(NotEnoughStatements(|proofs|));
      }
      var entry := Blank(presentation);
      assert proofs[..0] == [];
      for i := 0 to |proofs|
        invariant Fold(registries, Blank(presentation), proofs[..i]) == Success(entry)
      {
        assert proofs[..i + 1][..i] == proofs[..i];
        var placed, updated := ProofToVerificationsEntry(registries, proofs[i], entry);
        if placed.Failure? {
          FoldFails(registries, Blank(presentation), proofs, i + 1);
          return Failure(placed.error);
        }
        entry := updated;
      }
      assert proofs[..|proofs|] == proofs;
      r := Success(entry);
    }

    method HandleAdd(verified: bool, presentation: Presentation) returns (r: Result<StatusCode, RequestError>)
      requires database.Valid()
      modifies database
      ensures database.Valid()
      ensures r == Respond(registries, old(database.Records()), AddRequest(verified, presentation))
      ensures database.Records() == Serve(registries, old(database.Records()), AddRequest(verified, presentation))
      ensures AddsDirectly(registries, old(database.Records()), verified, presentation, r, database.Records())
    {
      AddDirectly(registries, database.Records(), verified, presentation);
      if !verified {
        return Failure(NotVerified);
      }
      var entry := EntryFor(presentation);
      if entry.Failure? {
        return Failure(entry.error);
      }
      var added := database.AddVerification(entry.value);
      match added {
        case Success(None) => r := Success(Created);
        case Success(Some(id)) => r := Failure(DuplicateUserIds(id));
        case Failure(e) => r := Failure(RequestError.Database(e));
      }
    }

    method HandleRemove(ok: bool, statements: seq<CredentialStatement>) returns (r: Result<StatusCode, RequestError>)
      requires database.Valid()
      modifies database
      ensures database.Valid()
      ensures r == Respond(registries, old(database.Records()), RemoveRequest(ok, statements))
      ensures database.Records() == Serve(registries, old(database.Records()), RemoveRequest(ok, statements))
      ensures RemovesDirectly(registries, old(database.Records()), ok, statements, r, database.Records())
    {
      if !ok {
        return Failure(NotVerified);
      }
      if |statements| != 1 {
        return Failure(NotSingleStatement(|statements|));
      }
      if statements[0].AccountStatement? {
        return Failure(InvalidStatement);
      }
      var platform := PlatformFor(registries, statements[0].contract);
      if platform.Failure? {
        return Failure(platform.error);
      }
      var removed := database.RemoveVerification(statements[0].credential, platform.value);
      match removed {
        case Success(any) => r := Success(if any then Ok else BadRequest);
        case Failure(e) => r := Failure(RequestError.Database(e));
      }
    }

    method HandleOne(req: Request) returns (r: Result<StatusCode, RequestError>)
      requires database.Valid()
      modifies database
      ensures database.Valid()
      ensures r == Respond(registries, old(database.Records()), req)
      ensures database.Records() == Serve(registries, old(database.Records()), req)
    {
      match req {
        case AddRequest(verified, presentation) => r := HandleAdd(verified, presentation);
        case RemoveRequest(ok, statements) => r := HandleRemove(ok, statements);
      }
    }

    /** Any sequence of requests to a fresh verifier. */
    method Handle(reqs: seq<Request>) returns (rs: seq<Result<StatusCode, RequestError>>)
      requires database.Valid() && database.Records() == {}
      modifies database
      ensures database.Valid()
      ensures database.Records() == ServeAll(registries, {}, reqs)
      ensures |rs| == |reqs|
      ensures forall i :: 0 <= i < |reqs| ==>
                HandlesDirectly(registries, ServeAll(registries, {}, reqs[..i]), reqs[i], rs[i],
                                ServeAll(registries, {}, reqs[..i + 1]))
      ensures NoOrphans(database.tables)
    {
      rs := [];
      ResponsesInOrder(registries, reqs);
      for i := 0 to |reqs|
        invariant database.Valid()
        invariant rs == Responses(registries, reqs[..i])
        invariant database.Records() == ServeAll(registries, {}, reqs[..i])
      {
        assert reqs[..i + 1][..i] == reqs[..i];
        var r := HandleOne(reqs[i]);
        rs := rs + [r];
      }
      assert reqs[..|reqs|] == reqs;
      ReachableStore(registries, reqs);
      EntriesMakeNoOrphans(database.tables, database.nextId);
    }
  }

  lemma {:induction false} FoldFails(reg: Registries, start: VerificationsEntry, proofs: seq<CredentialProof>, n: nat)
    requires n <= |proofs| && Fold(reg, start, proofs[..n]).Failure?
    ensures Fold(reg, start, proofs) == Failure(Fold(reg, start, proofs[..n]).error)
    decreases |proofs|
  {
    if n == |proofs| {
      assert proofs[..n] == proofs;
    } else {
      assert proofs[..|proofs| - 1][..n] == proofs[..n];
      FoldFails(reg, start, proofs[..|proofs| - 1], n);
    }
  }

  /** What every request keeps of the entries: each was accepted by the fold. */
  ghost predicate AllAccepted(reg: Registries, s: Store) {
    forall r :: r in s ==> EntryOf(reg, r.presentation) == Success(r)
  }

  /** In every reachable store each entry is the fold of its own presentation,
      has an account, and shares no user id or credential with another. */
  lemma {:induction false} ReachableStore(reg: Registries, reqs: seq<Request>)
    ensures AllAccepted(reg, ServeAll(reg, {}, reqs))
    ensures S.Keyed(ServeAll(reg, {}, reqs))
    ensures forall r :: r in ServeAll(reg, {}, reqs) ==> exists p: Platform :: r.Slot(p).Some?
  {
    if reqs == [] {
    } else {
      var before, req := ServeAll(reg, {}, reqs[..|reqs| - 1]), reqs[|reqs| - 1];
      ReachableStore(reg, reqs[..|reqs| - 1]);
      match TransactionOf(reg, req) {
        case Failure(_) =>
        case Success(tx) =>
          match tx {
            case AddVerification(e) =>
              assert EntryOf(reg, req.presentation) == Success(e);
              FoldCharacterised(reg, req.presentation, req.presentation.verifiableCredential);
              AcceptedHasAccount(reg, req.presentation);
              AddKeepsKeyed(before, e);
            case RemoveVerification(c, p) => RemoveTakesAtMostOne(before, c, p);
            case GetVerification(_, _) =>
          }
      }
    }
  }

  /** Every stored entry comes from an add request whose presentation was
      verified. */
  lemma {:induction false} StoredWasVerified(reg: Registries, reqs: seq<Request>, r: VerificationsEntry)
    requires r in ServeAll(reg, {}, reqs)
    ensures exists i :: 0 <= i < |reqs| && reqs[i] == AddRequest(true, r.presentation)
  {
    if reqs == [] {
      assert false;
    } else {
      var n := |reqs| - 1;
      if r in ServeAll(reg, {}, reqs[..n]) {
        StoredWasVerified(reg, reqs[..n], r);
        var i :| 0 <= i < n && reqs[..n][i] == AddRequest(true, r.presentation);
        assert reqs[i] == AddRequest(true, r.presentation);
      } else {
        var presentation := reqs[n].presentation;
        FoldCharacterised(reg, presentation, presentation.verifiableCredential);
        assert reqs[n] == AddRequest(true, r.presentation);
      }
    }
  }

  /** Every stored account and name is what a credential of the entry's own
      presentation reveals, and all its credentials of one registry reveal the
      same: the first text as user id, the second as user name, under its holder. */
  lemma StoredIsRevealed(reg: Registries, reqs: seq<Request>, r: VerificationsEntry)
    requires r in ServeAll(reg, {}, reqs)
    ensures Describes(reg, r.presentation, r)
    ensures r.telegram.Some? ==>
              forall c :: c in r.presentation.verifiableCredential && IsOf(c, reg.telegram) ==>
                RevealsAccount(c, reg.telegram, r.telegram.value)
    ensures r.discord.Some? ==>
              forall c :: c in r.presentation.verifiableCredential && IsOf(c, reg.discord) ==>
                RevealsAccount(c, reg.discord, r.discord.value)
  {
    ReachableStore(reg, reqs);
    EntryDescribes(reg, r.presentation);
    var creds := r.presentation.verifiableCredential;
    FoldCharacterised(reg, r.presentation, creds);
    forall c | c in creds ensures Classify(reg, c).Success? {
    }
    forall c | c in creds && c.Web3Id? ensures TwoTexts(c.proofs) {
      ClassifiedDirectly(reg, c);
    }
    OneOfARegistry(creds, reg.telegram, r.telegram);
    if reg.discord != reg.telegram {
      OneOfARegistry(creds, reg.discord, r.discord);
    }
  }

  predicate IsOf(c: CredentialProof, registry: ContractAddress) {
    c.Web3Id? && c.contract == registry
  }

  lemma OneOfARegistry(creds: seq<CredentialProof>, registry: ContractAddress, stored: Option<PlatformEntry>)
    requires forall c :: c in creds && c.Web3Id? ==> TwoTexts(c.proofs)
    requires forall x :: stored == Some(x) <==> exists c :: c in creds && RevealsAccount(c, registry, x)
    ensures stored.Some? ==> forall c :: c in creds && IsOf(c, registry) ==> RevealsAccount(c, registry, stored.value)
  {
    forall c | c in creds && IsOf(c, registry) ensures stored.Some? && RevealsAccount(c, registry, stored.value) {
      var x := PlatformEntry(c.proofs[0].1.attribute.text, c.holder, c.proofs[1].1.attribute.text);
      assert RevealsAccount(c, registry, x);
      assert stored == Some(x);
    }
  }

  /** Each account that a lookup reports is checked against the credential that
      is stored with it. */
  lemma LookupChecksStoredCredential(reg: Registries, reqs: seq<Request>, p: Platform, id: string, a: DbAccount)
    requires Lookup(ServeAll(reg, {}, reqs), p, id).Some?
    requires a in Lookup(ServeAll(reg, {}, reqs), p, id).value.accounts
    ensures exists r :: r in ServeAll(reg, {}, reqs) && HasAccount(r, a.platform, a.id) && HasAccount(r, p, id) &&
              StatusTarget(Lookup(ServeAll(reg, {}, reqs), p, id).value.presentation.verifiableCredential,
                           reg.Of(a.platform)) == Some(r.Slot(a.platform).value.credId)
  {
    var s := ServeAll(reg, {}, reqs);
    ReachableStore(reg, reqs);
    var r :| r in s && HasAccount(r, p, id);
    LookupFinds(s, r, p, id);
    assert HasAccount(r, a.platform, a.id);
    StatusTargetIsStored(reg, r.presentation, a.platform);
  }

  /** Every verification row has a platform row and every platform row has its
      verification row. */
  ghost predicate NoOrphans(t: Tables) {
    && (forall v :: v in t.verifications ==> exists p: Platform, u :: Refers(t.Rows(p), u, v))
    && (forall p: Platform, u :: u in t.Rows(p) ==>
          t.Rows(p)[u].verificationId.Some? && t.Rows(p)[u].verificationId.value in t.verifications)
  }

  lemma EntriesMakeNoOrphans(t: Tables, nextId: int)
    requires Valid(t, nextId)
    requires forall r :: r in View(t).Values ==> exists p: Platform :: r.Slot(p).Some?
    ensures NoOrphans(t)
  {
    forall v | v in t.verifications ensures exists p: Platform, u :: Refers(t.Rows(p), u, v) {
      assert View(t)[v] in View(t).Values;
      var p: Platform :| View(t)[v].Slot(p).Some?;
      EntrySlot(t, v, p);
    }
    forall p: Platform, u | u in t.Rows(p) ensures t.Rows(p)[u].verificationId.value in t.verifications {
      assert ReferencesExist(t, t.Rows(p));
      assert Refers(t.Rows(p), u, t.Rows(p)[u].verificationId.value);
    }
  }
}
