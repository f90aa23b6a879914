/** The store as its callers may think of it: a set of entries. Adding drops
    every entry that shares a credential with the new one, removing drops by
    credential, looking up finds by user id. */
module VerificationStore {
  import opened Wrappers
  import opened VerifierTypes

  type Store = set<VerificationsEntry>

  predicate HasAccount(r: VerificationsEntry, p: Platform, id: string) {
    r.Slot(p).Some? && r.Slot(p).value.id == id
  }

  predicate HasCredential(r: VerificationsEntry, p: Platform, cred: CredentialHolderId) {
    r.Slot(p).Some? && r.Slot(p).value.credId == cred
  }

  predicate SharesOn(p: Platform, r: VerificationsEntry, e: VerificationsEntry) {
    e.Slot(p).Some? && HasCredential(r, p, e.Slot(p).value.credId)
  }

  predicate Shares(r: VerificationsEntry, e: VerificationsEntry) {
    SharesOn(Telegram, r, e) || SharesOn(Discord, r, e)
  }

  function Kept(s: Store, e: VerificationsEntry): Store {
    set r | r in s && !Shares(r, e)
  }

  predicate Holds(s: Store, p: Platform, id: string) {
    exists r :: r in s && HasAccount(r, p, id)
  }

  /** The user id of `e` that `s` already holds, Telegram before Discord. */
  function Clash(s: Store, e: VerificationsEntry): Option<string> {
    if e.telegram.Some? && Holds(s, Telegram, e.telegram.value.id) then Some(e.telegram.value.id)
    else if e.discord.Some? && Holds(s, Discord, e.discord.value.id) then Some(e.discord.value.id)
    else None
  }

  function Add(s: Store, e: VerificationsEntry): Store {
    if Clash(Kept(s, e), e).Some? then s else Kept(s, e) + {e}
  }

  function Remove(s: Store, cred: CredentialHolderId, p: Platform): Store {
    set r | r in s && !HasCredential(r, p, cred)
  }

  predicate Removes(s: Store, cred: CredentialHolderId, p: Platform) {
    exists r :: r in s && HasCredential(r, p, cred)
  }

  function AccountOn(r: VerificationsEntry, p: Platform): seq<DbAccount> {
    if r.Slot(p).Some? then [DbAccount(p, r.Slot(p).value.id, r.Slot(p).value.username)] else []
  }

  /** Everything known about the owner of entry `r`, the account on `p` first. */
  function Answer(r: VerificationsEntry, p: Platform): DbVerification {
    DbVerification(AccountOn(r, p) + AccountOn(r, Other(p)), r.fullName, r.presentation)
  }

  ghost function Lookup(s: Store, p: Platform, id: string): Option<DbVerification> {
    if Holds(s, p, id) then
      var r :| r in s && HasAccount(r, p, id);
      Some(Answer(r, p))
    else None
  }

  /** On each platform a user id and a credential belong to at most one entry. */
  ghost predicate Keyed(s: Store) {
    forall r, q, p: Platform ::
      r in s && q in s && r.Slot(p).Some? && q.Slot(p).Some? &&
      (r.Slot(p).value.id == q.Slot(p).value.id || r.Slot(p).value.credId == q.Slot(p).value.credId)
      ==> r == q
  }

  lemma LookupFinds(s: Store, r: VerificationsEntry, p: Platform, id: string)
    requires Keyed(s) && r in s && HasAccount(r, p, id)
    ensures Lookup(s, p, id) == Some(Answer(r, p))
  {
  }

  lemma KeptHasNoCredentialOf(s: Store, e: VerificationsEntry, r: VerificationsEntry, p: Platform)
    requires r in Kept(s, e) && e.Slot(p).Some?
    ensures !HasCredential(r, p, e.Slot(p).value.credId)
  {
    match p {
      case Telegram =>
      case Discord =>
    }
  }

  lemma AddKeepsKeyed(s: Store, e: VerificationsEntry)
    requires Keyed(s)
    ensures Keyed(Add(s, e))
  {
    var s' := Add(s, e);
    forall r, q, p: Platform | r in s' && q in s' && r.Slot(p).Some? && q.Slot(p).Some? &&
      (r.Slot(p).value.id == q.Slot(p).value.id || r.Slot(p).value.credId == q.Slot(p).value.credId)
      ensures r == q
    {
      if r != q && Clash(Kept(s, e), e).None? && (r == e || q == e) {
        var other := if r == e then q else r;
        assert other in Kept(s, e);
        KeptHasNoCredentialOf(s, e, other, p);
        assert HasAccount(other, p, e.Slot(p).value.id);
        assert false;
      }
    }
  }

  /** Adding is refused exactly when an entry that shares no credential with `e`
      has one of its user ids, and then nothing changes. */
  lemma ClashIffForeignHolder(s: Store, e: VerificationsEntry)
    ensures Clash(Kept(s, e), e).Some? <==>
            exists r, p: Platform :: r in s && !Shares(r, e) && e.Slot(p).Some? && HasAccount(r, p, e.Slot(p).value.id)
    ensures Clash(Kept(s, e), e).Some? ==> Add(s, e) == s
  {
    if r, p: Platform :| r in s && !Shares(r, e) && e.Slot(p).Some? && HasAccount(r, p, e.Slot(p).value.id) {
      assert r in Kept(s, e);
      assert p == Telegram || p == Discord;
    }
    forall p: Platform | e.Slot(p).Some? && Holds(Kept(s, e), p, e.Slot(p).value.id)
      ensures exists r, q: Platform :: r in s && !Shares(r, e) && e.Slot(q).Some? && HasAccount(r, q, e.Slot(q).value.id)
    {
      var r :| r in Kept(s, e) && HasAccount(r, p, e.Slot(p).value.id);
    }
    if Clash(Kept(s, e), e).Some? {
      assert exists p: Platform :: e.Slot(p).Some? && Holds(Kept(s, e), p, e.Slot(p).value.id) by {
        assert e.Slot(Telegram) == e.telegram && e.Slot(Discord) == e.discord;
      }
    }
  }

  /** Some entry of `s` has the user id of `e` on `p` without sharing a
      credential with `e` on any platform. */
  ghost predicate ForeignHolder(s: Store, e: VerificationsEntry, p: Platform) {
    e.Slot(p).Some? &&
    exists r :: r in s && r.Slot(p).Some? && r.Slot(p).value.id == e.Slot(p).value.id && !Shares(r, e)
  }

  /** What a refused add reports: the Telegram user id of the new entry if that
      has a foreign holder, and otherwise the Discord user id. */
  lemma ClashIsFirstForeign(s: Store, e: VerificationsEntry, id: string)
    ensures Clash(Kept(s, e), e) == Some(id) <==>
            (ForeignHolder(s, e, Telegram) && id == e.telegram.value.id) ||
            (!ForeignHolder(s, e, Telegram) && ForeignHolder(s, e, Discord) && id == e.discord.value.id)
  {
    forall p: Platform | e.Slot(p).Some?
      ensures Holds(Kept(s, e), p, e.Slot(p).value.id) <==> ForeignHolder(s, e, p)
    {
      if r :| r in s && r.Slot(p).Some? && r.Slot(p).value.id == e.Slot(p).value.id && !Shares(r, e) {
        assert r in Kept(s, e) && HasAccount(r, p, e.Slot(p).value.id);
      }
    }
    assert e.Slot(Telegram) == e.telegram && e.Slot(Discord) == e.discord;
  }

  /** After a successful add each account of the entry finds the entry: that
      account first, every account of it once and no other, with its name and
      its presentation. */
  lemma PutGet(s: Store, e: VerificationsEntry, p: Platform)
    requires Keyed(s) && e.Slot(p).Some? && forall q: Platform :: !ForeignHolder(s, e, q)
    ensures var found := Lookup(Add(s, e), p, e.Slot(p).value.id);
            && found.Some?
            && found.value.accounts != []
            && found.value.accounts[0] == DbAccount(p, e.Slot(p).value.id, e.Slot(p).value.username)
            && (forall a :: a in found.value.accounts <==>
                  e.Slot(a.platform).Some? && e.Slot(a.platform).value.id == a.id &&
                  e.Slot(a.platform).value.username == a.username)
            && (forall i, j :: 0 <= i < j < |found.value.accounts| ==>
                  found.value.accounts[i] != found.value.accounts[j])
            && found.value.fullName == e.fullName
            && found.value.presentation == e.presentation
  {
    if Clash(Kept(s, e), e).Some? {
      ClashIsFirstForeign(s, e, Clash(Kept(s, e), e).value);
    }
    LookupAfterAdd(s, e, p, e.Slot(p).value.id);
    AnswerAccounts(e, p);
  }

  lemma AnswerAccounts(r: VerificationsEntry, p: Platform)
    requires r.Slot(p).Some?
    ensures var accounts := Answer(r, p).accounts;
            && accounts != []
            && accounts[0] == DbAccount(p, r.Slot(p).value.id, r.Slot(p).value.username)
            && (forall a :: a in accounts <==>
                  r.Slot(a.platform).Some? && r.Slot(a.platform).value.id == a.id &&
                  r.Slot(a.platform).value.username == a.username)
            && (forall i, j :: 0 <= i < j < |accounts| ==> accounts[i] != accounts[j])
  {
  }

  /** Every lookup after a successful add, in terms of the lookups before it. */
  lemma LookupAfterAdd(s: Store, e: VerificationsEntry, p: Platform, id: string)
    requires Keyed(s) && Clash(Kept(s, e), e).None?
    ensures HasAccount(e, p, id) ==> Lookup(Add(s, e), p, id) == Some(Answer(e, p))
    ensures !HasAccount(e, p, id) && (exists r :: r in s && HasAccount(r, p, id) && Shares(r, e))
            ==> Lookup(Add(s, e), p, id) == None
    ensures !HasAccount(e, p, id) && !(exists r :: r in s && HasAccount(r, p, id) && Shares(r, e))
            ==> Lookup(Add(s, e), p, id) == Lookup(s, p, id)
  {
    AddKeepsKeyed(s, e);
    if HasAccount(e, p, id) {
      LookupFinds(Add(s, e), e, p, id);
    } else if r :| r in s && HasAccount(r, p, id) {
      LookupFinds(s, r, p, id);
      if !Shares(r, e) {
        assert r in Add(s, e);
        LookupFinds(Add(s, e), r, p, id);
      }
    }
  }

  /** Adding the same entry twice is adding it once, and never clashes. */
  lemma ReAdd(s: Store, e: VerificationsEntry)
    requires Clash(Kept(s, e), e).None?
    ensures Clash(Kept(Add(s, e), e), e).None?
    ensures e.telegram.Some? || e.discord.Some? ==> Kept(Add(s, e), e) == Kept(s, e)
    ensures Add(Add(s, e), e) == Add(s, e)
  {
    assert Kept(s, e) <= Kept(Add(s, e), e) <= Kept(s, e) + {e};
    if e.telegram.Some? || e.discord.Some? {
      assert SharesOn(Telegram, e, e) || SharesOn(Discord, e, e);
      assert Kept(Add(s, e), e) == Kept(s, e);
    }
  }

  /** Removal takes away at most one entry, and reports whether it did. */
  lemma RemoveTakesAtMostOne(s: Store, cred: CredentialHolderId, p: Platform)
    requires Keyed(s)
    ensures Keyed(Remove(s, cred, p))
    ensures Removes(s, cred, p) ==> exists r :: r in s && HasCredential(r, p, cred) && Remove(s, cred, p) == s - {r}
    ensures !Removes(s, cred, p) ==> Remove(s, cred, p) == s
  {
    if r :| r in s && HasCredential(r, p, cred) {
      assert Remove(s, cred, p) == s - {r};
    } else {
      assert Remove(s, cred, p) == s;
    }
  }

  /** After a removal the accounts of the removed entry are unfindable on both
      platforms and every other lookup is as before. */
  lemma LookupAfterRemove(s: Store, cred: CredentialHolderId, p: Platform, q: Platform, id: string)
    requires Keyed(s)
    ensures Lookup(Remove(s, cred, p), q, id) ==
            if exists r :: r in s && HasAccount(r, q, id) && HasCredential(r, p, cred) then None
            else Lookup(s, q, id)
  {
    RemoveTakesAtMostOne(s, cred, p);
    if r :| r in s && HasAccount(r, q, id) {
      LookupFinds(s, r, q, id);
      if !HasCredential(r, p, cred) {
        assert r in Remove(s, cred, p);
        LookupFinds(Remove(s, cred, p), r, q, id);
      }
    }
  }

  /** Whichever account of a verification is looked up, the same accounts, name
      and presentation come back. */
  lemma LookupSymmetry(s: Store, p: Platform, id: string, a: DbAccount)
    requires Keyed(s)
    requires Lookup(s, p, id).Some? && a in Lookup(s, p, id).value.accounts
    ensures var there := Lookup(s, a.platform, a.id);
            there.Some? &&
            there.value.accounts[0] == a &&
            multiset(there.value.accounts) == multiset(Lookup(s, p, id).value.accounts) &&
            there.value.fullName == Lookup(s, p, id).value.fullName &&
            there.value.presentation == Lookup(s, p, id).value.presentation
  {
    var r :| r in s && HasAccount(r, p, id);
    LookupFinds(s, r, p, id);
    assert HasAccount(r, a.platform, a.id);
    LookupFinds(s, r, a.platform, a.id);
    AnswerSymmetry(r, p, a);
  }

  lemma AnswerSymmetry(r: VerificationsEntry, p: Platform, a: DbAccount)
    requires r.Slot(p).Some? && a in Answer(r, p).accounts
    ensures Answer(r, a.platform).accounts != [] && Answer(r, a.platform).accounts[0] == a
    ensures multiset(Answer(r, a.platform).accounts) == multiset(Answer(r, p).accounts)
  {
    var mine, other := AccountOn(r, p), AccountOn(r, Other(p));
    if a.platform != p {
      assert a.platform == Other(p) && Other(a.platform) == p;
      assert multiset(mine + other) == multiset(other + mine);
    }
  }

  // ---------- Sequences of transactions ----------

  datatype Transaction =
    | AddVerification(entry: VerificationsEntry)
    | RemoveVerification(credId: CredentialHolderId, platform: Platform)
    | GetVerification(id: string, on: Platform)

  datatype Reply = Added(clash: Option<string>) | Removed(any: bool) | Found(verification: Option<DbVerification>)

  function Apply(s: Store, tx: Transaction): Store {
    match tx
    case AddVerification(e) => Add(s, e)
    case RemoveVerification(c, p) => Remove(s, c, p)
    case GetVerification(_, _) => s
  }

  ghost function ReplyTo(s: Store, tx: Transaction): Reply {
    match tx
    case AddVerification(e) => Added(Clash(Kept(s, e), e))
    case RemoveVerification(c, p) => Removed(Removes(s, c, p))
    case GetVerification(id, p) => Found(Lookup(s, p, id))
  }

  function ApplyAll(s: Store, txs: seq<Transaction>): Store {
    if txs == [] then s else Apply(ApplyAll(s, txs[..|txs| - 1]), txs[|txs| - 1])
  }

  ghost function Replies(s: Store, txs: seq<Transaction>): seq<Reply> {
    if txs == [] then []
    else Replies(s, txs[..|txs| - 1]) + [ReplyTo(ApplyAll(s, txs[..|txs| - 1]), txs[|txs| - 1])]
  }

  /** A reply is that of the one transaction to the store before it. */
  ghost predicate RepliesTo(before: Store, tx: Transaction, reply: Reply) {
    match tx
    case AddVerification(e) => reply == Added(Clash(Kept(before, e), e))
    case RemoveVerification(c, p) => reply == Removed(Removes(before, c, p))
    case GetVerification(id, p) => reply == Found(Lookup(before, p, id))
  }

  lemma ReplyToDirectly(s: Store, tx: Transaction)
    ensures RepliesTo(s, tx, ReplyTo(s, tx))
  {
  }

  lemma {:induction false} ReplyAt(s: Store, txs: seq<Transaction>, i: nat)
    requires i < |txs|
    ensures |Replies(s, txs)| == |txs| && RepliesTo(ApplyAll(s, txs[..i]), txs[i], Replies(s, txs)[i])
  {
    var n := |txs| - 1;
    if i == n {
      ReplyToDirectly(ApplyAll(s, txs[..n]), txs[n]);
      RepliesLength(s, txs[..n]);
    } else {
      ReplyAt(s, txs[..n], i);
      assert txs[..n][..i] == txs[..i];
    }
  }

  lemma {:induction false} RepliesLength(s: Store, txs: seq<Transaction>)
    ensures |Replies(s, txs)| == |txs|
  {
    if txs == [] {
    } else {
      RepliesLength(s, txs[..|txs| - 1]);
    }
  }

  lemma RepliesInOrder(s: Store, txs: seq<Transaction>)
    ensures |Replies(s, txs)| == |txs|
    ensures forall i :: 0 <= i < |txs| ==> RepliesTo(ApplyAll(s, txs[..i]), txs[i], Replies(s, txs)[i])
  {
    RepliesLength(s, txs);
    forall i | 0 <= i < |txs| ensures RepliesTo(ApplyAll(s, txs[..i]), txs[i], Replies(s, txs)[i]) {
      ReplyAt(s, txs, i);
    }
  }

  /** Every reachable store is keyed. */
  lemma {:induction false} ReachableIsKeyed(s: Store, txs: seq<Transaction>)
    requires Keyed(s)
    ensures Keyed(ApplyAll(s, txs))
  {
    if txs == [] {
    } else {
      var before := ApplyAll(s, txs[..|txs| - 1]);
      ReachableIsKeyed(s, txs[..|txs| - 1]);
      match txs[|txs| - 1] {
        case AddVerification(e) => AddKeepsKeyed(before, e);
        case RemoveVerification(c, p) => RemoveTakesAtMostOne(before, c, p);
        case GetVerification(_, _) =>
      }
    }
  }

  // ---------- The store as a function of its history ----------

  /** Transaction `i` added `e` without a clash. */
  ghost predicate AddedAt(txs: seq<Transaction>, i: nat, e: VerificationsEntry)
    requires i < |txs|
  {
    txs[i] == AddVerification(e) && Clash(Kept(ApplyAll({}, txs[..i]), e), e).None?
  }

  /** Transaction `j` removed by a credential of `e`, or added an entry that
      shares a credential with `e` without a clash. */
  ghost predicate DisplacedAt(txs: seq<Transaction>, j: nat, e: VerificationsEntry)
    requires j < |txs|
  {
    match txs[j]
    case AddVerification(f) => AddedAt(txs, j, f) && Shares(e, f)
    case RemoveVerification(c, p) => HasCredential(e, p, c)
    case GetVerification(_, _) => false
  }

  /** Entry `e` was added by transaction `i` and not displaced since. */
  ghost predicate SurvivesFrom(txs: seq<Transaction>, i: nat, e: VerificationsEntry) {
    i < |txs| && AddedAt(txs, i, e) && forall j :: i < j < |txs| ==> !DisplacedAt(txs, j, e)
  }

  ghost predicate Survives(txs: seq<Transaction>, e: VerificationsEntry) {
    exists i: nat :: SurvivesFrom(txs, i, e)
  }

  lemma PrefixHistory(txs: seq<Transaction>, n: nat, i: nat, e: VerificationsEntry)
    requires i < n <= |txs|
    ensures AddedAt(txs[..n], i, e) <==> AddedAt(txs, i, e)
    ensures DisplacedAt(txs[..n], i, e) <==> DisplacedAt(txs, i, e)
  {
    assert txs[..n][..i] == txs[..i];
  }

  lemma SurvivesLonger(txs: seq<Transaction>, e: VerificationsEntry)
    requires txs != []
    ensures Survives(txs, e) <==>
            AddedAt(txs, |txs| - 1, e) || (Survives(txs[..|txs| - 1], e) && !DisplacedAt(txs, |txs| - 1, e))
  {
    var n := |txs| - 1;
    forall i | 0 <= i < n
      ensures AddedAt(txs[..n], i, e) <==> AddedAt(txs, i, e)
      ensures DisplacedAt(txs[..n], i, e) <==> DisplacedAt(txs, i, e)
    {
      PrefixHistory(txs, n, i, e);
    }
    if AddedAt(txs, n, e) {
      assert SurvivesFrom(txs, n, e);
    }
    if i: nat :| SurvivesFrom(txs[..n], i, e) && !DisplacedAt(txs, n, e) {
      assert SurvivesFrom(txs, i, e);
    }
    if i: nat :| SurvivesFrom(txs, i, e) && i < n {
      assert SurvivesFrom(txs[..n], i, e);
    }
  }

  /** After any transactions the store holds exactly the entries that were added
      without a clash and not displaced since. */
  lemma {:induction false} StoredIffSurvives(txs: seq<Transaction>, e: VerificationsEntry)
    ensures e in ApplyAll({}, txs) <==> Survives(txs, e)
  {
    if txs == [] {
    } else {
      StoredIffSurvives(txs[..|txs| - 1], e);
      SurvivesLonger(txs, e);
    }
  }

  /** A lookup answers from the history: it finds the surviving entry that has
      the account, if there is one. */
  lemma LookupByHistory(txs: seq<Transaction>, p: Platform, id: string, answer: DbVerification)
    ensures Lookup(ApplyAll({}, txs), p, id) == Some(answer) <==>
            exists e :: Survives(txs, e) && HasAccount(e, p, id) && answer == Answer(e, p)
  {
    var s := ApplyAll({}, txs);
    ReachableIsKeyed({}, txs);
    if Lookup(s, p, id) == Some(answer) {
      var e :| e in s && HasAccount(e, p, id);
      LookupFinds(s, e, p, id);
      StoredIffSurvives(txs, e);
    }
    if e :| Survives(txs, e) && HasAccount(e, p, id) && answer == Answer(e, p) {
      StoredIffSurvives(txs, e);
      LookupFinds(s, e, p, id);
    }
  }
}
