/** The database transactions, statement by statement, proved to be the
    operations of the store. */
module Database {
  import opened Collections
  import opened Wrappers
  import opened VerifierTypes
  import opened VerificationTables
  import opened S = VerificationStore

  /** The entries of a view that do not share a credential with `e` on any of
      the platforms `ps`. */
  ghost function Unshared(view: map<int, VerificationsEntry>, ps: seq<Platform>, e: VerificationsEntry)
    : map<int, VerificationsEntry>
  {
    map v | v in view && (forall p :: p in ps ==> !SharesOn(p, view[v], e)) :: view[v]
  }

  lemma UnsharedStep(view: map<int, VerificationsEntry>, ps: seq<Platform>, p: Platform, e: VerificationsEntry)
    ensures Unshared(view, ps + [p], e) == Unshared(Unshared(view, ps, e), [p], e)
  {
    assert forall q :: q in ps + [p] <==> q in ps || q in [p];
  }

  /** One delete statement of the add transaction. */
  lemma SharersFound(t: Tables, nextId: int, p: Platform, e: VerificationsEntry, ids: set<int>)
    requires Valid(t, nextId) && e.Slot(p).Some? && ids == VerificationIdsFor(t.Rows(p), e.Slot(p).value.credId)
    ensures View(t) - ids == Unshared(View(t), [p], e)
  {
    forall v ensures v in ids <==> v in View(t) && SharesOn(p, View(t)[v], e) {
      SelectedIds(t, nextId, p, e.Slot(p).value.credId, v);
    }
  }

  lemma UnsharedRecords(view: map<int, VerificationsEntry>, e: VerificationsEntry)
    ensures Unshared(view, SUPPORTED_PLATFORMS, e).Values == Kept(view.Values, e)
  {
    var kept := Unshared(view, SUPPORTED_PLATFORMS, e);
    assert Telegram in SUPPORTED_PLATFORMS && Discord in SUPPORTED_PLATFORMS by {
      assert SUPPORTED_PLATFORMS[0] == Telegram && SUPPORTED_PLATFORMS[1] == Discord;
    }
    forall r | r in kept.Values ensures r in Kept(view.Values, e) {
      var v := KeyOf(kept, r);
      assert v in view;
    }
    forall r | r in Kept(view.Values, e) ensures r in kept.Values {
      var v := KeyOf(view, r);
      assert v in kept;
    }
  }

  lemma RecordsAreKeyed(t: Tables)
    requires SchemaHolds(t)
    ensures S.Keyed(View(t).Values)
  {
    ViewIsKeyed(t);
  }

  /** A row with user id `id` is an entry with that account. */
  lemma RowIsAccount(t: Tables, nextId: int, p: Platform, id: string)
    requires Valid(t, nextId)
    ensures id in t.Rows(p) <==> Holds(View(t).Values, p, id)
    ensures id in t.Rows(p) ==>
            var row := t.Rows(p)[id];
            row.verificationId.Some? && row.verificationId.value in View(t) &&
            View(t)[row.verificationId.value].Slot(p) == Some(PlatformEntry(id, row.credId, row.username))
  {
    RowsInView(t, nextId, p);
    TakenIds(t, p, id);
    if id in t.Rows(p) {
      var entry := View(t)[t.Rows(p)[id].verificationId.value];
      assert entry in View(t).Values && HasAccount(entry, p, id);
    }
    if Holds(View(t).Values, p, id) {
      var r :| r in View(t).Values && HasAccount(r, p, id);
      var v := KeyOf(View(t), r);
    }
  }

  /** An answer has the accounts of all rows that refer to its verification. */
  lemma AnswerIsRows(t: Tables, nextId: int, p: Platform, v: int)
    requires Valid(t, nextId) && v in t.verifications && View(t)[v].Slot(p).Some?
    ensures var accounts := Answer(View(t)[v], p).accounts;
            && accounts != []
            && (forall a :: a in accounts <==>
                  a.id in t.Rows(a.platform) && t.Rows(a.platform)[a.id].verificationId == Some(v) &&
                  t.Rows(a.platform)[a.id].username == a.username)
            && (forall i, j :: 0 <= i < j < |accounts| ==> accounts[i] != accounts[j])
  {
    AnswerAccounts(View(t)[v], p);
    forall a
      ensures a in Answer(View(t)[v], p).accounts <==>
              a.id in t.Rows(a.platform) && t.Rows(a.platform)[a.id].verificationId == Some(v) &&
              t.Rows(a.platform)[a.id].username == a.username
    {
      EntrySlot(t, v, a.platform);
      assert VerificationIdUnique(t.Rows(a.platform));
      if Refers(t.Rows(a.platform), a.id, v) {
        SlotFound(t.Rows(a.platform), a.id, v);
      }
    }
  }

  /** The answer to a lookup, read off the tables: nothing for an unknown user
      id, and otherwise every row that refers to the same verification, each
      once, the one asked for first, with the columns of that verification. */
  ghost predicate AnswersWith(t: Tables, p: Platform, id: string, found: Option<DbVerification>) {
    && (found.None? <==> id !in t.Rows(p))
    && (found.Some? ==>
          var row, accounts := t.Rows(p)[id], found.value.accounts;
          && row.verificationId.Some? && row.verificationId.value in t.verifications
          && accounts != [] && accounts[0] == DbAccount(p, id, row.username)
          && (forall a :: a in accounts <==>
                a.id in t.Rows(a.platform) && t.Rows(a.platform)[a.id].verificationId == row.verificationId &&
                t.Rows(a.platform)[a.id].username == a.username)
          && (forall i, j :: 0 <= i < j < |accounts| ==> accounts[i] != accounts[j])
          && (var columns := t.verifications[row.verificationId.value];
              && found.value.presentation == columns.presentation
              && (found.value.fullName.None? <==> columns.firstName.None?)
              && (found.value.fullName.Some? ==>
                    columns.firstName == Some(found.value.fullName.value.firstName) &&
                    columns.lastName == Some(found.value.fullName.value.lastName))))
  }

  lemma LookupAnswers(t: Tables, nextId: int, p: Platform, id: string)
    requires Valid(t, nextId)
    ensures AnswersWith(t, p, id, Lookup(View(t).Values, p, id))
  {
    RowIsAccount(t, nextId, p, id);
    RecordsAreKeyed(t);
    if id in t.Rows(p) {
      var v := t.Rows(p)[id].verificationId.value;
      assert View(t)[v] in View(t).Values;
      LookupFinds(View(t).Values, View(t)[v], p, id);
      AnswerIsRows(t, nextId, p, v);
      AnswerAccounts(View(t)[v], p);
    }
  }

  class Database {
    var tables: Tables
    /** The sequence behind the SERIAL8 column; a rollback does not rewind it. */
    var nextId: int

    constructor ()
      ensures Valid() && Records() == {} && tables == EMPTY_TABLES
    {
      tables, nextId := EMPTY_TABLES, 1;
      new;
      assert Records() == {};
    }

    ghost predicate Valid()
      reads this
    {
      VerificationTables.Valid(tables, nextId)
    }

    ghost function Records(): Store
      reads this
    {
      View(tables).Values
    }

    /** Insert one platform row; a user id already in the table is returned. */
    method AddPlatformEntry(p: Platform, e: PlatformEntry, verificationId: int)
      returns (r: Result<Option<string>, DbError>)
      modifies this`tables
      ensures var o := InsertPlatformRow(old(tables), p, e.id, PlatformRow(e.credId, Some(verificationId), e.username));
              && (o.Inserted? ==> r == Success(None) && tables == o.tables)
              && (o == NothingDone ==> r == Success(Some(e.id)) && tables == old(tables))
              && (o.Violated? ==> r == Failure(ConstraintViolation(o.constraint)) && tables == old(tables))
    {
      var outcome := InsertPlatformRow(tables, p, e.id, PlatformRow(e.credId, Some(verificationId), e.username));
      match outcome {
        case Inserted(t) =>
          tables := t;
          r := Success(None);
        case NothingDone =>
          r := Success(Some(e.id));
        case Violated(c) =>
          r := Failure(ConstraintViolation(c));
      }
    }

    /** Delete, for each platform, the verification that holds the credential
        the entry names there. */
    method DeleteOverlapping(entry: VerificationsEntry)
      requires Valid()
      modifies this`tables
      ensures Valid() && View(tables) == Unshared(View(old(tables)), SUPPORTED_PLATFORMS, entry)
      ensures tables == Cleared(old(tables), SUPPORTED_PLATFORMS, entry)
    {
      for i := 0 to |SUPPORTED_PLATFORMS|
        invariant Valid()
        invariant View(tables) == Unshared(View(old(tables)), SUPPORTED_PLATFORMS[..i], entry)
        invariant tables == Cleared(old(tables), SUPPORTED_PLATFORMS[..i], entry)
      {
        var p := SUPPORTED_PLATFORMS[i];
        UnsharedStep(View(old(tables)), SUPPORTED_PLATFORMS[..i], p, entry);
        assert SUPPORTED_PLATFORMS[..i + 1] == SUPPORTED_PLATFORMS[..i] + [p];
        if entry.Slot(p).Some? {
          var ids := VerificationIdsFor(tables.Rows(p), entry.Slot(p).value.credId);
          SharersFound(tables, nextId, p, entry, ids);
          DeleteRefines(tables, nextId, ids);
          tables := DeleteVerifications(tables, ids);
        }
      }
      assert SUPPORTED_PLATFORMS[..|SUPPORTED_PLATFORMS|] == SUPPORTED_PLATFORMS;
    }

    /** One platform insert of the add transaction: `kept` are the entries that
        were left, `partial` is the new entry `v` so far. */
    method FillSlot(p: Platform, e: PlatformEntry, v: int,
                    ghost kept: map<int, VerificationsEntry>, ghost partial: VerificationsEntry)
      returns (r: Result<Option<string>, DbError>)
      requires Valid() && View(tables) == kept[v := partial]
      requires v !in kept && partial.Slot(p) == None
      requires forall w :: w in kept ==> !HasCredential(kept[w], p, e.credId)
      modifies this`tables
      ensures Valid()
      ensures Holds(kept.Values, p, e.id) ==> r == Success(Some(e.id))
      ensures !Holds(kept.Values, p, e.id) ==> r == Success(None) && View(tables) == kept[v := partial.WithSlot(p, e)]
      ensures InsertPlatformRow(old(tables), p, e.id, PlatformRow(e.credId, Some(v), e.username)) ==
              if r == Success(None) then Inserted(tables) else NothingDone
    {
      InsertPlatformRefines(tables, nextId, p, e, v);
      HoldsWithout(View(tables), kept, v, partial, p, e.id);
      r := AddPlatformEntry(p, e, v);
    }

    /** Insert the verification row, without any account yet. */
    method InsertNames(entry: VerificationsEntry) returns (id: int)
      requires Valid()
      modifies this
      ensures Valid() && id == old(nextId) && nextId == id + 1 && id !in View(old(tables))
      ensures tables == InsertVerification(old(tables), id, NamesRow(entry))
      ensures View(tables) == View(old(tables))[id := entry.(telegram := None, discord := None)]
    {
      InsertVerificationRefines(tables, nextId, NamesRow(entry));
      id := nextId;
      tables, nextId := InsertVerification(tables, id, NamesRow(entry)), id + 1;
    }

    /** The inserts of the add transaction; when it reports a clash the tables
        are to be rolled back. */
    method InsertEntry(entry: VerificationsEntry) returns (r: Result<Option<string>, DbError>)
      requires Valid()
      requires forall v, p: Platform :: v in View(tables) && entry.Slot(p).Some? ==>
                 !HasCredential(View(tables)[v], p, entry.Slot(p).value.credId)
      modifies this
      ensures Valid() && nextId == old(nextId) + 1
      ensures r == Success(Clash(View(old(tables)).Values, entry))
      ensures r.value.None? ==> View(tables) == View(old(tables))[old(nextId) := entry]
      ensures InsertAll(old(tables), entry, old(nextId)) == if r.value.None? then Inserted(tables) else NothingDone
    {
      ghost var kept := View(tables);
      var id := InsertNames(entry);
      ghost var partial := entry.(telegram := None, discord := None);
      if entry.telegram.Some? {
        assert entry.Slot(Telegram).Some?;
        r := FillSlot(Telegram, entry.telegram.value, id, kept, partial);
        if r.Failure? || r.value.Some? {
          return;
        }
        partial := partial.WithSlot(Telegram, entry.telegram.value);
      }
      if entry.discord.Some? {
        assert entry.Slot(Discord).Some?;
        r := FillSlot(Discord, entry.discord.value, id, kept, partial);
        if r.Failure? || r.value.Some? {
          return;
        }
        partial := partial.WithSlot(Discord, entry.discord.value);
      }
      r := Success(None);
    }

    /** Add a verification, or report the user id that clashes and change nothing. */
    method AddVerification(entry: VerificationsEntry) returns (r: Result<Option<string>, DbError>)
      requires Valid()
      modifies this
      ensures Valid() && nextId == old(nextId) + 1
      ensures r == Success(Clash(Kept(old(Records()), entry), entry))
      ensures forall id :: r == Success(Some(id)) <==>
                (ForeignHolder(old(Records()), entry, Telegram) && id == entry.telegram.value.id) ||
                (!ForeignHolder(old(Records()), entry, Telegram) &&
                 ForeignHolder(old(Records()), entry, Discord) && id == entry.discord.value.id)
      ensures Records() == Add(old(Records()), entry)
      ensures r.value.Some? ==> tables == old(tables)
      ensures AddOutcome(old(tables), entry, old(nextId)) == if r.value.None? then Inserted(tables) else NothingDone
      ensures r.value.None? ==>
              View(tables) == Unshared(View(old(tables)), SUPPORTED_PLATFORMS, entry)[old(nextId) := entry]
    {
      var snapshot := tables;
      forall id { ClashIsFirstForeign(Records(), entry, id); }
      ghost var kept := Unshared(View(tables), SUPPORTED_PLATFORMS, entry);
      UnsharedRecords(View(tables), entry);
      KeptLacksCredentials(View(tables), entry);
      InsertedRecords(kept, nextId, entry);
      DeleteOverlapping(entry);
      assert View(tables) == kept;
      r := InsertEntry(entry);
      if r.Failure? || r.value.Some? {
        tables := snapshot;
      }
    }

    /** Remove the verification that holds the credential, if there is one. */
    method RemoveVerification(cred: CredentialHolderId, p: Platform) returns (r: Result<bool, DbError>)
      requires Valid()
      modifies this`tables
      ensures Valid()
      ensures r == Success(Removes(old(Records()), cred, p))
      ensures r.value <==> exists u :: u in old(tables).Rows(p) && old(tables).Rows(p)[u].credId == cred
      ensures forall v :: v in tables.verifications <==>
                v in old(tables).verifications &&
                forall u :: u in old(tables).Rows(p) && old(tables).Rows(p)[u].credId == cred
                            ==> old(tables).Rows(p)[u].verificationId != Some(v)
      ensures forall v :: v in tables.verifications ==> tables.verifications[v] == old(tables).verifications[v]
      ensures forall q: Platform :: CascadeKeeps(old(tables).Rows(q), tables.Rows(q), tables.verifications.Keys)
      ensures Records() == Remove(old(Records()), cred, p)
      ensures View(tables) == WithoutCredential(View(old(tables)), cred, p)
    {
      var ids := VerificationIdsFor(tables.Rows(p), cred);
      HoldersOf(tables, nextId, ids, p, cred);
      var deleted := ids * tables.verifications.Keys;
      assert deleted == ids;
      if |deleted| > 1 {
        return Failure(TooManyRows);
      }
      DeleteRefines(tables, nextId, ids);
      DeletedRows(tables, nextId, p, cred);
      tables := DeleteVerifications(tables, ids);
      r := Success(deleted != {});
    }

    /** The account on `q` that refers to verification `v`. */
    method AccountFor(q: Platform, v: int) returns (r: Result<Option<DbAccount>, DbError>)
      requires Valid() && v in tables.verifications
      ensures r.Success?
      ensures (if r.value.Some? then [r.value.value] else []) == AccountOn(View(tables)[v], q)
    {
      var hits := set u | u in tables.Rows(q) && tables.Rows(q)[u].verificationId == Some(v);
      ReferringRows(tables, nextId, q, v, hits);
      if |hits| > 1 {
        return Failure(TooManyRows);
      }
      if hits == {} {
        return Success(None);
      }
      var u :| u in hits;
      r := Success(Some(DbAccount(q, u, tables.Rows(q)[u].username)));
    }

    /** The verification of an account, with all accounts that belong to it. */
    method GetVerification(id: string, p: Platform) returns (r: Result<Option<DbVerification>, DbError>)
      requires Valid()
      ensures r == Success(Lookup(Records(), p, id))
      ensures AnswersWith(tables, p, id, r.value)
    {
      LookupAnswers(tables, nextId, p, id);
      RowIsAccount(tables, nextId, p, id);
      RecordsAreKeyed(tables);
      if id !in tables.Rows(p) {
        return Success(None);
      }
      var platformRow := tables.Rows(p)[id];
      if platformRow.verificationId.None? {
        return Failure(UnexpectedNull);
      }
      var v := platformRow.verificationId.value;
      if v !in tables.verifications {
        return Success(None);
      }
      ghost var entry := View(tables)[v];
      LookupFinds(Records(), entry, p, id);
      var nameRow := tables.verifications[v];
      var fullName := None;
      if nameRow.firstName.Some? {
        if nameRow.lastName.None? {
          return Failure(UnexpectedNull);
        }
        fullName := Some(FullName(nameRow.firstName.value, nameRow.lastName.value));
      }
      var accounts := [DbAccount(p, id, platformRow.username)];
      for i := 0 to |SUPPORTED_PLATFORMS|
        invariant accounts == AccountOn(entry, p) +
                    if Other(p) in SUPPORTED_PLATFORMS[..i] then AccountOn(entry, Other(p)) else []
      {
        var q := SUPPORTED_PLATFORMS[i];
        assert SUPPORTED_PLATFORMS[..i + 1] == SUPPORTED_PLATFORMS[..i] + [q];
        if q != p {
          var account := AccountFor(q, v);
          if account.Failure? {
            return Failure(TooManyRows);
          }
          if account.value.None? {
            continue;
          }
          accounts := accounts + [account.value.value];
        }
      }
      assert SUPPORTED_PLATFORMS[..|SUPPORTED_PLATFORMS|] == SUPPORTED_PLATFORMS;
      assert Other(p) in SUPPORTED_PLATFORMS by {
        assert SUPPORTED_PLATFORMS[0] == Telegram && SUPPORTED_PLATFORMS[1] == Discord;
      }
      r := Success(Some(DbVerification(accounts, fullName, nameRow.presentation)));
    }

    /** One transaction, whichever it is. */
    method Transact(tx: Transaction) returns (reply: Reply)
      requires Valid()
      modifies this
      ensures Valid() && reply == ReplyTo(old(Records()), tx) && Records() == Apply(old(Records()), tx)
    {
      match tx {
        case AddVerification(e) =>
          var added := AddVerification(e);
          reply := Added(added.value);
        case RemoveVerification(c, p) =>
          var removed := RemoveVerification(c, p);
          reply := Removed(removed.value);
        case GetVerification(id, p) =>
          var found := GetVerification(id, p);
          reply := Found(found.value);
      }
    }

    /** Any sequence of transactions: each succeeds, with the reply of the store. */
    method Replay(txs: seq<Transaction>) returns (replies: seq<Reply>)
      requires Valid()
      modifies this
      ensures Valid()
      ensures replies == Replies(old(Records()), txs)
      ensures |replies| == |txs|
      ensures forall i :: 0 <= i < |txs| ==> RepliesTo(ApplyAll(old(Records()), txs[..i]), txs[i], replies[i])
      ensures Records() == ApplyAll(old(Records()), txs)
    {
      replies := [];
      RepliesInOrder(Records(), txs);
      for i := 0 to |txs|
        invariant Valid()
        invariant replies == Replies(old(Records()), txs[..i])
        invariant Records() == ApplyAll(old(Records()), txs[..i])
      {
        assert txs[..i + 1][..i] == txs[..i];
        var reply := Transact(txs[i]);
        replies := replies + [reply];
      }
      assert txs[..|txs|] == txs;
    }
  }

  lemma InsertedRecords(kept: map<int, VerificationsEntry>, id: int, e: VerificationsEntry)
    requires id !in kept
    ensures kept[id := e].Values == kept.Values + {e}
  {
    var grown := kept[id := e];
    assert grown[id] == e;
    forall r | r in kept.Values ensures r in grown.Values {
      var v := KeyOf(kept, r);
      assert grown[v] == r;
    }
  }

  lemma HoldsWithout(view: map<int, VerificationsEntry>, kept: map<int, VerificationsEntry>, v: int,
                     e: VerificationsEntry, p: Platform, id: string)
    requires v !in kept && e.Slot(p) == None && view == kept[v := e]
    ensures Holds(kept.Values, p, id) <==>
            exists w :: w in view && view[w].Slot(p).Some? && view[w].Slot(p).value.id == id
  {
    if Holds(kept.Values, p, id) {
      var r :| r in kept.Values && HasAccount(r, p, id);
      var w := KeyOf(kept, r);
      assert view[w] == r;
    }
    forall w | w in view && view[w].Slot(p).Some? && view[w].Slot(p).value.id == id
      ensures Holds(kept.Values, p, id)
    {
      assert kept[w] in kept.Values;
      assert HasAccount(kept[w], p, id);
    }
  }

  lemma KeptLacksCredentials(view: map<int, VerificationsEntry>, e: VerificationsEntry)
    ensures forall v, p: Platform :: v in Unshared(view, SUPPORTED_PLATFORMS, e) && e.Slot(p).Some?
              ==> !HasCredential(view[v], p, e.Slot(p).value.credId)
  {
    assert SUPPORTED_PLATFORMS[0] == Telegram && SUPPORTED_PLATFORMS[1] == Discord;
    forall v, p: Platform | v in Unshared(view, SUPPORTED_PLATFORMS, e) && e.Slot(p).Some?
      ensures !HasCredential(view[v], p, e.Slot(p).value.credId)
    {
      assert p in SUPPORTED_PLATFORMS;
      assert !SharesOn(p, view[v], e);
    }
  }

  ghost function WithoutCredential(view: map<int, VerificationsEntry>, cred: CredentialHolderId, p: Platform)
    : map<int, VerificationsEntry>
  {
    map v | v in view && !HasCredential(view[v], p, cred) :: view[v]
  }

  /** What a removal deletes: the holder of the credential, at most one. */
  lemma HoldersOf(t: Tables, nextId: int, ids: set<int>, p: Platform, cred: CredentialHolderId)
    requires Valid(t, nextId) && ids == VerificationIdsFor(t.Rows(p), cred)
    ensures ids <= t.verifications.Keys && |ids| <= 1
    ensures ids != {} <==> Removes(View(t).Values, cred, p)
    ensures View(t) - ids == WithoutCredential(View(t), cred, p)
    ensures (View(t) - ids).Values == Remove(View(t).Values, cred, p)
  {
    var view := View(t);
    forall v ensures v in ids <==> v in view && HasCredential(view[v], p, cred) {
      SelectedIds(t, nextId, p, cred, v);
    }
    assert CredIdUnique(t.Rows(p));
    AtMostOneSelected(t.Rows(p), cred);
    ViewIsKeyed(t);
    if ids != {} {
      var v := Member(ids);
      assert view[v] in view.Values;
    }
    if r :| r in view.Values && HasCredential(r, p, cred) {
      var v := KeyOf(view, r);
      assert v in ids;
    }
    forall r | r in Remove(view.Values, cred, p) ensures r in (view - ids).Values {
      var v := KeyOf(view, r);
      assert (view - ids)[v] == r;
    }
  }

  /** The rows that stay are those that refer to a verification that stays. */
  ghost predicate CascadeKeeps(before: PlatformTable, after: PlatformTable, staying: set<int>) {
    && (forall u :: u in after <==>
          u in before && before[u].verificationId.Some? && before[u].verificationId.value in staying)
    && (forall u :: u in after ==> after[u] == before[u])
  }

  /** What a removal leaves of the tables. */
  lemma DeletedRows(t: Tables, nextId: int, p: Platform, cred: CredentialHolderId)
    requires Valid(t, nextId)
    ensures var ids := VerificationIdsFor(t.Rows(p), cred);
            var t' := DeleteVerifications(t, ids);
            && (ids != {} <==> exists u :: u in t.Rows(p) && t.Rows(p)[u].credId == cred)
            && (forall v :: v in t'.verifications <==>
                  v in t.verifications &&
                  forall u :: u in t.Rows(p) && t.Rows(p)[u].credId == cred ==> t.Rows(p)[u].verificationId != Some(v))
            && (forall q: Platform :: CascadeKeeps(t.Rows(q), t'.Rows(q), t'.verifications.Keys))
  {
    var ids := VerificationIdsFor(t.Rows(p), cred);
    var t' := DeleteVerifications(t, ids);
    if u :| u in t.Rows(p) && t.Rows(p)[u].credId == cred {
      assert t.Rows(p)[u].verificationId.value in ids;
    }
    forall q: Platform ensures CascadeKeeps(t.Rows(q), t'.Rows(q), t'.verifications.Keys) {
      assert t'.Rows(q) == Cascade(t.Rows(q), ids);
      assert ReferencesExist(t, t.Rows(q));
      forall u | u in t.Rows(q) ensures t.Rows(q)[u].verificationId.value in t.verifications {
        assert Refers(t.Rows(q), u, t.Rows(q)[u].verificationId.value);
      }
    }
  }

  /** The rows of a platform that refer to `v` are the slot of entry `v`. */
  lemma ReferringRows(t: Tables, nextId: int, q: Platform, v: int, hits: set<string>)
    requires Valid(t, nextId) && v in t.verifications
    requires forall u :: u in hits <==> Refers(t.Rows(q), u, v)
    ensures |hits| <= 1
    ensures hits == {} <==> View(t)[v].Slot(q) == None
    ensures forall u :: u in hits ==>
              View(t)[v].Slot(q) == Some(PlatformEntry(u, t.Rows(q)[u].credId, t.Rows(q)[u].username))
  {
    EntrySlot(t, v, q);
    assert VerificationIdUnique(t.Rows(q));
    if u :| u in hits {
      assert forall w :: w in hits ==> w == u;
      assert hits == {u};
      SlotFound(t.Rows(q), u, v);
    }
  }
}
