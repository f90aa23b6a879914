/** The three tables of the schema and the SQL statements that the transactions
    issue. A table is a map from its primary key; every other constraint of the
    schema is a predicate. */
module VerificationTables {
  import opened Collections
  import opened Wrappers
  import opened VerifierTypes

  datatype VerificationRow = VerificationRow(
    presentation: Presentation,
    firstName: Option<string>,
    lastName: Option<string>)

  /** `verificationId` may be NULL: the column is UNIQUE but not NOT NULL. */
  datatype PlatformRow = PlatformRow(
    credId: CredentialHolderId,
    verificationId: Option<int>,
    username: string)

  type PlatformTable = map<string, PlatformRow>

  datatype Tables = Tables(
    verifications: map<int, VerificationRow>,
    telegram: PlatformTable,
    discord: PlatformTable)
  {
    function Rows(p: Platform): PlatformTable {
      match p
      case Telegram => telegram
      case Discord => discord
    }

    function WithRows(p: Platform, rows: PlatformTable): Tables {
      match p
      case Telegram => this.(telegram := rows)
      case Discord => this.(discord := rows)
    }
  }

  const EMPTY_TABLES := Tables(map[], map[], map[])

  datatype Constraint = CredIdKey | VerificationIdKey | ForeignKey

  datatype DbError =
    | ConstraintViolation(constraint: Constraint)
    | UnexpectedNull
    | TooManyRows

  // ---------- Constraints of the schema ----------

  ghost predicate NamesChecked(t: Tables) {
    forall v :: v in t.verifications ==> (t.verifications[v].firstName.Some? <==> t.verifications[v].lastName.Some?)
  }

  ghost predicate CredIdUnique(rows: PlatformTable) {
    forall u, w :: u in rows && w in rows && rows[u].credId == rows[w].credId ==> u == w
  }

  ghost predicate Refers(rows: PlatformTable, u: string, v: int) {
    u in rows && rows[u].verificationId == Some(v)
  }

  ghost predicate VerificationIdUnique(rows: PlatformTable) {
    forall u, w, v :: Refers(rows, u, v) && Refers(rows, w, v) ==> u == w
  }

  ghost predicate ReferencesExist(t: Tables, rows: PlatformTable) {
    forall u, v :: Refers(rows, u, v) ==> v in t.verifications
  }

  ghost predicate SchemaHolds(t: Tables) {
    && NamesChecked(t)
    && forall p: Platform ::
         CredIdUnique(t.Rows(p)) && VerificationIdUnique(t.Rows(p)) && ReferencesExist(t, t.Rows(p))
  }

  /** What the schema does not say and the transactions keep: no platform row
      has a NULL reference, and the serial is ahead of every id in use. */
  ghost predicate Valid(t: Tables, nextId: int) {
    && SchemaHolds(t)
    && (forall p: Platform, u :: u in t.Rows(p) ==> t.Rows(p)[u].verificationId.Some?)
    && (forall v :: v in t.verifications ==> v < nextId)
  }

  // ---------- What the tables mean ----------

  function NameOf(row: VerificationRow): Option<FullName> {
    if row.firstName.Some? && row.lastName.Some?
    then Some(FullName(row.firstName.value, row.lastName.value))
    else None
  }

  /** The account that `rows` holds for verification `v`. */
  ghost function SlotAt(rows: PlatformTable, v: int): Option<PlatformEntry> {
    if exists u :: Refers(rows, u, v) then
      var u :| Refers(rows, u, v);
      Some(PlatformEntry(u, rows[u].credId, rows[u].username))
    else None
  }

  ghost function EntryAt(t: Tables, v: int): VerificationsEntry
    requires v in t.verifications
  {
    VerificationsEntry(SlotAt(t.telegram, v), SlotAt(t.discord, v),
                       t.verifications[v].presentation, NameOf(t.verifications[v]))
  }

  /** The tables joined: one entry for each verification row. */
  ghost function View(t: Tables): map<int, VerificationsEntry> {
    map v | v in t.verifications :: EntryAt(t, v)
  }

  lemma SlotFound(rows: PlatformTable, u: string, v: int)
    requires VerificationIdUnique(rows) && Refers(rows, u, v)
    ensures SlotAt(rows, v) == Some(PlatformEntry(u, rows[u].credId, rows[u].username))
  {
  }

  lemma EntrySlot(t: Tables, v: int, p: Platform)
    requires v in t.verifications
    ensures EntryAt(t, v).Slot(p) == SlotAt(t.Rows(p), v)
  {
  }

  /** A slot depends only on the rows that refer to its verification. */
  lemma SlotFrame(rows: PlatformTable, rows': PlatformTable, v: int)
    requires VerificationIdUnique(rows) && VerificationIdUnique(rows')
    requires forall u :: Refers(rows, u, v) <==> Refers(rows', u, v)
    requires forall u :: Refers(rows, u, v) ==> rows[u] == rows'[u]
    ensures SlotAt(rows, v) == SlotAt(rows', v)
  {
    if u :| Refers(rows, u, v) {
      SlotFound(rows, u, v);
      assert Refers(rows', u, v);
      SlotFound(rows', u, v);
    }
  }

  /** Two verifications of valid tables share neither a user id nor a credential
      on any one platform. */
  ghost predicate Keyed(view: map<int, VerificationsEntry>) {
    forall v, w, p: Platform ::
      v in view && w in view && view[v].Slot(p).Some? && view[w].Slot(p).Some? &&
      (view[v].Slot(p).value.id == view[w].Slot(p).value.id ||
       view[v].Slot(p).value.credId == view[w].Slot(p).value.credId)
      ==> v == w
  }

  lemma ViewIsKeyed(t: Tables)
    requires SchemaHolds(t)
    ensures Keyed(View(t))
  {
    var view := View(t);
    forall v, w, p: Platform | v in view && w in view && view[v].Slot(p).Some? && view[w].Slot(p).Some? &&
      (view[v].Slot(p).value.id == view[w].Slot(p).value.id ||
       view[v].Slot(p).value.credId == view[w].Slot(p).value.credId)
      ensures v == w
    {
      EntrySlot(t, v, p);
      EntrySlot(t, w, p);
      var rows := t.Rows(p);
      assert CredIdUnique(rows);
      var u :| Refers(rows, u, v);
      var x :| Refers(rows, x, w);
      SlotFound(rows, u, v);
      SlotFound(rows, x, w);
    }
  }

  // ---------- Statements ----------

  /** SELECT verification_id FROM rows WHERE cred_id = $1, without the NULLs,
      which IN never matches. */
  function VerificationIdsFor(rows: PlatformTable, cred: CredentialHolderId): set<int> {
    set u | u in rows && rows[u].credId == cred && rows[u].verificationId.Some? :: rows[u].verificationId.value
  }

  /** It is the uniqueness of credentials that lets the select find at most one. */
  lemma AtMostOneSelected(rows: PlatformTable, cred: CredentialHolderId)
    requires CredIdUnique(rows)
    ensures |VerificationIdsFor(rows, cred)| <= 1
  {
    var ids := VerificationIdsFor(rows, cred);
    if ids != {} {
      var v := Member(ids);
      assert forall w :: w in ids ==> w == v;
      assert ids == {v};
    }
  }

  /** The uniqueness of references alone does not. */
  lemma UniqueReferencesDoNotSuffice(cred: CredentialHolderId)
    ensures exists rows :: VerificationIdUnique(rows) && |VerificationIdsFor(rows, cred)| == 2
  {
    var rows: PlatformTable := map["a" := PlatformRow(cred, Some(1), "a"), "b" := PlatformRow(cred, Some(2), "b")];
    assert "a" != "b";
    assert VerificationIdUnique(rows);
    assert "a" in rows && "b" in rows && rows["a"].verificationId == Some(1) && rows["b"].verificationId == Some(2);
    assert VerificationIdsFor(rows, cred) == {1, 2};
  }

  function Cascade(rows: PlatformTable, ids: set<int>): PlatformTable {
    map u | u in rows && !(rows[u].verificationId.Some? && rows[u].verificationId.value in ids) :: rows[u]
  }

  /** DELETE FROM verifications WHERE id IN ids, with ON DELETE CASCADE. */
  function DeleteVerifications(t: Tables, ids: set<int>): Tables {
    Tables(t.verifications - ids, Cascade(t.telegram, ids), Cascade(t.discord, ids))
  }

  function InsertVerification(t: Tables, id: int, row: VerificationRow): Tables {
    t.(verifications := t.verifications[id := row])
  }

  datatype InsertOutcome = Inserted(tables: Tables) | NothingDone | Violated(constraint: Constraint)

  /** INSERT ... ON CONFLICT ON CONSTRAINT pkey DO NOTHING: only a primary key
      conflict is absorbed, any other violation is an error. */
  function InsertPlatformRow(t: Tables, p: Platform, id: string, row: PlatformRow): InsertOutcome {
    var rows := t.Rows(p);
    if id in rows then NothingDone
    else if exists u :: u in rows && rows[u].credId == row.credId then Violated(CredIdKey)
    else if row.verificationId.Some? && exists u :: u in rows && rows[u].verificationId == row.verificationId
    then Violated(VerificationIdKey)
    else if row.verificationId.Some? && row.verificationId.value !in t.verifications then Violated(ForeignKey)
    else Inserted(t.WithRows(p, rows[id := row]))
  }

  /** The subselect finds exactly the verifications whose slot holds the credential. */
  lemma SelectedIds(t: Tables, nextId: int, p: Platform, cred: CredentialHolderId, v: int)
    requires Valid(t, nextId)
    ensures v in VerificationIdsFor(t.Rows(p), cred) <==>
            v in View(t) && View(t)[v].Slot(p).Some? && View(t)[v].Slot(p).value.credId == cred
  {
    var rows := t.Rows(p);
    if v in VerificationIdsFor(rows, cred) {
      var u :| u in rows && rows[u].credId == cred && rows[u].verificationId == Some(v);
      assert Refers(rows, u, v);
      SlotFound(rows, u, v);
      EntrySlot(t, v, p);
    }
    if v in View(t) && View(t)[v].Slot(p).Some? {
      EntrySlot(t, v, p);
      var u :| Refers(rows, u, v);
      SlotFound(rows, u, v);
    }
  }

  lemma CascadeSlots(rows: PlatformTable, ids: set<int>, v: int)
    requires VerificationIdUnique(rows)
    ensures VerificationIdUnique(Cascade(rows, ids))
    ensures v !in ids ==> SlotAt(Cascade(rows, ids), v) == SlotAt(rows, v)
  {
    var rows' := Cascade(rows, ids);
    forall u, w, x | Refers(rows', u, x) && Refers(rows', w, x) ensures u == w {
      assert Refers(rows, u, x) && Refers(rows, w, x);
    }
    if v !in ids {
      SlotFrame(rows, rows', v);
    }
  }

  /** Deleting rows with their cascade deletes whole entries and nothing else. */
  lemma DeleteRefines(t: Tables, nextId: int, ids: set<int>)
    requires Valid(t, nextId)
    ensures Valid(DeleteVerifications(t, ids), nextId)
    ensures View(DeleteVerifications(t, ids)) == View(t) - ids
  {
    var t' := DeleteVerifications(t, ids);
    forall p: Platform
      ensures CredIdUnique(t'.Rows(p)) && VerificationIdUnique(t'.Rows(p)) && ReferencesExist(t', t'.Rows(p))
    {
      assert t'.Rows(p) == Cascade(t.Rows(p), ids);
      assert CredIdUnique(t.Rows(p)) && ReferencesExist(t, t.Rows(p));
      CascadeSlots(t.Rows(p), ids, 0);
      forall u, v | Refers(t'.Rows(p), u, v) ensures v in t'.verifications {
        assert Refers(t.Rows(p), u, v);
      }
    }
    forall p: Platform, u | u in t'.Rows(p) ensures t'.Rows(p)[u].verificationId.Some? {
      assert u in t.Rows(p);
    }
    forall v | v in t'.verifications ensures EntryAt(t', v) == EntryAt(t, v) {
      assert VerificationIdUnique(t.Rows(Telegram)) && VerificationIdUnique(t.Rows(Discord));
      CascadeSlots(t.telegram, ids, v);
      CascadeSlots(t.discord, ids, v);
    }
  }

  lemma InsertVerificationRefines(t: Tables, nextId: int, row: VerificationRow)
    requires Valid(t, nextId)
    requires row.firstName.Some? <==> row.lastName.Some?
    ensures Valid(InsertVerification(t, nextId, row), nextId + 1)
    ensures View(InsertVerification(t, nextId, row)) ==
            View(t)[nextId := VerificationsEntry(None, None, row.presentation, NameOf(row))]
  {
    var t' := InsertVerification(t, nextId, row);
    forall p: Platform
      ensures t'.Rows(p) == t.Rows(p) && SlotAt(t'.Rows(p), nextId) == None
      ensures CredIdUnique(t'.Rows(p)) && VerificationIdUnique(t'.Rows(p)) && ReferencesExist(t', t'.Rows(p))
    {
      assert CredIdUnique(t.Rows(p)) && VerificationIdUnique(t.Rows(p)) && ReferencesExist(t, t.Rows(p));
    }
    assert SlotAt(t'.Rows(Telegram), nextId) == SlotAt(t'.Rows(Discord), nextId) == None;
  }

  /** Every row of a platform is the slot of the entry it refers to. */
  lemma RowsInView(t: Tables, nextId: int, p: Platform)
    requires Valid(t, nextId)
    ensures forall u :: u in t.Rows(p) ==>
              var row := t.Rows(p)[u];
              row.verificationId.Some? && row.verificationId.value in View(t) &&
              View(t)[row.verificationId.value].Slot(p) == Some(PlatformEntry(u, row.credId, row.username))
  {
    var rows := t.Rows(p);
    assert VerificationIdUnique(rows) && ReferencesExist(t, rows);
    forall u | u in rows
      ensures rows[u].verificationId.Some? && rows[u].verificationId.value in View(t)
      ensures View(t)[rows[u].verificationId.value].Slot(p) == Some(PlatformEntry(u, rows[u].credId, rows[u].username))
    {
      var w := rows[u].verificationId.value;
      assert Refers(rows, u, w);
      SlotFound(rows, u, w);
      EntrySlot(t, w, p);
    }
  }

  /** A platform row that refers to a verification with an empty slot, under a
      fresh credential, is refused only for its user id; otherwise it fills the slot. */
  lemma InsertPlatformRefines(t: Tables, nextId: int, p: Platform, e: PlatformEntry, v: int)
    requires Valid(t, nextId)
    requires v in View(t) && View(t)[v].Slot(p) == None
    requires forall w :: w in View(t) && View(t)[w].Slot(p).Some? ==> View(t)[w].Slot(p).value.credId != e.credId
    ensures InsertPlatformRow(t, p, e.id, PlatformRow(e.credId, Some(v), e.username)) == NothingDone
            <==> exists w :: w in View(t) && View(t)[w].Slot(p).Some? && View(t)[w].Slot(p).value.id == e.id
    ensures var r := InsertPlatformRow(t, p, e.id, PlatformRow(e.credId, Some(v), e.username));
            r == NothingDone ||
            (r.Inserted? && Valid(r.tables, nextId) && View(r.tables) == View(t)[v := View(t)[v].WithSlot(p, e)])
  {
    var row := PlatformRow(e.credId, Some(v), e.username);
    RowsInView(t, nextId, p);
    TakenIds(t, p, e.id);
    assert v in t.verifications;
    var r := InsertPlatformRow(t, p, e.id, row);
    if r != NothingDone {
      InsertedRowFillsSlot(t, nextId, p, e.id, row, v);
      assert View(r.tables) == View(t)[v := View(t)[v].WithSlot(p, e)];
    }
  }

  /** An entry with a user id comes from the row with that key. */
  lemma TakenIds(t: Tables, p: Platform, id: string)
    requires SchemaHolds(t)
    ensures forall w :: w in View(t) && View(t)[w].Slot(p).Some? && View(t)[w].Slot(p).value.id == id ==> id in t.Rows(p)
  {
    forall w | w in View(t) && View(t)[w].Slot(p).Some? && View(t)[w].Slot(p).value.id == id ensures id in t.Rows(p) {
      EntrySlot(t, w, p);
    }
  }

  lemma InsertedRowFillsSlot(t: Tables, nextId: int, p: Platform, id: string, row: PlatformRow, v: int)
    requires Valid(t, nextId) && row.verificationId == Some(v) && v in t.verifications
    requires InsertPlatformRow(t, p, id, row).Inserted?
    ensures var t' := InsertPlatformRow(t, p, id, row).tables;
            Valid(t', nextId) && t'.verifications == t.verifications &&
            forall w :: w in t.verifications ==>
              EntryAt(t', w) == if w == v then EntryAt(t, v).WithSlot(p, PlatformEntry(id, row.credId, row.username))
                                else EntryAt(t, w)
  {
    var t' := InsertPlatformRow(t, p, id, row).tables;
    var rows, rows' := t.Rows(p), t'.Rows(p);
    assert rows' == rows[id := row] && t'.Rows(Other(p)) == t.Rows(Other(p));
    assert CredIdUnique(rows) && VerificationIdUnique(rows) && ReferencesExist(t, rows);
    forall u, w, x | Refers(rows', u, x) && Refers(rows', w, x) ensures u == w {
      assert u != id ==> Refers(rows, u, x);
      assert w != id ==> Refers(rows, w, x);
    }
    forall u, x | Refers(rows', u, x) ensures x in t'.verifications {
      assert u != id ==> Refers(rows, u, x);
    }
    forall q: Platform
      ensures CredIdUnique(t'.Rows(q)) && VerificationIdUnique(t'.Rows(q)) && ReferencesExist(t', t'.Rows(q))
    {
      if q != p {
        assert t'.Rows(q) == t.Rows(q);
        assert CredIdUnique(t.Rows(q)) && VerificationIdUnique(t.Rows(q)) && ReferencesExist(t, t.Rows(q));
      }
    }
    forall q: Platform, u | u in t'.Rows(q) ensures t'.Rows(q)[u].verificationId.Some? {
      assert u in t.Rows(q) || (q == p && u == id);
    }
    forall w | w in t.verifications
      ensures EntryAt(t', w) == if w == v then EntryAt(t, v).WithSlot(p, PlatformEntry(id, row.credId, row.username))
                                else EntryAt(t, w)
    {
      if w == v {
        assert Refers(rows', id, v);
        SlotFound(rows', id, v);
      } else {
        SlotFrame(rows, rows', w);
      }
    }
  }

  // ---------- The statements of an add, on any tables ----------

  /** The delete statements of the add transaction. */
  function Cleared(t: Tables, ps: seq<Platform>, e: VerificationsEntry): Tables {
    if ps == [] then t
    else
      var p, d := ps[|ps| - 1], Cleared(t, ps[..|ps| - 1], e);
      if e.Slot(p).None? then d else DeleteVerifications(d, VerificationIdsFor(d.Rows(p), e.Slot(p).value.credId))
  }

  function NamesRow(e: VerificationsEntry): VerificationRow {
    if e.fullName.Some?
    then VerificationRow(e.presentation, Some(e.fullName.value.firstName), Some(e.fullName.value.lastName))
    else VerificationRow(e.presentation, None, None)
  }

  function InsertSlot(t: Tables, p: Platform, e: VerificationsEntry, v: int): InsertOutcome {
    match e.Slot(p)
    case None => Inserted(t)
    case Some(x) => InsertPlatformRow(t, p, x.id, PlatformRow(x.credId, Some(v), x.username))
  }

  /** The insert statements, up to the first that does not insert. */
  function InsertAll(t: Tables, e: VerificationsEntry, v: int): InsertOutcome {
    match InsertSlot(InsertVerification(t, v, NamesRow(e)), Telegram, e, v)
    case Inserted(t') => InsertSlot(t', Discord, e, v)
    case other => other
  }

  function AddOutcome(t: Tables, e: VerificationsEntry, v: int): InsertOutcome {
    InsertAll(Cleared(t, SUPPORTED_PLATFORMS, e), e, v)
  }

  lemma DeleteTwice(t: Tables, a: set<int>, b: set<int>)
    ensures DeleteVerifications(DeleteVerifications(t, a), b) == DeleteVerifications(t, a + b)
  {
  }

  lemma FoundAfterCascade(rows: PlatformTable, ids: set<int>, cred: CredentialHolderId)
    ensures VerificationIdsFor(rows, cred) <= ids + VerificationIdsFor(Cascade(rows, ids), cred)
  {
    forall v | v in VerificationIdsFor(rows, cred) && v !in ids
      ensures v in VerificationIdsFor(Cascade(rows, ids), cred)
    {
      var u :| u in rows && rows[u].credId == cred && rows[u].verificationId == Some(v);
      assert u in Cascade(rows, ids);
    }
  }

  /** The deletes remove one set of verifications, among them all that are found
      by one of the credentials. */
  lemma {:induction false} ClearedIds(t: Tables, ps: seq<Platform>, e: VerificationsEntry) returns (ids: set<int>)
    ensures Cleared(t, ps, e) == DeleteVerifications(t, ids)
    ensures forall p :: p in ps && e.Slot(p).Some? ==> VerificationIdsFor(t.Rows(p), e.Slot(p).value.credId) <= ids
  {
    if ps == [] {
      ids := {};
    } else {
      var p := ps[|ps| - 1];
      ids := ClearedIds(t, ps[..|ps| - 1], e);
      assert forall q :: q in ps <==> q in ps[..|ps| - 1] || q == p;
      if e.Slot(p).Some? {
        var found := VerificationIdsFor(Cascade(t.Rows(p), ids), e.Slot(p).value.credId);
        FoundAfterCascade(t.Rows(p), ids, e.Slot(p).value.credId);
        DeleteTwice(t, ids, found);
        ids := ids + found;
      }
    }
  }

  /** A row with the credential of the entry and a NULL reference, which no
      delete finds. */
  ghost predicate NullHolder(t: Tables, p: Platform, e: VerificationsEntry) {
    e.Slot(p).Some? &&
    exists u :: u in t.Rows(p) && t.Rows(p)[u].credId == e.Slot(p).value.credId && t.Rows(p)[u].verificationId == None
  }

  /** The user id of the entry is still in use after the deletes. */
  predicate IdTaken(t: Tables, p: Platform, e: VerificationsEntry) {
    e.Slot(p).Some? && e.Slot(p).value.id in Cleared(t, SUPPORTED_PLATFORMS, e).Rows(p)
  }

  lemma ViolatedIffNullHolder(t: Tables, ids: set<int>, p: Platform, e: VerificationsEntry, v: int, t': Tables)
    requires SchemaHolds(t) && v !in t.verifications && e.Slot(p).Some?
    requires VerificationIdsFor(t.Rows(p), e.Slot(p).value.credId) <= ids
    requires t'.Rows(p) == Cascade(t.Rows(p), ids) && v in t'.verifications
    ensures InsertSlot(t', p, e, v).Violated? <==> e.Slot(p).value.id !in t'.Rows(p) && NullHolder(t, p, e)
  {
    var rows, cred := t.Rows(p), e.Slot(p).value.credId;
    assert CredIdUnique(rows) && ReferencesExist(t, rows);
    forall u | u in rows && rows[u].credId == cred && rows[u].verificationId == None ensures u in t'.Rows(p) {
    }
    assert forall u :: u in rows && rows[u].credId == cred && rows[u].verificationId.Some?
             ==> rows[u].verificationId.value in ids;
    forall u | u in t'.Rows(p) ensures t'.Rows(p)[u].verificationId != Some(v) {
      assert Refers(rows, u, v) ==> v in t.verifications;
    }
  }

  /** The schema alone does not rule out a constraint error: on any tables it
      admits the add transaction fails with one exactly when its Telegram id is
      free and either its Telegram credential is held by a row with a NULL
      reference, or its Discord id is free and its Discord credential is so held. */
  lemma AddViolatedIffNullHolder(t: Tables, e: VerificationsEntry, v: int)
    requires SchemaHolds(t) && v !in t.verifications
    ensures AddOutcome(t, e, v).Violated? <==>
            !IdTaken(t, Telegram, e) &&
            (NullHolder(t, Telegram, e) || (NullHolder(t, Discord, e) && !IdTaken(t, Discord, e)))
    ensures AddOutcome(t, e, v) == NothingDone <==>
            IdTaken(t, Telegram, e) || (!NullHolder(t, Telegram, e) && IdTaken(t, Discord, e))
  {
    assert SUPPORTED_PLATFORMS[0] == Telegram && SUPPORTED_PLATFORMS[1] == Discord;
    var ids := ClearedIds(t, SUPPORTED_PLATFORMS, e);
    var t0 := InsertVerification(DeleteVerifications(t, ids), v, NamesRow(e));
    if e.Slot(Telegram).Some? {
      ViolatedIffNullHolder(t, ids, Telegram, e, v, t0);
    }
    var first := InsertSlot(t0, Telegram, e, v);
    if e.Slot(Discord).Some? && first.Inserted? {
      assert first.tables.Rows(Discord) == t0.Rows(Discord);
      ViolatedIffNullHolder(t, ids, Discord, e, v, first.tables);
    }
  }
}
