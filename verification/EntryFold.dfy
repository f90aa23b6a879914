/** How a presentation is folded into the entry that gets stored. */
module EntryFold {
  import opened Wrappers
  import opened VerifierTypes
  import opened VerificationTables

  /** Attribute tags of the identity credential. */
  const FIRST_NAME: byte := 0
  const LAST_NAME: byte := 1

  datatype Registries = Registries(telegram: ContractAddress, discord: ContractAddress) {
    function Of(p: Platform): ContractAddress {
      match p
      case Telegram => telegram
      case Discord => discord
    }
  }

  datatype RequestError =
    | NotVerified
    | NotEnoughStatements(n: nat)
    | NotSingleStatement(count: nat)
    | InvalidStatement
    | InvalidIssuer
    | DuplicateUserIds(id: string)
    | Database(error: DbError)

  function PlatformFor(reg: Registries, contract: ContractAddress): Result<Platform, RequestError> {
    if contract == reg.telegram then Success(Telegram)
    else if contract == reg.discord then Success(Discord)
    else Failure(InvalidIssuer)
  }

  // ---------- Names ----------

  type NameProof = (AtomicStatement<byte>, AtomicProof)

  predicate Reveals(p: NameProof, tag: byte) {
    p.0 == RevealAttributeStatement(tag) && p.1.RevealAttributeProof? && p.1.attribute.StringAttribute?
  }

  predicate IsNameProof(p: NameProof) {
    Reveals(p, FIRST_NAME) || Reveals(p, LAST_NAME)
  }

  /** The value revealed for `tag` last. */
  function Latest(proofs: seq<NameProof>, tag: byte): Option<string> {
    if proofs == [] then None
    else
      var p := proofs[|proofs| - 1];
      if Reveals(p, tag) then Some(p.1.attribute.text) else Latest(proofs[..|proofs| - 1], tag)
  }

  lemma {:induction false} LatestIsLast(proofs: seq<NameProof>, tag: byte, i: nat)
    requires i < |proofs| && Reveals(proofs[i], tag)
    requires forall j :: i < j < |proofs| ==> !Reveals(proofs[j], tag)
    ensures Latest(proofs, tag) == Some(proofs[i].1.attribute.text)
  {
    if i == |proofs| - 1 {
    } else {
      LatestIsLast(proofs[..|proofs| - 1], tag, i);
    }
  }

  /** A tag has a value exactly if some proof reveals it. */
  lemma {:induction false} LatestIffRevealed(proofs: seq<NameProof>, tag: byte)
    ensures Latest(proofs, tag).Some? <==> exists p :: p in proofs && Reveals(p, tag)
  {
    if proofs == [] {
    } else {
      LatestIffRevealed(proofs[..|proofs| - 1], tag);
      assert forall p :: p in proofs <==> p in proofs[..|proofs| - 1] || p == proofs[|proofs| - 1];
    }
  }

  /** Lengths are 64-bit words, and no vector has more elements than fit into a
      signed one. */
  const USIZE_MAX: nat := 0xFFFF_FFFF_FFFF_FFFF
  const ISIZE_MAX: nat := 0x7FFF_FFFF_FFFF_FFFF

  /** The complement of all bits of a length. */
  function Complement(n: nat): int {
    USIZE_MAX - n
  }

  /** The names of an account credential. The guard on their number compares
      the complement of the length. */
  function ReadNames(proofs: seq<NameProof>): Result<FullName, RequestError> {
    if Complement(|proofs|) == 2 then Failure(InvalidStatement)
    else if (forall p :: p in proofs ==> IsNameProof(p)) &&
            Latest(proofs, FIRST_NAME).Some? && Latest(proofs, LAST_NAME).Some?
    then Success(FullName(Latest(proofs, FIRST_NAME).value, Latest(proofs, LAST_NAME).value))
    else Failure(InvalidStatement)
  }

  /** The same with the guard that the comment beside it asks for. */
  function ReadTwoNames(proofs: seq<NameProof>): Result<FullName, RequestError> {
    if |proofs| != 2 then Failure(InvalidStatement) else ReadNames(proofs)
  }

  /** More than two proofs, all of them of names, with both names among them. */
  predicate RepeatsNames(proofs: seq<NameProof>) {
    && |proofs| > 2
    && (forall p :: p in proofs ==> IsNameProof(p))
    && (exists p :: p in proofs && Reveals(p, FIRST_NAME))
    && (exists p :: p in proofs && Reveals(p, LAST_NAME))
  }

  /** The guard fires for no vector. What is accepted beyond a first and a last
      name are exactly the lists that repeat a name, and on no others does the
      code differ from the check of two names that was meant. */
  lemma NameCountUnchecked(proofs: seq<NameProof>)
    requires |proofs| <= ISIZE_MAX
    ensures Complement(|proofs|) != 2
    ensures ReadNames(proofs).Success? && |proofs| != 2 <==> RepeatsNames(proofs)
    ensures ReadNames(proofs) == ReadTwoNames(proofs) <==> !RepeatsNames(proofs)
  {
    LatestIffRevealed(proofs, FIRST_NAME);
    LatestIffRevealed(proofs, LAST_NAME);
    assert !(exists p :: p in proofs && Reveals(p, FIRST_NAME) && Reveals(p, LAST_NAME));
  }

  /** One list of that kind: the later of two first names counts. */
  lemma RepeatedNamesAreAccepted()
    ensures exists proofs: seq<NameProof> ::
              |proofs| == 3 && RepeatsNames(proofs) && ReadNames(proofs) == Success(FullName("B", "C"))
              && Reveals(proofs[0], FIRST_NAME) && proofs[0].1.attribute.text == "A"
  {
    var a := (RevealAttributeStatement(FIRST_NAME), RevealAttributeProof(StringAttribute("A")));
    var b := (RevealAttributeStatement(FIRST_NAME), RevealAttributeProof(StringAttribute("B")));
    var c := (RevealAttributeStatement(LAST_NAME), RevealAttributeProof(StringAttribute("C")));
    var proofs: seq<NameProof> := [a, b, c];
    assert a in proofs && c in proofs;
    LatestIsLast(proofs, FIRST_NAME, 1);
    LatestIsLast(proofs, LAST_NAME, 2);
    assert ReadNames(proofs) == Success(FullName("B", "C"));
  }

  // ---------- One credential ----------

  datatype Kind = On(p: Platform) | Name

  datatype Slot = PlatformSlot(platform: Platform, entry: PlatformEntry) | NameSlot(name: FullName) {
    function Kind(): Kind {
      match this
      case PlatformSlot(p, _) => On(p)
      case NameSlot(_) => Name
    }
  }

  /** What one credential of the presentation contributes, on its own. */
  function Classify(reg: Registries, proof: CredentialProof): Result<Slot, RequestError> {
    match proof
    case Web3Id(contract, holder, proofs) =>
      if |proofs| == 2 &&
         proofs[0].1.RevealAttributeProof? && proofs[0].1.attribute.StringAttribute? &&
         proofs[1].1.RevealAttributeProof? && proofs[1].1.attribute.StringAttribute?
      then
        match PlatformFor(reg, contract)
        case Success(p) =>
          Success(PlatformSlot(p, PlatformEntry(proofs[0].1.attribute.text, holder, proofs[1].1.attribute.text)))
        case Failure(e) => Failure(e)
      else Failure(InvalidStatement)
    case Account(proofs) =>
      match ReadNames(proofs)
      case Success(name) => Success(NameSlot(name))
      case Failure(e) => Failure(e)
  }

  // ---------- The same, read off the credential ----------

  /** Exactly two proofs, each of which reveals a text. */
  predicate TwoTexts<Tag>(proofs: seq<(AtomicStatement<Tag>, AtomicProof)>) {
    && |proofs| == 2
    && proofs[0].1.RevealAttributeProof? && proofs[0].1.attribute.StringAttribute?
    && proofs[1].1.RevealAttributeProof? && proofs[1].1.attribute.StringAttribute?
  }

  predicate LastReveals(proofs: seq<NameProof>, tag: byte, i: nat) {
    i < |proofs| && Reveals(proofs[i], tag) && forall j :: i < j < |proofs| ==> !Reveals(proofs[j], tag)
  }

  /** Only first names, tag 0, and last names, tag 1, are revealed, and both
      are; the guard is silent. */
  ghost predicate TwoNames(proofs: seq<NameProof>) {
    && 0xFFFF_FFFF_FFFF_FFFF - |proofs| != 2
    && (forall i :: 0 <= i < |proofs| ==> Reveals(proofs[i], 0) || Reveals(proofs[i], 1))
    && (exists i: nat :: LastReveals(proofs, 0, i))
    && (exists i: nat :: LastReveals(proofs, 1, i))
  }

  lemma {:induction false} LastExists(proofs: seq<NameProof>, tag: byte) returns (i: nat)
    requires Latest(proofs, tag).Some?
    ensures LastReveals(proofs, tag, i)
  {
    var n := |proofs| - 1;
    if Reveals(proofs[n], tag) {
      i := n;
    } else {
      i := LastExists(proofs[..n], tag);
    }
  }

  lemma LatestIffLast(proofs: seq<NameProof>, tag: byte)
    ensures Latest(proofs, tag).Some? <==> exists i: nat :: LastReveals(proofs, tag, i)
    ensures forall i: nat :: LastReveals(proofs, tag, i) ==> Latest(proofs, tag) == Some(proofs[i].1.attribute.text)
  {
    forall i: nat | LastReveals(proofs, tag, i) ensures Latest(proofs, tag) == Some(proofs[i].1.attribute.text) {
      LatestIsLast(proofs, tag, i);
    }
    if Latest(proofs, tag).Some? {
      var i := LastExists(proofs, tag);
    }
  }

  lemma NamesDirectly(proofs: seq<NameProof>)
    ensures ReadNames(proofs).Success? <==> TwoNames(proofs)
    ensures ReadNames(proofs).Failure? ==> ReadNames(proofs).error == InvalidStatement
    ensures forall i: nat, j: nat :: LastReveals(proofs, 0, i) && LastReveals(proofs, 1, j) && ReadNames(proofs).Success?
              ==> ReadNames(proofs).value == FullName(proofs[i].1.attribute.text, proofs[j].1.attribute.text)
  {
    LatestIffLast(proofs, 0);
    LatestIffLast(proofs, 1);
    assert (forall i :: 0 <= i < |proofs| ==> IsNameProof(proofs[i])) <==> (forall p :: p in proofs ==> IsNameProof(p));
  }

  lemma ClassifiedDirectly(reg: Registries, proof: CredentialProof)
    ensures proof.Web3Id? ==>
              Classify(reg, proof) ==
              if !TwoTexts(proof.proofs) then Failure(InvalidStatement)
              else if proof.contract == reg.telegram then
                Success(PlatformSlot(Telegram, PlatformEntry(proof.proofs[0].1.attribute.text, proof.holder,
                                                             proof.proofs[1].1.attribute.text)))
              else if proof.contract == reg.discord then
                Success(PlatformSlot(Discord, PlatformEntry(proof.proofs[0].1.attribute.text, proof.holder,
                                                            proof.proofs[1].1.attribute.text)))
              else Failure(InvalidIssuer)
    ensures proof.Account? ==>
              (Classify(reg, proof).Success? <==> TwoNames(proof.accountProofs)) &&
              (Classify(reg, proof).Failure? ==> Classify(reg, proof).error == InvalidStatement) &&
              (Classify(reg, proof).Success? ==>
                 Classify(reg, proof).value == NameSlot(ReadNames(proof.accountProofs).value))
  {
    if proof.Account? {
      NamesDirectly(proof.accountProofs);
    }
  }

  function Occupied(entry: VerificationsEntry, k: Kind): bool {
    match k
    case On(p) => entry.Slot(p).Some?
    case Name => entry.fullName.Some?
  }

  function Place(entry: VerificationsEntry, slot: Slot): VerificationsEntry {
    match slot
    case PlatformSlot(p, e) => entry.WithSlot(p, e)
    case NameSlot(name) => entry.(fullName := Some(name))
  }

  /** The names of an account credential, proof by proof. */
  method NamesOf(proofs: seq<NameProof>) returns (r: Result<FullName, RequestError>)
    ensures r == ReadNames(proofs)
  {
    if Complement(|proofs|) == 2 {
      return Failure(InvalidStatement);
    }
    var firstName, lastName := None, None;
    for i := 0 to |proofs|
      invariant forall p :: p in proofs[..i] ==> IsNameProof(p)
      invariant firstName == Latest(proofs[..i], FIRST_NAME)
      invariant lastName == Latest(proofs[..i], LAST_NAME)
    {
      assert proofs[..i + 1][..i] == proofs[..i] && proofs[..i + 1][i] == proofs[i];
      assert proofs[i] in proofs;
      var (statement, revealed) := proofs[i];
      if !revealed.RevealAttributeProof? || !revealed.attribute.StringAttribute? {
        return Failure(InvalidStatement);
      }
      if !statement.RevealAttributeStatement? {
        return Failure(InvalidStatement);
      }
      if statement.tag == FIRST_NAME {
        firstName := Some(revealed.attribute.text);
      } else if statement.tag == LAST_NAME {
        lastName := Some(revealed.attribute.text);
      } else {
        return Failure(InvalidStatement);
      }
    }
    assert proofs[..|proofs|] == proofs;
    if firstName.None? || lastName.None? {
      return Failure(InvalidStatement);
    }
    r := Success(FullName(firstName.value, lastName.value));
  }

  /** Put one credential into the entry. */
  method ProofToVerificationsEntry(reg: Registries, proof: CredentialProof, entry: VerificationsEntry)
    returns (r: Result<(), RequestError>, updated: VerificationsEntry)
    ensures r.Success? <==> Classify(reg, proof).Success? && !Occupied(entry, Classify(reg, proof).value.Kind())
    ensures r.Success? ==> updated == Place(entry, Classify(reg, proof).value)
    ensures r.Failure? ==>
            r.error == if Classify(reg, proof).Failure? then Classify(reg, proof).error else InvalidStatement
    ensures proof.Web3Id? && TwoTexts(proof.proofs) ==>
              var account :=
                PlatformEntry(proof.proofs[0].1.attribute.text, proof.holder, proof.proofs[1].1.attribute.text);
              if proof.contract == reg.telegram then
                if entry.telegram.None? then r == Success(()) && updated == entry.(telegram := Some(account))
                else r == Failure(InvalidStatement)
              else if proof.contract == reg.discord then
                if entry.discord.None? then r == Success(()) && updated == entry.(discord := Some(account))
                else r == Failure(InvalidStatement)
              else r == Failure(InvalidIssuer)
    ensures proof.Web3Id? && !TwoTexts(proof.proofs) ==> r == Failure(InvalidStatement)
    ensures proof.Account? ==>
              if TwoNames(proof.accountProofs) && entry.fullName.None? then r == Success(())
              else r == Failure(InvalidStatement)
    ensures proof.Account? && r.Success? ==>
              forall i: nat, j: nat :: LastReveals(proof.accountProofs, 0, i) && LastReveals(proof.accountProofs, 1, j)
                ==> updated == entry.(fullName := Some(FullName(proof.accountProofs[i].1.attribute.text,
                                                                 proof.accountProofs[j].1.attribute.text)))
  {
    ClassifiedDirectly(reg, proof);
    updated := entry;
    match proof {
      case Web3Id(contract, holder, proofs) =>
        if |proofs| != 2 || !proofs[0].1.RevealAttributeProof? || !proofs[0].1.attribute.StringAttribute? ||
           !proofs[1].1.RevealAttributeProof? || !proofs[1].1.attribute.StringAttribute? {
          return Failure(InvalidStatement), updated;
        }
        var platformEntry := PlatformEntry(proofs[0].1.attribute.text, holder, proofs[1].1.attribute.text);
        var platform := PlatformFor(reg, contract);
        match platform {
          case Failure(e) =>
            return Failure(e), updated;
          case Success(p) =>
            updated := entry.WithSlot(p, platformEntry);
            if entry.Slot(p).Some? {
              return Failure(InvalidStatement), updated;
            }
        }
      case Account(proofs) =>
        var name := NamesOf(proofs);
        if name.Failure? {
          return Failure(InvalidStatement), updated;
        }
        NamesDirectly(proofs);
        updated := entry.(fullName := Some(name.value));
        if entry.fullName.Some? {
          return Failure(InvalidStatement), updated;
        }
    }
    r := Success(());
  }

  // ---------- The whole presentation ----------

  function Blank(presentation: Presentation): VerificationsEntry {
    VerificationsEntry(None, None, presentation, None)
  }

  function Fold(reg: Registries, start: VerificationsEntry, proofs: seq<CredentialProof>)
    : Result<VerificationsEntry, RequestError>
  {
    if proofs == [] then Success(start)
    else
      match Fold(reg, start, proofs[..|proofs| - 1])
      case Failure(e) => Failure(e)
      case Success(entry) =>
        match Classify(reg, proofs[|proofs| - 1])
        case Failure(e) => Failure(e)
        case Success(slot) =>
          if Occupied(entry, slot.Kind()) then Failure(InvalidStatement) else Success(Place(entry, slot))
  }

  /** The entry that an add request asks to store. */
  function EntryOf(reg: Registries, presentation: Presentation): Result<VerificationsEntry, RequestError> {
    var proofs := presentation.verifiableCredential;
    if |proofs| < 2 then Failure(NotEnoughStatements(|proofs|)) else Fold(reg, Blank(presentation), proofs)
  }

  predicate HasKind(reg: Registries, proof: CredentialProof, k: Kind) {
    Classify(reg, proof).Success? && Classify(reg, proof).value.Kind() == k
  }

  function CountKind(reg: Registries, proofs: seq<CredentialProof>, k: Kind): nat {
    if proofs == [] then 0
    else CountKind(reg, proofs[..|proofs| - 1], k) + if HasKind(reg, proofs[|proofs| - 1], k) then 1 else 0
  }

  /** Every credential is acceptable on its own and no two fill the same slot. */
  ghost predicate Accepts(reg: Registries, proofs: seq<CredentialProof>) {
    && (forall p :: p in proofs ==> Classify(reg, p).Success?)
    && (forall k: Kind :: CountKind(reg, proofs, k) <= 1)
  }

  ghost predicate Contributes(reg: Registries, proofs: seq<CredentialProof>, slot: Slot) {
    exists p :: p in proofs && Classify(reg, p) == Success(slot)
  }

  ghost predicate SlotsAre(reg: Registries, proofs: seq<CredentialProof>, entry: VerificationsEntry) {
    && (forall p: Platform, e :: entry.Slot(p) == Some(e) <==> Contributes(reg, proofs, PlatformSlot(p, e)))
    && (forall name :: entry.fullName == Some(name) <==> Contributes(reg, proofs, NameSlot(name)))
  }

  lemma {:induction false} CountOfAbsent(reg: Registries, proofs: seq<CredentialProof>, k: Kind)
    ensures CountKind(reg, proofs, k) > 0 <==> exists p :: p in proofs && HasKind(reg, p, k)
  {
    if proofs == [] {
    } else {
      CountOfAbsent(reg, proofs[..|proofs| - 1], k);
      assert forall p :: p in proofs <==> p in proofs[..|proofs| - 1] || p == proofs[|proofs| - 1];
    }
  }

  /** The fold succeeds exactly on acceptable lists, and its entry holds exactly
      what the credentials contribute. */
  lemma {:induction false} FoldCharacterised(reg: Registries, presentation: Presentation, proofs: seq<CredentialProof>)
    ensures Fold(reg, Blank(presentation), proofs).Success? <==> Accepts(reg, proofs)
    ensures Fold(reg, Blank(presentation), proofs).Success? ==>
              Fold(reg, Blank(presentation), proofs).value.presentation == presentation &&
              SlotsAre(reg, proofs, Fold(reg, Blank(presentation), proofs).value)
  {
    if proofs == [] {
      assert forall k: Kind :: CountKind(reg, proofs, k) == 0;
    } else {
      var init, last := proofs[..|proofs| - 1], proofs[|proofs| - 1];
      FoldCharacterised(reg, presentation, init);
      assert forall p :: p in proofs <==> p in init || p == last;
      forall k: Kind
        ensures CountKind(reg, proofs, k) == CountKind(reg, init, k) + if HasKind(reg, last, k) then 1 else 0
      {
      }
      if Accepts(reg, init) && Classify(reg, last).Success? {
        var entry := Fold(reg, Blank(presentation), init).value;
        var slot := Classify(reg, last).value;
        CountOfAbsent(reg, init, slot.Kind());
        OccupiedMeansContributed(reg, init, entry, slot.Kind());
        if !Occupied(entry, slot.Kind()) {
          PlacedSlots(reg, init, last, entry);
        }
      }
    }
  }

  lemma OccupiedMeansContributed(reg: Registries, proofs: seq<CredentialProof>, entry: VerificationsEntry, k: Kind)
    requires SlotsAre(reg, proofs, entry)
    ensures Occupied(entry, k) <==> exists p :: p in proofs && HasKind(reg, p, k)
  {
    if Occupied(entry, k) {
      var slot := match k
        case On(p) => PlatformSlot(p, entry.Slot(p).value)
        case Name => NameSlot(entry.fullName.value);
      assert Contributes(reg, proofs, slot);
    }
    if p :| p in proofs && HasKind(reg, p, k) {
      assert Contributes(reg, proofs, Classify(reg, p).value);
    }
  }

  lemma PlacedSlots(reg: Registries, init: seq<CredentialProof>, last: CredentialProof, entry: VerificationsEntry)
    requires SlotsAre(reg, init, entry) && Classify(reg, last).Success?
    requires !Occupied(entry, Classify(reg, last).value.Kind())
    ensures SlotsAre(reg, init + [last], Place(entry, Classify(reg, last).value))
  {
    var proofs, slot := init + [last], Classify(reg, last).value;
    forall s: Slot ensures Contributes(reg, proofs, s) <==> Contributes(reg, init, s) || s == slot {
      if s == slot {
        assert last in proofs;
      }
      if p :| p in init && Classify(reg, p) == Success(s) {
        assert p in proofs;
      }
    }
  }

  // ---------- Order of the credentials ----------

  lemma {:induction false} CountAppend(reg: Registries, a: seq<CredentialProof>, b: seq<CredentialProof>, k: Kind)
    ensures CountKind(reg, a + b, k) == CountKind(reg, a, k) + CountKind(reg, b, k)
  {
    if b == [] {
      assert a + b == a;
    } else {
      CountAppend(reg, a, b[..|b| - 1], k);
      assert (a + b)[..|a + b| - 1] == a + b[..|b| - 1];
    }
  }

  lemma CountSingle(reg: Registries, p: CredentialProof, k: Kind)
    ensures CountKind(reg, [p], k) == if HasKind(reg, p, k) then 1 else 0
  {
    assert [p][..0] == [];
  }

  function Without(s: seq<CredentialProof>, j: nat): seq<CredentialProof>
    requires j < |s|
  {
    s[..j] + s[j + 1..]
  }

  lemma CountWithout(reg: Registries, s: seq<CredentialProof>, j: nat, k: Kind)
    requires j < |s|
    ensures CountKind(reg, s, k) == CountKind(reg, Without(s, j), k) + if HasKind(reg, s[j], k) then 1 else 0
  {
    assert s == s[..j] + [s[j]] + s[j + 1..];
    CountAppend(reg, s[..j], [s[j]], k);
    CountAppend(reg, s[..j] + [s[j]], s[j + 1..], k);
    CountAppend(reg, s[..j], s[j + 1..], k);
    CountSingle(reg, s[j], k);
  }

  lemma MultisetWithout(s: seq<CredentialProof>, j: nat)
    requires j < |s|
    ensures multiset(Without(s, j)) == multiset(s) - multiset{s[j]}
  {
    assert s == s[..j] + [s[j]] + s[j + 1..];
  }

  lemma {:induction false} CountIsOrderFree(reg: Registries, a: seq<CredentialProof>, b: seq<CredentialProof>, k: Kind)
    requires multiset(a) == multiset(b)
    ensures CountKind(reg, a, k) == CountKind(reg, b, k)
    decreases |a|
  {
    if a == [] {
      assert |b| == |multiset(b)| == 0;
    } else {
      var i := |a| - 1;
      assert a[i] in multiset(b);
      var j :| 0 <= j < |b| && b[j] == a[i];
      MultisetWithout(a, i);
      MultisetWithout(b, j);
      CountIsOrderFree(reg, Without(a, i), Without(b, j), k);
      CountWithout(reg, a, i, k);
      CountWithout(reg, b, j, k);
    }
  }

  /** The fold does not depend on the order of the credentials: a permutation
      is accepted exactly when the original is, with the same slots. */
  lemma FoldIsOrderFree(reg: Registries, a: Presentation, b: Presentation)
    requires multiset(a.verifiableCredential) == multiset(b.verifiableCredential)
    ensures EntryOf(reg, a).Success? <==> EntryOf(reg, b).Success?
    ensures EntryOf(reg, a).Success? ==>
              EntryOf(reg, b).value == EntryOf(reg, a).value.(presentation := b)
  {
    var xs, ys := a.verifiableCredential, b.verifiableCredential;
    assert |xs| == |multiset(xs)| == |multiset(ys)| == |ys|;
    assert forall p :: p in xs <==> p in multiset(xs);
    assert forall p :: p in ys <==> p in multiset(ys);
    FoldCharacterised(reg, a, xs);
    FoldCharacterised(reg, b, ys);
    forall k: Kind ensures CountKind(reg, xs, k) == CountKind(reg, ys, k) {
      CountIsOrderFree(reg, xs, ys, k);
    }
    assert forall s: Slot :: Contributes(reg, xs, s) <==> Contributes(reg, ys, s);
    if EntryOf(reg, a).Success? {
      SameSlots(reg, xs, EntryOf(reg, a).value, EntryOf(reg, b).value);
    }
  }

  lemma SameSlots(reg: Registries, proofs: seq<CredentialProof>, e: VerificationsEntry, f: VerificationsEntry)
    requires SlotsAre(reg, proofs, e)
    requires forall p: Platform, x :: f.Slot(p) == Some(x) <==> Contributes(reg, proofs, PlatformSlot(p, x))
    requires forall name :: f.fullName == Some(name) <==> Contributes(reg, proofs, NameSlot(name))
    ensures e.telegram == f.telegram && e.discord == f.discord && e.fullName == f.fullName
  {
    forall p: Platform ensures e.Slot(p) == f.Slot(p) {
      if e.Slot(p).Some? {
        assert Contributes(reg, proofs, PlatformSlot(p, e.Slot(p).value));
      }
      if f.Slot(p).Some? {
        assert Contributes(reg, proofs, PlatformSlot(p, f.Slot(p).value));
      }
    }
    assert e.telegram == e.Slot(Telegram) == f.Slot(Telegram);
    assert e.discord == e.Slot(Discord) == f.Slot(Discord);
    if e.fullName.Some? {
      assert Contributes(reg, proofs, NameSlot(e.fullName.value));
    }
    if f.fullName.Some? {
      assert Contributes(reg, proofs, NameSlot(f.fullName.value));
    }
  }

  // ---------- What an accepted request is like ----------

  lemma {:induction false} CountsAddUp(reg: Registries, proofs: seq<CredentialProof>)
    requires forall p :: p in proofs ==> Classify(reg, p).Success?
    ensures CountKind(reg, proofs, On(Telegram)) + CountKind(reg, proofs, On(Discord)) + CountKind(reg, proofs, Name)
            == |proofs|
  {
    if proofs == [] {
    } else {
      CountsAddUp(reg, proofs[..|proofs| - 1]);
      assert proofs[|proofs| - 1] in proofs;
      var k := Classify(reg, proofs[|proofs| - 1]).value.Kind();
      assert k == On(Telegram) || k == On(Discord) || k == Name;
    }
  }

  /** An accepted request has two or three credentials and at least one account. */
  lemma AcceptedHasAccount(reg: Registries, presentation: Presentation)
    requires EntryOf(reg, presentation).Success?
    ensures 2 <= |presentation.verifiableCredential| <= 3
    ensures exists p: Platform :: EntryOf(reg, presentation).value.Slot(p).Some?
  {
    var proofs := presentation.verifiableCredential;
    var entry := EntryOf(reg, presentation).value;
    FoldCharacterised(reg, presentation, proofs);
    CountsAddUp(reg, proofs);
    forall p: Platform ensures CountKind(reg, proofs, On(p)) > 0 <==> entry.Slot(p).Some? {
      CountOfAbsent(reg, proofs, On(p));
      OccupiedMeansContributed(reg, proofs, entry, On(p));
    }
    assert CountKind(reg, proofs, Name) <= 1 && CountKind(reg, proofs, On(Telegram)) <= 1
           && CountKind(reg, proofs, On(Discord)) <= 1;
  }

  /** The credential whose status a lookup asks the chain for. */
  function StatusTarget(proofs: seq<CredentialProof>, registry: ContractAddress): Option<CredentialHolderId> {
    if proofs == [] then None
    else if proofs[0].Web3Id? && proofs[0].contract == registry then Some(proofs[0].holder)
    else StatusTarget(proofs[1..], registry)
  }

  lemma {:induction false} TwoOfAKind(reg: Registries, proofs: seq<CredentialProof>, k: Kind, i: nat, j: nat)
    requires i < j < |proofs| && HasKind(reg, proofs[i], k) && HasKind(reg, proofs[j], k)
    ensures CountKind(reg, proofs, k) >= 2
  {
    if j < |proofs| - 1 {
      TwoOfAKind(reg, proofs[..|proofs| - 1], k, i, j);
    } else {
      assert proofs[..|proofs| - 1][i] in proofs[..|proofs| - 1];
      CountOfAbsent(reg, proofs[..|proofs| - 1], k);
    }
  }

  lemma {:induction false} FirstOfRegistry(proofs: seq<CredentialProof>, registry: ContractAddress) returns (j: nat)
    requires exists p :: p in proofs && p.Web3Id? && p.contract == registry
    ensures j < |proofs| && proofs[j].Web3Id? && proofs[j].contract == registry
    ensures StatusTarget(proofs, registry) == Some(proofs[j].holder)
  {
    if proofs[0].Web3Id? && proofs[0].contract == registry {
      j := 0;
    } else {
      var p :| p in proofs && p.Web3Id? && p.contract == registry;
      assert p in proofs[1..];
      j := FirstOfRegistry(proofs[1..], registry);
      j := j + 1;
    }
  }

  /** The status lookup asks for exactly the credential stored with the account. */
  lemma StatusTargetIsStored(reg: Registries, presentation: Presentation, p: Platform)
    requires EntryOf(reg, presentation).Success? && EntryOf(reg, presentation).value.Slot(p).Some?
    ensures StatusTarget(presentation.verifiableCredential, reg.Of(p))
            == Some(EntryOf(reg, presentation).value.Slot(p).value.credId)
  {
    var proofs := presentation.verifiableCredential;
    var stored := EntryOf(reg, presentation).value.Slot(p).value;
    FoldCharacterised(reg, presentation, proofs);
    assert Contributes(reg, proofs, PlatformSlot(p, stored));
    var proof :| proof in proofs && Classify(reg, proof) == Success(PlatformSlot(p, stored));
    var i :| 0 <= i < |proofs| && proofs[i] == proof;
    var j := FirstOfRegistry(proofs, reg.Of(p));
    assert proofs[j] in proofs;
    assert HasKind(reg, proofs[i], On(p)) && HasKind(reg, proofs[j], On(p));
    if i < j {
      TwoOfAKind(reg, proofs, On(p), i, j);
    } else if j < i {
      TwoOfAKind(reg, proofs, On(p), j, i);
    }
  }

  // ---------- Requests, read off their credentials ----------

  ghost predicate Acceptable(reg: Registries, c: CredentialProof) {
    match c
    case Web3Id(contract, _, proofs) => TwoTexts(proofs) && (contract == reg.telegram || contract == reg.discord)
    case Account(proofs) => TwoNames(proofs)
  }

  /** Two credentials that would fill one slot. */
  predicate SameKind(a: CredentialProof, b: CredentialProof) {
    (a.Account? && b.Account?) || (a.Web3Id? && b.Web3Id? && a.contract == b.contract)
  }

  /** The first credential that cannot be accepted is the one at `i`. */
  ghost predicate FirstBad(reg: Registries, creds: seq<CredentialProof>, i: nat) {
    && i < |creds|
    && Bad(reg, creds, i)
    && forall j: nat :: j < i ==> !Bad(reg, creds, j)
  }

  ghost predicate Bad(reg: Registries, creds: seq<CredentialProof>, i: nat)
    requires i < |creds|
  {
    !Acceptable(reg, creds[i]) || exists j: nat :: j < i && SameKind(creds[j], creds[i])
  }

  ghost predicate NoneBad(reg: Registries, creds: seq<CredentialProof>) {
    forall i: nat :: i < |creds| ==> !Bad(reg, creds, i)
  }

  /** `account` is what credential `c` of a registry reveals. */
  predicate RevealsAccount(c: CredentialProof, registry: ContractAddress, account: PlatformEntry) {
    && c.Web3Id? && c.contract == registry && TwoTexts(c.proofs)
    && account.id == c.proofs[0].1.attribute.text
    && account.username == c.proofs[1].1.attribute.text
    && account.credId == c.holder
  }

  /** `name` is what the account credential `c` reveals last. */
  ghost predicate RevealsName(c: CredentialProof, name: FullName) {
    && c.Account?
    && (exists i: nat :: LastReveals(c.accountProofs, 0, i) && name.firstName == c.accountProofs[i].1.attribute.text)
    && (exists i: nat :: LastReveals(c.accountProofs, 1, i) && name.lastName == c.accountProofs[i].1.attribute.text)
  }

  /** The entry holds what the presentation reveals, and no more. */
  ghost predicate Describes(reg: Registries, presentation: Presentation, e: VerificationsEntry) {
    var creds := presentation.verifiableCredential;
    && e.presentation == presentation
    && (forall x :: e.telegram == Some(x) <==> exists c :: c in creds && RevealsAccount(c, reg.telegram, x))
    && (forall x :: e.discord == Some(x) <==>
          reg.discord != reg.telegram && exists c :: c in creds && RevealsAccount(c, reg.discord, x))
    && (forall name :: e.fullName == Some(name) <==> exists c :: c in creds && RevealsName(c, name))
  }

  lemma KindsDirectly(reg: Registries, a: CredentialProof, b: CredentialProof)
    requires Acceptable(reg, a) && Acceptable(reg, b)
    ensures Classify(reg, a).Success? && Classify(reg, b).Success?
    ensures SameKind(a, b) <==> Classify(reg, a).value.Kind() == Classify(reg, b).value.Kind()
  {
    ClassifiedDirectly(reg, a);
    ClassifiedDirectly(reg, b);
  }

  lemma BadPrefix(reg: Registries, creds: seq<CredentialProof>)
    requires creds != []
    ensures NoneBad(reg, creds) <==> NoneBad(reg, creds[..|creds| - 1]) && !Bad(reg, creds, |creds| - 1)
    ensures forall i: nat :: FirstBad(reg, creds, i) <==>
              if i == |creds| - 1 then NoneBad(reg, creds[..|creds| - 1]) && Bad(reg, creds, i)
              else FirstBad(reg, creds[..|creds| - 1], i)
  {
    var init := creds[..|creds| - 1];
    forall i: nat | i < |init| ensures Bad(reg, creds, i) <==> Bad(reg, init, i) {
      assert forall j: nat :: j <= i ==> creds[j] == init[j];
    }
  }

  function ErrorFor(reg: Registries, c: CredentialProof): RequestError {
    if c.Web3Id? && TwoTexts(c.proofs) && c.contract != reg.telegram && c.contract != reg.discord
    then InvalidIssuer else InvalidStatement
  }

  /** A list folds exactly if it has no bad credential, and otherwise the first
      bad one gives the error. */
  lemma {:induction false} FoldDirectly(reg: Registries, presentation: Presentation, creds: seq<CredentialProof>)
    ensures NoneBad(reg, creds) <==> Fold(reg, Blank(presentation), creds).Success?
    ensures forall i: nat :: FirstBad(reg, creds, i) ==>
              Fold(reg, Blank(presentation), creds) == Failure(ErrorFor(reg, creds[i]))
  {
    if creds == [] {
    } else {
      var n := |creds| - 1;
      FoldDirectly(reg, presentation, creds[..n]);
      BadPrefix(reg, creds);
      ClassifiedDirectly(reg, creds[n]);
      assert !Acceptable(reg, creds[n]) ==> Bad(reg, creds, n) && Classify(reg, creds[n]).Failure?;
      if NoneBad(reg, creds[..n]) && Acceptable(reg, creds[n]) {
        LastIsBad(reg, presentation, creds);
      }
    }
  }

  lemma LastIsBad(reg: Registries, presentation: Presentation, creds: seq<CredentialProof>)
    requires creds != [] && NoneBad(reg, creds[..|creds| - 1]) && Acceptable(reg, creds[|creds| - 1])
    requires Fold(reg, Blank(presentation), creds[..|creds| - 1]).Success?
    ensures Classify(reg, creds[|creds| - 1]).Success?
    ensures Bad(reg, creds, |creds| - 1) <==>
            Occupied(Fold(reg, Blank(presentation), creds[..|creds| - 1]).value,
                     Classify(reg, creds[|creds| - 1]).value.Kind())
  {
    var n := |creds| - 1;
    var init := creds[..n];
    ClassifiedDirectly(reg, creds[n]);
    FoldCharacterised(reg, presentation, init);
    OccupiedMeansContributed(reg, init, Fold(reg, Blank(presentation), init).value, Classify(reg, creds[n]).value.Kind());
    forall j: nat | j < n
      ensures SameKind(creds[j], creds[n]) <==> HasKind(reg, init[j], Classify(reg, creds[n]).value.Kind())
    {
      assert !Bad(reg, init, j);
      KindsDirectly(reg, creds[j], creds[n]);
    }
    if p :| p in init && HasKind(reg, p, Classify(reg, creds[n]).value.Kind()) {
      var j :| 0 <= j < n && init[j] == p;
      assert SameKind(creds[j], creds[n]);
    }
  }

  lemma NameDirectly(reg: Registries, c: CredentialProof, name: FullName)
    requires c.Account? && Classify(reg, c).Success?
    ensures Classify(reg, c) == Success(NameSlot(name)) <==> RevealsName(c, name)
  {
    ClassifiedDirectly(reg, c);
    NamesDirectly(c.accountProofs);
    var i: nat :| LastReveals(c.accountProofs, 0, i);
    var j: nat :| LastReveals(c.accountProofs, 1, j);
  }

  lemma ContributionDirectly(reg: Registries, c: CredentialProof)
    requires Classify(reg, c).Success?
    ensures forall x :: Classify(reg, c) == Success(PlatformSlot(Telegram, x)) <==> RevealsAccount(c, reg.telegram, x)
    ensures forall x :: Classify(reg, c) == Success(PlatformSlot(Discord, x)) <==>
              reg.discord != reg.telegram && RevealsAccount(c, reg.discord, x)
    ensures forall name :: Classify(reg, c) == Success(NameSlot(name)) <==> RevealsName(c, name)
  {
    ClassifiedDirectly(reg, c);
    if c.Account? {
      forall name ensures Classify(reg, c) == Success(NameSlot(name)) <==> RevealsName(c, name) {
        NameDirectly(reg, c, name);
      }
    }
  }

  lemma EntryDescribes(reg: Registries, presentation: Presentation)
    requires EntryOf(reg, presentation).Success?
    ensures Describes(reg, presentation, EntryOf(reg, presentation).value)
  {
    var creds, e := presentation.verifiableCredential, EntryOf(reg, presentation).value;
    FoldCharacterised(reg, presentation, creds);
    forall c | c in creds
      ensures forall x :: Classify(reg, c) == Success(PlatformSlot(Telegram, x)) <==> RevealsAccount(c, reg.telegram, x)
      ensures forall x :: Classify(reg, c) == Success(PlatformSlot(Discord, x)) <==>
                reg.discord != reg.telegram && RevealsAccount(c, reg.discord, x)
      ensures forall name :: Classify(reg, c) == Success(NameSlot(name)) <==> RevealsName(c, name)
    {
      ContributionDirectly(reg, c);
    }
    forall x ensures e.telegram == Some(x) <==> exists c :: c in creds && RevealsAccount(c, reg.telegram, x) {
      assert e.telegram == e.Slot(Telegram);
      assert e.Slot(Telegram) == Some(x) <==> Contributes(reg, creds, PlatformSlot(Telegram, x));
    }
    forall x ensures e.discord == Some(x) <==>
        reg.discord != reg.telegram && exists c :: c in creds && RevealsAccount(c, reg.discord, x)
    {
      assert e.discord == e.Slot(Discord);
      assert e.Slot(Discord) == Some(x) <==> Contributes(reg, creds, PlatformSlot(Discord, x));
    }
    forall name ensures e.fullName == Some(name) <==> exists c :: c in creds && RevealsName(c, name) {
      assert e.fullName == Some(name) <==> Contributes(reg, creds, NameSlot(name));
    }
  }

  lemma DescribedOnce(reg: Registries, presentation: Presentation, e: VerificationsEntry, f: VerificationsEntry)
    requires Describes(reg, presentation, e) && Describes(reg, presentation, f)
    ensures e == f
  {
    assert e.telegram.Some? ==> f.telegram == Some(e.telegram.value);
    assert f.telegram.Some? ==> e.telegram == Some(f.telegram.value);
    assert e.discord.Some? ==> f.discord == Some(e.discord.value);
    assert f.discord.Some? ==> e.discord == Some(f.discord.value);
    assert e.fullName.Some? ==> f.fullName == Some(e.fullName.value);
    assert f.fullName.Some? ==> e.fullName == Some(f.fullName.value);
  }
}
