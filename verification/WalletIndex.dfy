/** The two searches for a wallet index in the test tool: registering looks for
    the first index whose key is not registered, proving looks for the first
    index whose key is that of the credential. */
module WalletIndex {
  import opened Wrappers

  /** Indices are 32-bit. */
  const INDEX_LIMIT: nat := 0x1_0000_0000

  /** What the node says when asked for the entry of one key. */
  datatype Answer = Registered | NotRegistered | NodeError

  datatype Choice = Chosen(index: nat) | QueryFailed

  ghost predicate FirstFree(answers: nat -> Answer, n: nat) {
    n < INDEX_LIMIT && answers(n) == NotRegistered && forall j: nat :: j < n ==> answers(j) == Registered
  }

  ghost predicate FirstMatch<K>(key: nat -> K, holder: K, n: nat) {
    n < INDEX_LIMIT && key(n) == holder && forall j: nat :: j < n ==> key(j) != holder
  }

  /** Ask for each index in turn until one is not registered. The search ends
      if not all indices are, and then the counter stays within its 32 bits. */
  method ChooseIndex(answers: nat -> Answer) returns (c: Choice)
    requires exists n: nat :: n < INDEX_LIMIT && answers(n) != Registered
    ensures c.Chosen? ==> FirstFree(answers, c.index)
    ensures c == QueryFailed <==> exists n: nat :: n < INDEX_LIMIT && answers(n) == NodeError &&
                                    forall j: nat :: j < n ==> answers(j) == Registered
  {
    ghost var end: nat :| end < INDEX_LIMIT && answers(end) != Registered;
    var idx: nat := 0;
    while true
      invariant idx <= end
      invariant forall j: nat :: j < idx ==> answers(j) == Registered
      decreases end - idx
    {
      match answers(idx) {
        case NotRegistered => return Chosen(idx);
        case NodeError => return QueryFailed;
        case Registered => idx := idx + 1;
      }
    }
  }

  /** The index whose key a credential was issued for. The search, like the
      other without a bound, ends if there is one. */
  method FindIndex<K(==)>(key: nat -> K, holder: K) returns (idx: nat)
    requires exists n: nat :: n < INDEX_LIMIT && key(n) == holder
    ensures FirstMatch(key, holder, idx)
  {
    ghost var end: nat :| end < INDEX_LIMIT && key(end) == holder;
    idx := 0;
    while key(idx) != holder
      invariant idx <= end
      invariant forall j: nat :: j < idx ==> key(j) != holder
      decreases end - idx
    {
      idx := idx + 1;
    }
  }

  /** The answers are those of a registry: `registry(i)` is its contents when
      index `i` is asked for. */
  ghost predicate Truthful<K(!new)>(key: nat -> K, registry: nat -> set<K>, answers: nat -> Answer) {
    && (forall i: nat :: answers(i) == Registered ==> key(i) in registry(i))
    && (forall i: nat :: answers(i) == NotRegistered ==> key(i) !in registry(i))
  }

  ghost predicate Grows<K(!new)>(registry: nat -> set<K>) {
    forall i: nat, j: nat :: i <= j ==> registry(i) <= registry(j)
  }

  /** Whatever the key derivation, the index that registering chose is the one
      that proving finds. */
  lemma IndicesAgree<K(!new)>(key: nat -> K, registry: nat -> set<K>, answers: nat -> Answer, n: nat)
    requires Truthful(key, registry, answers) && Grows(registry) && FirstFree(answers, n)
    ensures FirstMatch(key, key(n), n)
  {
    forall j: nat | j < n ensures key(j) != key(n) {
      assert answers(j) == Registered;
      assert registry(j) <= registry(n);
    }
  }

  /** Choose an index, take the credential, and look the index up again. */
  method RegisterThenProve<K(==, !new)>(key: nat -> K, ghost registry: nat -> set<K>, answers: nat -> Answer)
    returns (c: Choice, found: Option<nat>)
    requires Truthful(key, registry, answers) && Grows(registry)
    requires exists n: nat :: n < INDEX_LIMIT && answers(n) != Registered
    ensures c.Chosen? ==> FirstFree(answers, c.index) && found == Some(c.index)
  {
    c := ChooseIndex(answers);
    found := None;
    if c.Chosen? {
      IndicesAgree(key, registry, answers, c.index);
      var index := FindIndex(key, key(c.index));
      found := Some(index);
    }
  }

  /** Growth is needed: in a registry from which a key goes away again a
      repeated key is found too early. */
  lemma AgreementNeedsGrowth()
    ensures exists key: nat -> int, registry: nat -> set<int>, answers: nat -> Answer, n: nat ::
              Truthful(key, registry, answers) && !Grows(registry) && FirstFree(answers, n) && !FirstMatch(key, key(n), n)
  {
    var key: nat -> int := (i: nat) => 7;
    var registry: nat -> set<int> := (i: nat) => if i == 0 then {7} else {};
    var answers: nat -> Answer := (i: nat) => if i == 0 then Registered else NotRegistered;
    assert Truthful(key, registry, answers) && FirstFree(answers, 1);
    assert !Grows(registry) by {
      assert 7 in registry(0) && 7 !in registry(1);
    }
    assert !FirstMatch(key, key(1), 1) by {
      assert key(0) == key(1);
    }
  }
}
