/** The sliding-window rate limiter and what it means for the history of
    acknowledged registrations. */
module RateLimiter {
  function Count(s: seq<string>, id: string): nat {
    if s == [] then 0 else Count(s[..|s| - 1], id) + if s[|s| - 1] == id then 1 else 0
  }

  /** A queue size of 0 behaves like 1: nothing is evicted from an empty queue. */
  function WindowSize(maxQueueSize: nat): nat {
    if maxQueueSize == 0 then 1 else maxQueueSize
  }

  /** The last `w` ids of the history, or all if there are fewer. */
  function Window(history: seq<string>, w: nat): seq<string> {
    if |history| <= w then history else history[|history| - w..]
  }

  /** The check: fewer than `multiplicity` uses of `id` in the window. */
  predicate Admits(history: seq<string>, w: nat, multiplicity: nat, id: string) {
    Count(Window(history, w), id) < multiplicity
  }

  // ---------- Counting ----------

  lemma {:induction false} CountConcat(a: seq<string>, b: seq<string>, id: string)
    ensures Count(a + b, id) == Count(a, id) + Count(b, id)
  {
    if b == [] {
      assert a + b == a;
    } else {
      CountConcat(a, b[..|b| - 1], id);
      assert (a + b)[..|a + b| - 1] == a + b[..|b| - 1];
    }
  }

  lemma CountOne(x: string, id: string)
    ensures Count([x], id) == if x == id then 1 else 0
  {
    assert [x][..0] == [];
  }

  function Reverse(s: seq<string>): (r: seq<string>)
    ensures |r| == |s|
  {
    if s == [] then [] else [s[|s| - 1]] + Reverse(s[..|s| - 1])
  }

  lemma {:induction false} CountReverse(s: seq<string>, id: string)
    ensures Count(Reverse(s), id) == Count(s, id)
  {
    if s == [] {
    } else {
      CountReverse(s[..|s| - 1], id);
      CountConcat([s[|s| - 1]], Reverse(s[..|s| - 1]), id);
      CountOne(s[|s| - 1], id);
    }
  }

  lemma {:induction false} ReverseDropFirst(s: seq<string>)
    requires s != []
    ensures Reverse(s)[..|s| - 1] == Reverse(s[1..]) && Reverse(s)[|s| - 1] == s[0]
  {
    if |s| == 1 {
    } else {
      var init := s[..|s| - 1];
      ReverseDropFirst(init);
      assert s[1..][..|s| - 2] == init[1..];
    }
  }

  lemma ReverseAppend(s: seq<string>, x: string)
    ensures Reverse(s + [x]) == [x] + Reverse(s)
  {
    assert (s + [x])[..|s|] == s;
  }

  lemma {:induction false} CountPositive(s: seq<string>, id: string)
    ensures Count(s, id) > 0 <==> id in s
  {
    if s == [] {
    } else {
      CountPositive(s[..|s| - 1], id);
      assert id in s <==> id in s[..|s| - 1] || id == s[|s| - 1];
    }
  }

  lemma {:induction false} CountIsMultiplicity(s: seq<string>, id: string)
    ensures Count(s, id) == multiset(s)[id]
  {
    if s == [] {
    } else {
      CountIsMultiplicity(s[..|s| - 1], id);
      assert s == s[..|s| - 1] + [s[|s| - 1]];
    }
  }

  /** The limit in plain terms: among the last ids, as many as the queue holds
      but at least one, `id` occurs less than `multiplicity` times. */
  ghost predicate UnderLimit(history: seq<string>, maxQueueSize: nat, multiplicity: nat, id: string) {
    var w := if maxQueueSize == 0 then 1 else maxQueueSize;
    multiset(if |history| <= w then history else history[|history| - w..])[id] < multiplicity
  }

  lemma AdmitsIffUnderLimit(history: seq<string>, maxQueueSize: nat, multiplicity: nat, id: string)
    ensures Admits(history, WindowSize(maxQueueSize), multiplicity, id) <==>
            UnderLimit(history, maxQueueSize, multiplicity, id)
  {
    CountIsMultiplicity(Window(history, WindowSize(maxQueueSize)), id);
  }

  // ---------- The count map ----------

  /** The map holds exactly the nonzero counts. */
  ghost predicate Tallies(mapping: map<string, nat>, queue: seq<string>) {
    forall id :: (id in mapping <==> Count(queue, id) > 0) && (id in mapping ==> mapping[id] == Count(queue, id))
  }

  lemma TallyIncrement(mapping: map<string, nat>, queue: seq<string>, id: string)
    requires Tallies(mapping, queue)
    ensures Tallies(mapping[id := (if id in mapping then mapping[id] else 0) + 1], [id] + queue)
  {
    forall x ensures Count([id] + queue, x) == Count(queue, x) + (if x == id then 1 else 0) {
      CountConcat([id], queue, x);
      CountOne(id, x);
    }
  }

  /** What is left after the last id of the queue goes; it is in the map. */
  lemma TallyDecrement(mapping: map<string, nat>, queue: seq<string>, last: string)
    requires Tallies(mapping, queue + [last])
    ensures last in mapping && mapping[last] > 0
    ensures var less := mapping[last := mapping[last] - 1];
            Tallies(if less[last] == 0 then less - {last} else less, queue)
  {
    forall x ensures Count(queue + [last], x) == Count(queue, x) + (if x == last then 1 else 0) {
      CountConcat(queue, [last], x);
      CountOne(last, x);
    }
  }

  // ---------- The limiter ----------

  class RateLimiter {
    const multiplicity: nat
    const maxQueueSize: nat
    /** Most recent first. */
    var queue: seq<string>
    var mapping: map<string, nat>
    /** Every id the limiter was ever updated with, oldest first. */
    ghost var history: seq<string>

    ghost function W(): nat {
      WindowSize(maxQueueSize)
    }

    /** The queue is the window of the history, newest first, and the map holds
        exactly the nonzero counts of its ids. */
    ghost predicate Valid()
      reads this
    {
      && queue == Reverse(Window(history, W()))
      && Tallies(mapping, queue)
    }

    constructor (maxQueueSize: nat, multiplicity: nat)
      ensures Valid() && history == []
      ensures this.maxQueueSize == maxQueueSize && this.multiplicity == multiplicity
    {
      this.multiplicity, this.maxQueueSize := multiplicity, maxQueueSize;
      queue, mapping, history := [], map[], [];
    }

    /** Counting in the map is counting over the window of the history. */
    method CheckLimit(id: string) returns (ok: bool)
      requires Valid()
      ensures ok <==> Admits(history, W(), multiplicity, id)
      ensures ok <==> UnderLimit(history, maxQueueSize, multiplicity, id)
    {
      AdmitsIffUnderLimit(history, maxQueueSize, multiplicity, id);
      var uses := if id in mapping then mapping[id] else 0;
      CountPositive(queue, id);
      CountReverse(Window(history, W()), id);
      ok := uses < multiplicity;
    }

    /** Forget the oldest id of the queue. The map may already count ids that
        are still to be queued. */
    method EvictOldest(ghost pending: seq<string>)
      requires Tallies(mapping, pending + queue)
      modifies this`queue, this`mapping
      ensures Tallies(mapping, pending + queue)
      ensures queue == if old(queue) == [] then [] else old(queue)[..|old(queue)| - 1]
    {
      if |queue| > 0 {
        var last := queue[|queue| - 1];
        ghost var rest := pending + queue[..|queue| - 1];
        assert pending + queue == rest + [last];
        TallyDecrement(mapping, rest, last);
        queue := queue[..|queue| - 1];
        if last in mapping {
          mapping := mapping[last := mapping[last] - 1];
          if mapping[last] == 0 {
            mapping := mapping - {last};
          }
        }
      }
    }

    /** Record one more use of `id`. The increment comes before the eviction,
        and the evicted id may be the new one. */
    method UpdateLimit(id: string)
      requires Valid()
      modifies this
      ensures Valid() && history == old(history) + [id]
    {
      UpdatedWindow(history, maxQueueSize, id);
      TallyIncrement(mapping, queue, id);
      mapping := mapping[id := (if id in mapping then mapping[id] else 0) + 1];
      if |queue| >= maxQueueSize {
        EvictOldest([id]);
      }
      queue := [id] + queue;
      history := history + [id];
    }
  }

  /** The window after one more id: the oldest id goes only if the window is full. */
  lemma UpdatedWindow(history: seq<string>, maxQueueSize: nat, id: string)
    ensures var w := WindowSize(maxQueueSize);
            var queue := Reverse(Window(history, w));
            Reverse(Window(history + [id], w)) ==
            [id] + if |queue| >= maxQueueSize && queue != [] then queue[..|queue| - 1] else queue
  {
    var w := WindowSize(maxQueueSize);
    var window := Window(history, w);
    if |history| < w {
      assert Window(history + [id], w) == window + [id];
      ReverseAppend(window, id);
    } else {
      assert Window(history + [id], w) == window[1..] + [id];
      ReverseAppend(window[1..], id);
      ReverseDropFirst(window);
    }
  }

  // ---------- Whole histories ----------

  /** A history that the limiter let through, one id at a time. */
  predicate Admitted(history: seq<string>, w: nat, multiplicity: nat) {
    history == [] ||
    (var n := |history| - 1;
     Admitted(history[..n], w, multiplicity) && Admits(history[..n], w, multiplicity, history[n]))
  }

  /** No block of at most `length` consecutive ids repeats one more than `multiplicity` times. */
  ghost predicate Spaced(history: seq<string>, length: nat, multiplicity: nat) {
    forall i, j, id :: 0 <= i <= j <= |history| && j - i <= length ==> Count(history[i..j], id) <= multiplicity
  }

  /** The same with multiplicities. */
  lemma SpacedByMultiplicity(history: seq<string>, length: nat, multiplicity: nat)
    ensures Spaced(history, length, multiplicity) <==>
            forall i, j, id :: 0 <= i <= j <= |history| && j - i <= length ==> multiset(history[i..j])[id] <= multiplicity
  {
    forall i, j, id | 0 <= i <= j <= |history| ensures Count(history[i..j], id) == multiset(history[i..j])[id] {
      CountIsMultiplicity(history[i..j], id);
    }
  }

  lemma CountLast(history: seq<string>, x: string, i: nat, id: string)
    requires i <= |history|
    ensures Count((history + [x])[i..], id) == Count(history[i..], id) + if x == id then 1 else 0
  {
    assert (history + [x])[i..] == history[i..] + [x];
    CountConcat(history[i..], [x], id);
    CountOne(x, id);
  }

  lemma SuffixOfWindow(history: seq<string>, w: nat, i: nat, id: string)
    requires i <= |history| && |history| - i <= w
    ensures Count(history[i..], id) <= Count(Window(history, w), id)
  {
    var window := Window(history, w);
    var k := if |history| <= w then i else i - (|history| - w);
    assert window == window[..k] + history[i..];
    CountConcat(window[..k], history[i..], id);
  }

  lemma AdmittingKeepsSpaced(history: seq<string>, x: string, w: nat, multiplicity: nat)
    requires Spaced(history, w + 1, multiplicity) && Admits(history, w, multiplicity, x)
    ensures Spaced(history + [x], w + 1, multiplicity)
  {
    var longer := history + [x];
    forall i, j, id | 0 <= i <= j <= |longer| && j - i <= w + 1 ensures Count(longer[i..j], id) <= multiplicity {
      if j <= |history| {
        assert longer[i..j] == history[i..j];
      } else if i < j {
        assert longer[i..j] == longer[i..] && history[i..] == history[i..|history|];
        CountLast(history, x, i, id);
        SuffixOfWindow(history, w, i, id);
      }
    }
  }

  lemma SpacedIsAdmitting(history: seq<string>, x: string, w: nat, multiplicity: nat)
    requires Spaced(history + [x], w + 1, multiplicity)
    ensures Spaced(history, w + 1, multiplicity) && Admits(history, w, multiplicity, x)
  {
    var longer := history + [x];
    forall i, j, id | 0 <= i <= j <= |history| && j - i <= w + 1 ensures Count(history[i..j], id) <= multiplicity {
      assert longer[i..j] == history[i..j];
    }
    var i := if |history| <= w then 0 else |history| - w;
    assert Window(history, w) == history[i..] && longer[i..] == longer[i..|longer|];
    CountLast(history, x, i, x);
  }

  /** The limiter lets a history through exactly when no block of one more than
      the window repeats an id more than `multiplicity` times. */
  lemma {:induction false} AdmittedIffSpaced(history: seq<string>, w: nat, multiplicity: nat)
    ensures Admitted(history, w, multiplicity) <==> Spaced(history, w + 1, multiplicity)
  {
    if history == [] {
      assert forall i, j :: 0 <= i <= j <= |history| ==> history[i..j] == [];
    } else {
      var init, x := history[..|history| - 1], history[|history| - 1];
      assert history == init + [x];
      AdmittedIffSpaced(init, w, multiplicity);
      if Admitted(history, w, multiplicity) {
        AdmittingKeepsSpaced(init, x, w, multiplicity);
      }
      if Spaced(history, w + 1, multiplicity) {
        SpacedIsAdmitting(init, x, w, multiplicity);
      }
    }
  }
}
