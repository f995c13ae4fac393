/**
 The batching log queue of src/lib/logger-queue.ts:17-52. A flush is split at its `await`: its
 first half takes the batch, and later the batch is delivered or fails, with any number of
 other events, and other flushes, in between.
 */
module LogQueue {

  /** `ref` tells entry objects apart: each call of `enqueue` makes a new one. */
  datatype Entry = Entry(ref: nat, level: nat, message: string, timestamp: int)

  const BATCH_SIZE: nat := 50

  /** `flights` holds the batches of suspended flushes; the last three fields are the history. */
  datatype State = State(
    queue: seq<Entry>,
    armed: bool,
    flights: seq<seq<Entry>>,
    enqueued: seq<Entry>,
    delivered: seq<Entry>,
    dropped: seq<Entry>
  )

  const INITIAL := State([], false, [], [], [], [])

  datatype Event = Enqueue(entry: Entry) | TimerFires | Deliver(k: nat) | Fail(k: nat)

  predicate Enabled(s: State, e: Event) {
    match e
    case Enqueue(_) => true
    case TimerFires => s.armed
    case Deliver(k) => k < |s.flights|
    case Fail(k) => k < |s.flights|
  }

  /** `slice(-n)`. */
  function LastOf<T>(s: seq<T>, n: nat): seq<T> {
    if |s| <= n then s else s[|s| - n..]
  }

  function AllBut<T>(s: seq<T>, n: nat): seq<T> {
    if |s| <= n then [] else s[..|s| - n]
  }

  function Without<T>(s: seq<T>, k: nat): seq<T>
    requires k < |s|
  {
    s[..k] + s[k + 1..]
  }

  /** The first half of `flush`. */
  function StartFlush(s: State): State {
    if s.queue == [] then s else s.(queue := [], armed := false, flights := s.flights + [s.queue])
  }

  function Apply(s: State, e: Event): State
    requires Enabled(s, e)
  {
    match e
    case Enqueue(entry) =>
      var t := s.(queue := s.queue + [entry], enqueued := s.enqueued + [entry]);
      if |t.queue| >= BATCH_SIZE then StartFlush(t) else t.(armed := true)
    case TimerFires => StartFlush(s)
    case Deliver(k) => s.(flights := Without(s.flights, k), delivered := s.delivered + s.flights[k])
    case Fail(k) =>
      var all := s.flights[k] + s.queue;
      s.(flights := Without(s.flights, k),
         queue := LastOf(all, BATCH_SIZE),
         dropped := s.dropped + AllBut(all, BATCH_SIZE))
  }

  predicate Possible(es: seq<Event>) {
    es == [] || (Possible(es[..|es| - 1]) && Enabled(After(es[..|es| - 1]), es[|es| - 1]))
  }

  function After(es: seq<Event>): State {
    if es == [] then INITIAL
    else
      var s := After(es[..|es| - 1]);
      if Enabled(s, es[|es| - 1]) then Apply(s, es[|es| - 1]) else s
  }

  /******* The queue as it runs *******/

  /** The class of the source; the ghost fields record what has become of the entries. */
  class Queue {
    var queue: seq<Entry>
    var timer: bool
    var flights: seq<seq<Entry>>
    ghost var enqueued: seq<Entry>
    ghost var delivered: seq<Entry>
    ghost var dropped: seq<Entry>

    ghost function Current(): State
      reads this
    {
      State(queue, timer, flights, enqueued, delivered, dropped)
    }

    constructor ()
      ensures Current() == INITIAL
    {
      queue, timer, flights := [], false, [];
      enqueued, delivered, dropped := [], [], [];
    }

    method EnqueueEntry(entry: Entry)
      modifies this
      ensures Current() == Apply(old(Current()), Enqueue(entry))
    {
      queue := queue + [entry];
      enqueued := enqueued + [entry];
      if |queue| >= BATCH_SIZE {
        Flush();
      } else if !timer {
        timer := true;
      }
    }

    /** `flush` up to its `await`; the timer's callback is this method too. */
    method Flush()
      modifies this
      ensures Current() == StartFlush(old(Current()))
    {
      if |queue| == 0 {
        return;
      }
      if timer {
        timer := false;
      }
      var entries := queue;
      queue := [];
      flights := flights + [entries];
    }

    /** The `await` of a flush returns. */
    method Delivered(k: nat)
      requires k < |flights|
      modifies this
      ensures Current() == Apply(old(Current()), Deliver(k))
    {
      delivered := delivered + flights[k];
      flights := flights[..k] + flights[k + 1..];
    }

    /** The `await` of a flush throws: its entries go back in front, and the newest 50 stay. */
    method Failed(k: nat)
      requires k < |flights|
      modifies this
      ensures Current() == Apply(old(Current()), Fail(k))
    {
      var all := flights[k] + queue;
      flights := flights[..k] + flights[k + 1..];
      dropped := dropped + AllBut(all, BATCH_SIZE);
      queue := if |all| > BATCH_SIZE then all[|all| - BATCH_SIZE..] else all;
    }
  }

  /******* Conservation and bounds *******/

  function Flat(flights: seq<seq<Entry>>): seq<Entry> {
    if flights == [] then [] else Flat(flights[..|flights| - 1]) + flights[|flights| - 1]
  }

  lemma {:induction false} FlatConcat(a: seq<seq<Entry>>, b: seq<seq<Entry>>)
    ensures Flat(a + b) == Flat(a) + Flat(b)
  {
    if b == [] {
      assert a + b == a;
    } else {
      FlatConcat(a, b[..|b| - 1]);
      assert (a + b)[..|a + b| - 1] == a + b[..|b| - 1];
    }
  }

  lemma FlatUpTo(flights: seq<seq<Entry>>, k: nat)
    requires k < |flights|
    ensures Flat(flights[..k + 1]) == Flat(flights[..k]) + flights[k]
  {
    assert flights[..k + 1][..k] == flights[..k];
  }

  lemma Cut<T>(s: seq<T>, k: nat)
    requires k <= |s|
    ensures s == s[..k] + s[k..]
  {
  }

  lemma FlatAround(flights: seq<seq<Entry>>, k: nat)
    requires k < |flights|
    ensures Flat(flights) == Flat(flights[..k]) + flights[k] + Flat(flights[k + 1..])
  {
    Cut(flights, k + 1);
    FlatConcat(flights[..k + 1], flights[k + 1..]);
    FlatUpTo(flights, k);
  }

  lemma FlatWithout(flights: seq<seq<Entry>>, k: nat)
    requires k < |flights|
    ensures multiset(Flat(flights)) == multiset(Flat(Without(flights, k))) + multiset(flights[k])
  {
    FlatAround(flights, k);
    FlatConcat(flights[..k], flights[k + 1..]);
  }

  lemma Split<T>(s: seq<T>, n: nat)
    ensures s == AllBut(s, n) + LastOf(s, n)
  {
  }

  /** Between events: nothing is lost or doubled, the queue is short, and an armed timer has work. */
  predicate Sound(s: State) {
    && multiset(s.enqueued)
    == multiset(s.delivered) + multiset(Flat(s.flights)) + multiset(s.queue) + multiset(s.dropped)
    && |s.queue| <= BATCH_SIZE
    && (s.armed ==> s.queue != [])
    && forall k :: 0 <= k < |s.flights| ==> s.flights[k] != []
  }

  lemma FlushSound(s: State)
    requires multiset(s.enqueued)
          == multiset(s.delivered) + multiset(Flat(s.flights)) + multiset(s.queue) + multiset(s.dropped)
    requires s.queue != [] && forall k :: 0 <= k < |s.flights| ==> s.flights[k] != []
    ensures Sound(StartFlush(s))
  {
    assert (s.flights + [s.queue])[..|s.flights|] == s.flights;
  }

  lemma FailConserves(batch: seq<Entry>, queue: seq<Entry>)
    ensures multiset(batch) + multiset(queue)
         == multiset(AllBut(batch + queue, BATCH_SIZE)) + multiset(LastOf(batch + queue, BATCH_SIZE))
  {
    Split(batch + queue, BATCH_SIZE);
    assert multiset(batch + queue) == multiset(batch) + multiset(queue);
  }

  lemma Rebalance<T>(all: multiset<T>, delivered: multiset<T>, flying: multiset<T>, batch: multiset<T>,
                     queue: multiset<T>, dropped: multiset<T>, lost: multiset<T>, kept: multiset<T>)
    requires all == delivered + (flying + batch) + queue + dropped
    requires batch + queue == lost + kept
    ensures all == delivered + flying + kept + (dropped + lost)
  {
    calc {
      all;
      delivered + flying + (batch + queue) + dropped;
      delivered + flying + (lost + kept) + dropped;
      delivered + flying + kept + (dropped + lost);
    }
  }

  lemma WithoutNonEmpty(flights: seq<seq<Entry>>, k: nat)
    requires k < |flights| && forall j :: 0 <= j < |flights| ==> flights[j] != []
    ensures forall j :: 0 <= j < |Without(flights, k)| ==> Without(flights, k)[j] != []
  {
  }

  lemma FailSound(s: State, k: nat)
    requires Sound(s) && k < |s.flights|
    ensures Sound(Apply(s, Fail(k)))
  {
    var all := s.flights[k] + s.queue;
    var lost, kept := AllBut(all, BATCH_SIZE), LastOf(all, BATCH_SIZE);
    FlatWithout(s.flights, k);
    WithoutNonEmpty(s.flights, k);
    FailConserves(s.flights[k], s.queue);
    Rebalance(multiset(s.enqueued), multiset(s.delivered), multiset(Flat(Without(s.flights, k))),
              multiset(s.flights[k]), multiset(s.queue), multiset(s.dropped), multiset(lost), multiset(kept));
    assert multiset(s.dropped + lost) == multiset(s.dropped) + multiset(lost);
  }

  lemma DeliverSound(s: State, k: nat)
    requires Sound(s) && k < |s.flights|
    ensures Sound(Apply(s, Deliver(k)))
  {
    FlatWithout(s.flights, k);
    WithoutNonEmpty(s.flights, k);
    assert multiset(s.delivered + s.flights[k]) == multiset(s.delivered) + multiset(s.flights[k]);
  }

  lemma StepSound(s: State, e: Event)
    requires Sound(s) && Enabled(s, e)
    ensures Sound(Apply(s, e))
  {
    match e
    case Enqueue(entry) =>
      var t := s.(queue := s.queue + [entry], enqueued := s.enqueued + [entry]);
      if |t.queue| >= BATCH_SIZE {
        FlushSound(t);
      }
    case TimerFires => FlushSound(s);
    case Deliver(k) => DeliverSound(s, k);
    case Fail(k) => FailSound(s, k);
  }

  /** Over any run, with any number of flushes in flight at once. */
  lemma {:induction false} AlwaysSound(es: seq<Event>)
    requires Possible(es)
    ensures Sound(After(es))
  {
    if es != [] {
      AlwaysSound(es[..|es| - 1]);
      StepSound(After(es[..|es| - 1]), es[|es| - 1]);
    }
  }

  lemma OverflowIsOfBatch(batch: seq<Entry>, queue: seq<Entry>)
    requires |queue| <= BATCH_SIZE
    ensures var n := if |batch| + |queue| <= BATCH_SIZE then 0 else |batch| + |queue| - BATCH_SIZE;
            n <= |batch| && AllBut(batch + queue, BATCH_SIZE) == batch[..n]
  {
  }

  lemma FailDrops(s: State, k: nat)
    requires |s.queue| <= BATCH_SIZE && k < |s.flights|
    ensures exists n: nat :: n <= |s.flights[k]| && Apply(s, Fail(k)).dropped == s.dropped + s.flights[k][..n]
  {
    OverflowIsOfBatch(s.flights[k], s.queue);
  }

  /** Only a failure drops entries, and only the oldest ones of the batch that failed. */
  lemma OnlyFailedEntriesDropped(es: seq<Event>, e: Event)
    requires Possible(es) && Enabled(After(es), e)
    ensures !e.Fail? ==> Apply(After(es), e).dropped == After(es).dropped
    ensures e.Fail? ==>
              var batch := After(es).flights[e.k];
              exists n: nat :: n <= |batch| && Apply(After(es), e).dropped == After(es).dropped + batch[..n]
  {
    if e.Fail? {
      AlwaysSound(es);
      FailDrops(After(es), e.k);
    }
  }

  /******* When batches take off *******/

  lemma AfterOneMore(es: seq<Event>, e: Event)
    requires Possible(es) && Enabled(After(es), e)
    ensures Possible(es + [e]) && After(es + [e]) == Apply(After(es), e)
  {
    assert (es + [e])[..|es|] == es;
  }

  /**
   The entry that makes the queue 50 long, or longer behind a failure, takes off at once with all
   that waited; below that it waits under a timer, and the flights stay as they are.
   */
  lemma TakesOffExactlyAtFifty(es: seq<Event>, entry: Entry)
    requires Possible(es)
    ensures var s, t := After(es), After(es + [Enqueue(entry)]);
            && (|t.flights| > |s.flights| <==> |s.queue| + 1 >= 50)
            && (|s.queue| + 1 < 50 ==> t.queue == s.queue + [entry] && t.armed && t.flights == s.flights)
            && (|s.queue| + 1 >= 50 ==>
                  t.queue == [] && !t.armed && t.flights == s.flights + [s.queue + [entry]]
                  && 50 <= |s.queue + [entry]| <= 51)
  {
    AlwaysSound(es);
    AfterOneMore(es, Enqueue(entry));
  }

  /** A timer that fires finds entries, and all of them take off. */
  lemma TimerTakesAll(es: seq<Event>)
    requires Possible(es + [TimerFires])
    ensures var s, t := After(es), After(es + [TimerFires]);
            && s.queue != [] && t.queue == [] && !t.armed && t.flights == s.flights + [s.queue]
  {
    assert (es + [TimerFires])[..|es|] == es;
    AlwaysSound(es);
    AfterOneMore(es, TimerFires);
  }

  /** A failed batch comes back in front of what has queued up, short of the oldest entries beyond 50. */
  lemma FailedComesBack(es: seq<Event>, k: nat)
    requires Possible(es) && k < |After(es).flights|
    ensures var s, t := After(es), After(es + [Fail(k)]);
            var excess := if |s.flights[k]| + |s.queue| > 50 then |s.flights[k]| + |s.queue| - 50 else 0;
            && excess <= |s.flights[k]| && t.queue == s.flights[k][excess..] + s.queue
            && t.dropped == s.dropped + s.flights[k][..excess]
  {
    AlwaysSound(es);
    AfterOneMore(es, Fail(k));
    OverflowIsOfBatch(After(es).flights[k], After(es).queue);
    RestBehindOverflow(After(es).flights[k], After(es).queue);
  }

  lemma RestBehindOverflow(batch: seq<Entry>, queue: seq<Entry>)
    requires |queue| <= BATCH_SIZE
    ensures var n := if |batch| + |queue| <= BATCH_SIZE then 0 else |batch| + |queue| - BATCH_SIZE;
            n <= |batch| && LastOf(batch + queue, BATCH_SIZE) == batch[n..] + queue
  {
  }

  /******* Timers *******/

  /** A queue that waits without a timer: nothing will flush it until another entry arrives. */
  predicate Stranded(s: State) {
    s.queue != [] && !s.armed
  }

  lemma StrandedStep(es: seq<Event>, e: Event)
    requires Possible(es) && Enabled(After(es), e)
    ensures Stranded(Apply(After(es), e)) <==>
              (e.Fail? && !After(es).armed) || (Stranded(After(es)) && !e.Enqueue?)
  {
    AlwaysSound(es);
  }

  /** A failure that found no timer armed, with no entry enqueued since. */
  predicate Strands(es: seq<Event>, k: nat)
    requires k < |es|
  {
    && es[k].Fail? && !After(es[..k]).armed
    && forall j :: k < j < |es| ==> !es[j].Enqueue?
  }

  /** A non-empty queue lacks a timer exactly after such a failure: never in a run without failures. */
  lemma {:induction false} StrandedExactlyWhen(es: seq<Event>)
    requires Possible(es)
    ensures Stranded(After(es)) <==> exists k :: 0 <= k < |es| && Strands(es, k)
  {
    if es != [] {
      var front, last := es[..|es| - 1], es[|es| - 1];
      StrandedExactlyWhen(front);
      StrandedStep(front, last);
      if k :| 0 <= k < |front| && Strands(front, k) {
        assert es[..k] == front[..k];
        if !last.Enqueue? {
          assert Strands(es, k);
        }
      }
      if k :| 0 <= k < |es| && Strands(es, k) {
        if k < |front| {
          assert es[..k] == front[..k];
          assert forall j :: k < j < |front| ==> front[j] == es[j];
          assert Strands(front, k);
        } else {
          assert es[..k] == front;
        }
      }
      if last.Fail? && !After(front).armed {
        assert es[..|front|] == front;
        assert Strands(es, |front|);
      }
    }
  }

  /******* Order *******/

  predicate IsSubsequence<T(==)>(a: seq<T>, b: seq<T>) {
    if a == [] then true
    else if b == [] then false
    else if a[|a| - 1] == b[|b| - 1] then IsSubsequence(a[..|a| - 1], b[..|b| - 1])
    else IsSubsequence(a, b[..|b| - 1])
  }

  lemma {:induction false} DropOne<T>(a: seq<T>, b: seq<T>)
    requires a != [] && IsSubsequence(a, b)
    ensures IsSubsequence(a[..|a| - 1], b)
    decreases |b|, 0
  {
    if a[|a| - 1] == b[|b| - 1] {
      Longer(a[..|a| - 1], b[..|b| - 1], b[|b| - 1]);
      assert b[..|b| - 1] + [b[|b| - 1]] == b;
    } else {
      DropOne(a, b[..|b| - 1]);
      Longer(a[..|a| - 1], b[..|b| - 1], b[|b| - 1]);
      assert b[..|b| - 1] + [b[|b| - 1]] == b;
    }
  }

  lemma {:induction false} Longer<T>(a: seq<T>, b: seq<T>, x: T)
    requires IsSubsequence(a, b)
    ensures IsSubsequence(a, b + [x])
    decreases |b|, 1
  {
    assert (b + [x])[..|b + [x]| - 1] == b;
    if a != [] && a[|a| - 1] == x {
      DropOne(a, b);
    }
  }

  lemma {:induction false} DropMiddle<T>(a: seq<T>, mid: seq<T>, c: seq<T>, b: seq<T>)
    requires IsSubsequence(a + mid + c, b)
    ensures IsSubsequence(a + c, b)
    decreases |mid| + |c|, |b|
  {
    var whole := a + mid + c;
    if c == [] {
      assert whole == a + mid && a + c == a;
      if mid != [] {
        DropOne(whole, b);
        assert whole[..|whole| - 1] == a + mid[..|mid| - 1] + c;
        DropMiddle(a, mid[..|mid| - 1], c, b);
      }
    } else {
      var front, x := c[..|c| - 1], c[|c| - 1];
      assert whole[..|whole| - 1] == a + mid + front;
      assert (a + c)[..|a + c| - 1] == a + front;
      if x == b[|b| - 1] {
        DropMiddle(a, mid, front, b[..|b| - 1]);
      } else {
        DropMiddle(a, mid, c, b[..|b| - 1]);
      }
    }
  }

  /** What has not been dropped, in the order in which it was or will be delivered. */
  function Line(s: State): seq<Entry> {
    s.delivered + Flat(s.flights) + s.queue
  }

  /** Flights end in turn: the oldest is delivered, the newest fails, or one for which the queue has no room. */
  predicate TakesItsTurn(s: State, e: Event) {
    match e
    case Deliver(k) => k == 0
    case Fail(k) => k == |s.flights| - 1 || |s.queue| >= BATCH_SIZE
    case _ => true
  }

  predicate InTurn(es: seq<Event>) {
    es == [] || (InTurn(es[..|es| - 1]) && TakesItsTurn(After(es[..|es| - 1]), es[|es| - 1]))
  }

  /** At no point of the run are two flushes in flight. */
  predicate OneFlight(es: seq<Event>) {
    |After(es).flights| <= 1 && (es != [] ==> OneFlight(es[..|es| - 1]))
  }

  lemma {:induction false} OneFlightIsInTurn(es: seq<Event>)
    requires Possible(es) && OneFlight(es)
    ensures InTurn(es)
  {
    if es != [] {
      OneFlightIsInTurn(es[..|es| - 1]);
    }
  }

  lemma FlatOne(batch: seq<Entry>)
    ensures Flat([batch]) == batch
  {
    assert Flat([]) + batch == batch;
  }

  lemma FlatFirst(flights: seq<seq<Entry>>)
    requires flights != []
    ensures Flat(flights) == flights[0] + Flat(flights[1..])
  {
    assert flights == [flights[0]] + flights[1..];
    FlatConcat([flights[0]], flights[1..]);
    FlatOne(flights[0]);
  }

  lemma FlatOneMore(flights: seq<seq<Entry>>, batch: seq<Entry>)
    ensures Flat(flights + [batch]) == Flat(flights) + batch
  {
    assert (flights + [batch])[..|flights|] == flights;
  }

  lemma FlushKeepsLine(s: State)
    ensures Line(StartFlush(s)) == Line(s)
  {
    FlatOneMore(s.flights, s.queue);
  }

  lemma OneMoreInLine(s: State, entry: Entry)
    ensures Line(s.(queue := s.queue + [entry], enqueued := s.enqueued + [entry])) == Line(s) + [entry]
  {
  }

  lemma EnqueueKeepsOrder(s: State, entry: Entry)
    requires IsSubsequence(Line(s), s.enqueued)
    ensures IsSubsequence(Line(s) + [entry], s.enqueued + [entry])
  {
    assert (Line(s) + [entry])[..|Line(s)|] == Line(s);
    assert (s.enqueued + [entry])[..|s.enqueued|] == s.enqueued;
  }

  lemma DeliverKeepsLine(s: State)
    requires s.flights != []
    ensures Line(Apply(s, Deliver(0))) == Line(s)
  {
    FlatFirst(s.flights);
    assert Without(s.flights, 0) == s.flights[1..];
  }

  lemma FailShortensLine(s: State, k: nat)
    requires k + 1 == |s.flights|
    ensures var all, rest := s.flights[k] + s.queue, s.delivered + Flat(s.flights[..k]);
            && Line(s) == rest + AllBut(all, BATCH_SIZE) + LastOf(all, BATCH_SIZE)
            && Line(Apply(s, Fail(k))) == rest + LastOf(all, BATCH_SIZE)
  {
    assert Without(s.flights, k) == s.flights[..k];
    Split(s.flights[k] + s.queue, BATCH_SIZE);
  }

  lemma FailKeepsOrder(s: State, k: nat)
    requires IsSubsequence(Line(s), s.enqueued) && k + 1 == |s.flights|
    ensures IsSubsequence(Line(Apply(s, Fail(k))), s.enqueued)
  {
    var all := s.flights[k] + s.queue;
    FailShortensLine(s, k);
    DropMiddle(s.delivered + Flat(s.flights[..k]), AllBut(all, BATCH_SIZE), LastOf(all, BATCH_SIZE), s.enqueued);
  }

  lemma FailKeepsLine(s: State, k: nat)
    requires k + 1 == |s.flights| && Apply(s, Fail(k)).dropped == s.dropped
    ensures Line(Apply(s, Fail(k))) == Line(s)
  {
    FailShortensLine(s, k);
    assert AllBut(s.flights[k] + s.queue, BATCH_SIZE) == [];
  }

  /** A batch for which the queue has no room is dropped whole. */
  lemma FullQueueDrops(s: State, k: nat)
    requires k < |s.flights| && |s.queue| == BATCH_SIZE
    ensures Apply(s, Fail(k)).queue == s.queue
    ensures Apply(s, Fail(k)).dropped == s.dropped + s.flights[k]
  {
  }

  lemma LineAround(s: State, k: nat)
    requires k < |s.flights|
    ensures Line(s) == s.delivered + Flat(s.flights[..k]) + s.flights[k] + (Flat(s.flights[k + 1..]) + s.queue)
  {
    FlatAround(s.flights, k);
  }

  lemma LineWithout(s: State, k: nat)
    requires k < |s.flights| && |s.queue| == BATCH_SIZE
    ensures Line(Apply(s, Fail(k))) == s.delivered + Flat(s.flights[..k]) + (Flat(s.flights[k + 1..]) + s.queue)
  {
    FullQueueDrops(s, k);
    FlatConcat(s.flights[..k], s.flights[k + 1..]);
  }

  lemma FullQueueKeepsOrder(s: State, k: nat)
    requires IsSubsequence(Line(s), s.enqueued) && k < |s.flights| && |s.queue| == BATCH_SIZE
    ensures IsSubsequence(Line(Apply(s, Fail(k))), s.enqueued)
  {
    LineAround(s, k);
    LineWithout(s, k);
    DropMiddle(s.delivered + Flat(s.flights[..k]), s.flights[k], Flat(s.flights[k + 1..]) + s.queue, s.enqueued);
  }

  lemma OrderedFail(s: State, k: nat)
    requires Sound(s) && IsSubsequence(Line(s), s.enqueued) && k < |s.flights| && TakesItsTurn(s, Fail(k))
    ensures IsSubsequence(Line(Apply(s, Fail(k))), s.enqueued)
    ensures Apply(s, Fail(k)).dropped == s.dropped ==> Line(Apply(s, Fail(k))) == Line(s)
  {
    if k + 1 == |s.flights| {
      FailKeepsOrder(s, k);
      if Apply(s, Fail(k)).dropped == s.dropped {
        FailKeepsLine(s, k);
      }
    } else {
      FullQueueKeepsOrder(s, k);
      FullQueueDrops(s, k);
    }
  }

  lemma OrderedStep(s: State, e: Event)
    requires Sound(s) && IsSubsequence(Line(s), s.enqueued) && Enabled(s, e) && TakesItsTurn(s, e)
    ensures IsSubsequence(Line(Apply(s, e)), Apply(s, e).enqueued)
    ensures Apply(s, e).dropped == s.dropped && Line(s) == s.enqueued ==>
              Line(Apply(s, e)) == Apply(s, e).enqueued
  {
    match e
    case Enqueue(entry) =>
      OneMoreInLine(s, entry);
      EnqueueKeepsOrder(s, entry);
      FlushKeepsLine(s.(queue := s.queue + [entry], enqueued := s.enqueued + [entry]));
    case TimerFires => FlushKeepsLine(s);
    case Deliver(_) => DeliverKeepsLine(s);
    case Fail(k) => OrderedFail(s, k);
  }

  /** While flights end in turn, what is not dropped keeps the order in which it was enqueued. */
  lemma {:induction false} OrderKept(es: seq<Event>)
    requires Possible(es) && InTurn(es)
    ensures IsSubsequence(Line(After(es)), After(es).enqueued)
    ensures After(es).dropped == [] ==> Line(After(es)) == After(es).enqueued
  {
    if es != [] {
      OrderKept(es[..|es| - 1]);
      AlwaysSound(es[..|es| - 1]);
      HistoryGrows(After(es[..|es| - 1]), es[|es| - 1]);
      OrderedStep(After(es[..|es| - 1]), es[|es| - 1]);
    }
  }

  /******* Exactly when the order is kept *******/

  predicate Distinct(entries: seq<Entry>) {
    forall i, j :: 0 <= i < j < |entries| ==> entries[i] != entries[j]
  }

  /** `x` was enqueued before `y`. */
  predicate Older(enqueued: seq<Entry>, x: Entry, y: Entry) {
    exists p, q :: 0 <= p < q < |enqueued| && enqueued[p] == x && enqueued[q] == y
  }

  lemma OlderStays(enqueued: seq<Entry>, more: seq<Entry>, x: Entry, y: Entry)
    requires Older(enqueued, x, y)
    ensures Older(enqueued + more, x, y)
  {
    var p, q :| 0 <= p < q < |enqueued| && enqueued[p] == x && enqueued[q] == y;
    assert (enqueued + more)[p] == x && (enqueued + more)[q] == y;
  }

  lemma OlderThanLast(enqueued: seq<Entry>, x: Entry, y: Entry)
    requires x in enqueued
    ensures Older(enqueued + [y], x, y)
  {
    var p :| 0 <= p < |enqueued| && enqueued[p] == x;
    assert (enqueued + [y])[p] == x && (enqueued + [y])[|enqueued|] == y;
  }

  lemma {:induction false} SubsequenceInOrder(s: seq<Entry>, enqueued: seq<Entry>, i: nat, j: nat)
    requires IsSubsequence(s, enqueued) && i < j < |s|
    ensures Older(enqueued, s[i], s[j])
    decreases |enqueued|
  {
    var front := enqueued[..|enqueued| - 1];
    assert enqueued == front + [enqueued[|enqueued| - 1]];
    if s[|s| - 1] != enqueued[|enqueued| - 1] {
      SubsequenceInOrder(s, front, i, j);
      OlderStays(front, [enqueued[|enqueued| - 1]], s[i], s[j]);
    } else if j < |s| - 1 {
      SubsequenceInOrder(s[..|s| - 1], front, i, j);
      OlderStays(front, [enqueued[|enqueued| - 1]], s[i], s[j]);
    } else {
      SubsequenceHas(s[..|s| - 1], front, i);
      OlderThanLast(front, s[i], s[j]);
    }
  }

  lemma {:induction false} SubsequenceHas(s: seq<Entry>, enqueued: seq<Entry>, i: nat)
    requires IsSubsequence(s, enqueued) && i < |s|
    ensures s[i] in enqueued
    decreases |enqueued|
  {
    var front := enqueued[..|enqueued| - 1];
    if s[|s| - 1] != enqueued[|enqueued| - 1] {
      SubsequenceHas(s, front, i);
    } else if i < |s| - 1 {
      SubsequenceHas(s[..|s| - 1], front, i);
    }
  }

  lemma NotBothOlder(enqueued: seq<Entry>, x: Entry, y: Entry)
    requires Distinct(enqueued) && Older(enqueued, x, y)
    ensures !Older(enqueued, y, x)
  {
  }

  /** If the newer entry comes first, the order of enqueueing is lost. */
  lemma Inverted(a: seq<Entry>, b: seq<Entry>, enqueued: seq<Entry>, x: Entry, y: Entry)
    requires Distinct(enqueued) && Older(enqueued, x, y) && y in a && x in b
    ensures !IsSubsequence(a + b, enqueued)
  {
    var i :| 0 <= i < |a| && a[i] == y;
    var j :| 0 <= j < |b| && b[j] == x;
    assert (a + b)[i] == y && (a + b)[|a| + j] == x;
    NotBothOlder(enqueued, x, y);
    if IsSubsequence(a + b, enqueued) {
      SubsequenceInOrder(a + b, enqueued, i, |a| + j);
    }
  }

  lemma {:induction false} SameIsSubsequence<T>(a: seq<T>)
    ensures IsSubsequence(a, a)
  {
    if a != [] {
      SameIsSubsequence(a[..|a| - 1]);
    }
  }

  /** The batch ends with an entry that is newer than `x`. */
  predicate EndsNewer(enqueued: seq<Entry>, x: Entry, batch: seq<Entry>) {
    batch != [] && Older(enqueued, x, batch[|batch| - 1])
  }

  /** A flight ends newer than all that is in the flights before it, and so does the queue if the timer is armed. */
  ghost predicate Aged(s: State) {
    && (forall i, j, x :: 0 <= i < j < |s.flights| && x in s.flights[i] ==> EndsNewer(s.enqueued, x, s.flights[j]))
    && (s.armed ==> forall i, x :: 0 <= i < |s.flights| && x in s.flights[i] ==> EndsNewer(s.enqueued, x, s.queue))
  }

  lemma {:induction false} FlatHas(flights: seq<seq<Entry>>, k: nat, x: Entry)
    requires k < |flights| && x in flights[k]
    ensures x in Flat(flights)
  {
    if k < |flights| - 1 {
      FlatHas(flights[..|flights| - 1], k, x);
    }
  }

  lemma FlyingWasEnqueued(s: State, k: nat, x: Entry)
    requires Sound(s) && k < |s.flights| && x in s.flights[k]
    ensures x in s.enqueued
  {
    FlatHas(s.flights, k, x);
    assert x in multiset(s.enqueued);
  }

  lemma FlushAged(s: State)
    requires Aged(s.(armed := true))
    ensures Aged(StartFlush(s))
  {
  }

  lemma EnqueueAged(s: State, entry: Entry)
    requires Sound(s) && Aged(s)
    ensures Aged(s.(queue := s.queue + [entry], enqueued := s.enqueued + [entry], armed := true))
  {
    var t := s.(queue := s.queue + [entry], enqueued := s.enqueued + [entry], armed := true);
    forall i, j, x | 0 <= i < j < |t.flights| && x in t.flights[i]
      ensures EndsNewer(t.enqueued, x, t.flights[j])
    {
      OlderStays(s.enqueued, [entry], x, s.flights[j][|s.flights[j]| - 1]);
    }
    forall i, x | 0 <= i < |t.flights| && x in t.flights[i]
      ensures EndsNewer(t.enqueued, x, t.queue)
    {
      FlyingWasEnqueued(s, i, x);
      OlderThanLast(s.enqueued, x, entry);
    }
  }

  lemma WithoutAged(s: State, k: nat)
    requires Aged(s) && k < |s.flights|
    ensures Aged(s.(flights := Without(s.flights, k)))
  {
    var t := Without(s.flights, k);
    assert forall i :: 0 <= i < |t| ==> t[i] == s.flights[if i < k then i else i + 1];
  }

  lemma FailAged(s: State, k: nat)
    requires Sound(s) && Aged(s) && k < |s.flights|
    ensures Aged(Apply(s, Fail(k)))
  {
    var t := s.(flights := Without(s.flights, k));
    var queue := LastOf(s.flights[k] + s.queue, BATCH_SIZE);
    WithoutAged(s, k);
    forall i, x | s.armed && 0 <= i < |t.flights| && x in t.flights[i]
      ensures EndsNewer(s.enqueued, x, queue)
    {
      assert EndsNewer(t.enqueued, x, t.queue);
      assert queue[|queue| - 1] == s.queue[|s.queue| - 1];
    }
  }

  lemma AgedStep(s: State, e: Event)
    requires Sound(s) && Aged(s) && Enabled(s, e)
    ensures Aged(Apply(s, e))
  {
    match e
    case Enqueue(entry) =>
      EnqueueAged(s, entry);
      FlushAged(s.(queue := s.queue + [entry], enqueued := s.enqueued + [entry]));
    case TimerFires => FlushAged(s);
    case Deliver(k) => WithoutAged(s, k);
    case Fail(k) => FailAged(s, k);
  }

  lemma {:induction false} AlwaysAged(es: seq<Event>)
    requires Possible(es)
    ensures Aged(After(es))
  {
    if es != [] {
      AlwaysAged(es[..|es| - 1]);
      AlwaysSound(es[..|es| - 1]);
      AgedStep(After(es[..|es| - 1]), es[|es| - 1]);
    }
  }

  lemma DeliverOutOfTurn(s: State, k: nat)
    requires Sound(s) && Aged(s) && Distinct(s.enqueued) && 0 < k < |s.flights|
    ensures !IsSubsequence(Line(Apply(s, Deliver(k))), s.enqueued)
  {
    var rest := Without(s.flights, k);
    var x, y := s.flights[0][0], s.flights[k][|s.flights[k]| - 1];
    assert EndsNewer(s.enqueued, x, s.flights[k]);
    FlatHas(rest, 0, x);
    Inverted(s.delivered + s.flights[k], Flat(rest) + s.queue, s.enqueued, x, y);
    assert Line(Apply(s, Deliver(k))) == (s.delivered + s.flights[k]) + (Flat(rest) + s.queue);
  }

  lemma FailOutOfTurn(s: State, k: nat)
    requires Sound(s) && Aged(s) && Distinct(s.enqueued) && k + 1 < |s.flights| && |s.queue| < BATCH_SIZE
    ensures !IsSubsequence(Line(Apply(s, Fail(k))), s.enqueued)
  {
    var rest, all := Without(s.flights, k), s.flights[k] + s.queue;
    var x, y := s.flights[k][|s.flights[k]| - 1], s.flights[k + 1][|s.flights[k + 1]| - 1];
    assert EndsNewer(s.enqueued, x, s.flights[k + 1]);
    assert rest[k] == s.flights[k + 1];
    FlatHas(rest, k, y);
    assert all[|s.flights[k]| - 1] == x && LastOf(all, BATCH_SIZE)[|LastOf(all, BATCH_SIZE)| - |s.queue| - 1] == x;
    Inverted(s.delivered + Flat(rest), LastOf(all, BATCH_SIZE), s.enqueued, x, y);
  }

  lemma OutOfTurn(s: State, e: Event)
    requires Sound(s) && Aged(s) && Distinct(s.enqueued) && Enabled(s, e) && !TakesItsTurn(s, e)
    ensures !IsSubsequence(Line(Apply(s, e)), Apply(s, e).enqueued)
  {
    match e
    case Deliver(k) => DeliverOutOfTurn(s, k);
    case Fail(k) => FailOutOfTurn(s, k);
  }

  lemma InTurnKeepsLine(s: State, e: Event)
    requires Sound(s) && Enabled(s, e) && TakesItsTurn(s, e) && Apply(s, e).dropped == s.dropped
    ensures Line(Apply(s, e)) == Line(s) + (if e.Enqueue? then [e.entry] else [])
    ensures Apply(s, e).enqueued == s.enqueued + (if e.Enqueue? then [e.entry] else [])
  {
    match e
    case Enqueue(entry) =>
      OneMoreInLine(s, entry);
      FlushKeepsLine(s.(queue := s.queue + [entry], enqueued := s.enqueued + [entry]));
    case TimerFires => FlushKeepsLine(s);
    case Deliver(_) => DeliverKeepsLine(s);
    case Fail(k) =>
      if k + 1 == |s.flights| {
        FailKeepsLine(s, k);
      } else {
        FullQueueDrops(s, k);
      }
  }

  lemma SameMore(a: seq<Entry>, b: seq<Entry>, more: seq<Entry>)
    ensures a + more == b + more <==> a == b
  {
    assert |a| == |b| ==> a == (a + more)[..|a|] && b == (b + more)[..|b|];
  }

  /** One event that drops nothing: in turn it neither makes nor mends disorder, out of turn it makes it. */
  lemma OrderStep(s: State, e: Event)
    requires Sound(s) && Aged(s) && Enabled(s, e)
    requires Distinct(s.enqueued) && Apply(s, e).dropped == s.dropped
    ensures Line(Apply(s, e)) == Apply(s, e).enqueued <==> Line(s) == s.enqueued && TakesItsTurn(s, e)
  {
    if TakesItsTurn(s, e) {
      InTurnKeepsLine(s, e);
      SameMore(Line(s), s.enqueued, if e.Enqueue? then [e.entry] else []);
    } else {
      OutOfTurn(s, e);
      SameIsSubsequence(Apply(s, e).enqueued);
    }
  }

  lemma HistoryGrows(s: State, e: Event)
    requires Enabled(s, e)
    ensures s.enqueued <= Apply(s, e).enqueued && s.dropped <= Apply(s, e).dropped
  {
  }

  /** In a run that drops nothing the entries stand in the order of enqueueing if and only if flights ended in turn. */
  lemma {:induction false} OrderExactlyWhen(es: seq<Event>)
    requires Possible(es) && Distinct(After(es).enqueued) && After(es).dropped == []
    ensures Line(After(es)) == After(es).enqueued <==> InTurn(es)
  {
    if es != [] {
      var front, e := es[..|es| - 1], es[|es| - 1];
      HistoryGrows(After(front), e);
      OrderExactlyWhen(front);
      AlwaysSound(front);
      AlwaysAged(front);
      OrderStep(After(front), e);
    }
  }

  /** What is left at any point of the run stands in the order of enqueueing. */
  predicate AlwaysInOrder(es: seq<Event>) {
    IsSubsequence(Line(After(es)), After(es).enqueued) && (es != [] ==> AlwaysInOrder(es[..|es| - 1]))
  }

  /** Whatever is dropped, what is left is in order throughout the run if and only if flights end in turn. */
  lemma {:induction false} AlwaysInOrderExactlyWhen(es: seq<Event>)
    requires Possible(es) && Distinct(After(es).enqueued)
    ensures AlwaysInOrder(es) <==> InTurn(es)
  {
    if es != [] {
      var front, e := es[..|es| - 1], es[|es| - 1];
      HistoryGrows(After(front), e);
      AlwaysInOrderExactlyWhen(front);
      AlwaysSound(front);
      AlwaysAged(front);
      if InTurn(es) {
        OrderKept(es);
      } else if !TakesItsTurn(After(front), e) {
        OutOfTurn(After(front), e);
      }
    }
  }

  /** With two flushes in flight the order may be lost: the second batch may be delivered first. */
  lemma TwoFlightsMayReorder(a: Entry, b: Entry)
    ensures var es := [Enqueue(a), TimerFires, Enqueue(b), TimerFires, Deliver(1), Deliver(0)];
            Possible(es) && After(es).enqueued == [a, b] && After(es).delivered == [b, a]
  {
    var es1 := [Enqueue(a)];
    var es2 := es1 + [TimerFires];
    var es3 := es2 + [Enqueue(b)];
    var es4 := es3 + [TimerFires];
    var es5 := es4 + [Deliver(1)];
    var es6 := es5 + [Deliver(0)];
    AfterOneMore([], Enqueue(a));
    assert [] + [Enqueue(a)] == es1;
    AfterOneMore(es1, TimerFires);
    AfterOneMore(es2, Enqueue(b));
    AfterOneMore(es3, TimerFires);
    AfterOneMore(es4, Deliver(1));
    AfterOneMore(es5, Deliver(0));
    assert es6 == [Enqueue(a), TimerFires, Enqueue(b), TimerFires, Deliver(1), Deliver(0)];
  }
}
