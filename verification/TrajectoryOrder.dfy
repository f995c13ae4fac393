/**
 The order of tool messages does not matter to `build_atif_trajectory`: if at most one
 assistant message declares a call id, a tool message with that id may stand anywhere in the
 list, and every step still receives the same observations.
 */
module TrajectoryOrder {
  import opened Wrappers
  import opened Trajectory
  import opened TrajectoryPlacement

  /******* Lists put together *******/

  lemma {:induction false} SpokenConcat(a: seq<Message>, b: seq<Message>)
    ensures Spoken(a + b) == Spoken(a) + Spoken(b)
  {
    if b == [] {
      assert a + b == a;
    } else {
      SpokenConcat(a, b[..|b| - 1]);
      assert (a + b)[..|a + b| - 1] == a + b[..|b| - 1];
    }
  }

  /** The arrivals of a list that stands behind `n` speakers. */
  function Behind(n: nat, arrivals: seq<Arrival>): seq<Arrival> {
    seq(|arrivals|, k requires 0 <= k < |arrivals| => Arrival(arrivals[k].m, n + arrivals[k].n))
  }

  lemma BehindOneMore(n: nat, arrivals: seq<Arrival>, a: Arrival)
    ensures Behind(n, arrivals + [a]) == Behind(n, arrivals) + [Arrival(a.m, n + a.n)]
  {
  }

  lemma {:induction false} ArrivalsConcat(a: seq<Message>, b: seq<Message>)
    ensures Arrivals(a + b) == Arrivals(a) + Behind(|Spoken(a)|, Arrivals(b))
  {
    if b == [] {
      assert a + b == a;
    } else {
      var front, last := b[..|b| - 1], b[|b| - 1];
      ArrivalsConcat(a, front);
      SpokenConcat(a, front);
      BehindOneMore(|Spoken(a)|, Arrivals(front), Arrival(last, |Spoken(front)|));
      assert (a + b)[..|a + b| - 1] == a + front;
    }
  }

  lemma ReceivedOneMore(ps: seq<Placing>, p: Placing, host: nat, k: nat)
    ensures Received(ps + [p], host, k) == Received(ps, host, k) + Share(p, host, k)
  {
    assert (ps + [p])[..|ps + [p]| - 1] == ps;
  }

  lemma {:induction false} ReceivedConcat(a: seq<Placing>, b: seq<Placing>, host: nat, k: nat)
    ensures Received(a + b, host, k) == Received(a, host, k) + Received(b, host, k)
  {
    if b == [] {
      assert a + b == a;
    } else {
      var front, last := b[..|b| - 1], b[|b| - 1];
      assert a + b == (a + front) + [last];
      ReceivedOneMore(a + front, last, host, k);
      ReceivedConcat(a, front, host, k);
    }
  }

  lemma WaitingConcat(a: seq<Placing>, b: seq<Placing>)
    ensures HasWaiting(a + b) <==> HasWaiting(a) || HasWaiting(b)
  {
    assert forall k :: 0 <= k < |a| ==> (a + b)[k] == a[k];
    assert forall k :: 0 <= k < |b| ==> (a + b)[|a| + k] == b[k];
  }

  lemma PlacesConcat(speakers: seq<Message>, a: seq<Arrival>, b: seq<Arrival>)
    requires Arrived(speakers, a + b)
    ensures Arrived(speakers, a) && Arrived(speakers, b)
    ensures Places(speakers, a + b) == Places(speakers, a) + Places(speakers, b)
  {
    assert forall k :: 0 <= k < |a| ==> (a + b)[k] == a[k];
    assert forall k :: 0 <= k < |b| ==> (a + b)[|a| + k] == b[k];
  }

  /******* One declarer *******/

  predicate DeclaredOnce(speakers: seq<Message>, id: string) {
    forall j, k :: 0 <= j < k < |speakers| ==> !(Declares(speakers[j], id) && Declares(speakers[k], id))
  }

  lemma DeclarerExists(speakers: seq<Message>, n: nat, id: string)
    requires n <= |speakers|
    ensures match Declarer(speakers, n, id)
            case Some(k) => k < |speakers| && Declares(speakers[k], id)
            case None => forall k :: 0 <= k < |speakers| ==> !Declares(speakers[k], id)
  {
    LastDeclarerIsLast(speakers, n, id);
    FirstDeclarerIsFirst(speakers, n, id);
  }

  /** With at most one declarer, a result belongs with it wherever the result stands. */
  lemma DeclarerEverywhere(speakers: seq<Message>, id: string, m: nat, n: nat)
    requires DeclaredOnce(speakers, id) && m <= |speakers| && n <= |speakers|
    ensures Declarer(speakers, m, id) == Declarer(speakers, n, id)
  {
    DeclarerExists(speakers, m, id);
    DeclarerExists(speakers, n, id);
  }

  /** The arrivals of `head + [m] + tail`, where `m` is a tool message. */
  lemma ArrivalsAround(head: seq<Message>, m: Message, tail: seq<Message>)
    requires IsTool(m)
    ensures Spoken(head + [m] + tail) == Spoken(head) + Spoken(tail)
    ensures Arrivals(head + [m] + tail)
         == Arrivals(head) + [Arrival(m, |Spoken(head)|)] + Behind(|Spoken(head)|, Arrivals(tail))
  {
    assert (head + [m])[..|head + [m]| - 1] == head;
    SpokenConcat(head + [m], tail);
    ArrivalsConcat(head + [m], tail);
  }

  /** What the messages around a tool message, and it itself, come to. */
  lemma PlacesAround(speakers: seq<Message>, head: seq<Arrival>, a: Arrival, tail: seq<Arrival>)
    requires Arrived(speakers, head + tail) && IsTool(a.m) && a.n <= |speakers|
    ensures Arrived(speakers, head) && Arrived(speakers, tail) && Arrived(speakers, head + [a] + tail)
    ensures var x, y := Places(speakers, head), Places(speakers, tail);
            && Places(speakers, head + tail) == x + y
            && Places(speakers, head + [a] + tail) == x + [Placing(PlaceOf(speakers, a), ResultOf(a.m))] + y
  {
    PlacesConcat(speakers, head, tail);
    assert Arrived(speakers, [a]) && Arrived(speakers, head + [a]) && Arrived(speakers, head + [a] + tail);
    PlacesConcat(speakers, head + [a], tail);
    PlacesConcat(speakers, head, [a]);
  }

  lemma ReceivedAround(x: seq<Placing>, p: Placing, y: seq<Placing>, host: nat, k: nat)
    ensures Received(x + [p] + y, host, k) == Received(x + y, host, k) + Received([p], host, k)
  {
    ReceivedConcat(x + [p], y, host, k);
    ReceivedConcat(x, [p], host, k);
    ReceivedConcat(x, y, host, k);
  }

  lemma WaitingAround(x: seq<Placing>, p: Placing, y: seq<Placing>)
    ensures HasWaiting(x + [p] + y) <==> HasWaiting(x + y) || p.place.Waiting?
  {
    WaitingConcat(x + [p], y);
    WaitingConcat(x, [p]);
    WaitingConcat(x, y);
    assert p.place.Waiting? ==> [p][0].place.Waiting?;
  }

  /** Two trajectories with the same steps, whose observations may be in another order. */
  predicate SameSteps(a: seq<Step>, b: seq<Step>) {
    && |a| == |b|
    && forall k :: 0 <= k < |a| ==>
         && a[k].stepId == b[k].stepId && a[k].source == b[k].source && a[k].calls == b[k].calls
         && multiset(a[k].observation) == multiset(b[k].observation)
  }

  /** The trajectory in which the results `ps`, and `p` besides, have gone to their steps. */
  ghost predicate Receiving(steps: seq<Step>, speakers: seq<Message>, ps: seq<Placing>, p: Placing) {
    var host := OrphanHost(speakers);
    && Shaped(steps, speakers, HasWaiting(ps) || p.place.Waiting?)
    && forall k :: 0 <= k < |steps| ==>
         multiset(steps[k].observation) == Received(ps, host, k) + Received([p], host, k)
  }

  lemma ReceivingSame(a: seq<Step>, b: seq<Step>, speakers: seq<Message>, ps: seq<Placing>, p: Placing)
    requires Receiving(a, speakers, ps, p) && Receiving(b, speakers, ps, p)
    ensures SameSteps(a, b)
  {
  }

  lemma BuildAround(head: seq<Message>, m: Message, tail: seq<Message>)
    requires IsTool(m)
    ensures |Spoken(head)| <= |Spoken(head + tail)| && Arrived(Spoken(head + tail), Arrivals(head + tail))
    ensures var speakers := Spoken(head + tail);
            Receiving(Build(head + [m] + tail), speakers, Places(speakers, Arrivals(head + tail)),
                      Placing(PlaceOf(speakers, Arrival(m, |Spoken(head)|)), ResultOf(m)))
  {
    var speakers, a := Spoken(head + tail), Arrival(m, |Spoken(head)|);
    var before, after := Arrivals(head), Behind(|Spoken(head)|, Arrivals(tail));
    SpokenConcat(head, tail);
    ArrivalsConcat(head, tail);
    ArrivalsAround(head, m, tail);
    Placement(head + tail);
    Placement(head + [m] + tail);
    PlacesAround(speakers, before, a, after);
    var x, y, p := Places(speakers, before), Places(speakers, after), Placing(PlaceOf(speakers, a), ResultOf(m));
    WaitingAround(x, p, y);
    forall k | 0 <= k < |Build(head + [m] + tail)|
      ensures multiset(Build(head + [m] + tail)[k].observation)
           == Received(x + y, OrphanHost(speakers), k) + Received([p], OrphanHost(speakers), k)
    {
      ReceivedAround(x, p, y, OrphanHost(speakers), k);
    }
  }

  lemma ToolAnywhere(head: seq<Message>, m: Message, tail: seq<Message>, head': seq<Message>, tail': seq<Message>)
    requires head + tail == head' + tail'
    requires IsTool(m) && SourceId(m).Some? && DeclaredOnce(Spoken(head + tail), SourceId(m).value)
    ensures SameSteps(Build(head + [m] + tail), Build(head' + [m] + tail'))
  {
    var speakers := Spoken(head + tail);
    BuildAround(head, m, tail);
    BuildAround(head', m, tail');
    DeclarerEverywhere(speakers, SourceId(m).value, |Spoken(head)|, |Spoken(head')|);
    ReceivingSame(Build(head + [m] + tail), Build(head' + [m] + tail'), speakers,
                  Places(speakers, Arrivals(head + tail)),
                  Placing(PlaceOf(speakers, Arrival(m, |Spoken(head)|)), ResultOf(m)));
  }

  /** Moving a tool message over any stretch `q` of the list changes no step. */
  lemma OrderIndependence(p: seq<Message>, m: Message, q: seq<Message>, r: seq<Message>)
    requires IsTool(m) && SourceId(m).Some? && DeclaredOnce(Spoken(p + q + r), SourceId(m).value)
    ensures SameSteps(Build(p + [m] + q + r), Build(p + q + [m] + r))
  {
    assert p + (q + r) == p + q + r;
    assert p + [m] + (q + r) == p + [m] + q + r;
    ToolAnywhere(p, m, q + r, p + q, r);
  }

  /******* Exactly when the place does not matter *******/

  function Inserted(rest: seq<Message>, m: Message, i: nat): seq<Message>
    requires i <= |rest|
  {
    rest[..i] + [m] + rest[i..]
  }

  /** Wherever `m` stands among the other messages, the steps are the same. */
  ghost predicate AnywhereAlike(rest: seq<Message>, m: Message) {
    forall i, j | 0 <= i <= |rest| && 0 <= j <= |rest| ::
      SameSteps(Build(Inserted(rest, m, i)), Build(Inserted(rest, m, j)))
  }

  lemma FrontAndBack(rest: seq<Message>, m: Message)
    ensures Inserted(rest, m, 0) == [] + [m] + rest && Inserted(rest, m, |rest|) == rest + [m] + []
    ensures [] + rest == rest == rest + []
  {
  }

  /** In front of all messages the result goes to the first declarer, behind all of them to the last. */
  lemma TwoDeclarers(speakers: seq<Message>, m: Message, j: nat, k: nat)
    requires IsTool(m) && SourceId(m).Some? && j < k < |speakers|
    requires Declares(speakers[j], SourceId(m).value) && Declares(speakers[k], SourceId(m).value)
    ensures var first, last := PlaceOf(speakers, Arrival(m, 0)), PlaceOf(speakers, Arrival(m, |speakers|));
            first.AtStep? && last.AtStep? && first.k <= j && k <= last.k
  {
    FirstDeclarerIsFirst(speakers, 0, SourceId(m).value);
    LastDeclarerIsLast(speakers, |speakers|, SourceId(m).value);
  }

  lemma DifferentSteps(a: seq<Step>, b: seq<Step>, speakers: seq<Message>, ps: seq<Placing>, p: Placing, q: Placing)
    requires Receiving(a, speakers, ps, p) && Receiving(b, speakers, ps, q)
    requires p.place.AtStep? && q.place.AtStep? && p.place.k != q.place.k && p.place.k < |speakers|
    ensures !SameSteps(a, b)
  {
    var host, k := OrphanHost(speakers), p.place.k;
    assert Received([p], host, k) == Received([], host, k) + Share(p, host, k) == multiset{p.result};
    assert Received([q], host, k) == Received([], host, k) + Share(q, host, k) == multiset{};
    assert multiset(a[k].observation)[p.result] == multiset(b[k].observation)[p.result] + 1;
  }

  lemma TwiceDeclaredMatters(rest: seq<Message>, m: Message)
    requires IsTool(m) && SourceId(m).Some? && !DeclaredOnce(Spoken(rest), SourceId(m).value)
    ensures !SameSteps(Build(Inserted(rest, m, 0)), Build(Inserted(rest, m, |rest|)))
  {
    var speakers := Spoken(rest);
    var j, k :| 0 <= j < k < |speakers| && Declares(speakers[j], SourceId(m).value)
                && Declares(speakers[k], SourceId(m).value);
    FrontAndBack(rest, m);
    BuildAround([], m, rest);
    BuildAround(rest, m, []);
    TwoDeclarers(speakers, m, j, k);
    DifferentSteps(Build([] + [m] + rest), Build(rest + [m] + []), speakers, Places(speakers, Arrivals(rest)),
                   Placing(PlaceOf(speakers, Arrival(m, 0)), ResultOf(m)),
                   Placing(PlaceOf(speakers, Arrival(m, |speakers|)), ResultOf(m)));
  }

  /** The place of a result with a call id does not matter if and only if at most one message declares the id. */
  lemma AnywhereExactlyWhen(rest: seq<Message>, m: Message)
    requires IsTool(m) && SourceId(m).Some?
    ensures AnywhereAlike(rest, m) <==> DeclaredOnce(Spoken(rest), SourceId(m).value)
  {
    if DeclaredOnce(Spoken(rest), SourceId(m).value) {
      forall i, j | 0 <= i <= |rest| && 0 <= j <= |rest|
        ensures SameSteps(Build(Inserted(rest, m, i)), Build(Inserted(rest, m, j)))
      {
        assert rest[..i] + rest[i..] == rest == rest[..j] + rest[j..];
        ToolAnywhere(rest[..i], m, rest[i..], rest[..j], rest[j..]);
      }
    } else {
      TwiceDeclaredMatters(rest, m);
    }
  }
}
