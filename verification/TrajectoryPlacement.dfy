/**
 Where `build_atif_trajectory` puts tool results: every step of the finished trajectory holds
 exactly the observations of the tool messages that belong there, so none is lost, doubled or
 attached to a step that does not declare it.
 */
module TrajectoryPlacement {
  import opened Wrappers
  import opened Trajectory

  /******* The pending dict *******/

  /** Distinct ids, and no empty entry. */
  predicate WellKept(pending: seq<Entry>) {
    pending == [] ||
    (&& pending[0].results != []
     && PendingFor(pending[1..], pending[0].id) == []
     && WellKept(pending[1..]))
  }

  lemma {:induction false} PutKeeps(pending: seq<Entry>, id: string, result: Result, x: string)
    ensures PendingFor(PutPending(pending, id, result), x)
         == PendingFor(pending, x) + (if x == id then [result] else [])
    ensures WellKept(pending) ==> WellKept(PutPending(pending, id, result))
  {
    if pending != [] && pending[0].id != id {
      PutKeeps(pending[1..], id, result, x);
      PutKeeps(pending[1..], id, result, pending[0].id);
    }
  }

  lemma {:induction false} WithoutKeeps(pending: seq<Entry>, id: string, x: string)
    requires WellKept(pending)
    ensures PendingFor(WithoutPending(pending, id), x) == if x == id then [] else PendingFor(pending, x)
    ensures WellKept(WithoutPending(pending, id))
  {
    if pending != [] && pending[0].id != id {
      WithoutKeeps(pending[1..], id, x);
      WithoutKeeps(pending[1..], id, pending[0].id);
    }
  }

  lemma {:induction false} LeftKeeps(pending: seq<Entry>, ids: seq<string>, x: string)
    requires WellKept(pending)
    ensures PendingFor(Left(pending, ids), x) == if x in ids then [] else PendingFor(pending, x)
    ensures WellKept(Left(pending, ids))
    decreases |ids|
  {
    if ids != [] {
      WithoutKeeps(pending, ids[0], x);
      LeftKeeps(WithoutPending(pending, ids[0]), ids[1..], x);
    }
  }

  function Keys(pending: seq<Entry>): seq<string> {
    if pending == [] then [] else [pending[0].id] + Keys(pending[1..])
  }

  /******* Results that wait for one of some ids *******/

  function Shown(results: seq<Result>, stripped: bool): seq<Result> {
    if stripped then Stripped(results) else results
  }

  lemma {:induction false} StrippedConcat(a: seq<Result>, b: seq<Result>)
    ensures Stripped(a + b) == Stripped(a) + Stripped(b)
  {
    if b == [] {
      assert a + b == a;
    } else {
      StrippedConcat(a, b[..|b| - 1]);
      assert (a + b)[..|a + b| - 1] == a + b[..|b| - 1];
    }
  }

  lemma ShownConcat(a: seq<Result>, b: seq<Result>, stripped: bool)
    ensures multiset(Shown(a + b, stripped)) == multiset(Shown(a, stripped)) + multiset(Shown(b, stripped))
  {
    StrippedConcat(a, b);
  }

  predicate WaitsFor(place: Place, ids: set<string>) {
    place.Waiting? && place.id in ids
  }

  function Among(ps: seq<Placing>, ids: set<string>, stripped: bool): multiset<Result> {
    if ps == [] then multiset{}
    else
      var last := ps[|ps| - 1];
      Among(ps[..|ps| - 1], ids, stripped) +
      (if WaitsFor(last.place, ids) then multiset(Shown([last.result], stripped)) else multiset{})
  }

  lemma {:induction false} AmongNone(ps: seq<Placing>, stripped: bool)
    ensures Among(ps, {}, stripped) == multiset{}
  {
    if ps != [] {
      AmongNone(ps[..|ps| - 1], stripped);
    }
  }

  lemma AmongOneMore(ps: seq<Placing>, ids: set<string>, stripped: bool)
    requires ps != []
    ensures Among(ps, ids, stripped)
         == Among(ps[..|ps| - 1], ids, stripped) +
            (if WaitsFor(ps[|ps| - 1].place, ids) then multiset(Shown([ps[|ps| - 1].result], stripped)) else multiset{})
  {
  }

  lemma ShownOneMore(ps: seq<Placing>, id: string, stripped: bool)
    requires ps != []
    ensures multiset(Shown(Bucket(ps, Waiting(id)), stripped))
         == multiset(Shown(Bucket(ps[..|ps| - 1], Waiting(id)), stripped)) +
            (if ps[|ps| - 1].place == Waiting(id) then multiset(Shown([ps[|ps| - 1].result], stripped)) else multiset{})
  {
    var front, last := ps[..|ps| - 1], ps[|ps| - 1];
    ShownConcat(Bucket(front, Waiting(id)), [last.result], stripped);
    if last.place != Waiting(id) {
      assert Bucket(ps, Waiting(id)) == Bucket(front, Waiting(id));
    }
  }

  lemma {:induction false} AmongAdd(ps: seq<Placing>, ids: set<string>, id: string, stripped: bool)
    requires id !in ids
    ensures Among(ps, ids + {id}, stripped)
         == Among(ps, ids, stripped) + multiset(Shown(Bucket(ps, Waiting(id)), stripped))
  {
    if ps != [] {
      AmongAdd(ps[..|ps| - 1], ids, id, stripped);
      AmongOneMore(ps, ids, stripped);
      AmongOneMore(ps, ids + {id}, stripped);
      ShownOneMore(ps, id, stripped);
    }
  }

  /** Each id holds what waits for it, except those in `done`, which hold nothing. */
  ghost predicate HoldsWaiting(pending: seq<Entry>, ps: seq<Placing>, done: set<string>) {
    forall id :: PendingFor(pending, id) == if id in done then [] else Bucket(ps, Waiting(id))
  }

  function IdSet(ids: seq<string>): set<string> {
    set id | id in ids
  }

  lemma WithoutHolds(pending: seq<Entry>, ps: seq<Placing>, id: string, done: set<string>)
    requires WellKept(pending) && HoldsWaiting(pending, ps, done)
    ensures WellKept(WithoutPending(pending, id))
    ensures HoldsWaiting(WithoutPending(pending, id), ps, done + {id})
  {
    WithoutKeeps(pending, id, id);
    forall x
      ensures PendingFor(WithoutPending(pending, id), x) == if x in done + {id} then [] else Bucket(ps, Waiting(x))
    {
      WithoutKeeps(pending, id, x);
    }
  }

  lemma AmongFirst(ps: seq<Placing>, ids: seq<string>, done: set<string>, held: seq<Result>, stripped: bool)
    requires ids != []
    requires held == if ids[0] in done then [] else Bucket(ps, Waiting(ids[0]))
    ensures Among(ps, IdSet(ids) - done, stripped)
         == multiset(Shown(held, stripped)) + Among(ps, IdSet(ids[1..]) - (done + {ids[0]}), stripped)
  {
    var rest := IdSet(ids[1..]) - (done + {ids[0]});
    assert ids == [ids[0]] + ids[1..];
    if ids[0] in done {
      assert IdSet(ids) - done == rest;
    } else {
      assert IdSet(ids) - done == rest + {ids[0]};
      AmongAdd(ps, rest, ids[0], stripped);
    }
  }

  /** Popping ids one after another takes what waits for them, each result once. */
  lemma {:induction false} TakenAmong(pending: seq<Entry>, ps: seq<Placing>, ids: seq<string>, done: set<string>,
                                      stripped: bool)
    requires WellKept(pending) && HoldsWaiting(pending, ps, done)
    ensures multiset(Shown(Taken(pending, ids), stripped)) == Among(ps, IdSet(ids) - done, stripped)
    decreases |ids|
  {
    if ids == [] {
      assert IdSet(ids) - done == {};
      AmongNone(ps, stripped);
    } else {
      WithoutHolds(pending, ps, ids[0], done);
      TakenAmong(WithoutPending(pending, ids[0]), ps, ids[1..], done + {ids[0]}, stripped);
      ShownConcat(PendingFor(pending, ids[0]), Taken(WithoutPending(pending, ids[0]), ids[1..]), stripped);
      AmongFirst(ps, ids, done, PendingFor(pending, ids[0]), stripped);
    }
  }

  /******* A new speaker *******/

  lemma {:induction false} LastDeclarerStays(speakers: seq<Message>, m: Message, n: nat, id: string)
    requires n <= |speakers|
    ensures LastDeclarer(speakers + [m], n, id) == LastDeclarer(speakers, n, id)
  {
    if n > 0 {
      LastDeclarerStays(speakers, m, n - 1, id);
    }
  }

  lemma {:induction false} LastAgentStays(speakers: seq<Message>, m: Message, n: nat)
    requires n <= |speakers|
    ensures LastAgent(speakers + [m], n) == LastAgent(speakers, n)
  {
    if n > 0 {
      LastAgentStays(speakers, m, n - 1);
    }
  }

  lemma {:induction false} FirstDeclarerGrows(speakers: seq<Message>, m: Message, n: nat, id: string)
    requires n <= |speakers|
    ensures FirstDeclarer(speakers + [m], n, id)
         == if FirstDeclarer(speakers, n, id).None? && Declares(m, id) then Some(|speakers|)
            else FirstDeclarer(speakers, n, id)
    decreases |speakers| - n
  {
    if n < |speakers| {
      FirstDeclarerGrows(speakers, m, n + 1, id);
    }
  }

  function MovedPlace(place: Place, ids: set<string>, k: nat): Place {
    if WaitsFor(place, ids) then AtStep(k) else place
  }

  function Moved(ps: seq<Placing>, ids: set<string>, k: nat): seq<Placing> {
    seq(|ps|, j requires 0 <= j < |ps| => Placing(MovedPlace(ps[j].place, ids, k), ps[j].result))
  }

  lemma PlaceAfter(speakers: seq<Message>, m: Message, a: Arrival)
    requires a.m.Message? && a.n <= |speakers|
    ensures PlaceOf(speakers + [m], a)
         == MovedPlace(PlaceOf(speakers, a), IdSet(DeclaredIds(m)), |speakers|)
  {
    LastAgentStays(speakers, m, a.n);
    if SourceId(a.m).Some? {
      LastDeclarerStays(speakers, m, a.n, SourceId(a.m).value);
      FirstDeclarerGrows(speakers, m, a.n, SourceId(a.m).value);
    }
  }

  /** A speaker takes the results that waited for its calls; every other place stays. */
  lemma PlacesAfter(speakers: seq<Message>, m: Message, arrivals: seq<Arrival>)
    requires Arrived(speakers, arrivals)
    ensures Arrived(speakers + [m], arrivals)
    ensures Places(speakers + [m], arrivals)
         == Moved(Places(speakers, arrivals), IdSet(DeclaredIds(m)), |speakers|)
  {
    forall k | 0 <= k < |arrivals|
      ensures PlaceOf(speakers + [m], arrivals[k])
           == MovedPlace(PlaceOf(speakers, arrivals[k]), IdSet(DeclaredIds(m)), |speakers|)
    {
      PlaceAfter(speakers, m, arrivals[k]);
    }
  }

  predicate InRange(ps: seq<Placing>, n: nat) {
    forall k :: 0 <= k < |ps| && ps[k].place.AtStep? ==> ps[k].place.k < n
  }

  lemma PlacesInRange(speakers: seq<Message>, arrivals: seq<Arrival>)
    requires Arrived(speakers, arrivals)
    ensures InRange(Places(speakers, arrivals), |speakers|)
  {
  }

  lemma MovedFront(ps: seq<Placing>, ids: set<string>, k: nat)
    requires ps != []
    ensures var moved := Moved(ps, ids, k);
            && moved != [] && moved[..|moved| - 1] == Moved(ps[..|ps| - 1], ids, k)
            && moved[|moved| - 1].result == ps[|ps| - 1].result
            && moved[|moved| - 1].place == MovedPlace(ps[|ps| - 1].place, ids, k)
  {
  }

  lemma {:induction false} BucketAfter(ps: seq<Placing>, ids: set<string>, n: nat, place: Place)
    requires place != AtStep(n)
    ensures Bucket(Moved(ps, ids, n), place) == if WaitsFor(place, ids) then [] else Bucket(ps, place)
  {
    if ps != [] {
      MovedFront(ps, ids, n);
      BucketAfter(ps[..|ps| - 1], ids, n, place);
    }
  }

  lemma {:induction false} NewBucket(ps: seq<Placing>, ids: set<string>, n: nat)
    requires InRange(ps, n)
    ensures multiset(Bucket(Moved(ps, ids, n), AtStep(n))) == Among(ps, ids, false)
  {
    if ps != [] {
      MovedFront(ps, ids, n);
      assert InRange(ps[..|ps| - 1], n);
      NewBucket(ps[..|ps| - 1], ids, n);
    }
  }

  /******* The invariant of the loop *******/

  predicate Mirrors(steps: seq<Step>, speakers: seq<Message>) {
    && |steps| == |speakers|
    && forall k :: 0 <= k < |steps| ==>
         && Speaks(speakers[k])
         && steps[k].stepId == k + 1
         && steps[k].source == SourceOf(speakers[k])
         && steps[k].calls == DeclaredIds(speakers[k])
  }

  /** Pending and observations hold what stands there. */
  ghost predicate Placed(st: State, ps: seq<Placing>) {
    && WellKept(st.pending)
    && HoldsWaiting(st.pending, ps, {})
    && InRange(ps, |st.steps|)
    && ObservationsPlaced(st.steps, ps)
  }

  ghost predicate ObservationsPlaced(steps: seq<Step>, ps: seq<Placing>) {
    forall k :: 0 <= k < |steps| ==> multiset(steps[k].observation) == multiset(Bucket(ps, AtStep(k)))
  }

  lemma {:induction false} StepFinderAgrees(steps: seq<Step>, speakers: seq<Message>, n: nat, id: string)
    requires Mirrors(steps, speakers) && n <= |steps|
    ensures FindStep(steps, n, id) == LastDeclarer(speakers, n, id)
  {
    if n > 0 {
      StepFinderAgrees(steps, speakers, n - 1, id);
    }
  }

  lemma {:induction false} AgentFinderAgrees(steps: seq<Step>, speakers: seq<Message>, n: nat)
    requires Mirrors(steps, speakers) && n <= |steps|
    ensures FindAgent(steps, n) == LastAgent(speakers, n)
  {
    if n > 0 {
      AgentFinderAgrees(steps, speakers, n - 1);
    }
  }

  lemma SpeakerLeavesWaiting(st: State, ps: seq<Placing>, ids: seq<string>)
    requires Placed(st, ps)
    ensures WellKept(Left(st.pending, ids))
    ensures HoldsWaiting(Left(st.pending, ids), Moved(ps, IdSet(ids), |st.steps|), {})
  {
    var n := |st.steps|;
    LeftKeeps(st.pending, ids, "");
    forall id
      ensures PendingFor(Left(st.pending, ids), id) == Bucket(Moved(ps, IdSet(ids), n), Waiting(id))
    {
      LeftKeeps(st.pending, ids, id);
      BucketAfter(ps, IdSet(ids), n, Waiting(id));
    }
  }

  lemma SpeakerTakes(st: State, ps: seq<Placing>, ids: seq<string>)
    requires Placed(st, ps)
    ensures multiset(Taken(st.pending, ids))
         == multiset(Bucket(Moved(ps, IdSet(ids), |st.steps|), AtStep(|st.steps|)))
  {
    TakenAmong(st.pending, ps, ids, {}, false);
    assert IdSet(ids) - {} == IdSet(ids);
    NewBucket(ps, IdSet(ids), |st.steps|);
  }

  lemma SpeakerPlaced(st: State, ps: seq<Placing>, m: Message)
    requires Placed(st, ps) && Speaks(m)
    ensures Placed(Add(st, m), Moved(ps, IdSet(DeclaredIds(m)), |st.steps|))
  {
    var st', ids, n := Add(st, m), DeclaredIds(m), |st.steps|;
    SpeakerLeavesWaiting(st, ps, ids);
    SpeakerTakes(st, ps, ids);
    forall k | 0 <= k < |st'.steps|
      ensures multiset(st'.steps[k].observation) == multiset(Bucket(Moved(ps, IdSet(ids), n), AtStep(k)))
    {
      if k < n {
        BucketAfter(ps, IdSet(ids), n, AtStep(k));
      }
    }
  }

  lemma BucketOfOneMore(ps: seq<Placing>, p: Placing, place: Place)
    ensures Bucket(ps + [p], place) == Bucket(ps, place) + (if p.place == place then [p.result] else [])
  {
    assert (ps + [p])[..|ps + [p]| - 1] == ps;
  }

  lemma AppendPlaced(st: State, ps: seq<Placing>, k: nat, result: Result)
    requires Placed(st, ps) && k < |st.steps|
    ensures Placed(st.(steps := Append(st.steps, k, [result])), ps + [Placing(AtStep(k), result)])
  {
    var ps' := ps + [Placing(AtStep(k), result)];
    forall id
      ensures Bucket(ps', Waiting(id)) == Bucket(ps, Waiting(id))
    {
      BucketOfOneMore(ps, Placing(AtStep(k), result), Waiting(id));
    }
    forall j | 0 <= j < |st.steps|
      ensures Bucket(ps', AtStep(j)) == Bucket(ps, AtStep(j)) + (if j == k then [result] else [])
    {
      BucketOfOneMore(ps, Placing(AtStep(k), result), AtStep(j));
    }
  }

  lemma PutPlaced(st: State, ps: seq<Placing>, id: string, result: Result)
    requires Placed(st, ps)
    ensures Placed(st.(pending := PutPending(st.pending, id, result)), ps + [Placing(Waiting(id), result)])
  {
    var ps' := ps + [Placing(Waiting(id), result)];
    PutKeeps(st.pending, id, result, id);
    forall x
      ensures PendingFor(PutPending(st.pending, id, result), x) == Bucket(ps', Waiting(x))
    {
      PutKeeps(st.pending, id, result, x);
      BucketOfOneMore(ps, Placing(Waiting(id), result), Waiting(x));
    }
    forall j | 0 <= j < |st.steps|
      ensures Bucket(ps', AtStep(j)) == Bucket(ps, AtStep(j))
    {
      BucketOfOneMore(ps, Placing(Waiting(id), result), AtStep(j));
    }
  }

  lemma DropPlaced(st: State, ps: seq<Placing>, result: Result)
    requires Placed(st, ps)
    ensures Placed(st, ps + [Placing(Dropped, result)])
  {
    forall place: Place | place != Dropped
      ensures Bucket(ps + [Placing(Dropped, result)], place) == Bucket(ps, place)
    {
      BucketOfOneMore(ps, Placing(Dropped, result), place);
    }
  }

  /** What `_attach_tool_observation` does is what the reference says of the latest arrival. */
  lemma AttachFollowsPlace(st: State, speakers: seq<Message>, m: Message)
    requires Mirrors(st.steps, speakers) && IsTool(m)
    ensures Attach(st, m)
         == match PlaceOf(speakers, Arrival(m, |speakers|))
            case AtStep(k) => if k < |st.steps| then st.(steps := Append(st.steps, k, [ResultOf(m)])) else st
            case Waiting(id) => st.(pending := PutPending(st.pending, id, ResultOf(m)))
            case Dropped => st
    ensures InRange([Placing(PlaceOf(speakers, Arrival(m, |speakers|)), ResultOf(m))], |st.steps|)
  {
    match SourceId(m)
    case Some(id) => StepFinderAgrees(st.steps, speakers, |speakers|, id);
    case None => AgentFinderAgrees(st.steps, speakers, |speakers|);
  }

  lemma AttachPlaced(st: State, ps: seq<Placing>, st': State, p: Placing)
    requires Placed(st, ps) && InRange([p], |st.steps|)
    requires p.place.AtStep? ==> p.place.k < |st.steps| && st' == st.(steps := Append(st.steps, p.place.k, [p.result]))
    requires p.place.Waiting? ==> st' == st.(pending := PutPending(st.pending, p.place.id, p.result))
    requires p.place.Dropped? ==> st' == st
    ensures Placed(st', ps + [p])
  {
    match p.place
    case AtStep(k) => AppendPlaced(st, ps, k, p.result);
    case Waiting(id) => PutPlaced(st, ps, id, p.result);
    case Dropped => DropPlaced(st, ps, p.result);
  }

  lemma AppendMirrors(steps: seq<Step>, speakers: seq<Message>, k: nat, results: seq<Result>)
    requires Mirrors(steps, speakers) && k < |steps|
    ensures Mirrors(Append(steps, k, results), speakers)
  {
  }

  lemma ToolPlaced(st: State, speakers: seq<Message>, ps: seq<Placing>, m: Message)
    requires Mirrors(st.steps, speakers) && Placed(st, ps) && IsTool(m)
    ensures Mirrors(Add(st, m).steps, speakers)
    ensures Placed(Add(st, m), ps + [Placing(PlaceOf(speakers, Arrival(m, |speakers|)), ResultOf(m))])
  {
    var p := Placing(PlaceOf(speakers, Arrival(m, |speakers|)), ResultOf(m));
    AttachFollowsPlace(st, speakers, m);
    assert InRange([p], |st.steps|);
    assert p.place.AtStep? ==> [p][0].place.k < |st.steps|;
    AttachPlaced(st, ps, Add(st, m), p);
    if p.place.AtStep? {
      AppendMirrors(st.steps, speakers, p.place.k, [p.result]);
    }
  }

  lemma PlacesOfOneMore(speakers: seq<Message>, arrivals: seq<Arrival>, a: Arrival)
    requires Arrived(speakers, arrivals) && IsTool(a.m) && a.n <= |speakers|
    ensures Arrived(speakers, arrivals + [a])
    ensures Places(speakers, arrivals + [a])
         == Places(speakers, arrivals) + [Placing(PlaceOf(speakers, a), ResultOf(a.m))]
  {
  }

  /** Steps mirror the speakers and each result is where the reference has it. */
  ghost predicate Follows(st: State, speakers: seq<Message>, arrivals: seq<Arrival>) {
    && Arrived(speakers, arrivals)
    && Mirrors(st.steps, speakers)
    && Placed(st, Places(speakers, arrivals))
  }

  lemma SpeakerFollows(st: State, speakers: seq<Message>, arrivals: seq<Arrival>, m: Message)
    requires Follows(st, speakers, arrivals) && Speaks(m)
    ensures Follows(Add(st, m), speakers + [m], arrivals)
  {
    PlacesAfter(speakers, m, arrivals);
    SpeakerPlaced(st, Places(speakers, arrivals), m);
  }

  lemma ToolFollows(st: State, speakers: seq<Message>, arrivals: seq<Arrival>, m: Message)
    requires Follows(st, speakers, arrivals) && IsTool(m)
    ensures Follows(Add(st, m), speakers, arrivals + [Arrival(m, |speakers|)])
  {
    PlacesOfOneMore(speakers, arrivals, Arrival(m, |speakers|));
    ToolPlaced(st, speakers, Places(speakers, arrivals), m);
  }

  lemma {:induction false} ProcessFollows(ms: seq<Message>)
    ensures Follows(Process(ms), Spoken(ms), Arrivals(ms))
  {
    if ms == [] {
      NothingFollows();
    } else {
      var front, last := ms[..|ms| - 1], ms[|ms| - 1];
      ProcessFollows(front);
      if Speaks(last) {
        SpeakerFollows(Process(front), Spoken(front), Arrivals(front), last);
        assert Arrivals(ms) == Arrivals(front);
      } else if IsTool(last) {
        ToolFollows(Process(front), Spoken(front), Arrivals(front), last);
        assert Spoken(ms) == Spoken(front);
      } else {
        assert Arrivals(ms) == Arrivals(front) && Spoken(ms) == Spoken(front);
      }
    }
  }

  lemma NothingFollows()
    ensures Follows(State([], []), [], [])
  {
    assert Places([], []) == [];
  }

  /******* Closing: the orphans *******/

  lemma {:induction false} OrphansAreTaken(pending: seq<Entry>)
    ensures Orphans(pending) == Stripped(Taken(pending, Keys(pending)))
  {
    if pending != [] {
      OrphansAreTaken(pending[1..]);
      assert Keys(pending)[1..] == Keys(pending[1..]);
      StrippedConcat(pending[0].results, Taken(pending[1..], Keys(pending[1..])));
    }
  }

  lemma {:induction false} HeldIsKey(pending: seq<Entry>, id: string)
    requires PendingFor(pending, id) != []
    ensures id in Keys(pending)
  {
    if pending[0].id != id {
      HeldIsKey(pending[1..], id);
    }
  }

  lemma {:induction false} BucketHolds(ps: seq<Placing>, k: nat)
    requires k < |ps|
    ensures Bucket(ps, ps[k].place) != []
  {
    if k < |ps| - 1 {
      BucketHolds(ps[..|ps| - 1], k);
    }
  }

  predicate HasWaiting(ps: seq<Placing>) {
    exists k :: 0 <= k < |ps| && ps[k].place.Waiting?
  }

  predicate AllWaitIn(ps: seq<Placing>, ids: set<string>) {
    forall k :: 0 <= k < |ps| && ps[k].place.Waiting? ==> ps[k].place.id in ids
  }

  lemma PendingCoversWaiting(st: State, ps: seq<Placing>)
    requires Placed(st, ps)
    ensures AllWaitIn(ps, IdSet(Keys(st.pending)))
    ensures st.pending != [] <==> HasWaiting(ps)
  {
    forall k | 0 <= k < |ps| && ps[k].place.Waiting?
      ensures ps[k].place.id in Keys(st.pending)
    {
      BucketHolds(ps, k);
      HeldIsKey(st.pending, ps[k].place.id);
    }
    if st.pending != [] {
      assert PendingFor(st.pending, st.pending[0].id) != [];
      WaitingFromBucket(ps, st.pending[0].id);
    }
  }

  lemma {:induction false} WaitingFromBucket(ps: seq<Placing>, id: string)
    requires Bucket(ps, Waiting(id)) != []
    ensures exists k :: 0 <= k < |ps| && ps[k].place == Waiting(id)
  {
    var front := ps[..|ps| - 1];
    if ps[|ps| - 1].place != Waiting(id) {
      WaitingFromBucket(front, id);
      var k :| 0 <= k < |front| && front[k].place == Waiting(id);
      assert ps[k] == front[k];
    }
  }

  /** What a step receives is what stands there and, if it hosts the orphans, they too. */
  lemma {:induction false} ReceivedSplits(ps: seq<Placing>, host: nat, k: nat, ids: set<string>)
    requires AllWaitIn(ps, ids)
    ensures Received(ps, host, k)
         == multiset(Bucket(ps, AtStep(k))) + (if k == host then Among(ps, ids, true) else multiset{})
  {
    if ps != [] {
      var last := ps[|ps| - 1];
      ReceivedSplits(ps[..|ps| - 1], host, k, ids);
      assert Stripped([last.result]) == [Result(None, last.result.content)];
    }
  }

  lemma OrphansReceived(st: State, ps: seq<Placing>)
    requires Placed(st, ps)
    ensures multiset(Orphans(st.pending)) == Among(ps, IdSet(Keys(st.pending)), true)
  {
    OrphansAreTaken(st.pending);
    TakenAmong(st.pending, ps, Keys(st.pending), {}, true);
    assert IdSet(Keys(st.pending)) - {} == IdSet(Keys(st.pending));
  }

  /** The shape of the finished step list: the speakers' steps, and at most one more for want of an agent. */
  predicate Shaped(steps: seq<Step>, speakers: seq<Message>, orphans: bool) {
    && |steps| == |speakers| + (if speakers == [] || (orphans && LastAgent(speakers, |speakers|).None?) then 1 else 0)
    && (forall k :: 0 <= k < |steps| ==> steps[k].stepId == k + 1)
    && (forall k :: 0 <= k < |speakers| ==>
          Speaks(speakers[k]) && steps[k].source == SourceOf(speakers[k]) && steps[k].calls == DeclaredIds(speakers[k]))
    && (|steps| > |speakers| ==> steps[|speakers|].source.FromAgent? && steps[|speakers|].calls == [])
  }

  ghost predicate AllReceived(steps: seq<Step>, ps: seq<Placing>, host: nat) {
    forall k :: 0 <= k < |steps| ==> multiset(steps[k].observation) == Received(ps, host, k)
  }

  /** Closing adds the orphans to their host, and nothing else. */
  lemma CloseAdds(st: State, speakers: seq<Message>, k: nat)
    requires Mirrors(st.steps, speakers) && k < |Close(st)|
    ensures k <= |st.steps|
    ensures multiset(Close(st)[k].observation)
         == (if k < |st.steps| then multiset(st.steps[k].observation) else multiset{}) +
            (if st.pending != [] && k == OrphanHost(speakers) then multiset(Orphans(st.pending)) else multiset{})
  {
    AgentFinderAgrees(st.steps, speakers, |speakers|);
  }

  lemma CloseShape(st: State, speakers: seq<Message>)
    requires Mirrors(st.steps, speakers)
    ensures Shaped(Close(st), speakers, st.pending != [])
  {
    AgentFinderAgrees(st.steps, speakers, |speakers|);
  }

  lemma CloseReceived(st: State, speakers: seq<Message>, ps: seq<Placing>, k: nat)
    requires Mirrors(st.steps, speakers) && Placed(st, ps) && k < |Close(st)|
    ensures multiset(Close(st)[k].observation) == Received(ps, OrphanHost(speakers), k)
  {
    var ids := IdSet(Keys(st.pending));
    PendingCoversWaiting(st, ps);
    OrphansReceived(st, ps);
    CloseAdds(st, speakers, k);
    ReceivedSplits(ps, OrphanHost(speakers), k, ids);
    if k == |st.steps| {
      NothingBeyond(ps, k);
    }
    if st.pending == [] {
      assert ids == {};
      AmongNone(ps, true);
    }
  }

  lemma ClosePlaced(st: State, speakers: seq<Message>, ps: seq<Placing>)
    requires Mirrors(st.steps, speakers) && Placed(st, ps)
    ensures AllReceived(Close(st), ps, OrphanHost(speakers))
    ensures Shaped(Close(st), speakers, HasWaiting(ps))
  {
    PendingCoversWaiting(st, ps);
    CloseShape(st, speakers);
    forall k | 0 <= k < |Close(st)|
      ensures multiset(Close(st)[k].observation) == Received(ps, OrphanHost(speakers), k)
    {
      CloseReceived(st, speakers, ps, k);
    }
  }

  lemma {:induction false} NothingBeyond(ps: seq<Placing>, n: nat)
    requires InRange(ps, n)
    ensures Bucket(ps, AtStep(n)) == []
  {
    if ps != [] {
      assert InRange(ps[..|ps| - 1], n);
      NothingBeyond(ps[..|ps| - 1], n);
    }
  }

  /**
   Every step of the trajectory holds exactly the observations of the messages it receives;
   step ids count from 1, and there is always a step.
   */
  lemma {:induction false} Placement(ms: seq<Message>)
    ensures Arrived(Spoken(ms), Arrivals(ms))
    ensures var speakers, ps := Spoken(ms), Places(Spoken(ms), Arrivals(ms));
            && Build(ms) != []
            && Shaped(Build(ms), speakers, HasWaiting(ps))
            && AllReceived(Build(ms), ps, OrphanHost(speakers))
  {
    ProcessFollows(ms);
    ClosePlaced(Process(ms), Spoken(ms), Places(Spoken(ms), Arrivals(ms)));
  }

  /******* Linkage *******/

  lemma {:induction false} LinkedWhereReceived(ps: seq<Placing>, host: nat, k: nat, result: Result)
    requires result in Received(ps, host, k) && result.source.Some?
    ensures exists j :: 0 <= j < |ps| && ps[j] == Placing(AtStep(k), result)
  {
    var front, last := ps[..|ps| - 1], ps[|ps| - 1];
    if result in Received(front, host, k) {
      LinkedWhereReceived(front, host, k, result);
      var j :| 0 <= j < |front| && front[j] == Placing(AtStep(k), result);
      assert ps[j] == front[j];
    } else {
      assert ps[|ps| - 1] == Placing(AtStep(k), result);
    }
  }

  /** An observation that carries a source_call_id sits on an agent step that declares that id. */
  lemma Linkage(ms: seq<Message>, k: nat, result: Result)
    requires k < |Build(ms)| && result in Build(ms)[k].observation && result.source.Some?
    ensures Build(ms)[k].source.FromAgent? && result.source.value in Build(ms)[k].calls
  {
    Placement(ms);
    var speakers, arrivals := Spoken(ms), Arrivals(ms);
    var ps := Places(speakers, arrivals);
    assert result in multiset(Build(ms)[k].observation);
    LinkedWhereReceived(ps, OrphanHost(speakers), k, result);
    var j :| 0 <= j < |ps| && ps[j] == Placing(AtStep(k), result);
    assert PlaceOf(speakers, arrivals[j]) == AtStep(k);
    PlacesInRange(speakers, arrivals);
    assert Declares(speakers[k], result.source.value);
  }

  lemma {:induction false} LastDeclarerIsLast(speakers: seq<Message>, n: nat, id: string)
    requires n <= |speakers|
    ensures var last := LastDeclarer(speakers, n, id);
            forall k :: (if last.Some? then last.value + 1 else 0) <= k < n ==> !Declares(speakers[k], id)
  {
    if n > 0 && !Declares(speakers[n - 1], id) {
      LastDeclarerIsLast(speakers, n - 1, id);
    }
  }

  lemma {:induction false} FirstDeclarerIsFirst(speakers: seq<Message>, n: nat, id: string)
    requires n <= |speakers|
    ensures var first := FirstDeclarer(speakers, n, id);
            forall k :: n <= k < (if first.Some? then first.value else |speakers|) ==> !Declares(speakers[k], id)
    decreases |speakers| - n
  {
    if n < |speakers| && !Declares(speakers[n], id) {
      FirstDeclarerIsFirst(speakers, n + 1, id);
    }
  }

  lemma WaitingUndeclared(speakers: seq<Message>, arrivals: seq<Arrival>, id: string, k: nat)
    requires Arrived(speakers, arrivals) && Bucket(Places(speakers, arrivals), Waiting(id)) != []
    requires k < |speakers|
    ensures !Declares(speakers[k], id)
  {
    var ps := Places(speakers, arrivals);
    WaitingFromBucket(ps, id);
    var j :| 0 <= j < |ps| && ps[j].place == Waiting(id);
    assert PlaceOf(speakers, arrivals[j]) == Waiting(id);
    LastDeclarerIsLast(speakers, arrivals[j].n, id);
    FirstDeclarerIsFirst(speakers, arrivals[j].n, id);
  }

  /** At no point of the loop does a built step declare an id that still has pending results. */
  lemma PendingUndeclared(ms: seq<Message>, id: string, k: nat)
    requires PendingFor(Process(ms).pending, id) != [] && k < |Process(ms).steps|
    ensures id !in Process(ms).steps[k].calls
  {
    ProcessFollows(ms);
    WaitingUndeclared(Spoken(ms), Arrivals(ms), id, k);
  }

  /******* Conservation *******/

  /** The observations of all arrivals but the dropped ones. */
  function Kept(ps: seq<Placing>): multiset<Result> {
    if ps == [] then multiset{}
    else
      var last := ps[|ps| - 1];
      Kept(ps[..|ps| - 1]) + (if last.place.Dropped? then multiset{} else multiset{ObservationOf(last)})
  }

  function AllObservations(steps: seq<Step>): multiset<Result> {
    if steps == [] then multiset{}
    else AllObservations(steps[..|steps| - 1]) + multiset(steps[|steps| - 1].observation)
  }

  /** What the first `n` steps receive together. */
  function ReceivedUpTo(ps: seq<Placing>, host: nat, n: nat): multiset<Result> {
    if n == 0 then multiset{} else ReceivedUpTo(ps, host, n - 1) + Received(ps, host, n - 1)
  }

  lemma {:induction false} ReceivedUpToNothing(host: nat, n: nat)
    ensures ReceivedUpTo([], host, n) == multiset{}
  {
    if n > 0 {
      ReceivedUpToNothing(host, n - 1);
    }
  }

  lemma {:induction false} ReceivedUpToOneMore(ps: seq<Placing>, host: nat, n: nat)
    requires ps != []
    ensures var last := ps[|ps| - 1];
            ReceivedUpTo(ps, host, n) ==
            ReceivedUpTo(ps[..|ps| - 1], host, n) +
            (if (last.place.AtStep? && last.place.k < n) || (last.place.Waiting? && host < n)
             then multiset{ObservationOf(last)} else multiset{})
  {
    if n > 0 {
      ReceivedUpToOneMore(ps, host, n - 1);
    }
  }

  lemma {:induction false} EachReceivedOnce(ps: seq<Placing>, host: nat, n: nat)
    requires InRange(ps, n) && (HasWaiting(ps) ==> host < n)
    ensures ReceivedUpTo(ps, host, n) == Kept(ps)
  {
    if ps == [] {
      ReceivedUpToNothing(host, n);
    } else {
      var front := ps[..|ps| - 1];
      assert InRange(front, n);
      assert HasWaiting(front) ==> HasWaiting(ps) by {
        if HasWaiting(front) {
          var k :| 0 <= k < |front| && front[k].place.Waiting?;
          assert ps[k] == front[k];
        }
      }
      EachReceivedOnce(front, host, n);
      ReceivedUpToOneMore(ps, host, n);
    }
  }

  lemma {:induction false} ObservationsAdd(steps: seq<Step>, ps: seq<Placing>, host: nat)
    requires AllReceived(steps, ps, host)
    ensures AllObservations(steps) == ReceivedUpTo(ps, host, |steps|)
  {
    if steps != [] {
      var n := |steps| - 1;
      assert AllReceived(steps[..n], ps, host);
      ObservationsAdd(steps[..n], ps, host);
    }
  }

  /** The observations of the trajectory are those of the tool messages that are kept, each exactly once. */
  lemma {:induction false} Conservation(ms: seq<Message>)
    ensures Arrived(Spoken(ms), Arrivals(ms))
    ensures AllObservations(Build(ms)) == Kept(Places(Spoken(ms), Arrivals(ms)))
  {
    Placement(ms);
    var speakers, ps := Spoken(ms), Places(Spoken(ms), Arrivals(ms));
    PlacesInRange(speakers, Arrivals(ms));
    ObservationsAdd(Build(ms), ps, OrphanHost(speakers));
    EachReceivedOnce(ps, OrphanHost(speakers), |Build(ms)|);
  }

  lemma {:induction false} LastAgentIsLast(speakers: seq<Message>, n: nat)
    requires n <= |speakers|
    ensures var last := LastAgent(speakers, n);
            forall k :: (if last.Some? then last.value + 1 else 0) <= k < n ==> !IsAgent(speakers[k])
  {
    if n > 0 && !IsAgent(speakers[n - 1]) {
      LastAgentIsLast(speakers, n - 1);
    }
  }

  /** Dropped are exactly the results without a call id that no agent message precedes. */
  lemma OnlyStraysAreDropped(speakers: seq<Message>, a: Arrival)
    requires a.m.Message? && a.n <= |speakers|
    ensures PlaceOf(speakers, a).Dropped? <==>
              SourceId(a.m).None? && forall k :: 0 <= k < a.n ==> !IsAgent(speakers[k])
  {
    LastAgentIsLast(speakers, a.n);
  }
}
