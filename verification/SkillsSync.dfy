/**
 The flag-and-notify protocol of src-tauri/src/state.rs:188-210 as a state machine: any number
 of beginners, completers and waiters, whose atomic steps interleave in any order.
 */
module SkillsSync {

  /**
   A waiter in its loop: about to create the `notified` future, holding a future created when
   `notify_waiters` had been called `seen` times, awaiting that future, or returned.
   */
  datatype Waiter = AtTop | Armed(seen: nat) | Parked(seen: nat) | Returned

  /** `notified` counts the calls of `notify_waiters`; `stored` holds the completers between their two statements. */
  datatype State = State(ready: bool, notified: nat, waiters: map<nat, Waiter>, stored: set<nat>)

  const INITIAL := State(true, 0, map[], {})

  datatype Event =
    | Begin
    | Store(c: nat)
    | Notify(c: nat)
    | Enter(w: nat)
    | Arm(w: nat)
    | Load(w: nat)
    | Wake(w: nat)

  /** A future created before a call of `notify_waiters` is woken by it, polled or not. */
  predicate Enabled(s: State, e: Event) {
    match e
    case Begin => true
    case Store(c) => c !in s.stored
    case Notify(c) => c in s.stored
    case Enter(w) => w !in s.waiters
    case Arm(w) => w in s.waiters && s.waiters[w].AtTop?
    case Load(w) => w in s.waiters && s.waiters[w].Armed?
    case Wake(w) => w in s.waiters && s.waiters[w].Parked? && s.waiters[w].seen < s.notified
  }

  function Apply(s: State, e: Event): State
    requires Enabled(s, e)
  {
    match e
    case Begin => s.(ready := false)
    case Store(c) => s.(ready := true, stored := s.stored + {c})
    case Notify(c) => s.(notified := s.notified + 1, stored := s.stored - {c})
    case Enter(w) => s.(waiters := s.waiters[w := AtTop])
    case Arm(w) => s.(waiters := s.waiters[w := Armed(s.notified)])
    case Load(w) => s.(waiters := s.waiters[w := if s.ready then Returned else Parked(s.waiters[w].seen)])
    case Wake(w) => s.(waiters := s.waiters[w := AtTop])
  }

  /** The events can happen one after another from `s`. */
  predicate Possible(s: State, es: seq<Event>) {
    es == [] || (Possible(s, es[..|es| - 1]) && Enabled(After(s, es[..|es| - 1]), es[|es| - 1]))
  }

  function After(s: State, es: seq<Event>): State {
    if es == [] then s
    else
      var t := After(s, es[..|es| - 1]);
      if Enabled(t, es[|es| - 1]) then Apply(t, es[|es| - 1]) else t
  }

  lemma {:induction false} RunsJoin(s: State, a: seq<Event>, b: seq<Event>)
    ensures Possible(s, a + b) <==> Possible(s, a) && Possible(After(s, a), b)
    ensures After(s, a + b) == After(After(s, a), b)
  {
    if b == [] {
      assert a + b == a;
    } else {
      RunsJoin(s, a, b[..|b| - 1]);
      assert (a + b)[..|a + b| - 1] == a + b[..|b| - 1];
    }
  }

  /******* Safety *******/

  /** A waiter parked on a future that no call has woken yet. */
  predicate Unsignalled(s: State, w: nat) {
    w in s.waiters && s.waiters[w].Parked? && s.waiters[w].seen == s.notified
  }

  /** Futures are no newer than the last call, and an unsignalled waiter has something to wait for. */
  ghost predicate NoLostWakeup(s: State) {
    && (forall w :: w in s.waiters && (s.waiters[w].Armed? || s.waiters[w].Parked?) ==>
          s.waiters[w].seen <= s.notified)
    && (forall w :: Unsignalled(s, w) ==> !s.ready || s.stored != {})
  }

  lemma StepKeepsWakeups(s: State, e: Event)
    requires NoLostWakeup(s) && Enabled(s, e)
    ensures NoLostWakeup(Apply(s, e))
  {
    var t := Apply(s, e);
    forall w | Unsignalled(t, w)
      ensures !t.ready || t.stored != {}
    {
      if e.Store? {
        assert e.c in t.stored;
      } else if !e.Notify? {
        assert Unsignalled(s, w) || (e == Load(w) && !s.ready);
      }
    }
  }

  /** In every interleaving, a parked waiter that nothing has woken means no lost completion. */
  lemma {:induction false} NeverLost(es: seq<Event>)
    requires Possible(INITIAL, es)
    ensures NoLostWakeup(After(INITIAL, es))
  {
    if es != [] {
      NeverLost(es[..|es| - 1]);
      StepKeepsWakeups(After(INITIAL, es[..|es| - 1]), es[|es| - 1]);
    }
  }

  /******* What a waiter reads *******/

  /** A begin has occurred that no store has followed. */
  predicate Syncing(es: seq<Event>) {
    exists k :: 0 <= k < |es| && es[k].Begin? && forall j :: k < j < |es| ==> !es[j].Store?
  }

  lemma SyncingOneMore(es: seq<Event>, e: Event)
    ensures Syncing(es + [e]) <==> e.Begin? || (Syncing(es) && !e.Store?)
  {
    var all := es + [e];
    if e.Begin? {
      assert all[|es|].Begin?;
    } else {
      assert all[|es|] == e;
      assert forall k :: 0 <= k < |es| ==> all[k] == es[k];
      if Syncing(es) && !e.Store? {
        var k :| 0 <= k < |es| && es[k].Begin? && forall j :: k < j < |es| ==> !es[j].Store?;
        assert all[k].Begin?;
      }
    }
  }

  lemma OneMore(es: seq<Event>, e: Event)
    requires Possible(INITIAL, es + [e])
    ensures Possible(INITIAL, es) && Enabled(After(INITIAL, es), e)
    ensures After(INITIAL, es + [e]) == Apply(After(INITIAL, es), e)
  {
    assert (es + [e])[..|es|] == es;
  }

  /** The flag is up if and only if every begin has been followed by a store. */
  lemma {:induction false} ReadyExactlyWhen(es: seq<Event>)
    requires Possible(INITIAL, es)
    ensures After(INITIAL, es).ready <==> !Syncing(es)
  {
    if es != [] {
      var front, e := es[..|es| - 1], es[|es| - 1];
      assert es == front + [e];
      OneMore(front, e);
      ReadyExactlyWhen(front);
      SyncingOneMore(front, e);
    }
  }

  /** A waiter that loads the flag during a sync parks on its future; one that loads it otherwise returns. */
  lemma LoadDecides(es: seq<Event>, w: nat)
    requires Possible(INITIAL, es + [Load(w)])
    ensures var s, t := After(INITIAL, es), After(INITIAL, es + [Load(w)]);
            && w in s.waiters && s.waiters[w].Armed? && w in t.waiters
            && t.waiters[w] == if Syncing(es) then Parked(s.waiters[w].seen) else Returned
  {
    OneMore(es, Load(w));
    ReadyExactlyWhen(es);
  }

  predicate LoadsOutside(es: seq<Event>, w: nat, k: nat) {
    k < |es| && es[k] == Load(w) && !Syncing(es[..k])
  }

  /** The waiters that have returned are those that loaded the flag while no sync was running. */
  lemma {:induction false} ReturnedExactlyWhen(es: seq<Event>, w: nat)
    requires Possible(INITIAL, es)
    ensures var s := After(INITIAL, es);
            w in s.waiters && s.waiters[w].Returned? <==> exists k: nat :: LoadsOutside(es, w, k)
  {
    if es != [] {
      var front, e := es[..|es| - 1], es[|es| - 1];
      assert es == front + [e];
      OneMore(front, e);
      ReturnedExactlyWhen(front, w);
      ReadyExactlyWhen(front);
      LoadsOneMore(front, e, w);
      ReturnedOneMore(After(INITIAL, front), e, w);
    }
  }

  lemma ReturnedOneMore(s: State, e: Event, w: nat)
    requires Enabled(s, e)
    ensures var t := Apply(s, e);
            w in t.waiters && t.waiters[w].Returned? <==>
              (w in s.waiters && s.waiters[w].Returned?) || (e == Load(w) && s.ready)
  {
  }

  lemma LoadsOneMore(es: seq<Event>, e: Event, w: nat)
    ensures (exists k: nat :: LoadsOutside(es + [e], w, k)) <==>
              (exists k: nat :: LoadsOutside(es, w, k)) || (e == Load(w) && !Syncing(es))
  {
    var all := es + [e];
    assert all[..|es|] == es;
    forall k: nat | k < |es|
      ensures LoadsOutside(all, w, k) <==> LoadsOutside(es, w, k)
    {
      assert all[..k] == es[..k];
    }
    assert LoadsOutside(all, w, |es|) <==> e == Load(w) && !Syncing(es);
    if k: nat :| LoadsOutside(es, w, k) {
      assert LoadsOutside(all, w, k);
    }
  }

  /** The completer `c` has stored and not yet notified. */
  predicate Between(es: seq<Event>, c: nat) {
    exists k :: 0 <= k < |es| && es[k] == Store(c) && forall j :: k < j < |es| ==> es[j] != Notify(c)
  }

  lemma BetweenOneMore(es: seq<Event>, e: Event, c: nat)
    ensures Between(es + [e], c) <==> e == Store(c) || (Between(es, c) && e != Notify(c))
  {
    var all := es + [e];
    assert all[|es|] == e;
    assert forall k :: 0 <= k < |es| ==> all[k] == es[k];
    if Between(es, c) && e != Notify(c) {
      var k :| 0 <= k < |es| && es[k] == Store(c) && forall j :: k < j < |es| ==> es[j] != Notify(c);
      assert all[k] == Store(c);
    }
  }

  /** Who is between the two statements of a completion follows from the events alone. */
  lemma {:induction false} StoredExactlyWhen(es: seq<Event>, c: nat)
    requires Possible(INITIAL, es)
    ensures c in After(INITIAL, es).stored <==> Between(es, c)
  {
    if es != [] {
      var front, e := es[..|es| - 1], es[|es| - 1];
      assert es == front + [e];
      OneMore(front, e);
      StoredExactlyWhen(front, c);
      BetweenOneMore(front, e, c);
    }
  }

  predicate NoArm(es: seq<Event>, w: nat) {
    forall k :: 0 <= k < |es| ==> es[k] != Arm(w)
  }

  predicate NoNotify(es: seq<Event>) {
    forall k :: 0 <= k < |es| ==> !es[k].Notify?
  }

  /** Calls of `notify_waiters` since a future was made are told by the counter. */
  lemma {:induction false} ArmedSince(s: State, w: nat, es: seq<Event>)
    requires w in s.waiters && s.waiters[w] == Armed(s.notified) && Possible(s, es) && NoArm(es, w)
    ensures var t := After(s, es);
            && s.notified <= t.notified && (s.notified == t.notified <==> NoNotify(es))
            && w in t.waiters && (t.waiters[w].Armed? || t.waiters[w].Parked? ==> t.waiters[w].seen == s.notified)
  {
    if es != [] {
      var front, e := es[..|es| - 1], es[|es| - 1];
      ArmedSince(s, w, front);
      assert es == front + [e];
      assert NoNotify(es) <==> NoNotify(front) && !e.Notify?;
    }
  }

  /** A parked waiter can wake if and only if `notify_waiters` was called after its future was made. */
  lemma WakesExactlyWhen(pre: seq<Event>, w: nat, post: seq<Event>)
    requires Possible(INITIAL, pre + [Arm(w)] + post) && NoArm(post, w)
    requires var s := After(INITIAL, pre + [Arm(w)] + post); w in s.waiters && s.waiters[w].Parked?
    ensures Enabled(After(INITIAL, pre + [Arm(w)] + post), Wake(w)) <==> !NoNotify(post)
  {
    RunsJoin(INITIAL, pre + [Arm(w)], post);
    OneMore(pre, Arm(w));
    ArmedSince(After(INITIAL, pre + [Arm(w)]), w, post);
  }

  /** A waiter that has returned read the flag, and read it true, when no sync was running. */
  lemma ReturnedAfterReadingTrue(es: seq<Event>, w: nat)
    requires Possible(INITIAL, es)
    requires w in After(INITIAL, es).waiters && After(INITIAL, es).waiters[w].Returned?
    ensures exists k :: 0 <= k < |es| && es[k] == Load(w) && After(INITIAL, es[..k]).ready && !Syncing(es[..k])
  {
    ReturnedExactlyWhen(es, w);
    var k: nat :| LoadsOutside(es, w, k);
    assert es[k] == Load(w);
    RunsJoin(INITIAL, es[..k], es[k..]);
    assert es[..k] + es[k..] == es;
    ReadyExactlyWhen(es[..k]);
  }

  /******* Liveness *******/

  /** The flag is up and every parked waiter has been woken. */
  predicate Settled(s: State) {
    s.ready && forall w :: w in s.waiters && s.waiters[w].Parked? ==> s.waiters[w].seen < s.notified
  }

  predicate NoBegin(es: seq<Event>) {
    forall k :: 0 <= k < |es| ==> !es[k].Begin?
  }

  predicate StepOf(e: Event, w: nat) {
    e == Enter(w) || e == Arm(w) || e == Load(w) || e == Wake(w)
  }

  function OwnSteps(es: seq<Event>, w: nat): nat {
    if es == [] then 0
    else OwnSteps(es[..|es| - 1], w) + (if StepOf(es[|es| - 1], w) then 1 else 0)
  }

  /** How many steps a waiter has before it in a settled state. */
  function StepsLeft(s: State, w: nat): nat {
    if w !in s.waiters then 3
    else
      match s.waiters[w]
      case Parked(_) => 3
      case AtTop => 2
      case Armed(_) => 1
      case Returned => 0
  }

  predicate CanStep(s: State, w: nat) {
    Enabled(s, Enter(w)) || Enabled(s, Arm(w)) || Enabled(s, Load(w)) || Enabled(s, Wake(w))
  }

  lemma SettledStep(s: State, e: Event, w: nat)
    requires Settled(s) && Enabled(s, e) && !e.Begin?
    ensures Settled(Apply(s, e))
    ensures StepsLeft(s, w) == StepsLeft(Apply(s, e), w) + (if StepOf(e, w) then 1 else 0)
  {
  }

  lemma {:induction false} SettledRun(s: State, es: seq<Event>, w: nat)
    requires Settled(s) && Possible(s, es) && NoBegin(es)
    ensures Settled(After(s, es))
    ensures StepsLeft(s, w) == StepsLeft(After(s, es), w) + OwnSteps(es, w)
    ensures StepsLeft(After(s, es), w) > 0 ==> CanStep(After(s, es), w)
  {
    if es != [] {
      SettledRun(s, es[..|es| - 1], w);
      SettledStep(After(s, es[..|es| - 1]), es[|es| - 1], w);
    }
  }

  lemma {:induction false} StoredKeepsReady(s: State, es: seq<Event>)
    requires s.ready && Possible(s, es) && NoBegin(es)
    ensures After(s, es).ready
  {
    if es != [] {
      StoredKeepsReady(s, es[..|es| - 1]);
    }
  }

  /** A completion with no begin after its store leaves the state settled. */
  lemma CompletionSettles(pre: seq<Event>, c: nat, mid: seq<Event>)
    requires Possible(INITIAL, pre + [Store(c)] + mid + [Notify(c)]) && NoBegin(mid)
    ensures Settled(After(INITIAL, pre + [Store(c)] + mid + [Notify(c)]))
  {
    var es := pre + [Store(c)] + mid;
    RunsJoin(INITIAL, es, [Notify(c)]);
    RunsJoin(INITIAL, pre + [Store(c)], mid);
    RunsJoin(INITIAL, pre, [Store(c)]);
    assert (pre + [Store(c)])[..|pre + [Store(c)]| - 1] == pre;
    StoredKeepsReady(After(INITIAL, pre + [Store(c)]), mid);
    NeverLost(es);
    assert (es + [Notify(c)])[..|es + [Notify(c)]| - 1] == es;
  }

  /**
   Once a completion is not followed by a begin, no waiter ever blocks again: until it has
   returned it has a step to take, and it takes at most three.
   */
  lemma EveryWaiterReturns(pre: seq<Event>, c: nat, mid: seq<Event>, post: seq<Event>, w: nat)
    requires NoBegin(mid) && NoBegin(post)
    requires Possible(INITIAL, pre + [Store(c)] + mid + [Notify(c)] + post)
    ensures var s := After(INITIAL, pre + [Store(c)] + mid + [Notify(c)] + post);
            && OwnSteps(post, w) <= 3
            && (OwnSteps(post, w) == 3 ==> w in s.waiters && s.waiters[w].Returned?)
            && ((w in s.waiters && s.waiters[w].Returned?) || CanStep(s, w))
  {
    var es := pre + [Store(c)] + mid + [Notify(c)];
    RunsJoin(INITIAL, es, post);
    CompletionSettles(pre, c, mid);
    SettledRun(After(INITIAL, es), post, w);
  }
}
