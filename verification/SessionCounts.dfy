/**
 `buildChildrenMap`, `buildDescendantCounts` and `buildDescendantStatusCounts` of
 src/lib/session-utils.ts: recursion with a memo table, against the descendants it counts.
 From a list with a cyclic parent relation the recursion never ends (SessionTree.EndsExactlyWhenAcyclic).
 */
module SessionCounts {
  import opened SessionTree

  function Get<T>(m: map<string, seq<T>>, key: string): seq<T> {
    if key in m then m[key] else []
  }

  method BuildChildrenMap(sessions: seq<Session>) returns (children: map<string, seq<Session>>)
    ensures forall id :: Get(children, id) == Children(sessions, id)
    ensures forall id :: id in children <==> Children(sessions, id) != []
  {
    children := map[];
    for i := 0 to |sessions|
      invariant forall id :: Get(children, id) == Children(sessions[..i], id)
      invariant forall id :: id in children <==> Children(sessions[..i], id) != []
    {
      assert sessions[..i + 1][..i] == sessions[..i];
      var session := sessions[i];
      if session.parent != "" {
        children := children[session.parent := Get(children, session.parent) + [session]];
      }
    }
    assert sessions[..|sessions|] == sessions;
  }

  /** The listed sessions, with the children map that belongs to them. */
  ghost predicate Tree(sessions: seq<Session>, children: map<string, seq<Session>>) {
    && UniqueIds(sessions) && Acyclic(sessions)
    && forall id :: Get(children, id) == Children(sessions, id)
  }

  function Ids(sessions: seq<Session>): set<string> {
    set s | s in sessions :: s.id
  }

  lemma ChildIsListed(sessions: seq<Session>, id: string, k: nat)
    requires k < |Children(sessions, id)|
    ensures Children(sessions, id)[k] in sessions && Children(sessions, id)[k].id in Ids(sessions)
  {
    ChildrenAreListed(sessions, id, Children(sessions, id)[k]);
  }

  lemma SumOneMore(sessions: seq<Session>, cs: seq<Session>, k: nat, statuses: set<Status>)
    requires k < |cs|
    ensures SumBelow(sessions, cs[..k + 1], statuses)
         == SumBelow(sessions, cs[..k], statuses) + (if cs[k].status in statuses then 1 else 0)
            + |Descendants(sessions, cs[k].id, statuses)|
  {
    assert cs[..k + 1][..k] == cs[..k];
  }

  /******* Descendant counts *******/

  /** A memo table that holds only listed sessions, with their numbers of descendants. */
  ghost predicate Memo(sessions: seq<Session>, counts: map<string, nat>) {
    && counts.Keys <= Ids(sessions)
    && forall id :: id in counts ==> counts[id] == |Descendants(sessions, id, AllStatuses())|
  }

  class DescendantCounter {
    const children: map<string, seq<Session>>
    ghost const sessions: seq<Session>
    var counts: map<string, nat>

    constructor (children: map<string, seq<Session>>, ghost sessions: seq<Session>)
      ensures counts == map[] && this.children == children && this.sessions == sessions
    {
      this.children, this.sessions := children, sessions;
      counts := map[];
    }

    /** The inner function `count`. */
    method Count(id: string) returns (total: nat)
      requires Tree(sessions, children) && Memo(sessions, counts) && id in Ids(sessions)
      modifies this
      ensures Memo(sessions, counts) && id in counts && old(counts.Keys) <= counts.Keys
      ensures total == |Descendants(sessions, id, AllStatuses())|
      decreases |Descendants(sessions, id, AllStatuses())|, 1
    {
      if id in counts {
        return counts[id];
      }
      total := CountBelow(id);
      DescendantsSum(sessions, id, AllStatuses());
      counts := counts[id := total];
    }

    /** Lines 87-92. */
    method CountBelow(id: string) returns (total: nat)
      requires Tree(sessions, children) && Memo(sessions, counts)
      modifies this
      ensures Memo(sessions, counts) && old(counts.Keys) <= counts.Keys
      ensures total == SumBelow(sessions, Children(sessions, id), AllStatuses())
      decreases |Descendants(sessions, id, AllStatuses())|, 0
    {
      var cs := Get(children, id);
      total := |cs|;
      for i := 0 to |cs|
        invariant Memo(sessions, counts) && old(counts.Keys) <= counts.Keys
        invariant total == |cs| - i + SumBelow(sessions, cs[..i], AllStatuses())
      {
        ChildHasFewer(sessions, id, cs[i]);
        ChildIsListed(sessions, id, i);
        SumOneMore(sessions, cs, i, AllStatuses());
        IsStatus(cs[i].status);
        var below := Count(cs[i].id);
        total := total + below;
      }
      assert cs[..|cs|] == cs;
    }
  }

  method BuildDescendantCounts(sessions: seq<Session>) returns (counts: map<string, nat>)
    requires UniqueIds(sessions) && Acyclic(sessions)
    ensures counts.Keys == Ids(sessions)
    ensures forall id :: id in counts ==> counts[id] == |Descendants(sessions, id, AllStatuses())|
  {
    var children := BuildChildrenMap(sessions);
    var counter := new DescendantCounter(children, sessions);
    for i := 0 to |sessions|
      invariant fresh(counter) && Tree(counter.sessions, counter.children) && Memo(sessions, counter.counts)
      invariant counter.sessions == sessions
      invariant Ids(sessions[..i]) <= counter.counts.Keys
    {
      assert sessions[i] in sessions;
      assert sessions[..i + 1] == sessions[..i] + [sessions[i]];
      var _ := counter.Count(sessions[i].id);
    }
    assert sessions[..|sessions|] == sessions;
    counts := counter.counts;
  }

  /******* Status counts *******/

  datatype StatusCounts = StatusCounts(busy: nat, idle: nat, paused: nat, error: nat, queued: nat, provisioning: nat)

  const NO_COUNTS := StatusCounts(0, 0, 0, 0, 0, 0)

  function Increment(c: StatusCounts, status: Status): StatusCounts {
    match status
    case Busy => c.(busy := c.busy + 1)
    case Idle => c.(idle := c.idle + 1)
    case Paused => c.(paused := c.paused + 1)
    case Error => c.(error := c.error + 1)
    case Queued => c.(queued := c.queued + 1)
    case Provisioning => c.(provisioning := c.provisioning + 1)
  }

  /** Lines 122-125: queued and provisioning counts are not added up. */
  function AddBelow(c: StatusCounts, below: StatusCounts): StatusCounts {
    c.(busy := c.busy + below.busy, idle := c.idle + below.idle,
       paused := c.paused + below.paused, error := c.error + below.error)
  }

  function WithStatus(cs: seq<Session>, status: Status): nat {
    if cs == [] then 0
    else WithStatus(cs[..|cs| - 1], status) + (if cs[|cs| - 1].status == status then 1 else 0)
  }

  /** The sums over some children: busy, idle, paused and error of all descendants, the others of the children only. */
  ghost predicate Sums(c: StatusCounts, sessions: seq<Session>, cs: seq<Session>) {
    && c.busy == SumBelow(sessions, cs, {Busy}) && c.idle == SumBelow(sessions, cs, {Idle})
    && c.paused == SumBelow(sessions, cs, {Paused}) && c.error == SumBelow(sessions, cs, {Error})
    && c.queued == WithStatus(cs, Queued) && c.provisioning == WithStatus(cs, Provisioning)
  }

  /** What the counts of `id` mean. */
  ghost predicate Exact(c: StatusCounts, sessions: seq<Session>, id: string) {
    && c.busy == |Descendants(sessions, id, {Busy})| && c.idle == |Descendants(sessions, id, {Idle})|
    && c.paused == |Descendants(sessions, id, {Paused})| && c.error == |Descendants(sessions, id, {Error})|
    && c.queued == WithStatus(Children(sessions, id), Queued)
    && c.provisioning == WithStatus(Children(sessions, id), Provisioning)
  }

  lemma SumsOneMore(c: StatusCounts, below: StatusCounts, sessions: seq<Session>, cs: seq<Session>, k: nat)
    requires k < |cs| && Sums(c, sessions, cs[..k]) && Exact(below, sessions, cs[k].id)
    ensures Sums(AddBelow(Increment(c, cs[k].status), below), sessions, cs[..k + 1])
  {
    SumOneMore(sessions, cs, k, {Busy});
    SumOneMore(sessions, cs, k, {Idle});
    SumOneMore(sessions, cs, k, {Paused});
    SumOneMore(sessions, cs, k, {Error});
    assert cs[..k + 1][..k] == cs[..k];
  }

  lemma SumsAreExact(c: StatusCounts, sessions: seq<Session>, id: string)
    requires UniqueIds(sessions) && Acyclic(sessions) && Sums(c, sessions, Children(sessions, id))
    ensures Exact(c, sessions, id)
  {
    DescendantsSum(sessions, id, {Busy});
    DescendantsSum(sessions, id, {Idle});
    DescendantsSum(sessions, id, {Paused});
    DescendantsSum(sessions, id, {Error});
  }

  ghost predicate StatusMemo(sessions: seq<Session>, counts: map<string, StatusCounts>) {
    && counts.Keys <= Ids(sessions)
    && forall id :: id in counts ==> Exact(counts[id], sessions, id)
  }

  class StatusCounter {
    const children: map<string, seq<Session>>
    ghost const sessions: seq<Session>
    var counts: map<string, StatusCounts>

    constructor (children: map<string, seq<Session>>, ghost sessions: seq<Session>)
      ensures counts == map[] && this.children == children && this.sessions == sessions
    {
      this.children, this.sessions := children, sessions;
      counts := map[];
    }

    /** The inner function `countStatuses`. */
    method CountStatuses(id: string) returns (total: StatusCounts)
      requires Tree(sessions, children) && StatusMemo(sessions, counts) && id in Ids(sessions)
      modifies this
      ensures StatusMemo(sessions, counts) && id in counts && old(counts.Keys) <= counts.Keys
      ensures Exact(total, sessions, id)
      decreases |Descendants(sessions, id, AllStatuses())|, 1
    {
      if id in counts {
        return counts[id];
      }
      total := CountStatusesBelow(id);
      SumsAreExact(total, sessions, id);
      counts := counts[id := total];
    }

    /** Lines 116-126. */
    method CountStatusesBelow(id: string) returns (total: StatusCounts)
      requires Tree(sessions, children) && StatusMemo(sessions, counts)
      modifies this
      ensures StatusMemo(sessions, counts) && old(counts.Keys) <= counts.Keys
      ensures Sums(total, sessions, Children(sessions, id))
      decreases |Descendants(sessions, id, AllStatuses())|, 0
    {
      total := NO_COUNTS;
      var cs := Get(children, id);
      for i := 0 to |cs|
        invariant StatusMemo(sessions, counts) && old(counts.Keys) <= counts.Keys
        invariant Sums(total, sessions, cs[..i])
      {
        ChildHasFewer(sessions, id, cs[i]);
        ChildIsListed(sessions, id, i);
        var below := CountStatuses(cs[i].id);
        SumsOneMore(total, below, sessions, cs, i);
        total := AddBelow(Increment(total, cs[i].status), below);
      }
      assert cs[..|cs|] == cs;
    }
  }

  method BuildDescendantStatusCounts(sessions: seq<Session>) returns (counts: map<string, StatusCounts>)
    requires UniqueIds(sessions) && Acyclic(sessions)
    ensures counts.Keys == Ids(sessions)
    ensures forall id :: id in counts ==> Exact(counts[id], sessions, id)
  {
    var children := BuildChildrenMap(sessions);
    var counter := new StatusCounter(children, sessions);
    for i := 0 to |sessions|
      invariant fresh(counter) && Tree(counter.sessions, counter.children) && StatusMemo(sessions, counter.counts)
      invariant counter.sessions == sessions
      invariant Ids(sessions[..i]) <= counter.counts.Keys
    {
      assert sessions[i] in sessions;
      assert sessions[..i + 1] == sessions[..i] + [sessions[i]];
      var _ := counter.CountStatuses(sessions[i].id);
    }
    assert sessions[..|sessions|] == sessions;
    counts := counter.counts;
  }

  /******* Queued and provisioning *******/

  /**
   A status that is not added up is nevertheless counted exactly if and only if no descendant
   with that status lies deeper than a child.
   */
  lemma ChildrenOnlyIsExactWhen(sessions: seq<Session>, id: string, status: Status)
    requires UniqueIds(sessions) && Acyclic(sessions)
    ensures WithStatus(Children(sessions, id), status) == |Descendants(sessions, id, {status})|
       <==> forall c :: c in Children(sessions, id) ==> Descendants(sessions, c.id, {status}) == {}
  {
    DescendantsSum(sessions, id, {status});
    SumExceeds(sessions, Children(sessions, id), status);
  }

  lemma {:induction false} SumExceeds(sessions: seq<Session>, cs: seq<Session>, status: Status)
    ensures WithStatus(cs, status) <= SumBelow(sessions, cs, {status})
    ensures WithStatus(cs, status) == SumBelow(sessions, cs, {status})
       <==> forall c :: c in cs ==> Descendants(sessions, c.id, {status}) == {}
  {
    if cs != [] {
      var front, last := cs[..|cs| - 1], cs[|cs| - 1];
      SumExceeds(sessions, front, status);
      assert cs == front + [last];
    }
  }
}
