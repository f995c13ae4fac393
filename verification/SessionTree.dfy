/**
 The session tree that src/lib/session-utils.ts counts over: descendants by following parent
 links, and their number as a sum over the children.
 */
module SessionTree {
  import opened Wrappers

  datatype Status = Busy | Idle | Paused | Error | Queued | Provisioning

  /** An empty `parent` stands for a missing parentSessionId. */
  datatype Session = Session(id: string, parent: string, status: Status)

  predicate UniqueIds(sessions: seq<Session>) {
    forall i, j :: 0 <= i < j < |sessions| ==> sessions[i].id != sessions[j].id
  }

  /** The listed sessions whose parent is `id`, in list order. */
  function Children(sessions: seq<Session>, id: string): seq<Session> {
    if sessions == [] then []
    else
      var last := sessions[|sessions| - 1];
      Children(sessions[..|sessions| - 1], id) + (if last.parent != "" && last.parent == id then [last] else [])
  }

  function ParentOf(sessions: seq<Session>, id: string): Option<string> {
    if sessions == [] then None
    else if sessions[0].id == id then (if sessions[0].parent == "" then None else Some(sessions[0].parent))
    else ParentOf(sessions[1..], id)
  }

  /** The ancestor `n` links above `id`. */
  function Up(sessions: seq<Session>, id: string, n: nat): Option<string> {
    if n == 0 then Some(id)
    else
      match Up(sessions, id, n - 1)
      case Some(a) => ParentOf(sessions, a)
      case None => None
  }

  ghost predicate Below(sessions: seq<Session>, id: string, top: string) {
    exists n: nat :: 0 < n && Up(sessions, id, n) == Some(top)
  }

  ghost predicate Acyclic(sessions: seq<Session>) {
    forall s :: s in sessions ==> !Below(sessions, s.id, s.id)
  }

  /** The listed sessions below `top` with one of the given statuses. */
  ghost function Descendants(sessions: seq<Session>, top: string, statuses: set<Status>): set<Session> {
    set s | s in sessions && Below(sessions, s.id, top) && s.status in statuses
  }

  function AllStatuses(): set<Status> {
    {Busy, Idle, Paused, Error, Queued, Provisioning}
  }

  lemma IsStatus(status: Status)
    ensures status in AllStatuses()
  {
    match status
    case Busy =>
    case Idle =>
    case Paused =>
    case Error =>
    case Queued =>
    case Provisioning =>
  }

  /******* Links *******/

  lemma {:induction false} ChildrenAreListed(sessions: seq<Session>, id: string, c: Session)
    ensures c in Children(sessions, id) <==> c in sessions && c.parent != "" && c.parent == id
  {
    if sessions != [] {
      ChildrenAreListed(sessions[..|sessions| - 1], id, c);
      assert sessions == sessions[..|sessions| - 1] + [sessions[|sessions| - 1]];
    }
  }

  lemma {:induction false} ChildrenAreDistinct(sessions: seq<Session>, id: string)
    requires UniqueIds(sessions)
    ensures UniqueIds(Children(sessions, id))
  {
    if sessions != [] {
      var front, last := sessions[..|sessions| - 1], sessions[|sessions| - 1];
      ChildrenAreDistinct(front, id);
      var cs := Children(front, id);
      forall k | 0 <= k < |cs|
        ensures cs[k].id != last.id
      {
        ChildrenAreListed(front, id, cs[k]);
      }
    }
  }

  lemma {:induction false} ParentOfListed(sessions: seq<Session>, s: Session)
    requires UniqueIds(sessions) && s in sessions
    ensures ParentOf(sessions, s.id) == if s.parent == "" then None else Some(s.parent)
  {
    if sessions[0] != s {
      assert s in sessions[1..];
      ParentOfListed(sessions[1..], s);
    }
  }

  lemma {:induction false} HasParentIsListed(sessions: seq<Session>, id: string)
    requires ParentOf(sessions, id).Some?
    ensures exists s :: s in sessions && s.id == id && s.parent != "" && ParentOf(sessions, id) == Some(s.parent)
  {
    if sessions[0].id == id {
      assert sessions[0] in sessions;
    } else {
      HasParentIsListed(sessions[1..], id);
    }
  }

  lemma {:induction false} UpTwice(sessions: seq<Session>, id: string, m: nat, n: nat)
    ensures Up(sessions, id, m + n)
         == match Up(sessions, id, m) case Some(a) => Up(sessions, a, n) case None => None
  {
    if n > 0 {
      UpTwice(sessions, id, m, n - 1);
    }
  }

  lemma BelowTwice(sessions: seq<Session>, a: string, b: string, c: string)
    requires Below(sessions, a, b) && Below(sessions, b, c)
    ensures Below(sessions, a, c)
  {
    var m: nat :| 0 < m && Up(sessions, a, m) == Some(b);
    var n: nat :| 0 < n && Up(sessions, b, n) == Some(c);
    UpTwice(sessions, a, m, n);
  }

  lemma ChildIsBelow(sessions: seq<Session>, c: Session)
    requires UniqueIds(sessions) && c in sessions && c.parent != ""
    ensures Below(sessions, c.id, c.parent)
  {
    ParentOfListed(sessions, c);
    assert Up(sessions, c.id, 0) == Some(c.id);
    assert Up(sessions, c.id, 1) == Some(c.parent);
  }

  /** `x` lies in the subtree of the child `c`. */
  ghost predicate InSubtree(sessions: seq<Session>, x: Session, c: Session) {
    x == c || Below(sessions, x.id, c.id)
  }

  lemma SubtreeIsBelow(sessions: seq<Session>, x: Session, c: Session)
    requires UniqueIds(sessions) && c in sessions && c.parent != "" && InSubtree(sessions, x, c)
    ensures Below(sessions, x.id, c.parent)
  {
    ChildIsBelow(sessions, c);
    if x != c {
      BelowTwice(sessions, x.id, c.id, c.parent);
    }
  }

  /** Whatever lies below `top` lies in the subtree of one of its children. */
  lemma BelowIsInSubtree(sessions: seq<Session>, x: Session, top: string) returns (c: Session)
    requires UniqueIds(sessions) && x in sessions && Below(sessions, x.id, top)
    ensures c in Children(sessions, top) && InSubtree(sessions, x, c)
  {
    var n: nat :| 0 < n && Up(sessions, x.id, n) == Some(top);
    var a := Up(sessions, x.id, n - 1).value;
    HasParentIsListed(sessions, a);
    c :| c in sessions && c.id == a && c.parent != "" && ParentOf(sessions, a) == Some(c.parent);
    ChildrenAreListed(sessions, top, c);
    if n == 1 {
      SameIdSameSession(sessions, x, c);
    }
  }

  lemma SameIdSameSession(sessions: seq<Session>, a: Session, b: Session)
    requires UniqueIds(sessions) && a in sessions && b in sessions && a.id == b.id
    ensures a == b
  {
    var i :| 0 <= i < |sessions| && sessions[i] == a;
    var j :| 0 <= j < |sessions| && sessions[j] == b;
    if i < j {} else if j < i {}
  }

  lemma {:induction false} SiblingAbove(sessions: seq<Session>, x: string, c1: Session, c2: Session, m: nat, n: nat)
    requires UniqueIds(sessions) && Acyclic(sessions) && c1 in sessions && c2 in sessions
    requires c1.parent == c2.parent != "" && m < n
    requires Up(sessions, x, m) == Some(c1.id)
    ensures Up(sessions, x, n) != Some(c2.id)
  {
    UpTwice(sessions, x, m, n - m);
    UpTwice(sessions, c1.id, 1, n - m - 1);
    ParentOfListed(sessions, c1);
    assert Up(sessions, c1.id, 0) == Some(c1.id);
    assert Up(sessions, c1.id, 1) == Some(c1.parent);
    if Up(sessions, x, n) == Some(c2.id) {
      assert Up(sessions, c1.parent, n - m - 1) == Some(c2.id);
      ChildIsBelow(sessions, c2);
      if n - m - 1 > 0 {
        assert Below(sessions, c2.parent, c2.id);
        BelowTwice(sessions, c2.id, c2.parent, c2.id);
      }
    }
  }

  /** The subtrees of two children do not meet. */
  lemma SubtreesAreDisjoint(sessions: seq<Session>, x: Session, c1: Session, c2: Session)
    requires UniqueIds(sessions) && Acyclic(sessions) && c1 in sessions && c2 in sessions
    requires c1.parent == c2.parent != "" && c1.id != c2.id
    requires InSubtree(sessions, x, c1)
    ensures !InSubtree(sessions, x, c2)
  {
    assert Up(sessions, x.id, 0) == Some(x.id);
    var m: nat :| Up(sessions, x.id, m) == Some(c1.id);
    if InSubtree(sessions, x, c2) {
      var n: nat :| Up(sessions, x.id, n) == Some(c2.id);
      if m < n {
        SiblingAbove(sessions, x.id, c1, c2, m, n);
      } else if n < m {
        SiblingAbove(sessions, x.id, c2, c1, n, m);
      }
    }
  }

  /******* Counting *******/

  /** What lies in the subtrees of some children. */
  ghost function Subtrees(sessions: seq<Session>, cs: seq<Session>, statuses: set<Status>): set<Session> {
    set x, c | x in sessions && c in cs && InSubtree(sessions, x, c) && x.status in statuses :: x
  }

  /** The recursion's sum: each child, if it has one of the statuses, and the descendants of each child. */
  ghost function SumBelow(sessions: seq<Session>, cs: seq<Session>, statuses: set<Status>): nat {
    if cs == [] then 0
    else
      var last := cs[|cs| - 1];
      SumBelow(sessions, cs[..|cs| - 1], statuses) +
      (if last.status in statuses then 1 else 0) + |Descendants(sessions, last.id, statuses)|
  }

  ghost predicate AreSiblings(sessions: seq<Session>, cs: seq<Session>, top: string) {
    UniqueIds(cs) && forall k :: 0 <= k < |cs| ==> cs[k] in sessions && cs[k].parent == top != ""
  }

  lemma OneSubtree(sessions: seq<Session>, c: Session, statuses: set<Status>)
    requires UniqueIds(sessions) && Acyclic(sessions) && c in sessions
    ensures var own := if c.status in statuses then {c} else {};
            && Subtrees(sessions, [c], statuses) == own + Descendants(sessions, c.id, statuses)
            && |Subtrees(sessions, [c], statuses)|
            == (if c.status in statuses then 1 else 0) + |Descendants(sessions, c.id, statuses)|
  {
    var own := if c.status in statuses then {c} else {};
    assert own !! Descendants(sessions, c.id, statuses);
    assert c in [c];
    assert Subtrees(sessions, [c], statuses) == own + Descendants(sessions, c.id, statuses);
  }

  lemma SubtreesOneMore(sessions: seq<Session>, cs: seq<Session>, c: Session, top: string, statuses: set<Status>)
    requires UniqueIds(sessions) && Acyclic(sessions) && AreSiblings(sessions, cs + [c], top)
    ensures Subtrees(sessions, cs + [c], statuses)
         == Subtrees(sessions, cs, statuses) + Subtrees(sessions, [c], statuses)
    ensures Subtrees(sessions, cs, statuses) !! Subtrees(sessions, [c], statuses)
  {
    forall x, d | x in sessions && d in cs && InSubtree(sessions, x, d)
      ensures !InSubtree(sessions, x, c)
    {
      var k :| 0 <= k < |cs| && cs[k] == d;
      assert (cs + [c])[k] == d && (cs + [c])[|cs|] == c;
      SubtreesAreDisjoint(sessions, x, d, c);
    }
  }

  lemma {:induction false} SumIsSize(sessions: seq<Session>, cs: seq<Session>, top: string, statuses: set<Status>)
    requires UniqueIds(sessions) && Acyclic(sessions) && AreSiblings(sessions, cs, top)
    ensures SumBelow(sessions, cs, statuses) == |Subtrees(sessions, cs, statuses)|
  {
    if cs != [] {
      var front, last := cs[..|cs| - 1], cs[|cs| - 1];
      assert cs == front + [last];
      SumIsSize(sessions, front, top, statuses);
      SubtreesOneMore(sessions, front, last, top, statuses);
      OneSubtree(sessions, last, statuses);
    }
  }

  /** The number of descendants is the sum that the recursion forms over the children. */
  lemma DescendantsSum(sessions: seq<Session>, top: string, statuses: set<Status>)
    requires UniqueIds(sessions) && Acyclic(sessions)
    ensures |Descendants(sessions, top, statuses)| == SumBelow(sessions, Children(sessions, top), statuses)
  {
    var cs := Children(sessions, top);
    ChildrenAreDistinct(sessions, top);
    forall c | c in cs
      ensures c in sessions && c.parent == top != ""
    {
      ChildrenAreListed(sessions, top, c);
    }
    SumIsSize(sessions, cs, top, statuses);
    forall x | x in sessions
      ensures Below(sessions, x.id, top) <==> exists c :: c in cs && InSubtree(sessions, x, c)
    {
      if Below(sessions, x.id, top) {
        var c := BelowIsInSubtree(sessions, x, top);
      }
      if c :| c in cs && InSubtree(sessions, x, c) {
        SubtreeIsBelow(sessions, x, c);
      }
    }
    assert Descendants(sessions, top, statuses) == Subtrees(sessions, cs, statuses);
  }

  /** The recursion goes down: a child has fewer descendants. */
  lemma ChildHasFewer(sessions: seq<Session>, top: string, c: Session)
    requires UniqueIds(sessions) && Acyclic(sessions) && c in Children(sessions, top)
    ensures |Descendants(sessions, c.id, AllStatuses())| < |Descendants(sessions, top, AllStatuses())|
  {
    ChildrenAreListed(sessions, top, c);
    ChildIsBelow(sessions, c);
    var below, all := Descendants(sessions, c.id, AllStatuses()), Descendants(sessions, top, AllStatuses());
    forall x | x in below
      ensures x in all
    {
      BelowTwice(sessions, x.id, c.id, top);
    }
    IsStatus(c.status);
    assert c in all - below;
    SmallerSubset(below, all);
  }

  lemma SmallerSubset<T>(a: set<T>, b: set<T>)
    requires a <= b && b - a != {}
    ensures |a| < |b|
  {
    assert |b - a| == |b| - |a|;
  }

  /******* Where the recursion ends *******/

  /** The calls that the recursion makes from `id` on form a tree of at most `depth` levels. */
  predicate EndsWithin(sessions: seq<Session>, id: string, depth: nat)
    decreases depth
  {
    depth > 0 &&
    forall k :: 0 <= k < |Children(sessions, id)| ==> EndsWithin(sessions, Children(sessions, id)[k].id, depth - 1)
  }

  ghost predicate Ends(sessions: seq<Session>, id: string) {
    exists depth: nat :: EndsWithin(sessions, id, depth)
  }

  lemma {:induction false} EndsWithinMore(sessions: seq<Session>, id: string, depth: nat, more: nat)
    requires EndsWithin(sessions, id, depth) && depth <= more
    ensures EndsWithin(sessions, id, more)
    decreases depth
  {
    forall k | 0 <= k < |Children(sessions, id)|
      ensures EndsWithin(sessions, Children(sessions, id)[k].id, more - 1)
    {
      EndsWithinMore(sessions, Children(sessions, id)[k].id, depth - 1, more - 1);
    }
  }

  lemma {:induction false} AcyclicEnds(sessions: seq<Session>, id: string)
    requires UniqueIds(sessions) && Acyclic(sessions)
    ensures EndsWithin(sessions, id, |Descendants(sessions, id, AllStatuses())| + 1)
    decreases |Descendants(sessions, id, AllStatuses())|
  {
    var n := |Descendants(sessions, id, AllStatuses())|;
    forall k | 0 <= k < |Children(sessions, id)|
      ensures EndsWithin(sessions, Children(sessions, id)[k].id, n)
    {
      var c := Children(sessions, id)[k];
      ChildHasFewer(sessions, id, c);
      AcyclicEnds(sessions, c.id);
      EndsWithinMore(sessions, c.id, |Descendants(sessions, c.id, AllStatuses())| + 1, n);
    }
  }

  /** Each link up takes a level more. */
  lemma {:induction false} EndsBelow(sessions: seq<Session>, id: string, n: nat, top: string, depth: nat)
    requires Up(sessions, id, n) == Some(top) && EndsWithin(sessions, top, depth)
    ensures n < depth && EndsWithin(sessions, id, depth - n)
    decreases n
  {
    if n > 0 {
      var a := Up(sessions, id, n - 1).value;
      HasParentIsListed(sessions, a);
      var s :| s in sessions && s.id == a && s.parent != "" && ParentOf(sessions, a) == Some(s.parent);
      ChildrenAreListed(sessions, top, s);
      var k :| 0 <= k < |Children(sessions, top)| && Children(sessions, top)[k] == s;
      EndsBelow(sessions, id, n - 1, a, depth - 1);
    }
  }

  lemma {:induction false} CycleNeverEnds(sessions: seq<Session>, id: string, n: nat, depth: nat)
    requires 0 < n && Up(sessions, id, n) == Some(id)
    ensures !EndsWithin(sessions, id, depth)
    decreases depth
  {
    if EndsWithin(sessions, id, depth) {
      EndsBelow(sessions, id, n, id, depth);
      CycleNeverEnds(sessions, id, n, depth - n);
    }
  }

  /** From every listed session the recursion ends if and only if no session is below itself. */
  lemma EndsExactlyWhenAcyclic(sessions: seq<Session>)
    requires UniqueIds(sessions)
    ensures (forall s :: s in sessions ==> Ends(sessions, s.id)) <==> Acyclic(sessions)
  {
    if Acyclic(sessions) {
      forall s | s in sessions
        ensures Ends(sessions, s.id)
      {
        AcyclicEnds(sessions, s.id);
      }
    } else {
      var s :| s in sessions && Below(sessions, s.id, s.id);
      var n: nat :| 0 < n && Up(sessions, s.id, n) == Some(s.id);
      forall depth: nat
        ensures !EndsWithin(sessions, s.id, depth)
      {
        CycleNeverEnds(sessions, s.id, n, depth);
      }
    }
  }
}
