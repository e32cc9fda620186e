// The descendant tree of the product's root process, found by scanning the process list
// until nothing is added.
module Descendants {
  import opened Basics

  // The parent of each listed process; order is the scan order.
  type Parents = map<int, int>

  // pid reaches root by following at most n parent links within the list.
  ghost predicate ReachesIn(parents: Parents, root: int, pid: int, n: nat)
    decreases n
  {
    pid == root || (n > 0 && pid in parents && ReachesIn(parents, root, parents[pid], n - 1))
  }

  ghost predicate Reaches(parents: Parents, root: int, pid: int) {
    exists n: nat :: ReachesIn(parents, root, pid, n)
  }

  // Membership is closed under children.
  ghost predicate Closed(parents: Parents, members: set<int>) {
    forall pid :: pid in parents && parents[pid] in members ==> pid in members
  }

  lemma {:induction false} ClosedContainsReaching(parents: Parents, root: int, members: set<int>, pid: int, n: nat)
    requires root in members && Closed(parents, members) && ReachesIn(parents, root, pid, n)
    ensures pid in members
    decreases n
  {
    if pid != root {
      ClosedContainsReaching(parents, root, members, parents[pid], n - 1);
    }
  }

  lemma ChildReaches(parents: Parents, root: int, pid: int)
    requires pid in parents && Reaches(parents, root, parents[pid])
    ensures Reaches(parents, root, pid)
  {
    var n: nat :| ReachesIn(parents, root, parents[pid], n);
    assert ReachesIn(parents, root, pid, n + 1);
  }

  // The scan order visits exactly the listed processes.
  predicate Lists(order: seq<int>, parents: Parents) {
    && (forall i :: 0 <= i < |order| ==> order[i] in parents)
    && (forall pid :: pid in parents ==> pid in order)
  }

  // One pass over the list in scan order.
  method Pass(parents: Parents, order: seq<int>, ghost root: int, members: set<int>)
    returns (grown: set<int>, changed: bool)
    requires Lists(order, parents)
    requires forall pid :: pid in members ==> Reaches(parents, root, pid)
    requires members <= parents.Keys
    ensures members <= grown <= parents.Keys
    ensures changed <==> grown != members
    ensures forall pid :: pid in grown ==> Reaches(parents, root, pid)
    ensures !changed ==> Closed(parents, members)
  {
    grown, changed := members, false;
    for i := 0 to |order|
      invariant members <= grown <= parents.Keys
      invariant changed <==> grown != members
      invariant forall pid :: pid in grown ==> Reaches(parents, root, pid)
      invariant !changed ==> forall j :: 0 <= j < i ==> (parents[order[j]] in members ==> order[j] in members)
    {
      var pid := order[i];
      if pid !in grown && parents[pid] in grown {
        ChildReaches(parents, root, pid);
        grown := grown + {pid};
        changed := true;
      }
    }
  }

  // The repeated scan terminates, whatever cycles the parent map has, and finds exactly
  // the listed processes whose parent chain reaches the root.
  method Members(parents: Parents, order: seq<int>, root: int) returns (members: Option<set<int>>)
    requires Lists(order, parents)
    ensures members.None? <==> root !in parents
    ensures members.Some? ==> forall pid :: pid in members.value <==> pid in parents && Reaches(parents, root, pid)
  {
    if root !in parents {
      return None;
    }
    var found := {root};
    assert ReachesIn(parents, root, root, 0);
    var changed := true;
    while changed
      invariant root in found && found <= parents.Keys
      invariant forall pid :: pid in found ==> Reaches(parents, root, pid)
      invariant !changed ==> Closed(parents, found)
      decreases |parents.Keys - found|, changed
    {
      ghost var before := found;
      found, changed := Pass(parents, order, root, found);
      if changed {
        FewerLeft(parents.Keys, before, found);
      }
    }
    forall pid | pid in parents && Reaches(parents, root, pid)
      ensures pid in found
    {
      var n: nat :| ReachesIn(parents, root, pid, n);
      ClosedContainsReaching(parents, root, found, pid, n);
    }
    members := Some(found);
  }

  lemma FewerLeft(all: set<int>, before: set<int>, after: set<int>)
    requires before < after <= all
    ensures |all - after| < |all - before|
  {
    var left, gained := all - after, after - before;
    assert all - before == left + gained;
    assert left * gained == {};
    assert gained != {};
  }
}
