/**
  `process_tree_rss_kib` of scripts/migration-readiness.py: resident memory of a process and its
  descendants, from one snapshot of parents and sizes.
*/
module ProcessTree {
  import opened Sequences

  datatype Pid = Pid(number: nat)

  /** A path of child edges from `path[0]` down to its last process. */
  ghost predicate IsPath(parents: map<Pid, Pid>, path: seq<Pid>) {
    path != [] && forall i | 0 < i < |path| :: path[i] in parents && parents[path[i]] == path[i - 1]
  }

  ghost predicate Descends(parents: map<Pid, Pid>, root: Pid, pid: Pid) {
    exists path :: IsPath(parents, path) && path[0] == root && path[|path| - 1] == pid
  }

  /** The root and everything reachable from it; cycles in the snapshot are allowed. */
  ghost function Tree(parents: map<Pid, Pid>, root: Pid): set<Pid> {
    set pid | pid in parents.Keys + {root} && Descends(parents, root, pid)
  }

  ghost predicate Closed(parents: map<Pid, Pid>, s: set<Pid>) {
    forall pid | pid in parents && parents[pid] in s :: pid in s
  }

  lemma RootDescends(parents: map<Pid, Pid>, root: Pid)
    ensures Descends(parents, root, root)
  {
    assert IsPath(parents, [root]);
  }

  lemma ChildDescends(parents: map<Pid, Pid>, root: Pid, pid: Pid)
    requires pid in parents && Descends(parents, root, parents[pid])
    ensures Descends(parents, root, pid)
  {
    var path :| IsPath(parents, path) && path[0] == root && path[|path| - 1] == parents[pid];
    var longer := path + [pid];
    assert IsPath(parents, longer);
  }

  /** Every closed set with the root holds the whole path, by induction along it. */
  lemma {:induction false} ClosedHoldsPath(parents: map<Pid, Pid>, s: set<Pid>, path: seq<Pid>)
    requires Closed(parents, s) && IsPath(parents, path) && path[0] in s
    ensures path[|path| - 1] in s
    decreases |path|
  {
    var last := |path| - 1;
    if last > 0 {
      ClosedHoldsPath(parents, s, path[..last]);
      assert path[last] in parents && parents[path[last]] == path[last - 1];
    }
  }

  lemma ClosedIsTree(parents: map<Pid, Pid>, root: Pid, s: set<Pid>)
    requires Closed(parents, s) && root in s
    requires forall pid | pid in s :: pid in parents.Keys + {root} && Descends(parents, root, pid)
    ensures s == Tree(parents, root)
  {
    forall pid | pid in Tree(parents, root) ensures pid in s {
      var path :| IsPath(parents, path) && path[0] == root && path[|path| - 1] == pid;
      ClosedHoldsPath(parents, s, path);
    }
    assert forall pid | pid in s :: pid in Tree(parents, root);
  }

  function Resident(rss: map<Pid, nat>, pid: Pid): nat {
    if pid in rss then rss[pid] else 0
  }

  ghost function Total(rss: map<Pid, nat>, s: set<Pid>): nat {
    if s == {} then 0 else
      var pid :| pid in s;
      Resident(rss, pid) + Total(rss, s - {pid})
  }

  /** The total does not depend on which process is counted first. */
  lemma {:induction false} TotalWithout(rss: map<Pid, nat>, s: set<Pid>, pid: Pid)
    requires pid in s
    ensures Total(rss, s) == Resident(rss, pid) + Total(rss, s - {pid})
    decreases |s|
  {
    var first :| first in s && Total(rss, s) == Resident(rss, first) + Total(rss, s - {first});
    if first != pid {
      TotalWithout(rss, s - {first}, pid);
      TotalWithout(rss, s - {pid}, first);
      assert s - {first} - {pid} == s - {pid} - {first};
    }
  }

  lemma SameSize(a: set<Pid>, b: set<Pid>)
    requires a <= b && |a| == |b|
    ensures a == b
  {
    assert |b - a| == |b| - |a|;
  }

  /**
    One pass over the snapshot in any order. A process admitted early in the pass can admit its
    children later in the same pass.
  */
  method Pass(parents: map<Pid, Pid>, root: Pid, given: set<Pid>) returns (selected: set<Pid>)
    requires forall pid | pid in given :: pid in parents.Keys + {root} && Descends(parents, root, pid)
    ensures given <= selected
    ensures forall pid | pid in selected :: pid in parents.Keys + {root} && Descends(parents, root, pid)
    ensures forall pid | pid in parents && parents[pid] in given :: pid in selected
  {
    selected := given;
    var todo := parents.Keys;
    while todo != {}
      invariant todo <= parents.Keys && given <= selected
      invariant forall pid | pid in selected :: pid in parents.Keys + {root} && Descends(parents, root, pid)
      invariant forall pid | pid in parents && pid !in todo && parents[pid] in given :: pid in selected
      decreases todo
    {
      var pid :| pid in todo;
      todo := todo - {pid};
      if parents[pid] in selected {
        ChildDescends(parents, root, pid);
        selected := selected + {pid};
      }
    }
  }

  /** The resident size of exactly the processes reachable from the root, whatever the iteration order. */
  method ProcessTreeRss(parents: map<Pid, Pid>, rss: map<Pid, nat>, root: Pid) returns (total: nat)
    ensures total == Total(rss, Tree(parents, root))
  {
    var selected := {root};
    RootDescends(parents, root);
    var changed := true;
    ghost var all := parents.Keys + {root};
    while changed
      invariant root in selected
      invariant forall pid | pid in selected :: pid in all && Descends(parents, root, pid)
      invariant !changed ==> Closed(parents, selected)
      decreases |all - selected|, if changed then 1 else 0
    {
      var before := selected;
      selected := Pass(parents, root, before);
      assert selected <= all;
      changed := |selected| != |before|;
      if !changed {
        SameSize(before, selected);
      } else {
        Shrinks(all, before, selected);
      }
    }
    ClosedIsTree(parents, root, selected);
    total := 0;
    var rest := selected;
    while rest != {}
      invariant total + Total(rss, rest) == Total(rss, selected)
      decreases rest
    {
      var pid :| pid in rest;
      TotalWithout(rss, rest, pid);
      total := total + Resident(rss, pid);
      rest := rest - {pid};
    }
  }

  lemma Shrinks(all: set<Pid>, before: set<Pid>, after: set<Pid>)
    requires before <= after <= all && |after| != |before|
    ensures |all - after| < |all - before|
  {
    assert |all - after| == |all| - |after| && |all - before| == |all| - |before|;
    SubsetSize(before, after);
  }
}
