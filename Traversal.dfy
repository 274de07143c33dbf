/**
 * The invariant of the reconciliation's depth-first traversal
 * (internxt_backup.py:499-610) over a stack of (relative path, uuid)
 * pairs: which local folders have been visited, which are waiting on the
 * stack, and why every local folder is visited exactly once.
 */
module Traversal {
  import opened Text
  import opened LocalScan
  import Remote

  type Pair = (Path, Remote.Uuid)

  /** The paths of a sequence of pairs, such as the stack. */
  function PathsOf(ps: seq<Pair>): set<Path> {
    set k | 0 <= k < |ps| :: ps[k].0
  }

  predicate UniquePaths(ps: seq<Pair>) {
    forall i, j :: 0 <= i < j < |ps| ==> ps[i].0 != ps[j].0
  }

  /** Every path is a child of `cur`. */
  predicate ChildrenOf(ps: seq<Pair>, cur: Path) {
    forall k :: 0 <= k < |ps| ==> ps[k].0 != [] && Parent(ps[k].0) == cur
  }

  /** The last components of the paths. */
  function Names(ps: seq<Pair>): set<string> {
    set k | 0 <= k < |ps| && ps[k].0 != [] :: Last(ps[k].0)
  }

  lemma ChildPath(cur: Path, n: string)
    ensures cur + [n] != [] && Parent(cur + [n]) == cur && Last(cur + [n]) == n
  {
    assert (cur + [n])[..|cur|] == cur;
  }

  lemma ParentLast(p: Path)
    requires p != []
    ensures p == Parent(p) + [Last(p)]
  {
  }

  /** For children of `cur`, a name is present exactly when its path is. */
  lemma NamesArePaths(ps: seq<Pair>, cur: Path, n: string)
    requires ChildrenOf(ps, cur)
    ensures n in Names(ps) <==> cur + [n] in PathsOf(ps)
  {
    ChildPath(cur, n);
    if n in Names(ps) {
      var k :| 0 <= k < |ps| && ps[k].0 != [] && Last(ps[k].0) == n;
      ParentLast(ps[k].0);
    }
    if cur + [n] in PathsOf(ps) {
      var k :| 0 <= k < |ps| && ps[k].0 == cur + [n];
    }
  }

  /** Pushing a child of `cur` under a new name. */
  lemma PushChild(ps: seq<Pair>, cur: Path, n: string, u: Remote.Uuid)
    requires ChildrenOf(ps, cur) && UniquePaths(ps) && n !in Names(ps)
    ensures ChildrenOf(ps + [(cur + [n], u)], cur) && UniquePaths(ps + [(cur + [n], u)])
    ensures Names(ps + [(cur + [n], u)]) == Names(ps) + {n}
    ensures PathsOf(ps + [(cur + [n], u)]) == PathsOf(ps) + {cur + [n]}
  {
    var ps' := ps + [(cur + [n], u)];
    ChildPath(cur, n);
    NamesArePaths(ps, cur, n);
    assert forall k :: 0 <= k < |ps| ==> ps'[k] == ps[k];
    assert ps'[|ps|].0 == cur + [n];
  }

  lemma PathsOfAppend(a: seq<Pair>, b: seq<Pair>)
    ensures PathsOf(a + b) == PathsOf(a) + PathsOf(b)
  {
    var ab := a + b;
    forall p | p in PathsOf(b) ensures p in PathsOf(ab) {
      var k :| 0 <= k < |b| && b[k].0 == p;
      assert ab[|a| + k] == b[k];
    }
    forall p | p in PathsOf(a) ensures p in PathsOf(ab) {
      var k :| 0 <= k < |a| && a[k].0 == p;
      assert ab[k] == a[k];
    }
  }

  /** Two sequences of distinct paths with no path in common have distinct paths together. */
  lemma UniqueAppend(a: seq<Pair>, b: seq<Pair>)
    requires UniquePaths(a) && UniquePaths(b) && PathsOf(a) !! PathsOf(b)
    ensures UniquePaths(a + b)
  {
    var ab := a + b;
    forall i, j | 0 <= i < j < |ab| ensures ab[i].0 != ab[j].0 {
      if i < |a| && j >= |a| {
        assert ab[i].0 in PathsOf(a) by { assert ab[i] == a[i]; }
        assert ab[j].0 in PathsOf(b) by { assert ab[j] == b[j - |a|]; }
      }
    }
  }

  /**
   * The subfolders found remotely and those created afterwards are together
   * the children of `cur` for every local subfolder name, each once.
   */
  lemma JoinPushes(found: seq<Pair>, created: seq<Pair>, cur: Path, missing0: set<string>, missing: set<string>)
    requires ChildrenOf(found, cur) && UniquePaths(found)
    requires ChildrenOf(created, cur) && UniquePaths(created)
    requires missing == missing0 - Names(found) && Names(created) == missing
    ensures ChildrenOf(found + created, cur) && UniquePaths(found + created)
    ensures PathsOf(found + created) == PathsOf(found) + PathsOf(created)
    ensures forall n :: n in missing0 ==> cur + [n] in PathsOf(found + created)
  {
    PathsOfAppend(found, created);
    forall p | p in PathsOf(found) ensures p !in PathsOf(created) {
      var k :| 0 <= k < |found| && found[k].0 == p;
      ParentLast(p);
      NamesArePaths(created, cur, Last(p));
      assert Last(p) in Names(found);
    }
    UniqueAppend(found, created);
    forall n | n in missing0 ensures cur + [n] in PathsOf(found + created) {
      NamesArePaths(found, cur, n);
      NamesArePaths(created, cur, n);
    }
  }

  /** The pushes of one visit of `cur`: one for each local subfolder, and nothing else. */
  ghost predicate Covers(snap: Snapshot, cur: Path, ps: seq<Pair>) {
    && ChildrenOf(ps, cur) && UniquePaths(ps) && PathsOf(ps) <= snap.folderSizes.Keys
    && (forall n :: n in SubdirsOf(snap.subdirMap, cur) ==> cur + [n] in PathsOf(ps))
  }

  // ---------------------------------------------------------------------
  // The traversal invariant

  /**
   * The scan's folders form a tree: a folder's subfolder names are exactly
   * the names of the recorded folders one level below it, and every
   * recorded folder but the root has its parent recorded.
   */
  ghost predicate Tree(snap: Snapshot) {
    && (forall q, n :: n in SubdirsOf(snap.subdirMap, q) <==> q + [n] in snap.folderSizes)
    && (forall q :: q in snap.folderSizes && q != [] ==> Parent(q) in snap.folderSizes)
  }

  /**
   * `processed` holds the local folders popped so far. The stack holds
   * distinct unvisited paths; every one but the root is a local folder
   * whose parent has been visited; and every local subfolder of a visited
   * folder has been visited or is waiting on the stack.
   */
  ghost predicate Frontier(snap: Snapshot, stack: seq<Pair>, processed: set<Path>) {
    && processed <= snap.folderSizes.Keys
    && UniquePaths(stack)
    && (forall k :: 0 <= k < |stack| ==> stack[k].0 !in processed)
    && (forall k :: 0 <= k < |stack| && stack[k].0 != [] ==>
          stack[k].0 in snap.folderSizes && Parent(stack[k].0) in processed)
    && (forall q :: q in processed && q != [] ==> Parent(q) in processed)
    && (forall q, n :: q in processed && n in SubdirsOf(snap.subdirMap, q) ==>
          q + [n] in processed || q + [n] in PathsOf(stack))
    && ([] in snap.folderSizes ==> [] in processed || [] in PathsOf(stack))
  }

  /** The traversal starts from the root alone. */
  lemma FrontierStart(snap: Snapshot, root: Remote.Uuid)
    ensures Frontier(snap, [([], root)], {})
  {
    var stack: seq<Pair> := [([], root)];
    assert stack[0].0 == [];
  }

  lemma PathsOfPop(stack: seq<Pair>)
    requires stack != []
    ensures PathsOf(stack) == PathsOf(stack[..|stack| - 1]) + {stack[|stack| - 1].0}
  {
    assert stack == stack[..|stack| - 1] + [stack[|stack| - 1]];
    PathsOfAppend(stack[..|stack| - 1], [stack[|stack| - 1]]);
    assert PathsOf([stack[|stack| - 1]]) == {stack[|stack| - 1].0};
  }

  /** A popped path with no local folder is the root: the orphan branch fires only there. */
  lemma PopOrphan(snap: Snapshot, stack: seq<Pair>, processed: set<Path>)
    requires Frontier(snap, stack, processed) && stack != []
    requires stack[|stack| - 1].0 !in snap.folderSizes
    ensures stack[|stack| - 1].0 == []
    ensures Frontier(snap, stack[..|stack| - 1], processed)
    ensures [] !in PathsOf(stack[..|stack| - 1])
  {
    var rest := stack[..|stack| - 1];
    PathsOfPop(stack);
    forall p | p in PathsOf(rest) ensures p != [] {
      var k :| 0 <= k < |rest| && rest[k].0 == p;
      assert rest[k] == stack[k];
    }
    forall q, n | q in processed && n in SubdirsOf(snap.subdirMap, q)
      ensures q + [n] in processed || q + [n] in PathsOf(rest)
    {
      ChildPath(q, n);
    }
  }

  /** Children of the popped folder are new: neither visited nor waiting. */
  lemma FreshChildren(snap: Snapshot, stack: seq<Pair>, processed: set<Path>, ps: seq<Pair>)
    requires Frontier(snap, stack, processed) && stack != []
    requires ChildrenOf(ps, stack[|stack| - 1].0)
    ensures forall p :: p in PathsOf(ps) ==> p !in processed && p !in PathsOf(stack)
  {
    var cur := stack[|stack| - 1].0;
    forall p | p in PathsOf(ps) ensures p !in processed && p !in PathsOf(stack) {
      var k :| 0 <= k < |ps| && ps[k].0 == p;
      assert p != [] && Parent(p) == cur;
      forall j | 0 <= j < |stack| ensures stack[j].0 != p {
        assert |p| == |cur| + 1;
      }
    }
  }

  /** Each entry of the stack after a visit is unvisited, local, and has a visited parent. */
  lemma PushedEntries(snap: Snapshot, stack: seq<Pair>, processed: set<Path>, ps: seq<Pair>)
    requires Frontier(snap, stack, processed) && stack != []
    requires stack[|stack| - 1].0 in snap.folderSizes
    requires ChildrenOf(ps, stack[|stack| - 1].0) && PathsOf(ps) <= snap.folderSizes.Keys
    requires forall p :: p in PathsOf(ps) ==> p !in processed
    ensures var stack', processed' := stack[..|stack| - 1] + ps, processed + {stack[|stack| - 1].0};
      forall k :: 0 <= k < |stack'| ==>
        && stack'[k].0 !in processed'
        && (stack'[k].0 != [] ==> stack'[k].0 in snap.folderSizes && Parent(stack'[k].0) in processed')
  {
    var cur := stack[|stack| - 1].0;
    var rest := stack[..|stack| - 1];
    var stack', processed' := rest + ps, processed + {cur};
    forall k | 0 <= k < |stack'|
      ensures stack'[k].0 !in processed'
      ensures stack'[k].0 != [] ==> stack'[k].0 in snap.folderSizes && Parent(stack'[k].0) in processed'
    {
      if k < |rest| {
        assert stack'[k] == stack[k];
        assert stack[k].0 != cur;
      } else {
        assert stack'[k] == ps[k - |rest|];
        assert stack'[k].0 in PathsOf(ps);
      }
    }
  }

  /**
   * Visiting the local folder on top of the stack and pushing its children
   * keeps the invariant, with the folder now visited.
   */
  lemma PopVisit(snap: Snapshot, stack: seq<Pair>, processed: set<Path>, ps: seq<Pair>)
    requires Frontier(snap, stack, processed) && stack != []
    requires stack[|stack| - 1].0 in snap.folderSizes
    requires ChildrenOf(ps, stack[|stack| - 1].0) && UniquePaths(ps) && PathsOf(ps) <= snap.folderSizes.Keys
    requires forall n :: n in SubdirsOf(snap.subdirMap, stack[|stack| - 1].0) ==>
      stack[|stack| - 1].0 + [n] in PathsOf(ps)
    ensures Frontier(snap, stack[..|stack| - 1] + ps, processed + {stack[|stack| - 1].0})
    ensures PathsOf(stack[..|stack| - 1] + ps) == PathsOf(stack) - {stack[|stack| - 1].0} + PathsOf(ps)
  {
    var cur := stack[|stack| - 1].0;
    var rest := stack[..|stack| - 1];
    var stack' := rest + ps;
    var processed' := processed + {cur};
    PathsOfPop(stack);
    PathsOfAppend(rest, ps);
    FreshChildren(snap, stack, processed, ps);
    assert UniquePaths(rest);
    assert cur !in PathsOf(rest) by {
      forall k | 0 <= k < |rest| ensures rest[k].0 != cur {
        assert rest[k] == stack[k];
      }
    }
    UniqueAppend(rest, ps);
    PushedEntries(snap, stack, processed, ps);
    forall q, n | q in processed' && n in SubdirsOf(snap.subdirMap, q)
      ensures q + [n] in processed' || q + [n] in PathsOf(stack')
    {
    }
    assert PathsOf(stack') == PathsOf(stack) - {cur} + PathsOf(ps);
  }

  /**
   * When the stack is empty, every local folder has been visited: each one's
   * parent was visited, and the visit put it on the stack.
   */
  lemma {:induction false} AllVisited(snap: Snapshot, processed: set<Path>, q: Path)
    requires Tree(snap) && Frontier(snap, [], processed)
    requires q in snap.folderSizes
    ensures q in processed
    decreases |q|
  {
    if q != [] {
      AllVisited(snap, processed, Parent(q));
      ParentLast(q);
      assert Last(q) in SubdirsOf(snap.subdirMap, Parent(q));
    }
  }

  // ---------------------------------------------------------------------
  // The whole loop

  /**
   * The state of the DFS between two pops: the frontier; at most one orphan
   * popped, the root, and only when the root is no local folder; and the
   * folders created so far, distinct local folders, each visited or
   * waiting on the stack.
   */
  ghost predicate DfsState(snap: Snapshot, stack: seq<Pair>, processed: set<Path>, orphans: seq<Path>,
                           created: seq<Pair>) {
    && Frontier(snap, stack, processed)
    && |orphans| <= 1 && (forall p :: p in orphans ==> p == [] && p !in snap.folderSizes)
    && (orphans != [] ==> [] !in PathsOf(stack))
    && ([] !in snap.folderSizes && orphans == [] ==> [] in PathsOf(stack))
    && UniquePaths(created) && PathsOf(created) <= snap.folderSizes.Keys
    && PathsOf(created) <= processed + PathsOf(stack)
  }

  lemma DfsStart(snap: Snapshot, root: Remote.Uuid)
    ensures DfsState(snap, [([], root)], {}, [], [])
  {
    FrontierStart(snap, root);
    var stack: seq<Pair> := [([], root)];
    assert stack[0].0 == [];
  }

  /** Popping a path with no local folder: it is the root, and the only orphan. */
  lemma DfsOrphan(snap: Snapshot, stack: seq<Pair>, processed: set<Path>, orphans: seq<Path>, created: seq<Pair>)
    requires DfsState(snap, stack, processed, orphans, created) && stack != []
    requires stack[|stack| - 1].0 !in snap.folderSizes
    ensures stack[|stack| - 1].0 == []
    ensures DfsState(snap, stack[..|stack| - 1], processed, orphans + [[]], created)
  {
    PopOrphan(snap, stack, processed);
    PathsOfPop(stack);
  }

  /** Visiting the local folder on top, with its pushes `found` then `made`. */
  lemma DfsVisit(snap: Snapshot, stack: seq<Pair>, processed: set<Path>, orphans: seq<Path>, created: seq<Pair>,
                 found: seq<Pair>, made: seq<Pair>)
    requires DfsState(snap, stack, processed, orphans, created) && stack != []
    requires stack[|stack| - 1].0 in snap.folderSizes
    requires Covers(snap, stack[|stack| - 1].0, found + made)
    requires ChildrenOf(made, stack[|stack| - 1].0) && UniquePaths(made) && PathsOf(made) <= snap.folderSizes.Keys
    ensures DfsState(snap, stack[..|stack| - 1] + (found + made), processed + {stack[|stack| - 1].0}, orphans,
                     created + made)
  {
    var cur := stack[|stack| - 1].0;
    var stack' := stack[..|stack| - 1] + (found + made);
    PopVisit(snap, stack, processed, found + made);
    DfsCreated(snap, stack, processed, orphans, created, made);
    PathsOfAppend(created, made);
    PathsOfAppend(found, made);
    assert cur in PathsOf(stack) by { assert stack[|stack| - 1].0 == cur; }
    if orphans != [] {
      assert [] !in PathsOf(found + made) by {
        forall k | 0 <= k < |found + made| ensures (found + made)[k].0 != [] { }
      }
    }
  }

  /** Folders created while visiting the top are new: no earlier creation has their path. */
  lemma DfsCreated(snap: Snapshot, stack: seq<Pair>, processed: set<Path>, orphans: seq<Path>, created: seq<Pair>,
                   made: seq<Pair>)
    requires DfsState(snap, stack, processed, orphans, created) && stack != []
    requires ChildrenOf(made, stack[|stack| - 1].0) && UniquePaths(made) && PathsOf(made) <= snap.folderSizes.Keys
    ensures UniquePaths(created + made) && PathsOf(created + made) <= snap.folderSizes.Keys
  {
    FreshChildren(snap, stack, processed, made);
    UniqueAppend(created, made);
    PathsOfAppend(created, made);
  }

  /** When the stack is empty the orphan branch fired exactly when the root is no local folder. */
  lemma DfsDone(snap: Snapshot, processed: set<Path>, orphans: seq<Path>, created: seq<Pair>)
    requires Tree(snap) && DfsState(snap, [], processed, orphans, created)
    ensures orphans == [] <==> [] in snap.folderSizes
    ensures snap.folderSizes.Keys <= processed
  {
    forall q | q in snap.folderSizes ensures q in processed {
      AllVisited(snap, processed, q);
    }
    if orphans != [] {
      assert orphans[0] in orphans;
    }
  }
}
