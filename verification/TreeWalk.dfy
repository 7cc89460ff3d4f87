/** The worklist walk over the process table, and what follows from its result being the least
    closed set: conservation, the reused-pid guard, independence of row order. */
module TreeWalk {
  import opened Wrappers
  import opened Sums
  import opened MemWatch

  lemma {:induction false} KidsAreRows(rows: seq<ProcessRow>, parent: nat)
    ensures forall k :: k in Kids(rows, parent) <==> exists r :: r in rows && r.ppid == parent && r.pid == k
  {
    if rows != [] {
      var front, last := rows[..|rows| - 1], rows[|rows| - 1];
      KidsAreRows(front, parent);
      assert forall r :: r in rows <==> r in front || r == last;
    }
  }

  /** The kids that are pushed: not visited yet and not rejected. */
  function Pushed(rows: seq<ProcessRow>, visited: set<nat>, p: nat, kids: seq<nat>): (s: seq<nat>)
    ensures forall k :: k in s <==> k in kids && k !in visited && !Rejected(rows, p, k)
  {
    if kids == [] then [] else
      var k := kids[|kids| - 1];
      assert forall x :: x in kids <==> x in kids[..|kids| - 1] || x == k;
      Pushed(rows, visited, p, kids[..|kids| - 1]) + (if k in visited || Rejected(rows, p, k) then [] else [k])
  }

  /** The number of kids that the guard cuts off. */
  function Skipped(rows: seq<ProcessRow>, visited: set<nat>, p: nat, kids: seq<nat>): nat {
    if kids == [] then 0 else
      var k := kids[|kids| - 1];
      Skipped(rows, visited, p, kids[..|kids| - 1]) + (if k !in visited && Rejected(rows, p, k) then 1 else 0)
  }

  lemma PushedSnoc(rows: seq<ProcessRow>, visited: set<nat>, p: nat, kids: seq<nat>, j: nat)
    requires j < |kids|
    ensures Pushed(rows, visited, p, kids[..j + 1])
         == Pushed(rows, visited, p, kids[..j])
             + (if kids[j] in visited || Rejected(rows, p, kids[j]) then [] else [kids[j]])
    ensures Skipped(rows, visited, p, kids[..j + 1])
         == Skipped(rows, visited, p, kids[..j]) + (if kids[j] !in visited && Rejected(rows, p, kids[j]) then 1 else 0)
  {
    hide Rejected;
    assert kids[..j + 1][..j] == kids[..j];
  }

  method PushKids(stack: seq<nat>, skipped: nat, visited: set<nat>, t: Tables, p: nat, kids: seq<nat>,
                  ghost rows: seq<ProcessRow>)
    returns (stack': seq<nat>, skipped': nat)
    requires TablesOf(t, rows)
    ensures stack' == stack + Pushed(rows, visited, p, kids) && skipped' == skipped + Skipped(rows, visited, p, kids)
  {
    stack', skipped' := stack, skipped;
    var parentCreated := Lookup(t.created, p, 0);
    for j := 0 to |kids|
      invariant stack' == stack + Pushed(rows, visited, p, kids[..j])
      invariant skipped' == skipped + Skipped(rows, visited, p, kids[..j])
    {
      var k := kids[j];
      PushedSnoc(rows, visited, p, kids, j);
      if k in visited {
        continue;
      }
      var kidCreated := Lookup(t.created, k, 0);
      if parentCreated != 0 && kidCreated != 0 && kidCreated < parentCreated {
        skipped' := skipped' + 1;
        continue;
      }
      stack' := stack' + [k];
    }
    assert kids[..|kids|] == kids;
  }

  // The walk.

  /** Where a process on the stack or in the visited set comes from. */
  ghost predicate Reached(rows: seq<ProcessRow>, our: nat, visited: set<nat>, k: nat) {
    k == our || exists r :: r in rows && r.pid == k && r.ppid in visited && !Rejected(rows, r.ppid, k)
  }

  ghost predicate Walking(rows: seq<ProcessRow>, our: nat, visited: set<nat>, stack: seq<nat>) {
    && visited <= Tree(rows, our)
    && (forall k :: k in stack ==> k in Tree(rows, our))
    && (our in visited || our in stack)
    && (visited != {} ==> our in visited)
    && (forall r :: r in rows && r.ppid in visited && !Rejected(rows, r.ppid, r.pid) ==>
       r.pid in visited || r.pid in stack)
    && (forall k :: k in visited || k in stack ==> Reached(rows, our, visited, k))
  }

  lemma PopVisited(rows: seq<ProcessRow>, our: nat, visited: set<nat>, stack: seq<nat>)
    requires Walking(rows, our, visited, stack) && stack != [] && stack[|stack| - 1] in visited
    ensures Walking(rows, our, visited, stack[..|stack| - 1])
  {
    var p, rest := stack[|stack| - 1], stack[..|stack| - 1];
    assert forall x :: x in stack <==> x in rest || x == p;
  }

  lemma VisitNext(rows: seq<ProcessRow>, our: nat, visited: set<nat>, stack: seq<nat>)
    requires Walking(rows, our, visited, stack) && stack != [] && stack[|stack| - 1] !in visited
    requires visited == {} ==> stack == [our]
    ensures var p, rest := stack[|stack| - 1], stack[..|stack| - 1];
            Walking(rows, our, visited + {p}, rest + Pushed(rows, visited + {p}, p, Kids(rows, p)))
  {
    var p, rest := stack[|stack| - 1], stack[..|stack| - 1];
    var next := visited + {p};
    var pushed := Pushed(rows, next, p, Kids(rows, p));
    assert forall x :: x in stack <==> x in rest || x == p;
    KidsAreRows(rows, p);
    TreeIsLeast(rows, our);
    forall k | k in pushed ensures k in Tree(rows, our) && Reached(rows, our, next, k) {
      var r :| r in rows && r.ppid == p && r.pid == k;
    }
    forall k | k in next || k in rest ensures Reached(rows, our, next, k) {
      assert Reached(rows, our, visited, k);
    }
  }

  /** A walk that is over has visited exactly the tree. */
  lemma WalkedIsTree(rows: seq<ProcessRow>, our: nat, visited: set<nat>)
    requires Walking(rows, our, visited, [])
    ensures visited == Tree(rows, our)
  {
    TreeIsLeast(rows, our);
    assert Encloses(rows, our, visited);
  }

  // Counting the reused pids, when pids are unique.

  lemma {:induction false} SkippedIsCard(rows: seq<ProcessRow>, visited: set<nat>, p: nat, kids: seq<nat>)
    requires forall i, j :: 0 <= i < j < |kids| ==> kids[i] != kids[j]
    ensures Skipped(rows, visited, p, kids) == |set k | k in kids && k !in visited && Rejected(rows, p, k)|
  {
    if kids != [] {
      var front, last := kids[..|kids| - 1], kids[|kids| - 1];
      SkippedIsCard(rows, visited, p, front);
      hide Rejected;
      assert forall x :: x in kids <==> x in front || x == last;
      var a := set k | k in front && k !in visited && Rejected(rows, p, k);
      var b := set k | k in kids && k !in visited && Rejected(rows, p, k);
      if last !in visited && Rejected(rows, p, last) {
        assert b == a + {last};
      } else {
        assert b == a;
      }
    }
  }

  lemma {:induction false} KidsDistinct(rows: seq<ProcessRow>, p: nat)
    requires UniquePids(rows)
    ensures forall i, j :: 0 <= i < j < |Kids(rows, p)| ==> Kids(rows, p)[i] != Kids(rows, p)[j]
  {
    if rows != [] {
      var front, last := rows[..|rows| - 1], rows[|rows| - 1];
      KidsDistinct(front, p);
      KidsAreRows(front, p);
      forall i | 0 <= i < |Kids(front, p)| ensures Kids(front, p)[i] != last.pid {
        assert Kids(front, p)[i] in Kids(front, p);
      }
    }
  }

  lemma SameRow(rows: seq<ProcessRow>, a: ProcessRow, b: ProcessRow)
    requires UniquePids(rows) && a in rows && b in rows && a.pid == b.pid
    ensures a == b
  {
  }

  /** A rejected kid is not visited when its parent is, unless it is the root. */
  lemma RejectedIsUnvisited(rows: seq<ProcessRow>, our: nat, visited: set<nat>, stack: seq<nat>, r: ProcessRow)
    requires UniquePids(rows) && Walking(rows, our, visited, stack)
    requires r in rows && Rejected(rows, r.ppid, r.pid) && r.pid in visited
    ensures r.pid == our
  {
    assert Reached(rows, our, visited, r.pid);
    if r.pid != our {
      var x :| x in rows && x.pid == r.pid && x.ppid in visited && !Rejected(rows, x.ppid, r.pid);
      SameRow(rows, x, r);
    }
  }

  /** The kids that the visit of `p` cuts off. */
  ghost function CutAt(rows: seq<ProcessRow>, visited: set<nat>, p: nat): set<nat> {
    set k | k in Kids(rows, p) && k !in visited && Rejected(rows, p, k)
  }

  lemma ReusedIsCut(rows: seq<ProcessRow>, our: nat, visited: set<nat>, stack: seq<nat>, p: nat, k: nat)
    requires UniquePids(rows) && p !in visited && Walking(rows, our, visited + {p}, stack)
    ensures k in Reused(rows, our, visited + {p})
        <==> k in Reused(rows, our, visited) || k in CutAt(rows, visited + {p}, p)
  {
    KidsAreRows(rows, p);
    var next := visited + {p};
    if k in Reused(rows, our, next) {
      var r :| r in rows && r.ppid in next && Rejected(rows, r.ppid, r.pid) && r.pid != our && r.pid == k;
      hide Rejected;
      if k in next {
        RejectedIsUnvisited(rows, our, next, stack, r);
      }
    }
    if k in CutAt(rows, next, p) {
      hide Rejected;
      var r :| r in rows && r.ppid == p && r.pid == k;
      assert our in next;
    }
  }

  lemma CutIsNew(rows: seq<ProcessRow>, our: nat, visited: set<nat>, p: nat, k: nat)
    requires UniquePids(rows) && p !in visited && k in Reused(rows, our, visited)
    ensures k !in CutAt(rows, visited + {p}, p)
  {
    KidsAreRows(rows, p);
    hide Rejected;
    var r :| r in rows && r.ppid in visited && Rejected(rows, r.ppid, r.pid) && r.pid != our && r.pid == k;
    if k in CutAt(rows, visited + {p}, p) {
      var x :| x in rows && x.ppid == p && x.pid == k;
      SameRow(rows, x, r);
    }
  }

  lemma ReusedStep(rows: seq<ProcessRow>, our: nat, visited: set<nat>, stack: seq<nat>, p: nat)
    requires UniquePids(rows) && p !in visited && Walking(rows, our, visited + {p}, stack)
    ensures |Reused(rows, our, visited + {p})|
         == |Reused(rows, our, visited)| + Skipped(rows, visited + {p}, p, Kids(rows, p))
  {
    KidsDistinct(rows, p);
    SkippedIsCard(rows, visited + {p}, p, Kids(rows, p));
    forall k
      ensures k in Reused(rows, our, visited + {p})
          <==> k in Reused(rows, our, visited) || k in CutAt(rows, visited + {p}, p) {
      ReusedIsCut(rows, our, visited, stack, p, k);
    }
    forall k | k in Reused(rows, our, visited) ensures k !in CutAt(rows, visited + {p}, p) {
      CutIsNew(rows, our, visited, p, k);
    }
    hide Reused, CutAt;
    var a, b, cut := Reused(rows, our, visited), Reused(rows, our, visited + {p}), CutAt(rows, visited + {p}, p);
    assert b == a + cut && a !! cut;
  }

  lemma LookupsMatch(t: Tables, rows: seq<ProcessRow>, p: nat)
    requires TablesOf(t, rows)
    ensures var v := ViewOf(rows);
            && Lookup(t.ws, p, 0) == v.ws(p) && Lookup(t.commit, p, 0) == v.commit(p)
            && ClassifyRole(LowerCase(Lookup(t.name, p, ""))) == v.role(p)
            && (if p in t.wvType then Some(t.wvType[p]) else None) == v.typed(p)
    ensures Lookup(t.byParent, p, []) == Kids(rows, p)
  {
  }

  /** The visit of one process: it is counted, and its children are pushed or cut off. */
  method Visit(a: TreeAggregate, t: Tables, visited: set<nat>, rest: seq<nat>, p: nat, ghost rows: seq<ProcessRow>,
               ghost our: nat)
    returns (a': TreeAggregate, stack: seq<nat>)
    requires TablesOf(t, rows) && Aggregates(a, ViewOf(rows), visited) && p !in visited
    requires Walking(rows, our, visited + {p}, rest + Pushed(rows, visited + {p}, p, Kids(rows, p)))
    requires UniquePids(rows) ==> a.skippedReused == |Reused(rows, our, visited)|
    ensures stack == rest + Pushed(rows, visited + {p}, p, Kids(rows, p))
    ensures Aggregates(a', ViewOf(rows), visited + {p})
    ensures UniquePids(rows) ==> a'.skippedReused == |Reused(rows, our, visited + {p})|
  {
    hide TablesOf, Aggregates, Walking, Reused, Pushed, Skipped, Kids, ViewOf, ClassifyRole, LowerCase, UniquePids,
        Lookup;
    LookupsMatch(t, rows, p);
    var role := ClassifyRole(LowerCase(Lookup(t.name, p, "")));
    var kind := if p in t.wvType then Some(t.wvType[p]) else None;
    a' := CountProcess(a, Lookup(t.ws, p, 0), Lookup(t.commit, p, 0), role, kind, ViewOf(rows), visited, p);
    var skipped;
    stack, skipped := PushKids(rest, a.skippedReused, visited + {p}, t, p, Lookup(t.byParent, p, []), rows);
    SkippedSoFar(rows, our, visited, stack, p, a.skippedReused);
    SkipsAside(a', skipped, ViewOf(rows), visited + {p});
    a' := a'.(skippedReused := skipped);
  }

  lemma SkippedSoFar(rows: seq<ProcessRow>, our: nat, visited: set<nat>, stack: seq<nat>, p: nat, before: nat)
    requires p !in visited && Walking(rows, our, visited + {p}, stack)
    requires UniquePids(rows) ==> before == |Reused(rows, our, visited)|
    ensures UniquePids(rows) ==>
              before + Skipped(rows, visited + {p}, p, Kids(rows, p)) == |Reused(rows, our, visited + {p})|
  {
    hide Walking, Reused, Skipped, Kids, UniquePids;
    if UniquePids(rows) {
      ReusedStep(rows, our, visited, stack, p);
    }
  }

  lemma SkipsAside(a: TreeAggregate, skipped: nat, v: View, s: set<nat>)
    requires Aggregates(a, v, s)
    ensures Aggregates(a.(skippedReused := skipped), v, s)
  {
  }

  /** The walk visits exactly the tree, whatever cycles the table holds, and its totals are those of
      the tree; the reused pids are counted once each when pids are unique. */
  method AggregateTree(rows: seq<ProcessRow>, our: nat) returns (a: TreeAggregate)
    ensures Aggregates(a, ViewOf(rows), Tree(rows, our))
    ensures UniquePids(rows) ==> a.skippedReused == |Reused(rows, our, Tree(rows, our))|
  {
    hide TablesOf, Aggregates, Pushed, Kids, ViewOf, UniquePids, Rejected;
    var t := BuildTables(rows);
    a := TreeAggregate(0, 0, 0, RoleBreakdown(0, 0, 0, 0, 0), RoleBreakdown(0, 0, 0, 0, 0), 0, 0, map[], None, 0);
    var visited: set<nat> := {};
    var stack := [our];
    NothingCounted(a, ViewOf(rows));
    TreeIsLeast(rows, our);
    assert Reused(rows, our, {}) == {};
    while stack != []
      invariant Walking(rows, our, visited, stack)
      invariant visited == {} ==> stack == [our]
      invariant Aggregates(a, ViewOf(rows), visited)
      invariant UniquePids(rows) ==> a.skippedReused == |Reused(rows, our, visited)|
      decreases Pids(rows, our) - visited, |stack|
    {
      var p, rest := stack[|stack| - 1], stack[..|stack| - 1];
      if p in visited {
        PopVisited(rows, our, visited, stack);
        stack := rest;
        continue;
      }
      VisitNext(rows, our, visited, stack);
      assert p in stack;
      TreeIsLeast(rows, our);
      a, stack := Visit(a, t, visited, rest, p, rows, our);
      visited := visited + {p};
    }
    WalkedIsTree(rows, our, visited);
  }

  lemma NothingCounted(a: TreeAggregate, v: View)
    requires a == TreeAggregate(0, 0, 0, RoleBreakdown(0, 0, 0, 0, 0), RoleBreakdown(0, 0, 0, 0, 0), 0, 0, map[],
        None, 0)
    ensures Aggregates(a, v, {})
  {
    forall role: Role ensures OfRole(v, {}, role) == {} && a.byRole.Get(role) == 0 {
    }
    forall k: string ensures OfType(v, {}, k) == {} {
    }
  }

  // Conservation.

  /** Every counted process is in exactly one role. */
  lemma RolesPartition(v: View, s: set<nat>, f: nat -> nat)
    ensures Sum(OfRole(v, s, Webview), f) + Sum(OfRole(v, s, Miners), f) + Sum(OfRole(v, s, WalletRpc), f)
          + Sum(OfRole(v, s, SwapNode), f) + Sum(OfRole(v, s, Other), f) == Sum(s, f)
  {
    var a, b, c := OfRole(v, s, Webview), OfRole(v, s, Miners), OfRole(v, s, WalletRpc);
    var d, e := OfRole(v, s, SwapNode), OfRole(v, s, Other);
    SumUnion(a, b, f);
    SumUnion(a + b, c, f);
    SumUnion(a + b + c, d, f);
    SumUnion(a + b + c + d, e, f);
    EveryRole(v, s);
  }

  lemma EveryRole(v: View, s: set<nat>)
    ensures OfRole(v, s, Webview) + OfRole(v, s, Miners) + OfRole(v, s, WalletRpc) + OfRole(v, s, SwapNode)
        + OfRole(v, s, Other) == s
  {
  }

  /** The five role buckets add up to the tree, in working set and in commit. */
  lemma RolesAddUp(a: TreeAggregate, v: View, s: set<nat>)
    requires Aggregates(a, v, s)
    ensures a.byRole.webview + a.byRole.miners + a.byRole.walletRpc + a.byRole.swapNode + a.byRole.other == a.treeBytes
    ensures a.commitByRole.webview + a.commitByRole.miners + a.commitByRole.walletRpc + a.commitByRole.swapNode
          + a.commitByRole.other == a.treeCommitBytes
  {
    RolesPartition(v, s, v.ws);
    RolesPartition(v, s, v.commit);
    forall role: Role
      ensures a.byRole.Get(role) == Sum(OfRole(v, s, role), v.ws)
          && a.commitByRole.Get(role) == Sum(OfRole(v, s, role), v.commit)
    {
    }
    assert a.byRole.Get(Webview) == a.byRole.webview && a.byRole.Get(Miners) == a.byRole.miners
        && a.byRole.Get(WalletRpc) == a.byRole.walletRpc && a.byRole.Get(SwapNode) == a.byRole.swapNode
        && a.byRole.Get(Other) == a.byRole.other;
    assert a.commitByRole.Get(Webview) == a.commitByRole.webview && a.commitByRole.Get(Miners) == a.commitByRole.miners
        && a.commitByRole.Get(WalletRpc) == a.commitByRole.walletRpc
           && a.commitByRole.Get(SwapNode) == a.commitByRole.swapNode
        && a.commitByRole.Get(Other) == a.commitByRole.other;
  }

  /** The webview processes of some types. */
  ghost function OfTypes(v: View, s: set<nat>, kinds: set<string>): set<nat> {
    set p | p in s && v.role(p) == Webview && v.typed(p).Some? && v.typed(p).value in kinds
  }

  /** The by-type totals of some types, added up. */
  ghost function TypedSum(m: map<string, TypeTotals>, kinds: set<string>, commit: bool): nat
    requires kinds <= m.Keys
  {
    if kinds == {} then 0 else
      var k :| k in kinds;
      (if commit then m[k].commit else m[k].ws) + TypedSum(m, kinds - {k}, commit)
  }

  lemma {:induction false} TypedSumIs(m: map<string, TypeTotals>, v: View, s: set<nat>, kinds: set<string>,
                                      commit: bool)
    requires TypesOver(m, v, s) && kinds <= m.Keys
    ensures TypedSum(m, kinds, commit) == Sum(OfTypes(v, s, kinds), if commit then v.commit else v.ws)
  {
    if kinds == {} {
      assert OfTypes(v, s, kinds) == {};
    } else {
      var k :| k in kinds && TypedSum(m, kinds, commit)
          == (if commit then m[k].commit else m[k].ws) + TypedSum(m, kinds - {k}, commit);
      TypedSumIs(m, v, s, kinds - {k}, commit);
      OneTypeMore(v, s, kinds, k, if commit then v.commit else v.ws);
      assert TypeEntry(m, k, OfType(v, s, k), v);
    }
  }

  lemma OneTypeMore(v: View, s: set<nat>, kinds: set<string>, k: string, f: nat -> nat)
    requires k in kinds
    ensures Sum(OfTypes(v, s, kinds), f) == Sum(OfType(v, s, k), f) + Sum(OfTypes(v, s, kinds - {k}), f)
  {
    var one, others := OfType(v, s, k), OfTypes(v, s, kinds - {k});
    SumUnion(one, others, f);
    assert OfTypes(v, s, kinds) == one + others;
  }

  /** The typed webview totals never exceed the webview bucket. */
  lemma TypedWithinWebview(a: TreeAggregate, v: View, s: set<nat>)
    requires Aggregates(a, v, s)
    ensures TypedSum(a.webviewByType, a.webviewByType.Keys, false) <= a.webviewBytes
    ensures TypedSum(a.webviewByType, a.webviewByType.Keys, true) <= a.webviewCommitBytes
  {
    var kinds := a.webviewByType.Keys;
    TypedSumIs(a.webviewByType, v, s, kinds, false);
    TypedSumIs(a.webviewByType, v, s, kinds, true);
    SumSubset(OfTypes(v, s, kinds), OfRole(v, s, Webview), v.ws);
    SumSubset(OfTypes(v, s, kinds), OfRole(v, s, Webview), v.commit);
    assert a.byRole.Get(Webview) == a.webviewBytes && a.commitByRole.Get(Webview) == a.webviewCommitBytes;
  }

  // The guard.

  /** With every timestamp known, nothing that is counted is older than our own process. */
  lemma NothingOlderThanUs(rows: seq<ProcessRow>, our: nat, p: nat)
    requires forall q :: q in Pids(rows, our) ==> CreatedOf(rows, q) != 0
    requires p in Tree(rows, our)
    ensures CreatedOf(rows, p) >= CreatedOf(rows, our)
  {
    var s := set q | q in Pids(rows, our) && CreatedOf(rows, q) >= CreatedOf(rows, our);
    assert Closed(rows, s);
    assert Encloses(rows, our, s);
  }

  /** A rejected process takes its subtree with it: whatever set of processes hangs off it alone is
      not counted. */
  lemma SubtreeIsCut(rows: seq<ProcessRow>, our: nat, cut: ProcessRow, subtree: set<nat>)
    requires UniquePids(rows) && cut in rows && Rejected(rows, cut.ppid, cut.pid)
    requires cut.pid in subtree && our !in subtree
    requires forall r :: r in rows && r.pid in subtree && r != cut ==> r.ppid in subtree
    ensures Tree(rows, our) !! subtree
  {
    var s := Pids(rows, our) - subtree;
    assert Encloses(rows, our, s);
    TreeIsLeast(rows, our);
  }

  // Row order.

  lemma {:induction false} LastRowIs(rows: seq<ProcessRow>, pid: nat)
    ensures LastRow(rows, pid).Some? ==> LastRow(rows, pid).value in rows && LastRow(rows, pid).value.pid == pid
    ensures LastRow(rows, pid).None? ==> forall r :: r in rows ==> r.pid != pid
  {
    if rows != [] {
      LastRowIs(rows[..|rows| - 1], pid);
      assert forall r :: r in rows <==> r in rows[..|rows| - 1] || r == rows[|rows| - 1];
    }
  }

  lemma {:induction false} LastTypedIs(rows: seq<ProcessRow>, pid: nat)
    requires UniquePids(rows)
    ensures LastTyped(rows, pid) == match LastRow(rows, pid) { case Some(r) => r.wvType case None => None }
  {
    if rows != [] {
      var front, last := rows[..|rows| - 1], rows[|rows| - 1];
      LastTypedIs(front, pid);
      LastRowIs(front, pid);
    }
  }

  /** Two listings of the same processes. */
  ghost predicate SameTable(a: seq<ProcessRow>, b: seq<ProcessRow>) {
    UniquePids(a) && UniquePids(b) && forall r :: r in a <==> r in b
  }

  lemma SameLookups(a: seq<ProcessRow>, b: seq<ProcessRow>, pid: nat)
    requires SameTable(a, b)
    ensures LastRow(a, pid) == LastRow(b, pid) && LastTyped(a, pid) == LastTyped(b, pid)
  {
    LastRowIs(a, pid);
    LastRowIs(b, pid);
    LastTypedIs(a, pid);
    LastTypedIs(b, pid);
    if LastRow(a, pid).Some? && LastRow(b, pid).Some? {
      SameRow(a, LastRow(a, pid).value, LastRow(b, pid).value);
    }
  }

  /** The tree and the reused pids do not depend on the order of the rows. */
  lemma TreeIgnoresOrder(a: seq<ProcessRow>, b: seq<ProcessRow>, our: nat)
    requires SameTable(a, b)
    ensures Tree(a, our) == Tree(b, our)
    ensures Reused(a, our, Tree(a, our)) == Reused(b, our, Tree(b, our))
  {
    forall p, k ensures Rejected(a, p, k) == Rejected(b, p, k) {
      SameLookups(a, b, p);
      SameLookups(a, b, k);
    }
    assert Pids(a, our) == Pids(b, our);
    forall s: set<nat> ensures Encloses(a, our, s) <==> Encloses(b, our, s) {
    }
  }

  /** So the totals of two listings of the same processes agree. */
  lemma TotalsIgnoreOrder(a: seq<ProcessRow>, b: seq<ProcessRow>, our: nat, x: TreeAggregate, y: TreeAggregate)
    requires SameTable(a, b)
    requires Aggregates(x, ViewOf(a), Tree(a, our)) && Aggregates(y, ViewOf(b), Tree(b, our))
    ensures x.treeBytes == y.treeBytes && x.treeCommitBytes == y.treeCommitBytes && x.procCount == y.procCount
    ensures x.byRole == y.byRole && x.commitByRole == y.commitByRole
    ensures x.webviewByType == y.webviewByType && x.rendererMaxCommit == y.rendererMaxCommit
  {
    TypesIgnoreOrder(a, b, our, x, y);
    TreeIgnoresOrder(a, b, our);
    var s := Tree(a, our);
    forall p: nat ensures WsOf(a)(p) == WsOf(b)(p) && CommitOf(a)(p) == CommitOf(b)(p) && RoleOf(a, p) == RoleOf(b, p) {
      SameLookups(a, b, p);
    }
    SumSame(s, WsOf(a), WsOf(b));
    SumSame(s, CommitOf(a), CommitOf(b));
    forall role: Role
      ensures x.byRole.Get(role) == y.byRole.Get(role) && x.commitByRole.Get(role) == y.commitByRole.Get(role) {
      assert OfRole(ViewOf(a), s, role) == OfRole(ViewOf(b), s, role);
      SumSame(OfRole(ViewOf(a), s, role), WsOf(a), WsOf(b));
      SumSame(OfRole(ViewOf(a), s, role), CommitOf(a), CommitOf(b));
    }
    SameBreakdown(x.byRole, y.byRole);
    SameBreakdown(x.commitByRole, y.commitByRole);
  }

  lemma TypesIgnoreOrder(a: seq<ProcessRow>, b: seq<ProcessRow>, our: nat, x: TreeAggregate, y: TreeAggregate)
    requires SameTable(a, b)
    requires Aggregates(x, ViewOf(a), Tree(a, our)) && Aggregates(y, ViewOf(b), Tree(b, our))
    ensures x.webviewByType == y.webviewByType && x.rendererMaxCommit == y.rendererMaxCommit
  {
    TreeIgnoresOrder(a, b, our);
    var s, v, w := Tree(a, our), ViewOf(a), ViewOf(b);
    SameViews(a, b);
    forall k ensures k in x.webviewByType <==> k in y.webviewByType
             ensures k in x.webviewByType ==> x.webviewByType[k] == y.webviewByType[k]
    {
      assert TypeEntry(x.webviewByType, k, OfType(v, s, k), v) && TypeEntry(y.webviewByType, k, OfType(w, s, k), w);
      SameTypeEntry(x.webviewByType, y.webviewByType, k, v, w, s);
    }
    SameTypeSet(v, w, s, "renderer");
    SameMax(OfType(v, s, "renderer"), v.commit, w.commit);
  }

  ghost predicate SameFacts(v: View, w: View) {
    forall p :: v.ws(p) == w.ws(p) && v.commit(p) == w.commit(p) && v.role(p) == w.role(p) && v.typed(p) == w.typed(p)
  }

  lemma SameViews(a: seq<ProcessRow>, b: seq<ProcessRow>)
    requires SameTable(a, b)
    ensures SameFacts(ViewOf(a), ViewOf(b))
  {
    forall p: nat ensures LastRow(a, p) == LastRow(b, p) && LastTyped(a, p) == LastTyped(b, p) {
      SameLookups(a, b, p);
    }
    hide LastRow, LastTyped, ClassifyRole, LowerCase;
  }

  lemma SameTypeSet(v: View, w: View, s: set<nat>, kind: string)
    requires SameFacts(v, w)
    ensures OfType(v, s, kind) == OfType(w, s, kind)
  {
  }

  /** The largest value of a set is one number. */
  lemma SameMax(s: set<nat>, f: nat -> nat, g: nat -> nat)
    requires forall p :: p in s ==> f(p) == g(p)
    ensures forall m, n :: IsMax(m, s, f) && IsMax(n, s, g) ==> m == n
  {
  }

  lemma SameTypeEntry(m: map<string, TypeTotals>, n: map<string, TypeTotals>, k: string, v: View, w: View, s: set<nat>)
    requires SameFacts(v, w)
    requires TypeEntry(m, k, OfType(v, s, k), v) && TypeEntry(n, k, OfType(w, s, k), w)
    ensures k in m <==> k in n
    ensures k in m ==> m[k] == n[k]
  {
    var members := OfType(v, s, k);
    SameTypeSet(v, w, s, k);
    SumSame(members, v.ws, w.ws);
    SumSame(members, v.commit, w.commit);
    SameMax(members, v.commit, w.commit);
  }

  lemma SameBreakdown(x: RoleBreakdown, y: RoleBreakdown)
    requires forall role: Role :: x.Get(role) == y.Get(role)
    ensures x == y
  {
    assert x.Get(Webview) == y.Get(Webview) && x.Get(Miners) == y.Get(Miners) && x.Get(WalletRpc) == y.Get(WalletRpc)
        && x.Get(SwapNode) == y.Get(SwapNode) && x.Get(Other) == y.Get(Other);
  }
}
