/** The tree on the rows themselves: with unique pids it is what can be reached from our process
    over rows whose timestamps do not rule each other out. */
module TreeRows {
  import opened Wrappers
  import opened MemWatch
  import opened TreeWalk

  /** `kid` may be a child of `parent`: a timestamp is unknown, or the child is not the older one. */
  predicate MayFollow(parent: ProcessRow, kid: ProcessRow) {
    parent.createdMs == 0 || kid.createdMs == 0 || kid.createdMs >= parent.createdMs
  }

  /** The row hangs off the process `pid`, which may have no row of its own. */
  ghost predicate HangsOff(rows: seq<ProcessRow>, pid: nat, kid: ProcessRow) {
    kid in rows && kid.ppid == pid && forall p :: p in rows && p.pid == pid ==> MayFollow(p, kid)
  }

  lemma RowOf(rows: seq<ProcessRow>, r: ProcessRow)
    requires UniquePids(rows) && r in rows
    ensures LastRow(rows, r.pid) == Some(r)
  {
    LastRowIs(rows, r.pid);
    SameRow(rows, r, LastRow(rows, r.pid).value);
  }

  lemma HangsOffExactly(rows: seq<ProcessRow>, r: ProcessRow)
    requires UniquePids(rows) && r in rows
    ensures HangsOff(rows, r.ppid, r) <==> !Rejected(rows, r.ppid, r.pid)
  {
    RowOf(rows, r);
    LastRowIs(rows, r.ppid);
    if LastRow(rows, r.ppid).Some? {
      var p := LastRow(rows, r.ppid).value;
      forall q | q in rows && q.pid == r.ppid ensures q == p {
        SameRow(rows, p, q);
      }
    }
  }

  /** A path of rows from `our`, each hanging off the one before. */
  ghost predicate Path(rows: seq<ProcessRow>, our: nat, path: seq<ProcessRow>)
    decreases |path|
  {
    path == [] ||
    var front := path[..|path| - 1];
    Path(rows, our, front) && HangsOff(rows, EndOf(our, front), path[|path| - 1])
  }

  function EndOf(our: nat, path: seq<ProcessRow>): nat {
    if path == [] then our else path[|path| - 1].pid
  }

  ghost predicate Reachable(rows: seq<ProcessRow>, our: nat, pid: nat) {
    exists path :: Path(rows, our, path) && EndOf(our, path) == pid
  }

  lemma {:induction false} PathEndsInTree(rows: seq<ProcessRow>, our: nat, path: seq<ProcessRow>)
    requires UniquePids(rows) && Path(rows, our, path)
    ensures EndOf(our, path) in Tree(rows, our)
    decreases |path|
  {
    hide Rejected, UniquePids, HangsOff;
    TreeIsLeast(rows, our);
    if path != [] {
      var front, r := path[..|path| - 1], path[|path| - 1];
      PathEndsInTree(rows, our, front);
      RowHangs(rows, EndOf(our, front), r);
      HangsOffExactly(rows, r);
    }
  }

  lemma RowHangs(rows: seq<ProcessRow>, pid: nat, r: ProcessRow)
    requires HangsOff(rows, pid, r)
    ensures r in rows && r.ppid == pid
  {
  }

  lemma ReachOneMore(rows: seq<ProcessRow>, our: nat, r: ProcessRow)
    requires Reachable(rows, our, r.ppid) && HangsOff(rows, r.ppid, r)
    ensures Reachable(rows, our, r.pid)
  {
    hide HangsOff;
    var path :| Path(rows, our, path) && EndOf(our, path) == r.ppid;
    var longer := path + [r];
    assert longer[..|path|] == path;
    assert Path(rows, our, longer) && EndOf(our, longer) == r.pid;
  }

  /** The tree is exactly what such paths reach. */
  lemma TreeIsReachable(rows: seq<ProcessRow>, our: nat, pid: nat)
    requires UniquePids(rows)
    ensures pid in Tree(rows, our) <==> Reachable(rows, our, pid)
  {
    if Reachable(rows, our, pid) {
      var path :| Path(rows, our, path) && EndOf(our, path) == pid;
      PathEndsInTree(rows, our, path);
    }
    var s := set p | p in Pids(rows, our) && Reachable(rows, our, p);
    assert Path(rows, our, []) && EndOf(our, []) == our;
    hide Reachable, Rejected, HangsOff, UniquePids;
    forall r | r in rows && r.ppid in s && !Rejected(rows, r.ppid, r.pid) ensures r.pid in s {
      HangsOffExactly(rows, r);
      ReachOneMore(rows, our, r);
    }
    assert Encloses(rows, our, s);
    TreeIsLeast(rows, our);
  }

  /** A row whose parent is counted is counted itself, unless both timestamps are known and it is the
      older of the two; and everything counted but our own process has such a parent. */
  lemma CountedWithItsParent(rows: seq<ProcessRow>, our: nat, p: ProcessRow, r: ProcessRow)
    requires UniquePids(rows) && p in rows && r in rows && p.pid in Tree(rows, our) && r.ppid == p.pid
    requires p.createdMs == 0 || r.createdMs == 0 || r.createdMs >= p.createdMs
    ensures r.pid in Tree(rows, our)
  {
    forall q | q in rows && q.pid == p.pid ensures q == p {
      SameRow(rows, p, q);
    }
    HangsOffExactly(rows, r);
    TreeIsLeast(rows, our);
  }

  lemma CountedThroughAParent(rows: seq<ProcessRow>, our: nat, pid: nat) returns (r: ProcessRow)
    requires UniquePids(rows) && pid in Tree(rows, our) && pid != our
    ensures r in rows && r.pid == pid && r.ppid in Tree(rows, our) && HangsOff(rows, r.ppid, r)
  {
    TreeIsReachable(rows, our, pid);
    var path :| Path(rows, our, path) && EndOf(our, path) == pid;
    r := path[|path| - 1];
    PathEndsInTree(rows, our, path[..|path| - 1]);
  }

  /** The reused pids are exactly those of the rows that are older than a counted parent. */
  lemma ReusedExactly(rows: seq<ProcessRow>, our: nat, pid: nat)
    requires UniquePids(rows)
    ensures pid in Reused(rows, our, Tree(rows, our))
       <==> pid != our && exists p, r :: p in rows && r in rows && r.pid == pid && p.pid == r.ppid
                                         && p.pid in Tree(rows, our) && !MayFollow(p, r)
  {
    var tree := Tree(rows, our);
    if pid in Reused(rows, our, tree) {
      var r :| r in rows && r.ppid in tree && Rejected(rows, r.ppid, r.pid) && r.pid == pid;
      RowOf(rows, r);
      LastRowIs(rows, r.ppid);
      var p := LastRow(rows, r.ppid).value;
      assert p in rows && p.pid == r.ppid && !MayFollow(p, r);
    }
    if p, r :| p in rows && r in rows && r.pid == pid && p.pid == r.ppid && p.pid in tree
               && !MayFollow(p, r) {
      RowOf(rows, r);
      RowOf(rows, p);
    }
  }

  /** What is counted of a row are its own fields. */
  lemma RowIsViewed(rows: seq<ProcessRow>, r: ProcessRow)
    requires UniquePids(rows) && r in rows
    ensures var v := ViewOf(rows);
            && v.ws(r.pid) == r.wsBytes && v.commit(r.pid) == r.commitBytes && v.typed(r.pid) == r.wvType
            && v.role(r.pid) == ClassifyRole(LowerCase(r.name))
  {
    RowOf(rows, r);
    LastTypedIs(rows, r.pid);
  }
}
