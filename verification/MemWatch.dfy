/** The process-tree memory sampler: a worklist walk over a process table, which may hold cycles
    and stale parent ids, with accumulators. Sizes are bytes; the source's conversion to megabytes
    is not modelled. */
module MemWatch {
  import opened Wrappers
  import opened Sums

  datatype ProcessRow = ProcessRow(pid: nat, ppid: nat, wsBytes: nat, commitBytes: nat, name: string,
                                   createdMs: int, wvType: Option<string>)

  datatype Role = Webview | Miners | WalletRpc | SwapNode | Other

  datatype RoleBreakdown = RoleBreakdown(webview: nat, miners: nat, walletRpc: nat, swapNode: nat, other: nat) {
    function Get(role: Role): nat {
      match role
      case Webview => webview
      case Miners => miners
      case WalletRpc => walletRpc
      case SwapNode => swapNode
      case Other => other
    }

    function Add(role: Role, n: nat): RoleBreakdown {
      match role
      case Webview => this.(webview := webview + n)
      case Miners => this.(miners := miners + n)
      case WalletRpc => this.(walletRpc := walletRpc + n)
      case SwapNode => this.(swapNode := swapNode + n)
      case Other => this.(other := other + n)
    }
  }

  datatype TypeTotals = TypeTotals(count: nat, ws: nat, commit: nat, maxCommit: nat)

  datatype TreeAggregate = TreeAggregate(
    treeBytes: nat, treeCommitBytes: nat, procCount: nat,
    byRole: RoleBreakdown, commitByRole: RoleBreakdown,
    webviewBytes: nat, webviewCommitBytes: nat,
    webviewByType: map<string, TypeTotals>, rendererMaxCommit: Option<nat>,
    skippedReused: nat)

  // Role classification.

  predicate ContainsAt(s: string, part: string, i: nat) {
    i + |part| <= |s| && s[i..i + |part|] == part
  }

  predicate Contains(s: string, part: string) {
    exists i: nat :: i <= |s| && ContainsAt(s, part, i)
  }

  predicate ContainsAny(s: string, parts: seq<string>) {
    exists i :: 0 <= i < |parts| && Contains(s, parts[i])
  }

  function ClassifyRole(name: string): Role {
    if Contains(name, "webview2") then Webview
    else if ContainsAny(name, ["xmrig", "srbminer"]) then Miners
    else if ContainsAny(name, ["wallet-rpc", "simplewallet", "xelis_wallet"]) then WalletRpc
    else if ContainsAny(name, ["particld", "monerod", "bitcoind", "litecoind"]) || Contains(name, "basicswap")
      || name == "python.exe" || name == "python" then SwapNode
    else Other
  }

  function LowerCase(s: string): string {
    seq(|s|, i requires 0 <= i < |s| => if 'A' <= s[i] <= 'Z' then (s[i] as int + 32) as char else s[i])
  }

  // What the table says about a process: a later row with the same pid wins, as a hash map's
  // `insert` has it.

  function LastRow(rows: seq<ProcessRow>, pid: nat): Option<ProcessRow> {
    if rows == [] then None
    else if rows[|rows| - 1].pid == pid then Some(rows[|rows| - 1])
    else LastRow(rows[..|rows| - 1], pid)
  }

  function LastTyped(rows: seq<ProcessRow>, pid: nat): Option<string> {
    if rows == [] then None
    else if rows[|rows| - 1].pid == pid && rows[|rows| - 1].wvType.Some? then rows[|rows| - 1].wvType
    else LastTyped(rows[..|rows| - 1], pid)
  }

  function Kids(rows: seq<ProcessRow>, parent: nat): seq<nat> {
    if rows == [] then []
    else Kids(rows[..|rows| - 1], parent) + (if rows[|rows| - 1].ppid == parent then [rows[|rows| - 1].pid] else [])
  }

  function WsOf(rows: seq<ProcessRow>): nat -> nat {
    (pid: nat) => match LastRow(rows, pid) { case Some(r) => r.wsBytes case None => 0 }
  }

  function CommitOf(rows: seq<ProcessRow>): nat -> nat {
    (pid: nat) => match LastRow(rows, pid) { case Some(r) => r.commitBytes case None => 0 }
  }

  function NameOf(rows: seq<ProcessRow>, pid: nat): string {
    match LastRow(rows, pid) { case Some(r) => r.name case None => "" }
  }

  function CreatedOf(rows: seq<ProcessRow>, pid: nat): int {
    match LastRow(rows, pid) { case Some(r) => r.createdMs case None => 0 }
  }

  function RoleOf(rows: seq<ProcessRow>, pid: nat): Role {
    ClassifyRole(LowerCase(NameOf(rows, pid)))
  }

  /** The guard against reused pids: a child cannot be older than its parent. Zero is "unknown". */
  predicate Rejected(rows: seq<ProcessRow>, parent: nat, kid: nat) {
    CreatedOf(rows, parent) != 0 && CreatedOf(rows, kid) != 0 && CreatedOf(rows, kid) < CreatedOf(rows, parent)
  }

  ghost predicate UniquePids(rows: seq<ProcessRow>) {
    forall i, j :: 0 <= i < j < |rows| ==> rows[i].pid != rows[j].pid
  }

  // The declared meaning: the least set of processes that holds `our` and every accepted child.

  ghost predicate Closed(rows: seq<ProcessRow>, s: set<nat>) {
    forall r :: r in rows && r.ppid in s && !Rejected(rows, r.ppid, r.pid) ==> r.pid in s
  }

  function Pids(rows: seq<ProcessRow>, our: nat): set<nat> {
    {our} + set r | r in rows :: r.pid
  }

  ghost predicate Encloses(rows: seq<ProcessRow>, our: nat, s: set<nat>) {
    our in s && Closed(rows, s)
  }

  ghost function Tree(rows: seq<ProcessRow>, our: nat): set<nat> {
    set p | p in Pids(rows, our) && forall s: set<nat> :: Encloses(rows, our, s) ==> p in s
  }

  /** The tree is itself enclosed, and is the least such set. */
  lemma TreeIsLeast(rows: seq<ProcessRow>, our: nat)
    ensures Encloses(rows, our, Tree(rows, our))
    ensures forall s: set<nat> :: Encloses(rows, our, s) ==> Tree(rows, our) <= s
    ensures Tree(rows, our) <= Pids(rows, our)
  {
    forall r | r in rows && r.ppid in Tree(rows, our) && !Rejected(rows, r.ppid, r.pid)
      ensures r.pid in Tree(rows, our) {
      ChildInTree(rows, our, r);
    }
  }

  lemma ChildInTree(rows: seq<ProcessRow>, our: nat, r: ProcessRow)
    requires r in rows && r.ppid in Tree(rows, our) && !Rejected(rows, r.ppid, r.pid)
    ensures r.pid in Tree(rows, our)
  {
    assert r.pid in Pids(rows, our);
    hide Rejected;
    forall s: set<nat> | Encloses(rows, our, s) ensures r.pid in s {
      assert r.ppid in s;
    }
  }

  // What is counted over a set of processes.

  /** The facts about each process that the accumulators use. */
  datatype View = View(ws: nat -> nat, commit: nat -> nat, role: nat -> Role, typed: nat -> Option<string>)

  function ViewOf(rows: seq<ProcessRow>): View {
    View(WsOf(rows), CommitOf(rows), (pid: nat) => RoleOf(rows, pid), (pid: nat) => LastTyped(rows, pid))
  }

  ghost function OfRole(v: View, s: set<nat>, role: Role): set<nat> {
    set p | p in s && v.role(p) == role
  }

  ghost function OfType(v: View, s: set<nat>, kind: string): set<nat> {
    set p | p in s && v.role(p) == Webview && v.typed(p) == Some(kind)
  }

  ghost predicate IsMax(m: nat, s: set<nat>, f: nat -> nat) {
    (exists p :: p in s && f(p) == m) && forall p :: p in s ==> f(p) <= m
  }

  /** The children whose claim is rejected. */
  function Reused(rows: seq<ProcessRow>, our: nat, s: set<nat>): set<nat> {
    set r | r in rows && r.ppid in s && Rejected(rows, r.ppid, r.pid) && r.pid != our :: r.pid
  }

  ghost predicate TotalsOver(a: TreeAggregate, v: View, s: set<nat>) {
    a.treeBytes == Sum(s, v.ws) && a.treeCommitBytes == Sum(s, v.commit) && a.procCount == |s|
  }

  ghost predicate RolesOver(b: RoleBreakdown, v: View, s: set<nat>, f: nat -> nat) {
    forall role :: b.Get(role) == Sum(OfRole(v, s, role), f)
  }

  ghost predicate TotalsOfType(t: TypeTotals, members: set<nat>, v: View) {
    && t.count == |members| && t.ws == Sum(members, v.ws) && t.commit == Sum(members, v.commit)
    && IsMax(t.maxCommit, members, v.commit)
  }

  ghost predicate TypeEntry(m: map<string, TypeTotals>, kind: string, members: set<nat>, v: View) {
    if kind in m then members != {} && TotalsOfType(m[kind], members, v) else members == {}
  }

  ghost predicate TypesOver(m: map<string, TypeTotals>, v: View, s: set<nat>) {
    forall k :: TypeEntry(m, k, OfType(v, s, k), v)
  }

  /** The largest renderer, if a renderer was counted. */
  ghost predicate RendererOver(largest: Option<nat>, v: View, s: set<nat>) {
    match largest
    case None => OfType(v, s, "renderer") == {}
    case Some(m) => OfType(v, s, "renderer") != {} && IsMax(m, OfType(v, s, "renderer"), v.commit)
  }

  /** The aggregate of a set of processes. */
  ghost predicate Aggregates(a: TreeAggregate, v: View, s: set<nat>) {
    && TotalsOver(a, v, s)
    && RolesOver(a.byRole, v, s, v.ws)
    && RolesOver(a.commitByRole, v, s, v.commit)
    && a.webviewBytes == a.byRole.webview && a.webviewCommitBytes == a.commitByRole.webview
    && TypesOver(a.webviewByType, v, s)
    && RendererOver(a.rendererMaxCommit, v, s)
  }

  // The tables.

  /** The lookup maps that one pass over the rows fills. */
  datatype Tables = Tables(ws: map<nat, nat>, commit: map<nat, nat>, wvType: map<nat, string>,
                           name: map<nat, string>, created: map<nat, int>, byParent: map<nat, seq<nat>>)

  ghost predicate TablesOf(t: Tables, rows: seq<ProcessRow>) {
    && (forall p: nat :: p in t.ws <==> LastRow(rows, p).Some?)
    && (forall p: nat :: p in t.ws ==>
          var r := LastRow(rows, p).value;
          && t.ws[p] == r.wsBytes && p in t.commit && t.commit[p] == r.commitBytes
          && p in t.name && t.name[p] == r.name && p in t.created && t.created[p] == r.createdMs)
    && t.commit.Keys == t.ws.Keys && t.name.Keys == t.ws.Keys && t.created.Keys == t.ws.Keys
    && (forall p: nat :: if p in t.wvType then LastTyped(rows, p) == Some(t.wvType[p]) else LastTyped(rows, p).None?)
    && (forall p: nat :: if p in t.byParent then Kids(rows, p) == t.byParent[p] else Kids(rows, p) == [])
  }

  method BuildTables(rows: seq<ProcessRow>) returns (t: Tables)
    ensures TablesOf(t, rows)
  {
    t := Tables(map[], map[], map[], map[], map[], map[]);
    for i := 0 to |rows|
      invariant TablesOf(t, rows[..i])
    {
      var r := rows[i];
      assert rows[..i + 1][..i] == rows[..i];
      var kids := if r.ppid in t.byParent then t.byParent[r.ppid] else [];
      var wvType := if r.wvType.Some? then t.wvType[r.pid := r.wvType.value] else t.wvType;
      t := Tables(t.ws[r.pid := r.wsBytes], t.commit[r.pid := r.commitBytes], wvType, t.name[r.pid := r.name],
                  t.created[r.pid := r.createdMs], t.byParent[r.ppid := kids + [r.pid]]);
    }
    assert rows[..|rows|] == rows;
  }

  function Lookup<T>(m: map<nat, T>, key: nat, default: T): T {
    if key in m then m[key] else default
  }

  // Counting one process.

  lemma OfRoleAdd(v: View, s: set<nat>, p: nat, role: Role)
    ensures OfRole(v, s + {p}, role) == OfRole(v, s, role) + (if v.role(p) == role then {p} else {})
  {
  }

  lemma OfTypeAdd(v: View, s: set<nat>, p: nat, kind: string)
    ensures OfType(v, s + {p}, kind)
         == OfType(v, s, kind) + (if v.role(p) == Webview && v.typed(p) == Some(kind) then {p} else {})
  {
  }

  lemma CountRole(b: RoleBreakdown, v: View, s: set<nat>, p: nat, f: nat -> nat)
    requires RolesOver(b, v, s, f) && p !in s
    ensures RolesOver(b.Add(v.role(p), f(p)), v, s + {p}, f)
  {
    forall role ensures b.Add(v.role(p), f(p)).Get(role) == Sum(OfRole(v, s + {p}, role), f) {
      OfRoleAdd(v, s, p, role);
      if v.role(p) == role {
        SumAdd(OfRole(v, s, role), f, p);
      } else {
        assert OfRole(v, s + {p}, role) == OfRole(v, s, role);
      }
    }
  }

  function Max(a: nat, b: nat): nat {
    if a < b then b else a
  }

  lemma MaxAdd(m: nat, s: set<nat>, f: nat -> nat, p: nat)
    requires s == {} || IsMax(m, s, f)
    ensures IsMax(if s == {} then f(p) else Max(m, f(p)), s + {p}, f)
  {
    if s != {} {
      var q :| q in s && f(q) == m;
      assert q in s + {p} && p in s + {p};
    } else {
      assert p in s + {p};
    }
  }

  function AddToType(m: map<string, TypeTotals>, kind: string, b: nat, c: nat): map<string, TypeTotals> {
    var t := if kind in m then m[kind] else TypeTotals(0, 0, 0, 0);
    m[kind := TypeTotals(t.count + 1, t.ws + b, t.commit + c, Max(t.maxCommit, c))]
  }

  lemma TypeEntryAdd(m: map<string, TypeTotals>, kind: string, members: set<nat>, p: nat, v: View)
    requires TypeEntry(m, kind, members, v) && p !in members
    ensures TypeEntry(AddToType(m, kind, v.ws(p), v.commit(p)), kind, members + {p}, v)
  {
    var t := if kind in m then m[kind] else TypeTotals(0, 0, 0, 0);
    SumAdd(members, v.ws, p);
    SumAdd(members, v.commit, p);
    MaxAdd(t.maxCommit, members, v.commit, p);
    assert p in members + {p};
  }

  /** One typed webview process joins the totals of its type. */
  lemma CountType(m: map<string, TypeTotals>, kind: string, v: View, s: set<nat>, p: nat)
    requires TypesOver(m, v, s) && p !in s && v.role(p) == Webview && v.typed(p) == Some(kind)
    ensures TypesOver(AddToType(m, kind, v.ws(p), v.commit(p)), v, s + {p})
  {
    var m' := AddToType(m, kind, v.ws(p), v.commit(p));
    forall k ensures TypeEntry(m', k, OfType(v, s + {p}, k), v) {
      assert TypeEntry(m, k, OfType(v, s, k), v);
      OfTypeAdd(v, s, p, k);
      if k == kind {
        TypeEntryAdd(m, k, OfType(v, s, k), p, v);
      } else {
        assert OfType(v, s + {p}, k) == OfType(v, s, k);
      }
    }
  }

  lemma UntypedTypes(m: map<string, TypeTotals>, v: View, s: set<nat>, p: nat)
    requires TypesOver(m, v, s)
    requires v.role(p) != Webview || v.typed(p).None?
    ensures TypesOver(m, v, s + {p})
  {
    forall k ensures TypeEntry(m, k, OfType(v, s + {p}, k), v) {
      assert TypeEntry(m, k, OfType(v, s, k), v);
      OfTypeAdd(v, s, p, k);
      assert OfType(v, s + {p}, k) == OfType(v, s, k);
    }
  }

  predicate IsRenderer(v: View, p: nat) {
    v.role(p) == Webview && v.typed(p) == Some("renderer")
  }

  lemma RendererAdd(largest: Option<nat>, v: View, s: set<nat>, p: nat)
    requires RendererOver(largest, v, s)
    ensures RendererOver(if IsRenderer(v, p) then Some(Max(largest.GetOr(0), v.commit(p))) else largest, v, s + {p})
  {
    var before := OfType(v, s, "renderer");
    OfTypeAdd(v, s, p, "renderer");
    if IsRenderer(v, p) {
      MaxAdd(largest.GetOr(0), before, v.commit, p);
      assert p in before + {p};
    } else {
      assert OfType(v, s + {p}, "renderer") == before;
    }
  }

  lemma TotalsAdd(a: TreeAggregate, a': TreeAggregate, v: View, s: set<nat>, p: nat)
    requires TotalsOver(a, v, s) && p !in s
    requires a'.treeBytes == a.treeBytes + v.ws(p) && a'.treeCommitBytes == a.treeCommitBytes + v.commit(p)
    requires a'.procCount == a.procCount + 1
    ensures TotalsOver(a', v, s + {p})
  {
    SumAdd(s, v.ws, p);
    SumAdd(s, v.commit, p);
  }

  /** The body of the walk up to the children: one process enters every accumulator. */
  method CountProcess(a: TreeAggregate, b: nat, c: nat, role: Role, kind: Option<string>, ghost v: View,
                      ghost s: set<nat>, ghost p: nat)
    returns (a': TreeAggregate)
    requires Aggregates(a, v, s) && p !in s
    requires b == v.ws(p) && c == v.commit(p) && role == v.role(p) && kind == v.typed(p)
    ensures Aggregates(a', v, s + {p}) && a'.skippedReused == a.skippedReused
  {
    CountRole(a.byRole, v, s, p, v.ws);
    CountRole(a.commitByRole, v, s, p, v.commit);
    RendererAdd(a.rendererMaxCommit, v, s, p);
    a' := a.(treeBytes := a.treeBytes + b, treeCommitBytes := a.treeCommitBytes + c, procCount := a.procCount + 1,
             byRole := a.byRole.Add(role, b), commitByRole := a.commitByRole.Add(role, c));
    if role == Webview {
      a' := a'.(webviewBytes := a.webviewBytes + b, webviewCommitBytes := a.webviewCommitBytes + c);
    }
    if role == Webview && kind.Some? {
      CountType(a.webviewByType, kind.value, v, s, p);
      a' := a'.(webviewByType := AddToType(a.webviewByType, kind.value, b, c));
      if kind.value == "renderer" {
        a' := a'.(rendererMaxCommit := Some(Max(a.rendererMaxCommit.GetOr(0), c)));
      }
    } else {
      UntypedTypes(a.webviewByType, v, s, p);
    }
    TotalsAdd(a, a', v, s, p);
  }
}
