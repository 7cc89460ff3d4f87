/** Wallet contexts: the switcher's grouping of the wallet list, and the question every read and
    write asks of it, "which group is this wallet in?". */
module Contexts {
  import opened Wrappers
  import opened Seqs
  import opened StableSort
  import opened Vault

  /** One group presented as a unit; `id` is its representative wallet. */
  datatype Context = Context(id: string, groupId: string, name: string, members: seq<Entry>)

  /** bip39 first, then by age. */
  predicate MemberLe(a: Entry, b: Entry) {
    if a.kind.Bip39? && !b.kind.Bip39? then true
    else if b.kind.Bip39? && !a.kind.Bip39? then false
    else a.createdAt <= b.createdAt
  }

  function MemberOrder(): (Entry, Entry) -> bool {
    (a, b) => MemberLe(a, b)
  }

  /** `Math.min` over the creation times; a context always has a member. */
  function Oldest(ws: seq<Entry>): int {
    if |ws| == 0 then 0
    else if |ws| == 1 then ws[0].createdAt
    else if ws[0].createdAt < Oldest(ws[1..]) then ws[0].createdAt else Oldest(ws[1..])
  }

  /** The primary group first, then by the oldest member. */
  predicate ContextLe(primary: Option<string>, a: Context, b: Context) {
    var ap, bp := Some(a.groupId) == primary, Some(b.groupId) == primary;
    if ap != bp then ap else Oldest(a.members) <= Oldest(b.members)
  }

  function ContextOrder(primary: Option<string>): (Context, Context) -> bool {
    (a, b) => ContextLe(primary, a, b)
  }

  /** The group keys in order of first occurrence, as a `Map` keeps them. */
  function Keys(ws: seq<Entry>): seq<string> {
    if ws == [] then [] else
      var ks, key := Keys(ws[..|ws| - 1]), ws[|ws| - 1].GroupKey();
      if key in ks then ks else ks + [key]
  }

  lemma {:induction false} KeyOfWallet(ws: seq<Entry>, w: Entry)
    requires w in ws
    ensures w.GroupKey() in Keys(ws)
  {
    if w != ws[|ws| - 1] {
      KeyOfWallet(ws[..|ws| - 1], w);
    }
  }

  lemma {:induction false} WalletOfKey(ws: seq<Entry>, key: string) returns (w: Entry)
    requires key in Keys(ws)
    ensures w in ws && w.GroupKey() == key
  {
    if ws[|ws| - 1].GroupKey() == key {
      w := ws[|ws| - 1];
    } else {
      w := WalletOfKey(ws[..|ws| - 1], key);
    }
  }

  function Members(ws: seq<Entry>, key: string): seq<Entry> {
    Sort(MemberOrder(), Filter(InGroup(key), ws))
  }

  function MakeContext(ws: seq<Entry>, key: string): Context
    requires key in Keys(ws)
  {
    KeyHasMember(ws, key);
    var m := Members(ws, key);
    Context(m[0].id, key, m[0].name, m)
  }

  function MakeContexts(ws: seq<Entry>, keys: seq<string>): (cs: seq<Context>)
    requires forall k :: k in keys ==> k in Keys(ws)
    ensures |cs| == |keys|
    ensures forall i :: 0 <= i < |cs| ==> cs[i] == MakeContext(ws, keys[i])
  {
    if keys == [] then [] else [MakeContext(ws, keys[0])] + MakeContexts(ws, keys[1..])
  }

  function ListContexts(v: VaultV3): seq<Context> {
    Sort(ContextOrder(PrimaryGroup(v.wallets)), MakeContexts(v.wallets, Keys(v.wallets)))
  }

  function HasMember(id: string): Context -> bool {
    (c: Context) => MemberWithId(c, id)
  }

  predicate MemberWithId(c: Context, id: string) {
    exists m :: m in c.members && m.id == id
  }

  /** The context that holds wallet `id`, else the first one. */
  function ContextForWallet(v: VaultV3, id: string): Option<Context> {
    var cs := ListContexts(v);
    var first := if cs == [] then None else Some(cs[0]);
    if id == "all" then first else Find(HasMember(id), cs).Or(first)
  }

  /** The group the wallet `active` belongs to. */
  function GroupIdForWallet(v: VaultV3, active: Option<string>): Option<string> {
    if !Truthy(active) || active == Some("all") then PrimaryGroup(v.wallets)
    else match ContextForWallet(v, active.value)
      case Some(c) => Some(c.groupId)
      case None => PrimaryGroup(v.wallets)
  }

  predicate IsInActiveContext(v: VaultV3, entry: Entry) {
    Some(entry.GroupKey()) == GroupIdForWallet(v, Some(v.lastActive.GetOr("all")))
  }

  /** The same question without contexts: the group key of the entry with that id, else the
      primary group. */
  function GroupOf(ws: seq<Entry>, active: Option<string>): Option<string> {
    if !Truthy(active) || active == Some("all") then PrimaryGroup(ws)
    else match Find(HasId(active.value), ws)
      case Some(w) => Some(w.GroupKey())
      case None => PrimaryGroup(ws)
  }

  ghost predicate Grouped(keys: seq<string>, byGroup: map<string, seq<Entry>>, ws: seq<Entry>) {
    && keys == Keys(ws)
    && (forall k :: k in byGroup <==> k in keys)
    && (forall k :: k in byGroup ==> byGroup[k] == Filter(InGroup(k), ws))
  }

  lemma OneMoreWallet(ws: seq<Entry>, w: Entry, k: string)
    ensures Filter(InGroup(k), ws + [w]) == Filter(InGroup(k), ws) + (if k == w.GroupKey() then [w] else [])
    ensures Keys(ws + [w]) == if w.GroupKey() in Keys(ws) then Keys(ws) else Keys(ws) + [w.GroupKey()]
  {
    FilterConcat(InGroup(k), ws, [w]);
    assert (ws + [w])[..|ws|] == ws;
  }

  lemma GroupStep(keys: seq<string>, byGroup: map<string, seq<Entry>>, ws: seq<Entry>, w: Entry)
    requires Grouped(keys, byGroup, ws)
    ensures var key := w.GroupKey();
            if key in byGroup then Grouped(keys, byGroup[key := byGroup[key] + [w]], ws + [w])
            else Grouped(keys + [key], byGroup[key := [w]], ws + [w])
  {
    hide Filter, Keys;
    var key := w.GroupKey();
    var byGroup' := byGroup[key := if key in byGroup then byGroup[key] + [w] else [w]];
    OneMoreWallet(ws, w, key);
    forall k | k in byGroup' ensures byGroup'[k] == Filter(InGroup(k), ws + [w]) {
      GroupStepAt(keys, byGroup, ws, w, k);
    }
  }

  lemma GroupStepAt(keys: seq<string>, byGroup: map<string, seq<Entry>>, ws: seq<Entry>, w: Entry, k: string)
    requires Grouped(keys, byGroup, ws)
    ensures var key := w.GroupKey();
            if k == key then (if key in byGroup then byGroup[key] + [w] else [w]) == Filter(InGroup(k), ws + [w])
            else k in byGroup ==> byGroup[k] == Filter(InGroup(k), ws + [w])
  {
    hide Filter, Keys;
    OneMoreWallet(ws, w, k);
    if k == w.GroupKey() && k !in keys {
      NoKeyNoMember(ws, k);
    }
  }

  /** The grouping loop: a `Map` is a list of keys in insertion order and the values under them. */
  method GroupByKey(ws: seq<Entry>) returns (keys: seq<string>, byGroup: map<string, seq<Entry>>)
    ensures Grouped(keys, byGroup, ws)
  {
    keys, byGroup := [], map[];
    for i := 0 to |ws|
      invariant Grouped(keys, byGroup, ws[..i])
    {
      var w := ws[i];
      var key := w.GroupKey();
      GroupStep(keys, byGroup, ws[..i], w);
      assert ws[..i + 1] == ws[..i] + [w];
      if key in byGroup {
        byGroup := byGroup[key := byGroup[key] + [w]];
      } else {
        byGroup := byGroup[key := [w]];
        keys := keys + [key];
      }
    }
    assert ws[..|ws|] == ws;
  }

  method ComputeContexts(v: VaultV3) returns (contexts: seq<Context>)
    ensures contexts == ListContexts(v)
  {
    hide Filter, MakeContext, Sort, Keys;
    var ws := v.wallets;
    var keys, byGroup := GroupByKey(ws);
    contexts := [];
    for j := 0 to |keys|
      invariant |contexts| == j
      invariant forall i :: 0 <= i < j ==> contexts[i] == MakeContext(ws, keys[i])
    {
      var c := ContextFromMembers(ws, keys[j], byGroup[keys[j]]);
      contexts := contexts + [c];
    }
    assert contexts == MakeContexts(ws, keys) && keys == Keys(ws);
    contexts := Sort(ContextOrder(PrimaryGroup(ws)), contexts);
  }

  method ContextFromMembers(ghost ws: seq<Entry>, key: string, members: seq<Entry>) returns (c: Context)
    requires key in Keys(ws) && members == Filter(InGroup(key), ws)
    ensures c == MakeContext(ws, key)
  {
    KeyHasMember(ws, key);
    var sorted := Sort(MemberOrder(), members);
    c := Context(sorted[0].id, key, sorted[0].name, sorted);
  }

  // Contexts partition the wallets.

  lemma NoKeyNoMember(ws: seq<Entry>, key: string)
    requires key !in Keys(ws)
    ensures Filter(InGroup(key), ws) == []
  {
    forall w | w in ws ensures !InGroup(key)(w) {
      KeyOfWallet(ws, w);
    }
    FilterNone(InGroup(key), ws);
  }

  lemma KeyHasMember(ws: seq<Entry>, key: string)
    requires key in Keys(ws)
    ensures Members(ws, key) != []
  {
    var w := WalletOfKey(ws, key);
    assert InGroup(key)(w);
    assert w in Filter(InGroup(key), ws);
    SortPermutes(MemberOrder(), Filter(InGroup(key), ws));
  }

  lemma {:induction false} KeysDistinct(ws: seq<Entry>)
    ensures Distinct(Keys(ws))
  {
    if ws != [] {
      KeysDistinct(ws[..|ws| - 1]);
    }
  }

  /** The contexts are exactly one per group key, each holding the wallets of its key. */
  lemma ContextsByKey(v: VaultV3)
    ensures forall c :: c in ListContexts(v) <==> c.groupId in Keys(v.wallets) && c == MakeContext(v.wallets, c.groupId)
  {
    var ws := v.wallets;
    var keys := Keys(ws);
    var cs := MakeContexts(ws, keys);
    SortPermutes(ContextOrder(PrimaryGroup(ws)), cs);
    forall k | k in keys ensures MakeContext(ws, k) in cs {
      var i :| 0 <= i < |keys| && keys[i] == k;
      assert cs[i] == MakeContext(ws, k);
    }
  }

  lemma MemberOfContext(ws: seq<Entry>, key: string, w: Entry)
    ensures w in Members(ws, key) <==> w in ws && w.GroupKey() == key
  {
    SortPermutes(MemberOrder(), Filter(InGroup(key), ws));
  }

  lemma MemberOrderIsPreorder()
    ensures TotalPreorder(MemberOrder())
  {
  }

  lemma ContextOrderIsPreorder(primary: Option<string>)
    ensures TotalPreorder(ContextOrder(primary))
  {
  }

  /** All members of all contexts, one after another. */
  function AllMembers(cs: seq<Context>): seq<Entry> {
    if cs == [] then [] else cs[0].members + AllMembers(cs[1..])
  }

  lemma AllMembersCons(c: Context, cs: seq<Context>)
    ensures AllMembers([c] + cs) == c.members + AllMembers(cs)
  {
    assert ([c] + cs)[1..] == cs;
  }

  lemma {:induction false} AllMembersInsert(le: (Context, Context) -> bool, c: Context, cs: seq<Context>)
    ensures multiset(AllMembers(Insert(le, c, cs))) == multiset(c.members) + multiset(AllMembers(cs))
  {
    if cs == [] || le(c, cs[0]) {
      assert ([c] + cs)[1..] == cs;
    } else {
      AllMembersInsert(le, c, cs[1..]);
      var r := Insert(le, c, cs[1..]);
      assert ([cs[0]] + r)[1..] == r;
    }
  }

  lemma {:induction false} AllMembersSort(le: (Context, Context) -> bool, cs: seq<Context>)
    ensures multiset(AllMembers(Sort(le, cs))) == multiset(AllMembers(cs))
  {
    if cs != [] {
      AllMembersSort(le, cs[1..]);
      AllMembersInsert(le, cs[0], Sort(le, cs[1..]));
    }
  }

  function KeyIn(keys: seq<string>): Entry -> bool {
    (w: Entry) => w.GroupKey() in keys
  }

  lemma {:induction false} FilterOneMoreKey(ws: seq<Entry>, key: string, keys: seq<string>)
    requires key !in keys
    ensures multiset(Filter(KeyIn([key] + keys), ws))
        == multiset(Filter(InGroup(key), ws)) + multiset(Filter(KeyIn(keys), ws))
  {
    if ws != [] {
      FilterOneMoreKey(ws[1..], key, keys);
      OneMoreKeyStep(ws[0], ws[1..], key, keys);
      assert ws == [ws[0]] + ws[1..];
    }
  }

  lemma OneMoreKeyStep(h: Entry, rest: seq<Entry>, key: string, keys: seq<string>)
    requires key !in keys
    requires multiset(Filter(KeyIn([key] + keys), rest))
        == multiset(Filter(InGroup(key), rest)) + multiset(Filter(KeyIn(keys), rest))
    ensures multiset(Filter(KeyIn([key] + keys), [h] + rest))
         == multiset(Filter(InGroup(key), [h] + rest)) + multiset(Filter(KeyIn(keys), [h] + rest))
  {
    hide Filter;
    FilterCons(KeyIn([key] + keys), h, rest);
    FilterCons(InGroup(key), h, rest);
    FilterCons(KeyIn(keys), h, rest);
    assert KeyIn([key] + keys)(h) <==> InGroup(key)(h) || KeyIn(keys)(h);
  }

  lemma {:induction false} AllMembersOfKeys(ws: seq<Entry>, keys: seq<string>)
    requires forall k :: k in keys ==> k in Keys(ws)
    requires Distinct(keys)
    ensures multiset(AllMembers(MakeContexts(ws, keys))) == multiset(Filter(KeyIn(keys), ws))
  {
    if keys == [] {
      FilterNone(KeyIn(keys), ws);
    } else {
      AllMembersOfKeys(ws, keys[1..]);
      AllMembersOneMore(ws, keys[0], keys[1..]);
      assert keys == [keys[0]] + keys[1..];
    }
  }

  lemma AllMembersOneMore(ws: seq<Entry>, key: string, keys: seq<string>)
    requires key in Keys(ws) && forall k :: k in keys ==> k in Keys(ws)
    requires key !in keys
    requires multiset(AllMembers(MakeContexts(ws, keys))) == multiset(Filter(KeyIn(keys), ws))
    ensures multiset(AllMembers(MakeContexts(ws, [key] + keys))) == multiset(Filter(KeyIn([key] + keys), ws))
  {
    var c, cs := MakeContext(ws, key), MakeContexts(ws, keys);
    assert ([key] + keys)[1..] == keys;
    assert MakeContexts(ws, [key] + keys) == [c] + cs;
    hide Filter, Sort, MakeContexts, Keys;
    AllMembersCons(c, cs);
    FilterOneMoreKey(ws, key, keys);
    SortPermutes(MemberOrder(), Filter(InGroup(key), ws));
    assert multiset(c.members + AllMembers(cs)) == multiset(c.members) + multiset(AllMembers(cs));
  }

  lemma ContextHoldsItsGroup(v: VaultV3, c: Context, w: Entry)
    requires c in ListContexts(v)
    ensures w in c.members <==> w in v.wallets && w.GroupKey() == c.groupId
  {
    ContextsByKey(v);
    MemberOfContext(v.wallets, c.groupId, w);
  }

  lemma ContextOf(v: VaultV3, w: Entry) returns (c: Context)
    requires w in v.wallets
    ensures c in ListContexts(v) && c.groupId == w.GroupKey() && w in c.members
  {
    ContextsByKey(v);
    KeyOfWallet(v.wallets, w);
    c := MakeContext(v.wallets, w.GroupKey());
    MemberOfContext(v.wallets, c.groupId, w);
  }

  /** The members of the contexts are exactly a permutation of the wallets. */
  lemma ContextsPermuteWallets(v: VaultV3)
    ensures multiset(AllMembers(ListContexts(v))) == multiset(v.wallets)
  {
    var ws := v.wallets;
    KeysDistinct(ws);
    AllMembersSort(ContextOrder(PrimaryGroup(ws)), MakeContexts(ws, Keys(ws)));
    AllMembersOfKeys(ws, Keys(ws));
    forall w | w in ws ensures KeyIn(Keys(ws))(w) {
      KeyOfWallet(ws, w);
    }
    FilterAll(KeyIn(Keys(ws)), ws);
  }

  /** Every wallet is in the one context of its own group key, and in no other. */
  lemma ContextsPartition(v: VaultV3)
    ensures multiset(AllMembers(ListContexts(v))) == multiset(v.wallets)
    ensures forall c, w :: c in ListContexts(v) ==> (w in c.members <==> w in v.wallets && w.GroupKey() == c.groupId)
    ensures forall w :: w in v.wallets ==>
              exists c :: c in ListContexts(v) && c.groupId == w.GroupKey() && w in c.members
  {
    ContextsPermuteWallets(v);
    forall c, w | c in ListContexts(v)
      ensures w in c.members <==> w in v.wallets && w.GroupKey() == c.groupId
    {
      ContextHoldsItsGroup(v, c, w);
    }
    forall w | w in v.wallets
      ensures exists c :: c in ListContexts(v) && c.groupId == w.GroupKey() && w in c.members
    {
      var c := ContextOf(v, w);
    }
  }

  /** Two contexts never share a group, and each is led by a bip39 wallet when it has one. */
  lemma ContextsAreLedByBip39(v: VaultV3, c: Context)
    requires c in ListContexts(v)
    ensures c.members != [] && c.id == c.members[0].id && c.name == c.members[0].name
    ensures forall i, j :: 0 <= i < j < |c.members| && c.members[j].kind.Bip39? ==> c.members[i].kind.Bip39?
    ensures forall i, j :: 0 <= i < j < |c.members| && c.members[i].kind.Bip39? == c.members[j].kind.Bip39?
              ==> c.members[i].createdAt <= c.members[j].createdAt
    ensures forall d :: d in ListContexts(v) && d.groupId == c.groupId ==> d == c
  {
    ContextsByKey(v);
    KeyHasMember(v.wallets, c.groupId);
    MemberOrderIsPreorder();
    SortSorted(MemberOrder(), Filter(InGroup(c.groupId), v.wallets));
    var m := c.members;
    forall i, j | 0 <= i < j < |m| ensures MemberLe(m[i], m[j]) {
      assert MemberOrder()(m[i], m[j]);
    }
  }

  /** The primary context comes first. */
  lemma PrimaryContextFirst(v: VaultV3)
    ensures ListContexts(v) == [] <==> v.wallets == []
    ensures v.wallets != [] ==> Some(ListContexts(v)[0].groupId) == PrimaryGroup(v.wallets)
  {
    var ws := v.wallets;
    var order := ContextOrder(PrimaryGroup(ws));
    var cs := MakeContexts(ws, Keys(ws));
    SortPermutes(order, cs);
    PrimaryIsAGroup(ws);
    if ws != [] {
      var w :| w in ws && Some(w.GroupKey()) == PrimaryGroup(ws);
      var p := ContextOf(v, w);
      ContextOrderIsPreorder(PrimaryGroup(ws));
      SortHead(order, cs);
      assert order(ListContexts(v)[0], p);
    }
  }

  lemma {:induction false} OldestOf(ws: seq<Entry>)
    requires ws != []
    ensures forall w :: w in ws ==> Oldest(ws) <= w.createdAt
    ensures exists w :: w in ws && w.createdAt == Oldest(ws)
  {
    assert ws[0] in ws;
    if |ws| > 1 {
      OldestOf(ws[1..]);
      var w :| w in ws[1..] && w.createdAt == Oldest(ws[1..]);
      assert w in ws;
      assert forall x :: x in ws <==> x == ws[0] || x in ws[1..];
    }
  }

  lemma {:induction false} DistinctCount<T>(s: seq<T>, x: T)
    requires Distinct(s)
    ensures multiset(s)[x] <= 1
  {
    if s != [] {
      assert s == [s[0]] + s[1..];
      assert Distinct(s[1..]) && s[0] !in s[1..];
      DistinctCount(s[1..], x);
      assert multiset(s)[x] == multiset([s[0]])[x] + multiset(s[1..])[x];
    }
  }

  lemma TwiceCounts<T>(s: seq<T>, i: nat, j: nat)
    requires i < j < |s| && s[i] == s[j]
    ensures multiset(s)[s[i]] >= 2
  {
    assert s == s[..j] + s[j..];
    assert s[i] in s[..j] && s[i] == s[j..][0];
    assert multiset(s)[s[i]] == multiset(s[..j])[s[i]] + multiset(s[j..])[s[i]];
  }

  /** No two contexts of the list share a group. */
  lemma DistinctContexts(v: VaultV3, i: nat, j: nat)
    requires i < j < |ListContexts(v)|
    ensures ListContexts(v)[i].groupId != ListContexts(v)[j].groupId
  {
    var ws, cs := v.wallets, ListContexts(v);
    var made := MakeContexts(ws, Keys(ws));
    KeysDistinct(ws);
    assert Distinct(made) by {
      assert forall k :: 0 <= k < |made| ==> made[k].groupId == Keys(ws)[k];
    }
    if cs[i].groupId == cs[j].groupId {
      ContextsAreLedByBip39(v, cs[i]);
      TwiceCounts(cs, i, j);
      SortMultiset(ContextOrder(PrimaryGroup(ws)), made);
      DistinctCount(made, cs[i]);
      assert false;
    }
  }

  /** The contexts after the first are ordered by their oldest wallet: each has one that is no younger
      than any wallet of a later context. */
  lemma ContextsByAge(v: VaultV3, i: nat, j: nat)
    requires 0 < i < j < |ListContexts(v)|
    ensures exists a :: a in ListContexts(v)[i].members
                        && forall b :: b in ListContexts(v)[j].members ==> a.createdAt <= b.createdAt
  {
    var cs, order := ListContexts(v), ContextOrder(PrimaryGroup(v.wallets));
    PrimaryContextFirst(v);
    DistinctContexts(v, 0, i);
    DistinctContexts(v, 0, j);
    ContextOrderIsPreorder(PrimaryGroup(v.wallets));
    SortSorted(order, MakeContexts(v.wallets, Keys(v.wallets)));
    assert order(cs[i], cs[j]);
    ContextsAreLedByBip39(v, cs[i]);
    ContextsAreLedByBip39(v, cs[j]);
    OldestOf(cs[i].members);
    OldestOf(cs[j].members);
    var a :| a in cs[i].members && a.createdAt == Oldest(cs[i].members);
    assert ContextLe(PrimaryGroup(v.wallets), cs[i], cs[j]);
    assert forall b :: b in cs[j].members ==> a.createdAt <= b.createdAt;
  }

  /** Two wallets of a vault share a context exactly when they name the same group, or one names the
      other's id while that one names none, or they are the same wallet. */
  lemma SharesContextExactly(v: VaultV3, c: Context, a: Entry, b: Entry)
    requires UniqueIds(v.wallets) && c in ListContexts(v) && a in c.members && b in v.wallets
    ensures b in c.members <==>
            || (a.groupId.Some? && a.groupId == b.groupId)
            || (a.groupId == Some(b.id) && b.groupId.None?)
            || (b.groupId == Some(a.id) && a.groupId.None?)
            || a == b
  {
    ContextHoldsItsGroup(v, c, a);
    ContextHoldsItsGroup(v, c, b);
    if a.id == b.id {
      SameIdSameEntry(v.wallets, a, b);
    }
  }

  /** A search by member id finds the context of the wallet with that id. */
  lemma FindContext(v: VaultV3, w: Entry)
    requires UniqueIds(v.wallets) && w in v.wallets
    ensures var c := Find(HasMember(w.id), ListContexts(v));
            c.Some? && c.value in ListContexts(v) && c.value.groupId == w.GroupKey()
  {
    var c := ContextOf(v, w);
    assert MemberWithId(c, w.id);
    assert HasMember(w.id)(c);
    var r := Find(HasMember(w.id), ListContexts(v));
    assert MemberWithId(r.value, w.id);
    var m :| m in r.value.members && m.id == w.id;
    ContextHoldsItsGroup(v, r.value, m);
    SameIdSameEntry(v.wallets, m, w);
  }

  lemma FindNoContext(v: VaultV3, id: string)
    requires forall w :: w in v.wallets ==> w.id != id
    ensures Find(HasMember(id), ListContexts(v)).None?
  {
    var r := Find(HasMember(id), ListContexts(v));
    if r.Some? {
      assert MemberWithId(r.value, id);
      var m :| m in r.value.members && m.id == id;
      ContextHoldsItsGroup(v, r.value, m);
      assert false;
    }
  }

  /** Grouping, two sorts and a search amount to looking up one entry. */
  lemma GroupIdForWalletIsGroupOf(v: VaultV3, active: Option<string>)
    requires UniqueIds(v.wallets)
    ensures GroupIdForWallet(v, active) == GroupOf(v.wallets, active)
  {
    if Truthy(active) && active != Some("all") {
      var id := active.value;
      var e := Find(HasId(id), v.wallets);
      if e.Some? {
        FindContext(v, e.value);
      } else {
        forall w | w in v.wallets ensures w.id != id {
          assert !HasId(id)(w);
        }
        FindNoContext(v, id);
        PrimaryContextFirst(v);
        PrimaryIsAGroup(v.wallets);
      }
    }
  }

  /** Being in the active context is being a member of the context the switcher has open. */
  lemma ActiveContextMembership(v: VaultV3, entry: Entry)
    requires UniqueIds(v.wallets) && entry in v.wallets
    requires forall w :: w in v.wallets ==> w.id != "" && w.id != "all"
    ensures var c := ContextForWallet(v, v.lastActive.GetOr("all"));
            c.Some? && (IsInActiveContext(v, entry) <==> entry in c.value.members)
  {
    var id := v.lastActive.GetOr("all");
    PrimaryContextFirst(v);
    var c := ContextForWallet(v, id).value;
    assert c in ListContexts(v);
    ContextHoldsItsGroup(v, c, entry);
    if id == "" {
      FindNoContext(v, id);
    }
  }
}
