/** What the repair pass guarantees: who moves, what stays, when every wallet ends on a file of its
    own, and that a second pass finds nothing to do. */
module RepairLaws {
  import opened Wrappers
  import opened Seqs
  import opened StableSort
  import opened Vault
  import opened FileNames
  import opened Repair

  /** The wallet that keeps the file of `w`. */
  predicate Keeps(ws: seq<Entry>, order: (Entry, Entry) -> bool, w: Entry)
    requires SlotOf(w).Some?
  {
    var sorted := Ranked(ws, order, SlotOf(w).value);
    sorted != [] && sorted[0] == w
  }

  /** A wallet moves when another one keeps its file and its own name is not in use. */
  predicate IsMoved(ws: seq<Entry>, order: (Entry, Entry) -> bool, w: Entry) {
    SlotOf(w).Some? && !Keeps(ws, order, w) && OwnSlot(w) !in Used(ws)
  }

  function After(ws: seq<Entry>, order: (Entry, Entry) -> bool): Entry -> Entry {
    (w: Entry) => if IsMoved(ws, order, w) then w.(sidecarFile := Some(NewSidecarFile(w.kind, w.id))) else w
  }

  function Order(v: VaultV3, rank: string -> real): (Entry, Entry) -> bool {
    KeeperOrder(PrimaryGroup(v.wallets), rank)
  }

  // Who loses a file.

  lemma {:induction false} FilterCount(p: Entry -> bool, s: seq<Entry>, w: Entry)
    ensures multiset(Filter(p, s))[w] <= multiset(s)[w]
  {
    if s != [] {
      FilterCount(p, s[1..], w);
      assert s == [s[0]] + s[1..];
    }
  }

  lemma {:induction false} UniqueCount(ws: seq<Entry>, w: Entry)
    requires UniqueIds(ws)
    ensures multiset(ws)[w] <= 1
  {
    if ws != [] {
      UniqueIdsTail(ws);
      UniqueCount(ws[1..], w);
      assert ws == [ws[0]] + ws[1..];
    }
  }

  lemma LosersOfSlot(ws: seq<Entry>, order: (Entry, Entry) -> bool, slot: Slot, w: Entry)
    requires UniqueIds(ws)
    ensures w in Losers(ws, order, slot) <==> w in ws && SlotOf(w) == Some(slot) && !Keeps(ws, order, w)
  {
    var sorted := Ranked(ws, order, slot);
    SortPermutes(order, Filter(InSlot(slot), ws));
    assert w in Filter(InSlot(slot), ws) <==> w in ws && SlotOf(w) == Some(slot);
    FilterCount(InSlot(slot), ws, w);
    UniqueCount(ws, w);
    if sorted != [] {
      assert sorted == [sorted[0]] + sorted[1..];
      assert multiset(sorted)[w] == multiset([sorted[0]])[w] + multiset(sorted[1..])[w];
    }
  }

  lemma {:induction false} LosersOfSlots(ws: seq<Entry>, order: (Entry, Entry) -> bool, slots: seq<Slot>, w: Entry)
    requires UniqueIds(ws)
    ensures w in AllLosers(ws, order, slots)
       <==> w in ws && SlotOf(w).Some? && SlotOf(w).value in slots && !Keeps(ws, order, w)
  {
    if slots != [] {
      LosersOfSlots(ws, order, slots[..|slots| - 1], w);
      LosersOfSlot(ws, order, slots[|slots| - 1], w);
    }
  }

  lemma WhoLoses(ws: seq<Entry>, order: (Entry, Entry) -> bool)
    requires UniqueIds(ws)
    ensures forall w :: w in AllLosers(ws, order, Slots(ws)) <==> w in ws && SlotOf(w).Some? && !Keeps(ws, order, w)
  {
    SlotsAreUsed(ws);
    forall w ensures w in AllLosers(ws, order, Slots(ws)) <==> w in ws && SlotOf(w).Some? && !Keeps(ws, order, w) {
      LosersOfSlots(ws, order, Slots(ws), w);
    }
  }

  // Who moves.

  lemma OwnSlotsDistinct(a: Entry, b: Entry)
    requires a.kind.HasFile() && b.kind.HasFile() && OwnSlot(a) == OwnSlot(b)
    ensures a.id == b.id
  {
    CanonicalNamesInjective(a.kind, a.id, b.id);
  }

  /** Entries of one vault, told apart by their ids. */
  ghost predicate FromOneVault(s: seq<Entry>) {
    forall a, b :: a in s && b in s && a.id == b.id ==> a == b
  }

  lemma {:induction false} MoveAllExact(used: set<Slot>, losers: seq<Entry>)
    requires forall w :: w in losers ==> w.kind.HasFile()
    requires FromOneVault(losers)
    ensures var r := MoveAll(used, losers);
            && (forall s :: s in r.used <==> s in used || exists w :: w in losers && OwnSlot(w) == s)
            && (forall m :: m in r.moves <==> exists w :: w in losers && OwnSlot(w) !in used && m == RepairOf(w))
            && (forall i, j :: 0 <= i < j < |r.moves| ==> r.moves[i].id != r.moves[j].id)
  {
    if losers != [] {
      var front, w := losers[..|losers| - 1], losers[|losers| - 1];
      assert forall x :: x in losers <==> x in front || x == w;
      MoveAllExact(used, front);
      MoveAllStep(used, front, w);
      assert losers == front + [w];
    }
  }

  lemma MoveAllStep(used: set<Slot>, front: seq<Entry>, w: Entry)
    requires forall x :: x in front ==> x.kind.HasFile()
    requires w.kind.HasFile() && FromOneVault(front + [w])
    requires var r := MoveAll(used, front);
             && (forall s :: s in r.used <==> s in used || exists x :: x in front && OwnSlot(x) == s)
             && (forall m :: m in r.moves <==> exists x :: x in front && OwnSlot(x) !in used && m == RepairOf(x))
             && (forall i, j :: 0 <= i < j < |r.moves| ==> r.moves[i].id != r.moves[j].id)
    ensures var r := MoveAll(used, front + [w]);
            && (forall s :: s in r.used <==> s in used || exists x :: x in front + [w] && OwnSlot(x) == s)
            && (forall m :: m in r.moves <==> exists x :: x in front + [w] && OwnSlot(x) !in used && m == RepairOf(x))
            && (forall i, j :: 0 <= i < j < |r.moves| ==> r.moves[i].id != r.moves[j].id)
  {
    var before, after := MoveAll(used, front), MoveAll(used, front + [w]);
    MoveAllSnoc(used, front, w);
    assert w in front + [w] && forall x :: x in front ==> x in front + [w];
    forall x | x in front && OwnSlot(x) == OwnSlot(w) ensures x == w {
      OwnSlotsDistinct(x, w);
    }
    forall s ensures s in after.used <==> s in used || exists x :: x in front + [w] && OwnSlot(x) == s {
    }
    forall m ensures m in after.moves <==> exists x :: x in front + [w] && OwnSlot(x) !in used && m == RepairOf(x) {
    }
    if after.moves != before.moves {
      forall m | m in before.moves ensures m.id != w.id {
        var x :| x in front && OwnSlot(x) !in used && m == RepairOf(x);
      }
    }
  }

  lemma {:induction false} DestinationsExact(moves: seq<SidecarFileRepair>)
    requires forall i, j :: 0 <= i < j < |moves| ==> moves[i].id != moves[j].id
    ensures forall id :: id in Destinations(moves) <==> exists m :: m in moves && m.id == id
    ensures forall m :: m in moves ==> m.id in Destinations(moves) && Destinations(moves)[m.id] == m.to
  {
    if moves != [] {
      var front, last := moves[..|moves| - 1], moves[|moves| - 1];
      DestinationsExact(front);
      assert forall m :: m in moves <==> m in front || m == last;
      assert forall m :: m in front ==> m.id != last.id;
    }
  }

  /** The reported moves are exactly those of the wallets that move, each once, from the shared
      file to the canonical one. */
  lemma RepairsListMovedWallets(v: VaultV3, rank: string -> real)
    requires UniqueIds(v.wallets)
    ensures forall m :: m in Moves(v, rank) <==>
              exists w :: w in v.wallets && IsMoved(v.wallets, Order(v, rank), w) && m == RepairOf(w)
    ensures var r := Moves(v, rank); forall i, j :: 0 <= i < j < |r| ==> r[i].id != r[j].id
  {
    hide Keeps, UniqueIds, KeeperOrder, Slots, SlotOf, OwnSlot, Used;
    var ws, order := v.wallets, Order(v, rank);
    var losers := AllLosers(ws, order, Slots(ws));
    LosersHaveFiles(ws, order, Slots(ws));
    WhoLoses(ws, order);
    LosersFromOneVault(ws, losers);
    MoveAllExact(Used(ws), losers);
    SlotsHaveFiles(ws);
    var moves := MoveAll(Used(ws), losers).moves;
    assert moves == Moves(v, rank);
    hide Moves;
    forall m ensures m in moves <==> exists w :: w in ws && IsMoved(ws, order, w) && m == RepairOf(w) {
      MovedLoser(ws, order, losers, moves, m);
    }
  }

  /** A report names the wallet, the file it shared and its own file. */
  lemma RepairSays(v: VaultV3, rank: string -> real, m: SidecarFileRepair)
    requires UniqueIds(v.wallets) && m in Moves(v, rank)
    ensures exists w :: w in v.wallets && m.id == w.id && m.name == w.name && m.kind == w.kind
                        && w.kind.HasFile() && w.File() == Some(m.from) && m.to == NewSidecarFile(w.kind, w.id)
  {
    hide Moves;
    RepairsListMovedWallets(v, rank);
    var w :| w in v.wallets && IsMoved(v.wallets, Order(v, rank), w) && m == RepairOf(w);
  }

  lemma LosersFromOneVault(ws: seq<Entry>, losers: seq<Entry>)
    requires UniqueIds(ws) && forall w :: w in losers ==> w in ws
    ensures FromOneVault(losers)
  {
    hide UniqueIds;
    forall a, b | a in losers && b in losers && a.id == b.id ensures a == b {
      SameIdSameEntry(ws, a, b);
    }
  }

  lemma SlotsHaveFiles(ws: seq<Entry>)
    ensures forall w :: w in ws && SlotOf(w).Some? ==> w.kind.HasFile()
  {
  }

  lemma MovedLoser(ws: seq<Entry>, order: (Entry, Entry) -> bool, losers: seq<Entry>, moves: seq<SidecarFileRepair>,
                   m: SidecarFileRepair)
    requires forall w :: w in losers <==> w in ws && SlotOf(w).Some? && !Keeps(ws, order, w)
    requires forall w :: w in ws && SlotOf(w).Some? ==> w.kind.HasFile()
    requires m in moves <==> exists w :: w in losers && OwnSlot(w) !in Used(ws) && m == RepairOf(w)
    ensures m in moves <==> exists w :: w in ws && IsMoved(ws, order, w) && m == RepairOf(w)
  {
    hide Keeps, Used, RepairOf, SlotOf, OwnSlot;
    if m in moves {
      var w :| w in losers && OwnSlot(w) !in Used(ws) && m == RepairOf(w);
      assert IsMoved(ws, order, w);
    }
    if w :| w in ws && IsMoved(ws, order, w) && m == RepairOf(w) {
      assert w in losers;
    }
  }

  lemma AppliedMoves(v: VaultV3, rank: string -> real, w: Entry)
    requires UniqueIds(v.wallets) && w in v.wallets
    ensures Apply(Destinations(Moves(v, rank)))(w) == After(v.wallets, Order(v, rank))(w)
  {
    var ws, order, moves := v.wallets, Order(v, rank), Moves(v, rank);
    hide Moves, Destinations, IsMoved, Order, UniqueIds, SlotOf;
    RepairsListMovedWallets(v, rank);
    DestinationsExact(moves);
    forall x ensures IsMoved(ws, order, x) ==> x.kind.HasFile() {
      IsMovedHasFile(ws, order, x);
    }
    if IsMoved(ws, order, w) {
      assert RepairOf(w) in moves;
    } else {
      forall m | m in moves ensures m.id != w.id {
        var x :| x in ws && IsMoved(ws, order, x) && m == RepairOf(x);
        SameIdIfUnique(v.wallets, x, w);
      }
    }
  }

  lemma SameIdIfUnique(ws: seq<Entry>, a: Entry, b: Entry)
    requires UniqueIds(ws) && a in ws && b in ws
    ensures a.id == b.id ==> a == b
  {
  }

  lemma IsMovedHasFile(ws: seq<Entry>, order: (Entry, Entry) -> bool, w: Entry)
    ensures IsMoved(ws, order, w) ==> w.kind.HasFile()
  {
  }

  /** The repair changes nothing but the stored file of the wallets that move. */
  lemma RepairIsAfter(v: VaultV3, rank: string -> real)
    requires UniqueIds(v.wallets)
    ensures Repaired(v, rank) == v.(wallets := Map(After(v.wallets, Order(v, rank)), v.wallets))
  {
    var moves := Moves(v, rank);
    var after := Map(After(v.wallets, Order(v, rank)), v.wallets);
    forall i | 0 <= i < |v.wallets| ensures Apply(Destinations(moves))(v.wallets[i]) == after[i] {
      assert v.wallets[i] in v.wallets;
      AppliedMoves(v, rank, v.wallets[i]);
    }
    if moves == [] {
      assert after == v.wallets;
    } else {
      assert Map(Apply(Destinations(moves)), v.wallets) == after;
    }
  }

  // What stays in use.

  lemma KeeperOf(ws: seq<Entry>, order: (Entry, Entry) -> bool, slot: Slot) returns (k: Entry)
    requires slot in Used(ws)
    ensures k in ws && SlotOf(k) == Some(slot) && Keeps(ws, order, k)
  {
    var w :| w in ws && SlotOf(w) == Some(slot);
    assert InSlot(slot)(w);
    assert w in Filter(InSlot(slot), ws);
    SortPermutes(order, Filter(InSlot(slot), ws));
    k := Ranked(ws, order, slot)[0];
    assert k in Ranked(ws, order, slot);
    assert InSlot(slot)(k);
  }

  predicate InPrimary(v: VaultV3, w: Entry) {
    Some(w.GroupKey()) == PrimaryGroup(v.wallets)
  }

  /** The wallet that keeps a file is of the primary group if any on the file is; of those alike in
      that it is an oldest, and of those of its age the first by id. */
  lemma KeeperIsLeast(v: VaultV3, rank: string -> real, k: Entry, w: Entry)
    requires k in v.wallets && w in v.wallets && SlotOf(k).Some? && SlotOf(w) == SlotOf(k)
    requires Keeps(v.wallets, Order(v, rank), k)
    ensures InPrimary(v, w) ==> InPrimary(v, k)
    ensures InPrimary(v, w) == InPrimary(v, k) ==> k.createdAt <= w.createdAt
    ensures InPrimary(v, w) == InPrimary(v, k) && k.createdAt == w.createdAt ==> rank(k.id) <= rank(w.id)
  {
    var slot := SlotOf(k).value;
    KeeperOrderIsPreorder(PrimaryGroup(v.wallets), rank);
    assert InSlot(slot)(w);
    SortHead(Order(v, rank), Filter(InSlot(slot), v.wallets));
    assert Order(v, rank)(k, w);
  }

  /** `k` goes before every other wallet on its file: by the primary group, else by age, else by id. */
  ghost predicate GoesFirst(v: VaultV3, rank: string -> real, k: Entry) {
    forall w :: w in v.wallets && w != k && SlotOf(w) == SlotOf(k) ==>
      || (InPrimary(v, k) && !InPrimary(v, w))
      || (InPrimary(v, k) == InPrimary(v, w) && k.createdAt < w.createdAt)
      || (InPrimary(v, k) == InPrimary(v, w) && k.createdAt == w.createdAt && rank(k.id) < rank(w.id))
  }

  /** So that wallet is stored as it was, and every other one on its file is moved to its own file,
      unless some wallet is on that already. */
  lemma RepairMovesTheOthers(v: VaultV3, rank: string -> real, i: nat, j: nat)
    requires UniqueIds(v.wallets) && i < |v.wallets| && j < |v.wallets| && i != j
    requires SlotOf(v.wallets[i]).Some? && SlotOf(v.wallets[j]) == SlotOf(v.wallets[i])
    requires GoesFirst(v, rank, v.wallets[i])
    ensures var after, w := Repaired(v, rank).wallets, v.wallets[j];
            && |after| == |v.wallets| && after[i] == v.wallets[i]
            && w.kind.HasFile()
            && after[j] == if exists x :: x in v.wallets && SlotOf(x) == Some(OwnSlot(w)) then w
                           else w.(sidecarFile := Some(NewSidecarFile(w.kind, w.id)))
  {
    var ws, order, slot := v.wallets, Order(v, rank), SlotOf(v.wallets[i]).value;
    var k := KeeperOf(ws, order, slot);
    if k != ws[i] {
      KeeperIsLeast(v, rank, k, ws[i]);
      assert false;
    }
    RepairIsAfter(v, rank);
    assert ws[j] in ws && ws[j].id != ws[i].id;
    assert Ranked(ws, order, slot) != [] ==> Ranked(ws, order, slot)[0] == k;
    assert !Keeps(ws, order, ws[j]);
  }

  lemma AfterSlot(ws: seq<Entry>, order: (Entry, Entry) -> bool, w: Entry)
    ensures SlotOf(After(ws, order)(w)) == if IsMoved(ws, order, w) then Some(OwnSlot(w)) else SlotOf(w)
    ensures w.kind.HasFile() ==> OwnSlot(After(ws, order)(w)) == OwnSlot(w)
  {
  }

  /** Every (kind, file) that was in use is still in use, and the moved wallets' names are new. */
  lemma UsedAfter(ws: seq<Entry>, order: (Entry, Entry) -> bool, slot: Slot)
    ensures slot in Used(Map(After(ws, order), ws))
       <==> slot in Used(ws) || exists w :: w in ws && IsMoved(ws, order, w) && OwnSlot(w) == slot
  {
    var ws' := Map(After(ws, order), ws);
    if slot in Used(ws) {
      var k := KeeperOf(ws, order, slot);
      InAfter(ws, order, k);
    }
    if w :| w in ws && IsMoved(ws, order, w) && OwnSlot(w) == slot {
      InAfter(ws, order, w);
      AfterSlot(ws, order, w);
      assert SlotOf(After(ws, order)(w)) == Some(slot);
    }
    if slot in Used(ws') {
      var e :| e in ws' && SlotOf(e) == Some(slot);
      var w := BeforeOf(ws, order, e);
      AfterSlot(ws, order, w);
    }
  }

  lemma InAfter(ws: seq<Entry>, order: (Entry, Entry) -> bool, w: Entry)
    requires w in ws
    ensures After(ws, order)(w) in Map(After(ws, order), ws)
  {
    var i :| 0 <= i < |ws| && ws[i] == w;
    assert Map(After(ws, order), ws)[i] == After(ws, order)(w);
  }

  lemma BeforeOf(ws: seq<Entry>, order: (Entry, Entry) -> bool, e: Entry) returns (w: Entry)
    requires e in Map(After(ws, order), ws)
    ensures w in ws && e == After(ws, order)(w)
  {
    var i :| 0 <= i < |ws| && Map(After(ws, order), ws)[i] == e;
    w := ws[i];
  }

  lemma RepairKeepsFilesInUse(v: VaultV3, rank: string -> real)
    requires UniqueIds(v.wallets)
    ensures Used(v.wallets) <= Used(Repaired(v, rank).wallets)
  {
    RepairIsAfter(v, rank);
    forall s | s in Used(v.wallets) ensures s in Used(Repaired(v, rank).wallets) {
      UsedAfter(v.wallets, Order(v, rank), s);
    }
  }

  // When the repair succeeds.

  /** Some wallet that loses its file cannot move, because its own name is in use. */
  ghost predicate SomeMoveSkipped(ws: seq<Entry>, order: (Entry, Entry) -> bool) {
    exists w :: w in ws && SlotOf(w).Some? && !Keeps(ws, order, w) && OwnSlot(w) in Used(ws)
  }

  lemma TwoAfter(ws: seq<Entry>, order: (Entry, Entry) -> bool, a: Entry, b: Entry)
    requires UniqueIds(ws) && !SomeMoveSkipped(ws, order) && a in ws && b in ws
    requires SlotOf(After(ws, order)(a)).Some? && SlotOf(After(ws, order)(a)) == SlotOf(After(ws, order)(b))
    ensures a == b
  {
    AfterSlot(ws, order, a);
    AfterSlot(ws, order, b);
    var ma, mb := IsMoved(ws, order, a), IsMoved(ws, order, b);
    if ma && mb {
      OwnSlotsDistinct(a, b);
      SameIdSameEntry(ws, a, b);
    } else if !ma && !mb {
      assert Keeps(ws, order, a) && Keeps(ws, order, b);
    }
  }

  /** After the repair no two wallets open one file, exactly when no move had to be skipped. */
  lemma RepairSeparatesExactly(v: VaultV3, rank: string -> real)
    requires UniqueIds(v.wallets)
    ensures FilesInjective(Repaired(v, rank).wallets) <==> !SomeMoveSkipped(v.wallets, Order(v, rank))
  {
    var ws, order := v.wallets, Order(v, rank);
    var ws' := Map(After(ws, order), ws);
    RepairIsAfter(v, rank);
    if w :| w in ws && SlotOf(w).Some? && !Keeps(ws, order, w) && OwnSlot(w) in Used(ws) {
      var k := KeeperOf(ws, order, SlotOf(w).value);
      InAfter(ws, order, w);
      InAfter(ws, order, k);
      assert After(ws, order)(w) == w && After(ws, order)(k) == k;
    } else {
      forall a, b | a in ws' && b in ws' && SlotOf(a).Some? && SlotOf(a) == SlotOf(b) ensures a == b {
        var x := BeforeOf(ws, order, a);
        var y := BeforeOf(ws, order, b);
        TwoAfter(ws, order, x, y);
      }
    }
  }

  /** A vault in which no wallet stores another wallet's canonical name. */
  ghost predicate NoBorrowedNames(ws: seq<Entry>) {
    forall a, b :: a in ws && b in ws && a != b && b.kind.HasFile() ==> SlotOf(a) != Some(OwnSlot(b))
  }

  lemma RepairSeparates(v: VaultV3, rank: string -> real)
    requires UniqueIds(v.wallets) && NoBorrowedNames(v.wallets)
    ensures FilesInjective(Repaired(v, rank).wallets)
  {
    var ws, order := v.wallets, Order(v, rank);
    RepairSeparatesExactly(v, rank);
    if w :| w in ws && SlotOf(w).Some? && !Keeps(ws, order, w) && OwnSlot(w) in Used(ws) {
      var x :| x in ws && SlotOf(x) == Some(OwnSlot(w));
      assert x == w;
      var k := KeeperOf(ws, order, OwnSlot(w));
      assert false;
    }
  }

  // A second pass.

  lemma AfterKeepsIdentity(ws: seq<Entry>, order: (Entry, Entry) -> bool)
    ensures var ws' := Map(After(ws, order), ws);
            && |ws'| == |ws|
            && forall i :: 0 <= i < |ws| ==> ws'[i] == ws[i].(sidecarFile := ws'[i].sidecarFile)
  {
  }

  /** Replacing stored files does not change which group is primary. */
  lemma {:induction false} PrimaryIgnoresFiles(a: seq<Entry>, b: seq<Entry>)
    requires |a| == |b| && forall i :: 0 <= i < |a| ==> b[i] == a[i].(sidecarFile := b[i].sidecarFile)
    ensures var x, y := Find(OfKind(Bip39), a), Find(OfKind(Bip39), b);
            x.Some? == y.Some? && (x.Some? ==> x.value.GroupKey() == y.value.GroupKey())
    ensures PrimaryGroup(a) == PrimaryGroup(b)
  {
    if a != [] {
      PrimaryIgnoresFiles(a[1..], b[1..]);
    }
  }

  function Stays(ws: seq<Entry>, order: (Entry, Entry) -> bool): Entry -> bool {
    (w: Entry) => !IsMoved(ws, order, w)
  }

  /** On a file that was in use, the repaired vault has the wallets that stayed, in order. */
  lemma {:induction false} SharingAfter(ws: seq<Entry>, order: (Entry, Entry) -> bool, slot: Slot, s: seq<Entry>)
    requires slot in Used(ws)
    ensures Filter(InSlot(slot), Map(After(ws, order), s)) == Filter(Stays(ws, order), Filter(InSlot(slot), s))
  {
    if s != [] {
      SharingAfter(ws, order, slot, s[1..]);
      SharingStep(ws, order, slot, s[0], s[1..]);
      assert s == [s[0]] + s[1..];
    }
  }

  lemma SharingStep(ws: seq<Entry>, order: (Entry, Entry) -> bool, slot: Slot, h: Entry, rest: seq<Entry>)
    requires slot in Used(ws)
    requires Filter(InSlot(slot), Map(After(ws, order), rest)) == Filter(Stays(ws, order), Filter(InSlot(slot), rest))
    ensures Filter(InSlot(slot), Map(After(ws, order), [h] + rest))
        == Filter(Stays(ws, order), Filter(InSlot(slot), [h] + rest))
  {
    var h', rest' := After(ws, order)(h), Map(After(ws, order), rest);
    var p, q := InSlot(slot), Stays(ws, order);
    var f := Filter(p, rest);
    assert Map(After(ws, order), [h] + rest) == [h'] + rest';
    FilterCons(p, h', rest');
    FilterCons(p, h, rest);
    StaysInSlot(ws, order, slot, h);
    if p(h) {
      assert Filter(p, [h] + rest) == [h] + f;
      FilterCons(q, h, f);
    } else {
      assert Filter(p, [h] + rest) == f;
    }
  }

  lemma StaysInSlot(ws: seq<Entry>, order: (Entry, Entry) -> bool, slot: Slot, w: Entry)
    requires slot in Used(ws)
    ensures InSlot(slot)(After(ws, order)(w)) <==> InSlot(slot)(w) && Stays(ws, order)(w)
    ensures Stays(ws, order)(w) ==> After(ws, order)(w) == w
  {
    AfterSlot(ws, order, w);
  }

  /** The wallet that kept a file keeps it in a second pass. */
  lemma SameKeeper(ws: seq<Entry>, order: (Entry, Entry) -> bool, k: Entry)
    requires TotalPreorder(order) && k in ws && SlotOf(k).Some? && Keeps(ws, order, k)
    ensures Keeps(Map(After(ws, order), ws), order, k)
  {
    var slot := SlotOf(k).value;
    SharingAfter(ws, order, slot, ws);
    SortFilter(order, Stays(ws, order), Filter(InSlot(slot), ws));
    var sorted := Ranked(ws, order, slot);
    assert Ranked(Map(After(ws, order), ws), order, slot) == Filter(Stays(ws, order), sorted);
    assert Filter(Stays(ws, order), sorted)[0] == k;
  }

  lemma NothingLeftToMove(ws: seq<Entry>, order: (Entry, Entry) -> bool, e: Entry)
    requires UniqueIds(ws) && TotalPreorder(order) && e in Map(After(ws, order), ws)
    ensures !IsMoved(Map(After(ws, order), ws), order, e)
  {
    var ws' := Map(After(ws, order), ws);
    var w := BeforeOf(ws, order, e);
    AfterSlot(ws, order, w);
    if IsMoved(ws, order, w) {
      UsedAfter(ws, order, OwnSlot(w));
    } else if SlotOf(w).Some? {
      if Keeps(ws, order, w) {
        SameKeeper(ws, order, w);
      } else {
        UsedAfter(ws, order, OwnSlot(w));
      }
    }
  }

  lemma RepairKeepsOrder(v: VaultV3, rank: string -> real)
    requires UniqueIds(v.wallets)
    ensures Order(Repaired(v, rank), rank) == Order(v, rank)
    ensures UniqueIds(Repaired(v, rank).wallets)
    ensures PrimaryGroup(Repaired(v, rank).wallets) == PrimaryGroup(v.wallets)
  {
    RepairIsAfter(v, rank);
    AfterKeepsIdentity(v.wallets, Order(v, rank));
    PrimaryIgnoresFiles(v.wallets, Repaired(v, rank).wallets);
  }

  lemma NoSecondMove(v: VaultV3, rank: string -> real, m: SidecarFileRepair)
    requires UniqueIds(v.wallets)
    ensures m !in Moves(Repaired(v, rank), rank)
  {
    var r := Repaired(v, rank);
    RepairIsAfter(v, rank);
    RepairKeepsOrder(v, rank);
    KeeperOrderIsPreorder(PrimaryGroup(v.wallets), rank);
    RepairsListMovedWallets(r, rank);
    if m in Moves(r, rank) {
      var e :| e in r.wallets && IsMoved(r.wallets, Order(v, rank), e) && m == RepairOf(e);
      NothingLeftToMove(v.wallets, Order(v, rank), e);
      assert false;
    }
  }

  /** Repairing twice is repairing once, also when some moves were skipped: the second pass hands
      back the same vault and reports nothing. */
  lemma RepairIdempotent(v: VaultV3, rank: string -> real)
    requires UniqueIds(v.wallets)
    ensures var r := Repaired(v, rank); Repaired(r, rank) == r && Moves(r, rank) == []
  {
    var moves := Moves(Repaired(v, rank), rank);
    if moves != [] {
      NoSecondMove(v, rank, moves[0]);
    }
  }

  // What the repair was written for.

  const MAIN := Entry("m", "Main", Bip39, "a", 0, Some("g"), None, None, None, None, None, None, None)
  const SECOND := Entry("s", "Second", Bip39, "s", 1, Some("h"), None, None, None, None, None, None, None)
  const SHARED_FIRST := Entry("x", "Monero", Xmr, "x", 5, Some("g"), None, None, None, Some(LEGACY_XMR_FILE), None,
                              None, None)
  const SHARED_SECOND := Entry("y", "Monero", Xmr, "y", 3, Some("h"), None, None, None, Some(LEGACY_XMR_FILE), None,
                               None, None)
  const SHARING := VaultV3([MAIN, SHARED_FIRST, SECOND, SHARED_SECOND], None, None, None, None, None)

  /** Two contexts on Main's Monero file: Main's wallet keeps it, though it is the younger one, and the
      other is moved to its own. */
  lemma MainKeepsTheSharedFile(rank: string -> real)
    ensures Repaired(SHARING, rank).wallets
         == [MAIN, SHARED_FIRST, SECOND, SHARED_SECOND.(sidecarFile := Some("pwnda-xmr-y"))]
  {
    var v := SHARING;
    SharedFacts(rank);
    hide PrimaryGroup, Repaired, SlotOf, OwnSlot, GoesFirst, After, UniqueIds;
    RepairMovesTheOthers(v, rank, 1, 3);
    RepairIsAfter(v, rank);
    assert After(v.wallets, Order(v, rank))(MAIN) == MAIN && After(v.wallets, Order(v, rank))(SECOND) == SECOND;
    assert Repaired(v, rank).wallets[3] == SHARED_SECOND.(sidecarFile := Some("pwnda-xmr-y"));
  }

  lemma SharedFacts(rank: string -> real)
    ensures SHARING.wallets == [MAIN, SHARED_FIRST, SECOND, SHARED_SECOND] && UniqueIds(SHARING.wallets)
    ensures SlotOf(SHARED_SECOND) == SlotOf(SHARED_FIRST) == Some(Slot(Xmr, LEGACY_XMR_FILE))
    ensures OwnSlot(SHARED_SECOND) == Slot(Xmr, "pwnda-xmr-y") && NewSidecarFile(Xmr, "y") == "pwnda-xmr-y"
    ensures forall x :: x in SHARING.wallets ==> SlotOf(x) != Some(Slot(Xmr, "pwnda-xmr-y"))
    ensures GoesFirst(SHARING, rank, SHARED_FIRST)
    ensures forall order :: After(SHARING.wallets, order)(MAIN) == MAIN
    ensures forall order :: After(SHARING.wallets, order)(SECOND) == SECOND
  {
    var ws := SHARING.wallets;
    assert ws == [MAIN, SHARED_FIRST, SECOND, SHARED_SECOND];
    assert OfKind(Bip39)(MAIN) && PrimaryGroup(ws) == Some("g");
    assert SlotOf(MAIN).None? && SlotOf(SECOND).None?;
    var own: string, legacy: string := "pwnda-xmr-y", LEGACY_XMR_FILE;
    assert own[6] == 'x' && legacy[6] == 'a';
  }
}
