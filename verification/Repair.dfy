/** The repair pass that gives every sidecar wallet a file of its own again. */
module Repair {
  import opened Wrappers
  import opened Seqs
  import opened StableSort
  import opened Vault
  import opened FileNames

  /** One entry that was moved to a file of its own. */
  datatype SidecarFileRepair = SidecarFileRepair(id: string, name: string, kind: Kind, from: string, to: string)

  /** Who keeps a shared file: the primary group's wallet, else the oldest, else the first id.
      `rank` stands for the locale's collation of ids: any order of a countable set of strings
      is the order of some ranks. */
  predicate KeeperLe(primary: Option<string>, rank: string -> real, a: Entry, b: Entry) {
    var ap, bp := Some(a.GroupKey()) == primary, Some(b.GroupKey()) == primary;
    if ap != bp then ap
    else if a.createdAt != b.createdAt then a.createdAt < b.createdAt
    else rank(a.id) <= rank(b.id)
  }

  function KeeperOrder(primary: Option<string>, rank: string -> real): (Entry, Entry) -> bool {
    (a, b) => KeeperLe(primary, rank, a, b)
  }

  lemma KeeperOrderIsPreorder(primary: Option<string>, rank: string -> real)
    ensures TotalPreorder(KeeperOrder(primary, rank))
  {
  }

  /** The slots in order of first occurrence, as a `Map` keeps them. */
  function Slots(ws: seq<Entry>): seq<Slot> {
    if ws == [] then [] else
      var front, slot := Slots(ws[..|ws| - 1]), SlotOf(ws[|ws| - 1]);
      if slot.None? || slot.value in front then front else front + [slot.value]
  }

  function InSlot(slot: Slot): Entry -> bool {
    (w: Entry) => SlotOf(w) == Some(slot)
  }

  /** The wallets on one file, in keeper order. */
  function Ranked(ws: seq<Entry>, order: (Entry, Entry) -> bool, slot: Slot): seq<Entry> {
    Sort(order, Filter(InSlot(slot), ws))
  }

  /** The wallets that lose a shared file. */
  function Losers(ws: seq<Entry>, order: (Entry, Entry) -> bool, slot: Slot): seq<Entry> {
    var sorted := Ranked(ws, order, slot);
    if |sorted| < 2 then [] else sorted[1..]
  }

  function AllLosers(ws: seq<Entry>, order: (Entry, Entry) -> bool, slots: seq<Slot>): seq<Entry> {
    if slots == [] then []
    else AllLosers(ws, order, slots[..|slots| - 1]) + Losers(ws, order, slots[|slots| - 1])
  }

  function RepairOf(w: Entry): SidecarFileRepair
    requires w.kind.HasFile()
  {
    SidecarFileRepair(w.id, w.name, w.kind, w.File().value, NewSidecarFile(w.kind, w.id))
  }

  /** The state of the moving loop: the slots in use, and the moves so far. */
  datatype Moving = Moving(used: set<Slot>, moves: seq<SidecarFileRepair>) {
    function Move(w: Entry): Moving
      requires w.kind.HasFile()
    {
      if OwnSlot(w) in used then this else Moving(used + {OwnSlot(w)}, moves + [RepairOf(w)])
    }
  }

  function MoveAll(used: set<Slot>, losers: seq<Entry>): Moving
    requires forall w :: w in losers ==> w.kind.HasFile()
  {
    if losers == [] then Moving(used, [])
    else MoveAll(used, losers[..|losers| - 1]).Move(losers[|losers| - 1])
  }

  function Destinations(moves: seq<SidecarFileRepair>): map<string, string> {
    if moves == [] then map[]
    else Destinations(moves[..|moves| - 1])[moves[|moves| - 1].id := moves[|moves| - 1].to]
  }

  function Apply(moveTo: map<string, string>): Entry -> Entry {
    (w: Entry) => if w.id in moveTo then w.(sidecarFile := Some(moveTo[w.id])) else w
  }

  function Moves(v: VaultV3, rank: string -> real): seq<SidecarFileRepair> {
    var order := KeeperOrder(PrimaryGroup(v.wallets), rank);
    LosersHaveFiles(v.wallets, order, Slots(v.wallets));
    MoveAll(Used(v.wallets), AllLosers(v.wallets, order, Slots(v.wallets))).moves
  }

  function Repaired(v: VaultV3, rank: string -> real): VaultV3 {
    if Moves(v, rank) == [] then v else v.(wallets := Map(Apply(Destinations(Moves(v, rank))), v.wallets))
  }

  lemma LosersShareTheSlot(ws: seq<Entry>, order: (Entry, Entry) -> bool, slot: Slot)
    ensures forall w :: w in Losers(ws, order, slot) ==> w in ws && SlotOf(w) == Some(slot)
  {
    SortPermutes(order, Filter(InSlot(slot), ws));
    forall w | w in Losers(ws, order, slot) ensures w in ws && SlotOf(w) == Some(slot) {
      assert w in Ranked(ws, order, slot);
      assert InSlot(slot)(w);
    }
  }

  lemma {:induction false} LosersHaveFiles(ws: seq<Entry>, order: (Entry, Entry) -> bool, slots: seq<Slot>)
    ensures forall w :: w in AllLosers(ws, order, slots) ==> w in ws && w.kind.HasFile()
  {
    if slots != [] {
      LosersHaveFiles(ws, order, slots[..|slots| - 1]);
      LosersShareTheSlot(ws, order, slots[|slots| - 1]);
    }
  }

  // The loops.

  ghost predicate Collected(slots: seq<Slot>, sharing: map<Slot, seq<Entry>>, ws: seq<Entry>) {
    && slots == Slots(ws)
    && (forall s :: s in sharing <==> s in slots)
    && (forall s :: s in sharing ==> sharing[s] == Filter(InSlot(s), ws))
  }

  lemma {:induction false} SlotsAreUsed(ws: seq<Entry>)
    ensures forall s :: s in Slots(ws) <==> s in Used(ws)
  {
    if ws != [] {
      var front, w := ws[..|ws| - 1], ws[|ws| - 1];
      SlotsAreUsed(front);
      assert ws == front + [w];
      assert forall x :: x in ws <==> x in front || x == w;
    }
  }

  lemma NoSlotNoWallet(ws: seq<Entry>, slot: Slot)
    requires slot !in Slots(ws)
    ensures Filter(InSlot(slot), ws) == []
  {
    SlotsAreUsed(ws);
    FilterNone(InSlot(slot), ws);
  }

  lemma CollectStep(slots: seq<Slot>, sharing: map<Slot, seq<Entry>>, ws: seq<Entry>, w: Entry)
    requires Collected(slots, sharing, ws)
    ensures SlotOf(w).None? ==> Collected(slots, sharing, ws + [w])
    ensures SlotOf(w).Some? ==>
              var s := SlotOf(w).value;
              if s in sharing then Collected(slots, sharing[s := sharing[s] + [w]], ws + [w])
              else Collected(slots + [s], sharing[s := [w]], ws + [w])
  {
    hide Filter, Slots, SlotOf;
    SlotsSnoc(ws, w);
    forall s ensures Filter(InSlot(s), ws + [w]) == Filter(InSlot(s), ws) + (if SlotOf(w) == Some(s) then [w] else []) {
      FilterSnoc(InSlot(s), ws, w);
    }
    if SlotOf(w).None? {
      assert forall s :: Filter(InSlot(s), ws) + [] == Filter(InSlot(s), ws);
    } else if SlotOf(w).value !in slots {
      NoSlotNoWallet(ws, SlotOf(w).value);
    }
  }

  lemma SlotsSnoc(ws: seq<Entry>, w: Entry)
    ensures Slots(ws + [w])
         == if SlotOf(w).None? || SlotOf(w).value in Slots(ws) then Slots(ws) else Slots(ws) + [SlotOf(w).value]
  {
    assert (ws + [w])[..|ws|] == ws;
  }

  method CollectSlots(ws: seq<Entry>) returns (slots: seq<Slot>, sharing: map<Slot, seq<Entry>>, used: set<Slot>)
    ensures Collected(slots, sharing, ws) && used == Used(ws)
  {
    slots, sharing, used := [], map[], {};
    for i := 0 to |ws|
      invariant Collected(slots, sharing, ws[..i])
      invariant used == Used(ws[..i])
    {
      var w := ws[i];
      CollectStep(slots, sharing, ws[..i], w);
      UsedSnoc(ws[..i], w);
      assert ws[..i + 1] == ws[..i] + [w];
      if SlotOf(w).Some? {
        var slot := SlotOf(w).value;
        used := used + {slot};
        if slot in sharing {
          sharing := sharing[slot := sharing[slot] + [w]];
        } else {
          slots, sharing := slots + [slot], sharing[slot := [w]];
        }
      }
    }
    assert ws[..|ws|] == ws;
  }

  lemma UsedSnoc(ws: seq<Entry>, w: Entry)
    ensures Used(ws + [w]) == Used(ws) + (if SlotOf(w).Some? then {SlotOf(w).value} else {})
  {
  }

  lemma MoveAllSnoc(used: set<Slot>, losers: seq<Entry>, w: Entry)
    requires forall x :: x in losers ==> x.kind.HasFile()
    requires w.kind.HasFile()
    ensures MoveAll(used, losers + [w]) == MoveAll(used, losers).Move(w)
  {
    assert (losers + [w])[..|losers|] == losers;
  }

  /** Moves the losers of one file. */
  method MoveLosers(state: Moving, losers: seq<Entry>, ghost used: set<Slot>, ghost before: seq<Entry>)
    returns (next: Moving)
    requires forall w :: w in before + losers ==> w.kind.HasFile()
    requires state == MoveAll(used, before)
    ensures next == MoveAll(used, before + losers)
  {
    next := state;
    assert before + losers[..0] == before;
    for j := 0 to |losers|
      invariant next == MoveAll(used, before + losers[..j])
    {
      var w := losers[j];
      assert w in before + losers;
      MoveAllSnoc(used, before + losers[..j], w);
      assert before + losers[..j + 1] == before + losers[..j] + [w];
      if OwnSlot(w) !in next.used {
        next := Moving(next.used + {OwnSlot(w)}, next.moves + [RepairOf(w)]);
      }
    }
    assert losers[..|losers|] == losers;
  }

  lemma AllLosersSnoc(ws: seq<Entry>, order: (Entry, Entry) -> bool, slots: seq<Slot>, i: nat)
    requires i < |slots|
    ensures AllLosers(ws, order, slots[..i + 1]) == AllLosers(ws, order, slots[..i]) + Losers(ws, order, slots[i])
  {
    assert slots[..i + 1][..i] == slots[..i];
  }

  /** The source's loop over the sharing lists: all but the first in keeper order move. */
  method MoveShared(ws: seq<Entry>, order: (Entry, Entry) -> bool, slots: seq<Slot>, sharing: map<Slot, seq<Entry>>,
                    used: set<Slot>) returns (state: Moving)
    requires Collected(slots, sharing, ws)
    ensures forall w :: w in AllLosers(ws, order, slots) ==> w.kind.HasFile()
    ensures state == MoveAll(used, AllLosers(ws, order, slots))
  {
    state := Moving(used, []);
    LosersHaveFiles(ws, order, slots);
    for i := 0 to |slots|
      invariant forall w :: w in AllLosers(ws, order, slots[..i]) ==> w.kind.HasFile()
      invariant state == MoveAll(used, AllLosers(ws, order, slots[..i]))
    {
      ghost var before := AllLosers(ws, order, slots[..i]);
      LosersHaveFiles(ws, order, slots[..i + 1]);
      AllLosersSnoc(ws, order, slots, i);
      var sorted := Sort(order, sharing[slots[i]]);
      var losers := if |sorted| < 2 then [] else sorted[1..];
      assert losers == Losers(ws, order, slots[i]);
      state := MoveLosers(state, losers, used, before);
    }
    assert slots[..|slots|] == slots;
  }

  method RepairSharedSidecarFiles(v: VaultV3, rank: string -> real)
    returns (v': VaultV3, repairs: seq<SidecarFileRepair>)
    ensures v' == Repaired(v, rank) && repairs == Moves(v, rank)
  {
    var order := KeeperOrder(PrimaryGroup(v.wallets), rank);
    var slots, sharing, used := CollectSlots(v.wallets);
    var state := MoveShared(v.wallets, order, slots, sharing, used);
    repairs := state.moves;
    v' := v;
    if repairs != [] {
      v' := v.(wallets := Map(Apply(Destinations(repairs)), v.wallets));
    }
  }
}
