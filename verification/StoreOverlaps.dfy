/** What overlapping calls do to each other's seeds: every save writes what it has made of the vault
    it read, so a save that read before another one wrote takes that one's seeds back. */
module StoreOverlaps {
  import opened Wrappers
  import opened Seqs
  import opened Vault
  import opened Contexts
  import opened FlatShape
  import opened Seeds
  import LegacyZano
  import opened Store
  import opened StoreInterleaving

  // Two saves that have both read before either writes.

  function BothRead(d: Disk, a: Call, b: Call, raw: RawVault): World {
    World([d], [HasRead(a, raw), HasRead(b, raw)])
  }

  const IN_TURN: seq<Event> := [Proceed(0), Proceed(1), Proceed(0), Proceed(1)]

  function Merged(call: Call, raw: RawVault): VaultV3
    requires call.SaveFlat?
  {
    MergeFlatIntoV3(call.payload, Some(raw.vault), call.active, call.now, call.ids)
  }

  function SavedBy(d: Disk, call: Call, raw: RawVault): Disk
    requires call.SaveFlat?
  {
    Written(d, Merged(call, raw), call.password, call.salt)
  }

  /** The store ends on the second save alone, merged into the vault from before the first. */
  lemma SecondSaveWins(d: Disk, a: Call, b: Call, raw: RawVault)
    requires a.SaveFlat? && b.SaveFlat? && raw.onDiskVersion >= 3
    ensures Run(BothRead(d, a, b, raw), IN_TURN).history == [d, d, d, SavedBy(d, a, raw), SavedBy(d, b, raw)]
  {
    hide MergeFlatIntoV3;
    var ra := ReadyToWrite(Merged(a, raw), a.password, a.salt);
    var rb := ReadyToWrite(Merged(b, raw), b.password, b.salt);
    var w0 := BothRead(d, a, b, raw);
    var w1 := World([d, d], [ra, HasRead(b, raw)]);
    var w2 := World([d, d, d], [ra, rb]);
    var w3 := World([d, d, d, SavedBy(d, a, raw)], [Finished, rb]);
    var w4 := World([d, d, d, SavedBy(d, a, raw), SavedBy(d, b, raw)], [Finished, Finished]);
    assert Next(w0, Proceed(0)) == w1;
    assert Next(w1, Proceed(1)) == w2;
    assert Next(w2, Proceed(0)) == w3;
    assert Next(w3, Proceed(1)) == w4;
    hide Next;
    RunCons(w0, Proceed(0), [Proceed(1), Proceed(0), Proceed(1)]);
    RunCons(w1, Proceed(1), [Proceed(0), Proceed(1)]);
    RunCons(w2, Proceed(0), [Proceed(1)]);
    RunCons(w3, Proceed(1), []);
  }

  /** So a seed that the first save brought in is on file after it and, after the second, exactly
      when the second save's payload names it too. */
  lemma FirstSaveIsTakenBack(d: Disk, a: Call, b: Call, raw: RawVault, s: SeedKey)
    requires a.SaveFlat? && b.SaveFlat?
    requires s.words != "" && s !in Held(raw.vault.wallets) && InPayload(a.payload, s)
    ensures s in Held(Merged(a, raw).wallets)
    ensures s in Held(Merged(b, raw).wallets) <==> InPayload(b.payload, s)
  {
    hide MergeFlatIntoV3, Held, FlatKey;
    PayloadSeedIsSaved(a, raw, s);
    if InPayload(b.payload, s) {
      PayloadSeedIsSaved(b, raw, s);
    } else {
      LegacyZano.NotMerged(raw.vault, b.payload, b.active, b.now, b.ids, s);
    }
  }

  lemma PayloadSeedIsSaved(call: Call, raw: RawVault, s: SeedKey)
    requires call.SaveFlat? && s.words != "" && InPayload(call.payload, s)
    ensures s in Held(Merged(call, raw).wallets)
  {
    hide MergeFlatIntoV3, Held, FlatKey;
    var k: Kind :| k.Flat() && FlatKey(call.payload, k) == s;
    LegacyZano.FlatSeedIsHeld(raw.vault, call.payload, k, call.active, call.now, call.ids);
  }

  // Runs in which nobody writes what it read before.

  /** The wallet on file opens under the password and holds the seeds. */
  ghost predicate HoldsSeeds(d: Disk, password: string, seeds: set<SeedKey>) {
    && d.wallet.Some? && d.wallet.value.password == password
    && d.wallet.value.text.V3Doc? && seeds <= Held(d.wallet.value.text.vault.wallets)
  }

  /** A call may begin: it deletes nothing, it uses the vault's password, and a vault saved directly
      holds the seeds. */
  ghost predicate MayBegin(call: Call, password: string, seeds: set<SeedKey>) {
    match call
    case Load(p, _, _, _) => p == password
    case SaveFlat(_, p, _, _, _, _) => p == password
    case SaveV3(vault, p, _) => p == password && seeds <= Held(vault.wallets)
    case Delete => false
  }

  /** The payload of a flat save goes with the vault the save has read: it is guarded, and strands no
      seed of that vault. */
  ghost predicate GoesWith(call: Call, vault: VaultV3) {
    call.SaveFlat? ==>
      && UniqueIds(vault.wallets)
      && (exists replaced :: GuardedSave(ProjectV3ToV2(vault, call.active), call.payload, replaced))
      && NothingStranded(vault, TargetOf(Some(vault), call.active, call.now, call.ids).group, call.payload, {})
  }

  /** What the call has in hand holds the seeds. */
  ghost predicate TaskHolds(t: Task, password: string, seeds: set<SeedKey>) {
    match t
    case Started(call) => MayBegin(call, password, seeds)
    case HasRead(call, raw) => InHand(call, raw, password, seeds)
    case FoundNoBackup(call, raw) => InHand(call, raw, password, seeds)
    case ReadyToWrite(vault, p, _) => p == password && seeds <= Held(vault.wallets)
    case Finished => true
  }

  ghost predicate InHand(call: Call, raw: RawVault, password: string, seeds: set<SeedKey>) {
    && (call.Load? || call.SaveFlat?) && call.password == password
    && seeds <= Held(raw.vault.wallets) && GoesWith(call, raw.vault)
  }

  /** The tasks in `stale` read before the seeds were there: they may go on, but not write. */
  ghost predicate WorldHolds(w: World, from: nat, stale: set<nat>, password: string, seeds: set<SeedKey>) {
    && from < |w.history|
    && (forall i :: from <= i < |w.history| ==> HoldsSeeds(w.history[i], password, seeds))
    && (forall i :: 0 <= i < |w.tasks| && i !in stale ==> TaskHolds(w.tasks[i], password, seeds))
    && (forall i :: i in stale ==> i < |w.tasks|)
  }

  /** No stale call writes, a call that reads goes with what it reads, and a crash loses nothing that
      was flushed. */
  ghost predicate InOrder(w: World, e: Event, from: nat, stale: set<nat>, password: string, seeds: set<SeedKey>) {
    match e
    case Begin(call) => MayBegin(call, password, seeds)
    case Proceed(i) =>
      && i < |w.tasks| && w.history != []
      && (i in stale ==> !w.tasks[i].ReadyToWrite?)
      && (w.tasks[i].Started? && w.history[|w.history| - 1].wallet.Some?
          && w.history[|w.history| - 1].wallet.value.text.V3Doc?
          ==> GoesWith(w.tasks[i].call, w.history[|w.history| - 1].wallet.value.text.vault))
    case Crash(k) => from <= k < |w.history|
  }

  function StaleAfter(e: Event, stale: set<nat>): set<nat> {
    if e.Crash? then {} else stale
  }

  ghost predicate AllInOrder(w: World, es: seq<Event>, from: nat, stale: set<nat>, password: string,
      seeds: set<SeedKey>)
    decreases |es|
  {
    es == [] || (InOrder(w, es[0], from, stale, password, seeds)
                 && AllInOrder(Next(w, es[0]), es[1..], from, StaleAfter(es[0], stale), password, seeds))
  }

  /** A flat save that goes with a vault keeps what the vault holds. */
  lemma MergeHolds(call: Call, vault: VaultV3, seeds: set<SeedKey>)
    requires call.SaveFlat? && seeds <= Held(vault.wallets) && GoesWith(call, vault)
    ensures seeds <= Held(MergeFlatIntoV3(call.payload, Some(vault), call.active, call.now, call.ids).wallets)
  {
    hide Held, GuardedSave, NothingStranded, MergeFlatIntoV3, UniqueIds;
    var replaced :| GuardedSave(ProjectV3ToV2(vault, call.active), call.payload, replaced);
    SeedsKeptExactly(vault, call.payload, replaced, call.active, call.now, call.ids);
  }

  lemma ToWriteHolds(call: Call, raw: RawVault, password: string, seeds: set<SeedKey>)
    requires InHand(call, raw, password, seeds)
    ensures TaskHolds(ToWrite(call, raw), password, seeds)
  {
    hide Held, GoesWith, MergeFlatIntoV3;
    if call.SaveFlat? {
      MergeHolds(call, raw.vault, seeds);
    }
  }

  /** One operation of a call that is not stale. */
  lemma AdvanceHolds(d: Disk, t: Task, password: string, seeds: set<SeedKey>)
    requires HoldsSeeds(d, password, seeds) && TaskHolds(t, password, seeds)
    requires t.Started? ==> GoesWith(t.call, d.wallet.value.text.vault)
    ensures HoldsSeeds(Advance(d, t).0, password, seeds) && TaskHolds(Advance(d, t).1, password, seeds)
  {
    hide Held, GoesWith, MergeFlatIntoV3, ToWrite;
    match t
    case HasRead(call, raw) => ToWriteHolds(call, raw, password, seeds);
    case FoundNoBackup(call, raw) => ToWriteHolds(call, raw, password, seeds);
    case _ =>
  }

  /** One operation of a stale call that does not write. */
  lemma StaleAdvanceHolds(d: Disk, t: Task, password: string, seeds: set<SeedKey>)
    requires HoldsSeeds(d, password, seeds) && !t.ReadyToWrite?
    ensures HoldsSeeds(Advance(d, t).0, password, seeds)
  {
    hide Held, MergeFlatIntoV3, ToWrite;
  }

  lemma EventHolds(w: World, e: Event, from: nat, stale: set<nat>, password: string, seeds: set<SeedKey>)
    requires WorldHolds(w, from, stale, password, seeds) && InOrder(w, e, from, stale, password, seeds)
    ensures WorldHolds(Next(w, e), from, StaleAfter(e, stale), password, seeds)
  {
    hide HoldsSeeds, TaskHolds, Advance, GoesWith, MayBegin;
    var d := w.history[|w.history| - 1];
    match e
    case Begin(call) => StartedHolds(call, password, seeds);
    case Proceed(i) =>
      OnFile(d, password, seeds);
      if i in stale {
        StaleAdvanceHolds(d, w.tasks[i], password, seeds);
      } else {
        AdvanceHolds(d, w.tasks[i], password, seeds);
      }
    case Crash(k) =>
  }

  lemma StartedHolds(call: Call, password: string, seeds: set<SeedKey>)
    requires MayBegin(call, password, seeds)
    ensures TaskHolds(Started(call), password, seeds)
  {
  }

  lemma OnFile(d: Disk, password: string, seeds: set<SeedKey>)
    requires HoldsSeeds(d, password, seeds)
    ensures d.wallet.Some? && d.wallet.value.text.V3Doc?
  {
  }

  /** A completed save's seeds stay on file in every overlapping run, crashes included, in which no
      call that read before the save writes after it, and every later save goes with the vault it
      reads. */
  lemma {:induction false} CompletedSaveStays(w: World, es: seq<Event>, from: nat, stale: set<nat>, password: string,
                                              seeds: set<SeedKey>)
    requires WorldHolds(w, from, stale, password, seeds) && AllInOrder(w, es, from, stale, password, seeds)
    ensures var end := Run(w, es);
            from < |end.history| && forall i :: from <= i < |end.history| ==>
                HoldsSeeds(end.history[i], password, seeds)
    decreases |es|
  {
    hide HoldsSeeds, TaskHolds, InOrder;
    if es != [] {
      EventHolds(w, es[0], from, stale, password, seeds);
      CompletedSaveStays(Next(w, es[0]), es[1..], from, StaleAfter(es[0], stale), password, seeds);
    }
  }

  /** Of the calls in flight beside `i`, those outside `stale` have finished or not yet read. */
  ghost predicate ReadBefore(w: World, i: nat, stale: set<nat>, password: string, seeds: set<SeedKey>) {
    && (forall j :: j in stale ==> j < |w.tasks| && j != i)
    && (forall j :: 0 <= j < |w.tasks| && j != i && j !in stale
          ==> w.tasks[j].Finished? || (w.tasks[j].Started? && MayBegin(w.tasks[j].call, password, seeds)))
  }

  /** The write of a save is a moment from which its seeds are on file. */
  lemma SaveIsCompleted(w: World, i: nat, stale: set<nat>)
    requires i < |w.tasks| && w.tasks[i].ReadyToWrite? && w.history != []
    requires ReadBefore(w, i, stale, w.tasks[i].password, Held(w.tasks[i].vault.wallets))
    ensures var after, t := Next(w, Proceed(i)), w.tasks[i];
            WorldHolds(after, |after.history| - 1, stale, t.password, Held(t.vault.wallets))
  {
    hide Held, MayBegin;
  }

  /** From the write of a save on, its seeds stay on file in every such run, where the calls that had
      read before it do not write. */
  lemma WrittenSeedsStay(w: World, i: nat, stale: set<nat>, es: seq<Event>)
    requires i < |w.tasks| && w.tasks[i].ReadyToWrite? && w.history != []
    requires ReadBefore(w, i, stale, w.tasks[i].password, Held(w.tasks[i].vault.wallets))
    requires AllInOrder(Next(w, Proceed(i)), es, |w.history|, stale, w.tasks[i].password,
        Held(w.tasks[i].vault.wallets))
    ensures var end, t := Run(Next(w, Proceed(i)), es), w.tasks[i];
            && |w.history| < |end.history|
            && forall k :: |w.history| <= k < |end.history| ==>
                 HoldsSeeds(end.history[k], t.password, Held(t.vault.wallets))
  {
    var after, t := Next(w, Proceed(i)), w.tasks[i];
    SaveIsCompleted(w, i, stale);
    hide Held, HoldsSeeds, TaskHolds, InOrder, AllInOrder, ReadBefore;
    CompletedSaveStays(after, es, |w.history|, stale, t.password, Held(t.vault.wallets));
  }
}
