/** Migration safety: over every run of calls with crashes anywhere, the ciphertext from before the
    migration stays on file. */
module StoreSafety {
  import opened Wrappers
  import opened Vault
  import opened FlatShape
  import opened Store

  /** A run of the app: what the store holds, and whether this process has loaded the vault. */
  datatype Session = Session(disk: Disk, loaded: bool)

  /** One call, and where it crashed: at a flush point of the call, counting the content before it
      as the first. Every call that changes a key ends in an explicit flush, so between calls the
      file holds what memory holds. */
  datatype Event = Event(call: Call, crashAt: Option<nat>)

  function AllPoints(d: Disk, call: Call): seq<Disk> {
    [d] + Points(d, call)
  }

  function Next(s: Session, e: Event): Session {
    var points := AllPoints(s.disk, e.call);
    if e.crashAt.Some? && e.crashAt.value < |points| then Session(points[e.crashAt.value], false)
    else Session(Final(s.disk, e.call), s.loaded || Loads(s.disk, e.call))
  }

  predicate Loads(d: Disk, call: Call) {
    call.Load? && ReadRaw(d, call.password, call.now, call.ids).Ok?
  }

  /** A call on the object, up to where it crashes: what the file then holds is what it restarts
      with. */
  method Happen(store: VaultStore, e: Event)
    requires store.Now() in store.flushPoints
    modifies store
    ensures store.Now() == Next(Session(old(store.Now()), false), e).disk && store.Now() in store.flushPoints
  {
    hide Points, Final;
    ghost var before, flushed := store.Now(), store.flushPoints;
    var points := AllPoints(store.Now(), e.call);
    match e.call {
      case Load(password, now, ids, salt) =>
        var r := store.LoadVaultV3(password, now, ids, salt);
      case SaveFlat(payload, password, active, now, ids, salt) =>
        store.SaveVault(payload, password, active, now, ids, salt);
      case SaveV3(vault, password, salt) =>
        store.SaveVaultV3(vault, password, salt);
      case Delete =>
        store.DeleteWallet();
    }
    assert store.flushPoints == flushed + Points(before, e.call) && store.Now() == Final(before, e.call);
    EndsAtAPoint(before, e.call);
    if e.crashAt.Some? && e.crashAt.value < |points| {
      assert points[e.crashAt.value] in points;
      store.CrashAndRestart(points[e.crashAt.value]);
    }
  }

  lemma EndsAtAPoint(d: Disk, call: Call)
    ensures Final(d, call) in AllPoints(d, call)
  {
  }

  function RunAll(s: Session, events: seq<Event>): Session
    decreases |events|
  {
    if events == [] then s else RunAll(Next(s, events[0]), events[1..])
  }

  /** A run ends on one of the contents the laws speak of. */
  lemma {:induction false} EndIsReachable(s: Session, events: seq<Event>)
    ensures RunAll(s, events).disk in Reachable(s, events)
    decreases |events|
  {
    if events != [] {
      EndIsReachable(Next(s, events[0]), events[1..]);
    }
  }

  lemma LoadedDoesNotWrite(s: Session, e: Event)
    ensures Next(s, e).disk == Next(Session(s.disk, false), e).disk
  {
  }

  /** A whole run on the object: what it holds is what the run of the laws ends on. */
  method Replay(onFile: Disk, events: seq<Event>) returns (store: VaultStore)
    ensures store.Now() == RunAll(Session(onFile, false), events).disk
    ensures store.Now() in Reachable(Session(onFile, false), events)
  {
    store := new VaultStore(onFile);
    ghost var s := Session(onFile, false);
    assert events[0..] == events;
    for i := 0 to |events|
      invariant fresh(store) && store.Now() == s.disk && store.Now() in store.flushPoints
      invariant RunAll(s, events[i..]) == RunAll(Session(onFile, false), events)
    {
      assert events[i..][0] == events[i] && events[i..][1..] == events[i + 1..];
      LoadedDoesNotWrite(s, events[i]);
      Happen(store, events[i]);
      s := Next(s, events[i]);
    }
    assert events[|events|..] == [];
    EndIsReachable(Session(onFile, false), events);
  }

  /** Every call uses the vault's password, nothing deletes the wallet, and the whole vault is saved
      directly only after a load. */
  predicate Disciplined(s: Session, call: Call, password: string) {
    match call
    case Load(p, _, _, _) => p == password
    case SaveFlat(_, p, _, _, _, _) => p == password
    case SaveV3(_, p, _) => p == password && s.loaded
    case Delete => false
  }

  predicate AllDisciplined(s: Session, events: seq<Event>, password: string)
    decreases |events|
  {
    events == [] || (Disciplined(s, events[0].call, password)
        && AllDisciplined(Next(s, events[0]), events[1..], password))
  }

  /** Every content the file may hold at some moment of the run. */
  function Reachable(s: Session, events: seq<Event>): seq<Disk>
    decreases |events|
  {
    if events == [] then [s.disk]
    else AllPoints(s.disk, events[0].call) + Reachable(Next(s, events[0]), events[1..])
  }

  /** Every vault the run has written. */
  function WrittenIn(s: Session, events: seq<Event>): set<VaultV3>
    decreases |events|
  {
    if events == [] then {} else
      (if Writes(s.disk, events[0].call).Some? then {Writes(s.disk, events[0].call).value} else {})
      + WrittenIn(Next(s, events[0]), events[1..])
  }

  /** The pre-migration ciphertext is still on file, under one key or the other; the backup is that
      ciphertext or not written yet; and the wallet opens under the password, to the original or to
      a vault from `written`. */
  ghost predicate Safe(d: Disk, original: Blob, written: set<VaultV3>) {
    && (d.wallet == Some(original) || d.backup == Some(original))
    && (d.backup.None? || d.backup == Some(original))
    && d.wallet.Some? && d.wallet.value.password == original.password
    && (d.wallet.value == original || (d.wallet.value.text.V3Doc? && d.wallet.value.text.vault in written))
  }

  predicate LoadedIsMigrated(s: Session) {
    s.loaded ==> s.disk.wallet.Some? && s.disk.wallet.value.text.V3Doc?
  }

  /** Backing up and then writing is safe at every point. */
  lemma WritingIsSafe(d: Disk, raw: RawVault, vault: VaultV3, salt: nat, original: Blob, written: set<VaultV3>)
    requires original.text.Version() < 3 && Safe(d, original, written) && vault in written
    requires d.wallet == Some(raw.encrypted) && raw.onDiskVersion == raw.encrypted.text.Version()
    ensures Safe(BackedUp(d, raw), original, written)
    ensures Safe(Written(BackedUp(d, raw), vault, original.password, salt), original, written)
  {
  }

  lemma CallIsSafe(s: Session, call: Call, original: Blob, written: set<VaultV3>)
    requires original.text.Version() < 3
    requires Safe(s.disk, original, written) && LoadedIsMigrated(s) && Disciplined(s, call, original.password)
    requires Writes(s.disk, call).Some? ==> Writes(s.disk, call).value in written
    ensures forall d :: d in AllPoints(s.disk, call) ==> Safe(d, original, written)
  {
    if call.Load? || call.SaveFlat? {
      var raw := ReadRaw(s.disk, call.password, call.now, call.ids);
      if Writes(s.disk, call).Some? {
        WritingIsSafe(s.disk, raw.value, Writes(s.disk, call).value, call.salt, original, written);
      }
    }
  }

  /** After a load, and from then on until a crash, the wallet on file is a migrated one. */
  lemma LoadedStaysMigrated(s: Session, call: Call, original: Blob, written: set<VaultV3>)
    requires Safe(s.disk, original, written) && LoadedIsMigrated(s) && Disciplined(s, call, original.password)
    ensures LoadedIsMigrated(Session(Final(s.disk, call), s.loaded || Loads(s.disk, call)))
  {
  }

  lemma WeakerSafe(d: Disk, original: Blob, some: set<VaultV3>, more: set<VaultV3>)
    requires Safe(d, original, some) && some <= more
    ensures Safe(d, original, more)
  {
  }

  lemma {:induction false} RunIsSafe(s: Session, events: seq<Event>, original: Blob, written: set<VaultV3>)
    requires original.text.Version() < 3
    requires Safe(s.disk, original, written) && LoadedIsMigrated(s) && AllDisciplined(s, events, original.password)
    ensures forall d :: d in Reachable(s, events) ==> Safe(d, original, written + WrittenIn(s, events))
    decreases |events|
  {
    if events != [] {
      var e, rest := events[0], events[1..];
      var w := Writes(s.disk, e.call);
      var more := written + (if w.Some? then {w.value} else {});
      var s' := Next(s, e);
      WeakerSafe(s.disk, original, written, more);
      CallIsSafe(s, e.call, original, more);
      LoadedStaysMigrated(s, e.call, original, more);
      assert s'.disk in AllPoints(s.disk, e.call);
      RunIsSafe(s', rest, original, more);
      assert more + WrittenIn(s', rest) == written + WrittenIn(s, events);
      forall d | d in AllPoints(s.disk, e.call) ensures Safe(d, original, written + WrittenIn(s, events)) {
        WeakerSafe(d, original, more, written + WrittenIn(s, events));
      }
    }
  }

  /** From the first start on an unmigrated vault, at every possible flush point of every run the
      wallet key or the backup key still holds the original ciphertext. */
  lemma MigrationNeverLosesTheOriginal(original: Blob, events: seq<Event>)
    requires original.text.Version() < 3
    requires AllDisciplined(Session(Disk(Some(original), None), false), events, original.password)
    ensures forall d :: d in Reachable(Session(Disk(Some(original), None), false), events) ==>
              Safe(d, original, WrittenIn(Session(Disk(Some(original), None), false), events))
  {
    var s := Session(Disk(Some(original), None), false);
    RunIsSafe(s, events, original, {});
    assert {} + WrittenIn(s, events) == WrittenIn(s, events);
  }

  lemma CallKeepsBackup(s: Session, call: Call, password: string)
    requires Disciplined(s, call, password) && s.disk.backup.Some?
    ensures forall d :: d in AllPoints(s.disk, call) ==> d.backup == s.disk.backup
  {
  }

  /** Once the backup is on file, no run changes it: it is the same at every flush point, whatever
      calls follow and wherever they crash. */
  lemma {:induction false} BackupIsWrittenOnce(s: Session, events: seq<Event>, password: string)
    requires AllDisciplined(s, events, password) && s.disk.backup.Some?
    ensures forall d :: d in Reachable(s, events) ==> d.backup == s.disk.backup
    decreases |events|
  {
    if events != [] {
      var e := events[0];
      CallKeepsBackup(s, e.call, password);
      assert Next(s, e).disk in AllPoints(s.disk, e.call);
      BackupIsWrittenOnce(Next(s, e), events[1..], password);
    }
  }

  /** A load that came through leaves the vault it returned on file: loading again, whatever clock
      and ids it draws, returns the same vault and writes nothing. */
  lemma LoadIsStable(d: Disk, password: string, now: int, ids: FreshIds, salt: nat, now': int, ids': FreshIds,
                     salt': nat)
    requires ReadRaw(d, password, now, ids).Ok?
    ensures var after := Final(d, Load(password, now, ids, salt));
            && ReadRaw(after, password, now', ids').Ok?
            && ReadRaw(after, password, now', ids').value.vault == ReadRaw(d, password, now, ids).value.vault
            && Points(after, Load(password, now', ids', salt')) == []
  {
  }

  /** The password matters: a flat save keeps an unmigrated vault's ciphertext exactly when it uses
      the vault's password, or the backup was there already. A read that fails is taken for an
      empty vault, so the save overwrites the wallet without a backup. */
  lemma SaveKeepsOriginalExactly(original: Blob, backup: Option<Blob>, payload: Payload, password: string,
                                 active: Option<string>, now: int, ids: FreshIds, salt: nat)
    requires original.text.Version() < 3 && (backup.None? || backup == Some(original))
    ensures var after := Final(Disk(Some(original), backup), SaveFlat(payload, password, active, now, ids, salt));
            (after.wallet == Some(original) || after.backup == Some(original)
             <==> password == original.password || backup == Some(original))
  {
  }
}
