/** The same safety when calls overlap: every store operation is awaited, so calls interleave at
    each of them, and the check for a backup and its writing are two operations. */
module StoreInterleaving {
  import opened Wrappers
  import opened Vault
  import opened FlatShape
  import opened Store

  /** Where a call stands between two awaited store operations. */
  datatype Task =
    | Started(call: Call)
    | HasRead(call: Call, raw: RawVault)
    | FoundNoBackup(call: Call, raw: RawVault)
    | ReadyToWrite(vault: VaultV3, password: string, salt: nat)
    | Finished

  /** The contents the file may have held, the current one last, and the calls in flight. */
  datatype World = World(history: seq<Disk>, tasks: seq<Task>)

  datatype Event = Begin(call: Call) | Proceed(task: nat) | Crash(point: nat)

  /** What a call writes once it has read the vault; only loads and flat saves read it. */
  function ToWrite(call: Call, raw: RawVault): Task {
    match call
    case Load(password, _, _, salt) => ReadyToWrite(raw.vault, password, salt)
    case SaveFlat(payload, password, active, now, ids, salt) =>
      ReadyToWrite(MergeFlatIntoV3(payload, Some(raw.vault), active, now, ids), password, salt)
    case _ => Finished
  }

  /** One awaited operation of a call. Deletion is left out of these runs. */
  function Advance(d: Disk, t: Task): (Disk, Task)
  {
    match t
    case Started(call) =>
      if call.SaveV3? then (d, ReadyToWrite(call.vault, call.password, call.salt))
      else if call.Delete? then (d, Finished)
      else
        var raw := ReadRaw(d, call.password, call.now, call.ids);
        if raw.Ok? then (d, if call.Load? && raw.value.onDiskVersion >= 3 then Finished else HasRead(call, raw.value))
        else if call.Load? then (d, Finished)
        else (d, ReadyToWrite(MergeFlatIntoV3(call.payload, None, call.active, call.now, call.ids), call.password,
            call.salt))
    case HasRead(call, raw) =>
      if raw.onDiskVersion >= 3 || d.backup.Some? then (d, ToWrite(call, raw)) else (d, FoundNoBackup(call, raw))
    case FoundNoBackup(call, raw) => (d.(backup := Some(raw.encrypted)), ToWrite(call, raw))
    case ReadyToWrite(vault, password, salt) => (Written(d, vault, password, salt), Finished)
    case Finished => (d, Finished)
  }

  ghost predicate SafeDisk(d: Disk, original: Blob) {
    && (d.wallet == Some(original) || d.backup == Some(original))
    && (d.backup.None? || d.backup == Some(original))
    && d.wallet.Some? && d.wallet.value.password == original.password
    && (d.wallet.value == original || d.wallet.value.text.V3Doc?)
  }

  /** What each call in flight has made sure of. */
  ghost predicate SafeTask(d: Disk, t: Task, original: Blob) {
    match t
    case Started(call) => Permitted(d, call, original)
    case HasRead(call, raw) =>
      && (call.Load? || call.SaveFlat?) && call.password == original.password
      && (if raw.onDiskVersion < 3 then raw.encrypted == original else d.backup == Some(original))
    case FoundNoBackup(call, raw) =>
      (call.Load? || call.SaveFlat?) && call.password == original.password && raw.encrypted == original
    case ReadyToWrite(_, password, _) => password == original.password && d.backup == Some(original)
    case Finished => true
  }

  /** The password is the vault's, and the whole vault is saved directly only once a load has put
      the migrated vault in place. */
  ghost predicate Permitted(d: Disk, call: Call, original: Blob) {
    match call
    case Load(p, _, _, _) => p == original.password
    case SaveFlat(_, p, _, _, _, _) => p == original.password
    case SaveV3(_, p, _) => p == original.password && d.backup == Some(original)
    case Delete => false
  }

  ghost predicate SafeWorld(w: World, original: Blob) {
    && w.history != []
    && (forall d :: d in w.history ==> SafeDisk(d, original))
    && (forall t :: t in w.tasks ==> SafeTask(w.history[|w.history| - 1], t, original))
  }

  /** A call may begin when it is disciplined; a direct save when the wallet on file is a migrated
      one. */
  ghost predicate MayHappen(w: World, e: Event, original: Blob) {
    match e
    case Begin(SaveV3(_, p, _)) =>
      p == original.password && w.history != [] &&
      var d := w.history[|w.history| - 1]; d.wallet.Some? && d.wallet.value.text.V3Doc?
    case Begin(call) => Permitted(Disk(None, None), call, original)
    case Proceed(i) => i < |w.tasks|
    case Crash(k) => k < |w.history|
  }

  function Next(w: World, e: Event): World {
    match e
    case Begin(call) => w.(tasks := w.tasks + [Started(call)])
    case Proceed(i) =>
      if i >= |w.tasks| || w.history == [] then w
      else
        var (d, t) := Advance(w.history[|w.history| - 1], w.tasks[i]);
        World(w.history + [d], w.tasks[i := t])
    case Crash(k) => if k < |w.history| then World(w.history[..k + 1], []) else w
  }

  /** One operation keeps the disk safe, and what the other calls have made sure of. */
  lemma AdvanceIsSafe(d: Disk, t: Task, original: Blob, other: Task)
    requires original.text.Version() < 3
    requires SafeDisk(d, original) && SafeTask(d, t, original) && SafeTask(d, other, original)
    ensures var (d', t') := Advance(d, t);
            SafeDisk(d', original) && SafeTask(d', t', original) && SafeTask(d', other, original)
  {
    if t.Started? && (t.call.Load? || t.call.SaveFlat?) {
      var raw := ReadRaw(d, t.call.password, t.call.now, t.call.ids);
      assert raw.Ok? && raw.value.encrypted == d.wallet.value;
    }
  }

  lemma EventIsSafe(w: World, e: Event, original: Blob)
    requires original.text.Version() < 3 && SafeWorld(w, original) && MayHappen(w, e, original)
    ensures SafeWorld(Next(w, e), original)
  {
    var d := w.history[|w.history| - 1];
    assert d in w.history;
    if e.Proceed? {
      var t := w.tasks[e.task];
      assert t in w.tasks;
      AdvanceIsSafe(d, t, original, t);
      forall other | other in w.tasks ensures SafeTask(Advance(d, t).0, other, original) {
        AdvanceIsSafe(d, t, original, other);
      }
    }
  }

  function Run(w: World, events: seq<Event>): World
    decreases |events|
  {
    if events == [] then w else Run(Next(w, events[0]), events[1..])
  }

  lemma RunCons(w: World, e: Event, rest: seq<Event>)
    ensures Run(w, [e] + rest) == Run(Next(w, e), rest)
  {
    assert ([e] + rest)[1..] == rest;
  }

  ghost predicate AllMayHappen(w: World, events: seq<Event>, original: Blob)
    decreases |events|
  {
    events == [] || (MayHappen(w, events[0], original) && AllMayHappen(Next(w, events[0]), events[1..], original))
  }

  /** However the calls overlap and wherever the app crashes, no content the file may hold has lost
      the original ciphertext. */
  lemma {:induction false} OverlappingCallsAreSafe(w: World, events: seq<Event>, original: Blob)
    requires original.text.Version() < 3 && SafeWorld(w, original) && AllMayHappen(w, events, original)
    ensures SafeWorld(Run(w, events), original)
    decreases |events|
  {
    if events != [] {
      EventIsSafe(w, events[0], original);
      OverlappingCallsAreSafe(Next(w, events[0]), events[1..], original);
    }
  }

  lemma OverlappingRunsKeepTheOriginal(original: Blob, events: seq<Event>)
    requires original.text.Version() < 3
    requires AllMayHappen(World([Disk(Some(original), None)], []), events, original)
    ensures forall d :: d in Run(World([Disk(Some(original), None)], []), events).history ==>
              d.wallet == Some(original) || d.backup == Some(original)
  {
    OverlappingCallsAreSafe(World([Disk(Some(original), None)], []), events, original);
  }
}
