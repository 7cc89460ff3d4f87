/** The encrypted store around the vault: two keys of one file, migrate-on-read, and a one-time
    backup of the ciphertext from before the migration. */
module Store {
  import opened Wrappers
  import opened Vault
  import opened FlatShape

  /** What a decrypted vault parses to: a bare mnemonic, a flat payload, or the stored payload. */
  datatype Plain = Mnemonic(words: string) | FlatDoc(payload: Payload) | V3Doc(vault: VaultV3) {
    function Version(): nat {
      match this
      case Mnemonic(_) => 1
      case FlatDoc(_) => 2
      case V3Doc(_) => 3
    }

    /** The vault in its current shape; older shapes migrate in memory. */
    function Normalized(now: int, ids: FreshIds): VaultV3 {
      match this
      case Mnemonic(words) => MigrateV2ToV3(Payload(words, None, None, None, None, None, None, None, None, None), now,
          ids)
      case FlatDoc(payload) => MigrateV2ToV3(payload, now, ids)
      case V3Doc(vault) => vault
    }
  }

  /** Ciphertext. Encryption is abstract: a blob opens under the password that sealed it and under
      no other, and the salt tells two seals of one text apart. */
  datatype Blob = Sealed(text: Plain, password: string, salt: nat)

  function Decrypt(blob: Blob, password: string): Option<Plain> {
    if blob.password == password then Some(blob.text) else None
  }

  /** The two keys of the store file. */
  datatype Disk = Disk(wallet: Option<Blob>, backup: Option<Blob>)

  datatype Fault = NoWallet | WrongPassword

  datatype RawVault = RawVault(onDiskVersion: nat, vault: VaultV3, encrypted: Blob)

  /** One call of the store's interface. */
  datatype Call =
    | Load(password: string, now: int, ids: FreshIds, salt: nat)
    | SaveFlat(payload: Payload, password: string, active: Option<string>, now: int, ids: FreshIds, salt: nat)
    | SaveV3(vault: VaultV3, password: string, salt: nat)
    | Delete

  function ReadRaw(d: Disk, password: string, now: int, ids: FreshIds): Result<RawVault, Fault> {
    if d.wallet.None? then Err(NoWallet)
    else match Decrypt(d.wallet.value, password)
      case None => Err(WrongPassword)
      case Some(text) => Ok(RawVault(text.Version(), text.Normalized(now, ids), d.wallet.value))
  }

  function BackedUp(d: Disk, raw: RawVault): Disk {
    if raw.onDiskVersion >= 3 || d.backup.Some? then d else d.(backup := Some(raw.encrypted))
  }

  function Written(d: Disk, vault: VaultV3, password: string, salt: nat): Disk {
    d.(wallet := Some(Sealed(V3Doc(vault), password, salt)))
  }

  /** The vault a call writes, if it writes one. */
  function Writes(d: Disk, call: Call): Option<VaultV3> {
    match call
    case Load(password, now, ids, _) =>
      var raw := ReadRaw(d, password, now, ids);
      if raw.Ok? && raw.value.onDiskVersion < 3 then Some(raw.value.vault) else None
    case SaveFlat(payload, password, active, now, ids, _) =>
      var raw := ReadRaw(d, password, now, ids);
      Some(MergeFlatIntoV3(payload, if raw.Ok? then Some(raw.value.vault) else None, active, now, ids))
    case SaveV3(vault, _, _) => Some(vault)
    case Delete => None
  }

  /** The contents the store passes through during a call, one for each change of a key. The
      plugin may flush any of them to the file, and the next crash leaves the last one flushed. */
  function Points(d: Disk, call: Call): seq<Disk> {
    match call
    case Load(password, now, ids, salt) =>
      var raw := ReadRaw(d, password, now, ids);
      if raw.Ok? && raw.value.onDiskVersion < 3 then
        BackupPoints(d, raw.value) + [Written(BackedUp(d, raw.value), raw.value.vault, password, salt)]
      else []
    case SaveFlat(payload, password, active, now, ids, salt) =>
      var raw := ReadRaw(d, password, now, ids);
      var vault := Writes(d, call).value;
      if raw.Ok? then BackupPoints(d, raw.value) + [Written(BackedUp(d, raw.value), vault, password, salt)]
      else [Written(d, vault, password, salt)]
    case SaveV3(vault, password, salt) => [Written(d, vault, password, salt)]
    case Delete => [d.(wallet := None), Disk(None, None)]
  }

  function BackupPoints(d: Disk, raw: RawVault): seq<Disk> {
    if BackedUp(d, raw) == d then [] else [BackedUp(d, raw)]
  }

  function Final(d: Disk, call: Call): Disk {
    var points := Points(d, call);
    if points == [] then d else points[|points| - 1]
  }

  /** The store as an object: the two keys in memory, and everything the file may have held. */
  class VaultStore {
    var wallet: Option<Blob>
    var backup: Option<Blob>
    ghost var flushPoints: seq<Disk>

    function Now(): Disk
      reads this
    {
      Disk(wallet, backup)
    }

    constructor (onFile: Disk)
      ensures Now() == onFile && flushPoints == [onFile]
    {
      wallet, backup, flushPoints := onFile.wallet, onFile.backup, [onFile];
    }

    method SetWallet(blob: Blob)
      modifies this
      ensures Now() == old(Now()).(wallet := Some(blob)) && flushPoints == old(flushPoints) + [Now()]
    {
      wallet := Some(blob);
      flushPoints := flushPoints + [Now()];
    }

    method ReadVaultRaw(password: string, now: int, ids: FreshIds) returns (r: Result<RawVault, Fault>)
      ensures r == ReadRaw(Now(), password, now, ids)
    {
      if wallet.None? {
        return Err(NoWallet);
      }
      var plaintext := Decrypt(wallet.value, password);
      if plaintext.None? {
        return Err(WrongPassword);
      }
      r := Ok(RawVault(plaintext.value.Version(), plaintext.value.Normalized(now, ids), wallet.value));
    }

    method BackupPreV3Once(raw: RawVault)
      modifies this
      ensures Now() == BackedUp(old(Now()), raw)
      ensures flushPoints == old(flushPoints) + BackupPoints(old(Now()), raw)
    {
      if raw.onDiskVersion >= 3 || backup.Some? {
        return;
      }
      backup := Some(raw.encrypted);
      flushPoints := flushPoints + [Now()];
    }

    method SaveVaultV3(vault: VaultV3, password: string, salt: nat)
      modifies this
      ensures Now() == Final(old(Now()), SaveV3(vault, password, salt))
      ensures flushPoints == old(flushPoints) + Points(old(Now()), SaveV3(vault, password, salt))
    {
      SetWallet(Sealed(V3Doc(vault), password, salt));
    }

    method LoadVaultV3(password: string, now: int, ids: FreshIds, salt: nat) returns (r: Result<VaultV3, Fault>)
      modifies this
      ensures r == match ReadRaw(old(Now()), password, now, ids) { case Ok(raw) => Ok(raw.vault) case Err(e) => Err(e) }
      ensures Now() == Final(old(Now()), Load(password, now, ids, salt))
      ensures flushPoints == old(flushPoints) + Points(old(Now()), Load(password, now, ids, salt))
    {
      var raw := ReadVaultRaw(password, now, ids);
      if raw.Err? {
        return Err(raw.error);
      }
      if raw.value.onDiskVersion < 3 {
        BackupPreV3Once(raw.value);
        SaveVaultV3(raw.value.vault, password, salt);
      }
      r := Ok(raw.value.vault);
    }

    method LoadVault(password: string, active: Option<string>, now: int, ids: FreshIds, salt: nat)
      returns (r: Result<Payload, Fault>)
      modifies this
      ensures r == match ReadRaw(old(Now()), password, now, ids)
                   { case Ok(raw) => Ok(ProjectV3ToV2(raw.vault, active)) case Err(e) => Err(e) }
      ensures Now() == Final(old(Now()), Load(password, now, ids, salt))
      ensures flushPoints == old(flushPoints) + Points(old(Now()), Load(password, now, ids, salt))
    {
      var vault := LoadVaultV3(password, now, ids, salt);
      r := if vault.Ok? then Ok(ProjectV3ToV2(vault.value, active)) else Err(vault.error);
    }

    method SaveVault(payload: Payload, password: string, active: Option<string>, now: int, ids: FreshIds, salt: nat)
      modifies this
      ensures Now() == Final(old(Now()), SaveFlat(payload, password, active, now, ids, salt))
      ensures flushPoints == old(flushPoints) + Points(old(Now()), SaveFlat(payload, password, active, now, ids, salt))
    {
      hide MergeFlatIntoV3, MigrateV2ToV3;
      var existing := ReadVaultRaw(password, now, ids);
      if existing.Ok? {
        BackupPreV3Once(existing.value);
      }
      var known := if existing.Ok? then Some(existing.value.vault) else None;
      var vault := MergeFlatIntoV3(payload, known, active, now, ids);
      SaveVaultV3(vault, password, salt);
    }

    method DeleteWallet()
      modifies this
      ensures Now() == Final(old(Now()), Delete)
      ensures flushPoints == old(flushPoints) + Points(old(Now()), Delete)
    {
      wallet := None;
      flushPoints := flushPoints + [Now()];
      backup := None;
      flushPoints := flushPoints + [Now()];
    }

    /** The process dies and restarts on whatever content the file was last flushed with. */
    method CrashAndRestart(onFile: Disk)
      requires onFile in flushPoints
      modifies this
      ensures Now() == onFile && flushPoints == [onFile]
    {
      wallet, backup, flushPoints := onFile.wallet, onFile.backup, [onFile];
    }
  }
}
