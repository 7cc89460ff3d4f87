/** The vault's two shapes and the reading helpers on them: the flat working payload and the
    multi-wallet payload that is stored. */
module Vault {
  import opened Wrappers
  import opened Seqs

  datatype Kind = Bip39 | Xmr | Zph | Zano | Xelis | PrivateKey | Watch {
    /** Kinds backed by a single chain rather than a whole seed tree. */
    predicate SingleChain() {
      PrivateKey? || Watch?
    }

    /** Kinds that the flat payload has a field for. */
    predicate Flat() {
      Bip39? || Xmr? || Zph? || Zano?
    }

    /** Kinds whose wallets live in a file (or directory) of their own. */
    predicate HasFile() {
      Xmr? || Zph? || Zano? || Xelis?
    }
  }

  datatype SeedFormat = Polyseed | Legacy

  /** Per-chain derivation-path choice; every function here only carries it along. */
  type Derivation = map<string, string>

  /** Cached balance snapshots by wallet id; every function here only carries them along. */
  type BalanceCache = map<string, string>

  /** One seed phrase, or one single-chain account. */
  datatype Entry = Entry(
    id: string,
    name: string,
    kind: Kind,
    seed: string,
    createdAt: int,
    groupId: Option<string>,
    derivation: Option<Derivation>,
    xmrFormat: Option<SeedFormat>,
    restoreHeight: Option<int>,
    sidecarFile: Option<string>,
    zanoPassphrase: Option<string>,
    chain: Option<string>,
    address: Option<string>)
  {
    /** The key an entry groups under: an ungrouped wallet is its own context. */
    function GroupKey(): string {
      groupId.GetOr(id)
    }

    /** The sidecar file the entry opens: the one it stores, else its canonical name. */
    function File(): Option<string> {
      if kind.HasFile() then Some(sidecarFile.GetOr(NewSidecarFile(kind, id))) else None
    }
  }

  /** The flat payload: the working shape of one context. */
  datatype Payload = Payload(
    bip39: string,
    xmrSeed: Option<string>,
    xmrFormat: Option<SeedFormat>,
    xmrHeight: Option<int>,
    zphSeed: Option<string>,
    zphHeight: Option<int>,
    zanoSeed: Option<string>,
    zanoPassphrase: Option<string>,
    derivation: Option<Derivation>,
    devFeeAck: Option<int>)

  /** The stored payload. */
  datatype VaultV3 = VaultV3(
    wallets: seq<Entry>,
    lastActive: Option<string>,
    devFeeAck: Option<int>,
    balanceCache: Option<BalanceCache>,
    zanoSeed: Option<string>,
    zanoPassphrase: Option<string>)

  const LEGACY_XMR_FILE := "pwnda-active"
  const LEGACY_ZPH_FILE := "pwnda-zph-active"
  const LEGACY_ZANO_FILE := "pwnda.zan"

  /** The canonical per-wallet file name. */
  function NewSidecarFile(kind: Kind, id: string): string
    requires kind.HasFile()
  {
    match kind
    case Xmr => "pwnda-xmr-" + id
    case Zph => "pwnda-zph-" + id
    case Zano => "pwnda-zano-" + id + ".zan"
    case Xelis => "pwnda-xelis-" + id
  }

  // Selectors, one function per predicate the source writes inline.

  function OfKind(kind: Kind): Entry -> bool {
    (w: Entry) => w.kind == kind
  }

  function InGroup(group: string): Entry -> bool {
    (w: Entry) => w.GroupKey() == group
  }

  function OfKindIn(kind: Kind, group: string): Entry -> bool {
    (w: Entry) => w.kind == kind && w.GroupKey() == group
  }

  function HasId(id: string): Entry -> bool {
    (w: Entry) => w.id == id
  }

  ghost predicate UniqueIds(ws: seq<Entry>) {
    forall i, j :: 0 <= i < j < |ws| ==> ws[i].id != ws[j].id
  }

  /** The wallet a kind of the flat payload is read from. */
  function FirstIn(ws: seq<Entry>, kind: Kind, group: string): Option<Entry> {
    Find(OfKindIn(kind, group), ws)
  }

  /** The group of the first bip39 wallet, else of the first wallet. */
  function PrimaryGroup(ws: seq<Entry>): Option<string> {
    match Find(OfKind(Bip39), ws)
    case Some(w) => Some(w.GroupKey())
    case None => if ws == [] then None else Some(ws[0].GroupKey())
  }

  datatype ZanoRead = ZanoRead(seed: string, passphrase: Option<string>)

  /** The vault-wide Zano seed, for the one context it belongs to. */
  function LegacyZanoSeedFor(v: VaultV3, group: Option<string>): Option<ZanoRead> {
    if !Truthy(v.zanoSeed) then None
    else if group.Some? && group != PrimaryGroup(v.wallets) then None
    else Some(ZanoRead(v.zanoSeed.value, Normal(v.zanoPassphrase)))
  }

  // Seed comparison.

  /** The white space of JavaScript's `\s` and `trim`. */
  predicate IsSpace(c: char) {
    var n := c as int;
    || 9 <= n <= 13 || n == 0x20 || n == 0xA0 || n == 0x1680 || 0x2000 <= n <= 0x200A
    || n == 0x2028 || n == 0x2029 || n == 0x202F || n == 0x205F || n == 0x3000 || n == 0xFEFF
  }

  function Lower(c: char): char {
    if 'A' <= c <= 'Z' then (c as int + 32) as char else c
  }

  /** Length of the run of non-space characters at the front. */
  function WordLength(s: string): (n: nat)
    ensures n <= |s|
    ensures s != "" && !IsSpace(s[0]) ==> n > 0
  {
    if s == "" || IsSpace(s[0]) then 0 else 1 + WordLength(s[1..])
  }

  function Words(s: string): seq<string>
    decreases |s|
  {
    if s == "" then []
    else if IsSpace(s[0]) then Words(s[1..])
    else [s[..WordLength(s)]] + Words(s[WordLength(s)..])
  }

  function Join(words: seq<string>): string {
    if words == [] then "" else if |words| == 1 then words[0] else words[0] + " " + Join(words[1..])
  }

  /** A seed for comparison: trimmed, white space collapsed, lower case. */
  function NormalizeSeed(seed: string): string {
    Map(Lower, Join(Words(seed)))
  }

  function SameSeed(norm: string): Entry -> bool {
    (w: Entry) => NormalizeSeed(w.seed) == norm
  }

  function FindDuplicateSeed(v: VaultV3, seed: string): Option<Entry> {
    if NormalizeSeed(seed) == "" then None else Find(SameSeed(NormalizeSeed(seed)), v.wallets)
  }

  datatype Refusal = DifferentSeed | DifferentPassphrase

  function FlatSeed(flat: Payload, kind: Kind): Option<string> {
    match kind
    case Bip39 => Some(flat.bip39)
    case Xmr => flat.xmrSeed
    case Zph => flat.zphSeed
    case Zano => flat.zanoSeed
    case _ => None
  }

  /** The guard in front of the flat import saves. `current` is the payload of the context that
      is written. */
  function FlatSeedRefusal(current: Payload, kind: Kind, seed: string, zanoPassphrase: string): Option<Refusal>
    requires kind.Xmr? || kind.Zph? || kind.Zano?
  {
    var stored := FlatSeed(current, kind).GetOr("");
    if NormalizeSeed(stored) == "" then None
    else if NormalizeSeed(stored) != NormalizeSeed(seed) then Some(DifferentSeed)
    else if kind.Zano? && current.zanoPassphrase.GetOr("") != zanoPassphrase then Some(DifferentPassphrase)
    else None
  }

  // Facts about identity and search.

  lemma SameIdSameEntry(ws: seq<Entry>, a: Entry, b: Entry)
    requires UniqueIds(ws) && a in ws && b in ws && a.id == b.id
    ensures a == b
  {
  }

  lemma UniqueIdsTail(ws: seq<Entry>)
    requires UniqueIds(ws) && ws != []
    ensures UniqueIds(ws[1..])
    ensures ws[0] !in ws[1..]
    ensures forall w :: w in ws[1..] ==> w.id != ws[0].id
  {
  }

  lemma {:induction false} FilterUniqueIds(ws: seq<Entry>, p: Entry -> bool)
    requires UniqueIds(ws)
    ensures UniqueIds(Filter(p, ws))
  {
    if ws != [] {
      UniqueIdsTail(ws);
      FilterUniqueIds(ws[1..], p);
      var f := Filter(p, ws[1..]);
      forall j | 0 <= j < |f| ensures f[j].id != ws[0].id {
        assert f[j] in f;
      }
    }
  }

  lemma FindById(ws: seq<Entry>, w: Entry)
    requires UniqueIds(ws) && w in ws
    ensures Find(HasId(w.id), ws) == Some(w)
  {
    var r := Find(HasId(w.id), ws);
    assert HasId(w.id)(w);
    assert r.Some?;
    SameIdSameEntry(ws, r.value, w);
  }

  /** The primary group is the group of one of the wallets. */
  lemma PrimaryIsAGroup(ws: seq<Entry>)
    ensures PrimaryGroup(ws).None? <==> ws == []
    ensures PrimaryGroup(ws).Some? ==> exists w :: w in ws && w.GroupKey() == PrimaryGroup(ws).value
  {
    var r := Find(OfKind(Bip39), ws);
    if r.Some? {
      assert r.value in ws;
    } else if ws != [] {
      assert ws[0] in ws;
    }
  }
}
