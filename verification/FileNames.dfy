/** Sidecar file names: which slot of which directory an entry opens, and when two entries open
    the same one. */
module FileNames {
  import opened Wrappers
  import opened Vault

  /** A file in the directory of one kind. */
  datatype Slot = Slot(kind: Kind, file: string)

  /** The file an entry opens; an empty stored name counts as none. */
  function SlotOf(w: Entry): Option<Slot> {
    if Truthy(w.File()) then Some(Slot(w.kind, w.File().value)) else None
  }

  /** The slot of the entry's canonical name. */
  function OwnSlot(w: Entry): Slot
    requires w.kind.HasFile()
  {
    Slot(w.kind, NewSidecarFile(w.kind, w.id))
  }

  function Used(ws: seq<Entry>): set<Slot> {
    set w | w in ws && SlotOf(w).Some? :: SlotOf(w).value
  }

  /** No two wallets open one file. */
  ghost predicate FilesInjective(ws: seq<Entry>) {
    forall a, b :: a in ws && b in ws && SlotOf(a).Some? && SlotOf(a) == SlotOf(b) ==> a == b
  }

  lemma CanonicalNamesInjective(kind: Kind, a: string, b: string)
    requires kind.HasFile() && NewSidecarFile(kind, a) == NewSidecarFile(kind, b)
    ensures a == b
  {
    match kind
    case Xmr => Cancel("pwnda-xmr-", a, b, "");
    case Zph => Cancel("pwnda-zph-", a, b, "");
    case Zano => Cancel("pwnda-zano-", a, b, ".zan");
    case Xelis => Cancel("pwnda-xelis-", a, b, "");
  }

  lemma Cancel(prefix: string, a: string, b: string, suffix: string)
    requires prefix + a + suffix == prefix + b + suffix
    ensures a == b
  {
    assert a == (prefix + a + suffix)[|prefix|..|prefix| + |a|];
    assert |a| == |b|;
    assert b == (prefix + b + suffix)[|prefix|..|prefix| + |b|];
  }

  /** The one id whose canonical name is a legacy name. */
  lemma LegacyIsNotCanonical(id: string)
    ensures NewSidecarFile(Xmr, id) != LEGACY_XMR_FILE
    ensures NewSidecarFile(Zph, id) == LEGACY_ZPH_FILE <==> id == "active"
    ensures NewSidecarFile(Zano, id) != LEGACY_ZANO_FILE
  {
    assert NewSidecarFile(Xmr, id)[6] == 'x' && LEGACY_XMR_FILE[6] == 'a';
    assert NewSidecarFile(Zano, id)[5] == '-' && LEGACY_ZANO_FILE[5] == '.';
    if NewSidecarFile(Zph, id) == LEGACY_ZPH_FILE {
      assert LEGACY_ZPH_FILE == "pwnda-zph-" + "active" + "";
      assert NewSidecarFile(Zph, id) == "pwnda-zph-" + id + "";
      Cancel("pwnda-zph-", id, "active", "");
    }
  }
}
