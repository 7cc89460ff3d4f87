/** Where the flat save does less than its documentation says: the exact conditions, and inputs
    that fail them. */
module Hazards {
  import opened Wrappers
  import opened Seqs
  import opened Vault
  import opened Contexts
  import opened FlatShape
  import opened MergeOrder
  import opened MergeLaws
  import opened LensLaws
  import opened FileNames
  import opened Crud
  import opened EditLaws
  import opened Runs
  import opened Seeds
  import opened LegacyZano

  // Seeds that a flat save drops.

  const MAIN := Entry("m", "Main", Bip39, "a", 0, Some("g"), None, None, None, None, None, None, None)
  const KEY := Entry("k", "Key", PrivateKey, "b", 0, Some("h"), None, None, None, None, None, None, None)
  const MAIN_AND_KEY := VaultV3([MAIN, KEY], None, None, None, None, None)
  const NEW_IDS := FreshIds("n", "n1", "n2", "n3", "n4")

  lemma OneLetterSeed(c: char)
    requires 'a' <= c <= 'z'
    ensures NormalizeSeed([c]) == [c]
  {
    assert WordLength([c]) == 1;
    assert [c][1..] == "" && [c][..1] == [c];
    assert Words("") == [];
    assert Words([c]) == [[c]];
  }

  lemma NewIdsAreNew(ws: seq<Entry>)
    requires forall w :: w in ws ==> |w.id| == 1 && w.id != "n" && |w.GroupKey()| == 1 && w.GroupKey() != "n"
    ensures AllNew(NEW_IDS, ws)
  {
    assert NEW_IDS.bip39[1] == '1' && NEW_IDS.xmr[1] == '2' && NEW_IDS.zph[1] == '3' && NEW_IDS.zano[1] == '4';
    assert |NEW_IDS.bip39| == 2 && |NEW_IDS.xmr| == 2 && |NEW_IDS.zph| == 2 && |NEW_IDS.zano| == 2
        && |NEW_IDS.group| == 1;
  }

  /** The group of a wallet of the vault, when its id is neither blank nor "all". */
  lemma OpenWalletGroup(v: VaultV3, w: Entry, now: int, ids: FreshIds)
    requires UniqueIds(v.wallets) && w in v.wallets && |w.id| == 1
    ensures GroupIdForWallet(v, Some(w.id)) == Some(w.GroupKey())
    ensures TargetOf(Some(v), Some(w.id), now, ids).group == w.GroupKey()
  {
    GroupIdForWalletIsGroupOf(v, Some(w.id));
    FindById(v.wallets, w);
  }

  lemma SameIsGuarded(flat: Payload)
    ensures GuardedSave(flat, flat, None)
  {
  }

  /** Saving what was read when a seed is stored nowhere but in a wallet the save has no place for. */
  lemma SaveDropsStranded(v: VaultV3, active: Option<string>, now: int, ids: FreshIds, w: Entry)
    requires UniqueIds(v.wallets) && w in v.wallets && SeedOf(w).words != ""
    requires var group := TargetOf(Some(v), active, now, ids).group;
             && Stranded(v.wallets, group, w)
             && SeedOf(w) !in Held(Filter(Carried(group), v.wallets))
             && !InPayload(ProjectV3ToV2(v, active), SeedOf(w))
    ensures var flat := ProjectV3ToV2(v, active);
            && GuardedSave(flat, flat, None)
            && !(Held(v.wallets) <= Held(MergeFlatIntoV3(flat, Some(v), active, now, ids).wallets))
  {
    var flat := ProjectV3ToV2(v, active);
    SameIsGuarded(flat);
    hide Held, SeedOf, GuardedSave, Stranded, InPayload, MergeFlatIntoV3, ProjectV3ToV2, UniqueIds;
    SeedsKeptExactly(v, flat, None, active, now, ids);
  }

  lemma KeyIsOpen()
    ensures UniqueIds(MAIN_AND_KEY.wallets) && KEY in MAIN_AND_KEY.wallets
    ensures ProjectV3ToV2(MAIN_AND_KEY, Some("k")) == ProjectGroup(MAIN_AND_KEY, Some("h"))
    ensures TargetOf(Some(MAIN_AND_KEY), Some("k"), 1, NEW_IDS).group == "h"
  {
    hide GroupIdForWallet, ProjectGroup;
    assert MAIN_AND_KEY.wallets == [MAIN, KEY];
    assert KEY in MAIN_AND_KEY.wallets && UniqueIds(MAIN_AND_KEY.wallets);
    OpenWalletGroup(MAIN_AND_KEY, KEY, 1, NEW_IDS);
  }

  lemma NothingReadBesideKey(flat: Payload, kind: Kind)
    requires flat == ProjectGroup(MAIN_AND_KEY, Some("h")) && kind.Flat()
    ensures FlatKey(flat, kind).words == ""
  {
    BlankSeed();
    hide NormalizeSeed, PrimaryGroup;
    assert MAIN_AND_KEY.wallets == [MAIN, KEY];
    assert FirstIn(MAIN_AND_KEY.wallets, kind, "h").None?;
  }

  lemma KeySeeds()
    ensures SeedOf(KEY) == SeedKey("b", "") && SeedOf(MAIN) == SeedKey("a", "")
  {
    OneLetterSeed('a');
    OneLetterSeed('b');
    hide NormalizeSeed;
  }

  lemma KeyIsNotCarried()
    ensures Stranded(MAIN_AND_KEY.wallets, "h", KEY)
    ensures forall w :: w in Filter(Carried("h"), MAIN_AND_KEY.wallets) ==> w == MAIN
  {
    hide Filter;
    assert MAIN_AND_KEY.wallets == [MAIN, KEY];
  }

  lemma KeyIsNowhereElse(flat: Payload)
    requires flat == ProjectGroup(MAIN_AND_KEY, Some("h"))
    ensures SeedOf(KEY).words == "b" && Stranded(MAIN_AND_KEY.wallets, "h", KEY)
    ensures SeedOf(KEY) !in Held(Filter(Carried("h"), MAIN_AND_KEY.wallets)) && !InPayload(flat, SeedOf(KEY))
  {
    hide SeedOf, FlatKey, Stranded, Filter, Carried, ProjectGroup;
    KeySeeds();
    KeyIsNotCarried();
    forall k: Kind | k.Flat() ensures FlatKey(flat, k).words == "" {
      NothingReadBesideKey(flat, k);
    }
  }

  /** With a private-key account open, saving exactly what was read deletes its key. */
  lemma SavingOnAKeyAccountLosesTheKey()
    ensures var flat := ProjectV3ToV2(MAIN_AND_KEY, Some("k"));
            && GuardedSave(flat, flat, None)
            && !(Held(MAIN_AND_KEY.wallets) <= Held(MergeFlatIntoV3(flat, Some(MAIN_AND_KEY), Some("k"), 1,
               NEW_IDS).wallets))
  {
    KeyIsOpen();
    KeyIsNowhereElse(ProjectGroup(MAIN_AND_KEY, Some("h")));
    hide Held, SeedOf, GuardedSave, Stranded, InPayload, MergeFlatIntoV3, ProjectV3ToV2, TargetOf;
    SaveDropsStranded(MAIN_AND_KEY, Some("k"), 1, NEW_IDS, KEY);
  }

  const FIRST_XMR := Entry("x", "Monero", Xmr, "x", 0, Some("g"), None, None, None, Some("f"), None, None, None)
  const OTHER_XMR := Entry("y", "Monero too", Xmr, "y", 1, Some("g"), None, None, None, Some("e"), None, None, None)
  const TWO_OF_A_KIND := VaultV3([MAIN, FIRST_XMR, OTHER_XMR], None, None, None, None, None)

  lemma MainOfTwoIsOpen()
    ensures UniqueIds(TWO_OF_A_KIND.wallets) && OTHER_XMR in TWO_OF_A_KIND.wallets
    ensures ProjectV3ToV2(TWO_OF_A_KIND, Some("m")) == ProjectGroup(TWO_OF_A_KIND, Some("g"))
    ensures TargetOf(Some(TWO_OF_A_KIND), Some("m"), 1, NEW_IDS).group == "g"
  {
    hide GroupIdForWallet, ProjectGroup;
    assert TWO_OF_A_KIND.wallets == [MAIN, FIRST_XMR, OTHER_XMR];
    assert MAIN in TWO_OF_A_KIND.wallets && UniqueIds(TWO_OF_A_KIND.wallets);
    OpenWalletGroup(TWO_OF_A_KIND, MAIN, 1, NEW_IDS);
  }

  lemma ReadOfTwo(flat: Payload, kind: Kind)
    requires flat == ProjectGroup(TWO_OF_A_KIND, Some("g")) && kind.Flat()
    ensures FlatKey(flat, kind).words != "y"
  {
    FirstOfTwo();
    OneLetterSeed('a');
    OneLetterSeed('x');
    BlankSeed();
    hide NormalizeSeed, PrimaryGroup, Find;
  }

  lemma OtherIsNotCarried()
    ensures Stranded(TWO_OF_A_KIND.wallets, "g", OTHER_XMR)
    ensures Filter(Carried("g"), TWO_OF_A_KIND.wallets) == []
  {
    FirstOfTwo();
    hide Filter, Find;
    assert TWO_OF_A_KIND.wallets == [MAIN, FIRST_XMR, OTHER_XMR];
    FilterNone(Carried("g"), TWO_OF_A_KIND.wallets);
  }

  lemma OtherSeed()
    ensures SeedOf(OTHER_XMR).words == "y"
  {
    OneLetterSeed('y');
    hide NormalizeSeed;
  }

  lemma OtherIsNowhereElse(flat: Payload)
    requires flat == ProjectGroup(TWO_OF_A_KIND, Some("g"))
    ensures SeedOf(OTHER_XMR).words == "y" && Stranded(TWO_OF_A_KIND.wallets, "g", OTHER_XMR)
    ensures SeedOf(OTHER_XMR) !in Held(Filter(Carried("g"), TWO_OF_A_KIND.wallets))
         && !InPayload(flat, SeedOf(OTHER_XMR))
  {
    hide SeedOf, FlatKey, Stranded, Filter, Carried, ProjectGroup;
    OtherSeed();
    OtherIsNotCarried();
    forall k: Kind | k.Flat() ensures FlatKey(flat, k).words != "y" {
      ReadOfTwo(flat, k);
    }
  }

  lemma FirstOfTwo()
    ensures FirstIn(TWO_OF_A_KIND.wallets, Bip39, "g") == Some(MAIN)
    ensures FirstIn(TWO_OF_A_KIND.wallets, Xmr, "g") == Some(FIRST_XMR)
    ensures FirstIn(TWO_OF_A_KIND.wallets, Zph, "g").None? && FirstIn(TWO_OF_A_KIND.wallets, Zano, "g").None?
  {
    var ws := TWO_OF_A_KIND.wallets;
    assert ws == [MAIN] + [FIRST_XMR, OTHER_XMR];
    FindConcat(OfKindIn(Bip39, "g"), [MAIN], [FIRST_XMR, OTHER_XMR]);
    FindConcat(OfKindIn(Xmr, "g"), [MAIN], [FIRST_XMR, OTHER_XMR]);
  }

  /** A second wallet of a kind in the open group is dropped by saving what was read. */
  lemma SavingDropsTheSecondOfAKind()
    ensures var flat := ProjectV3ToV2(TWO_OF_A_KIND, Some("m"));
            && GuardedSave(flat, flat, None)
            && !(Held(TWO_OF_A_KIND.wallets) <= Held(MergeFlatIntoV3(flat, Some(TWO_OF_A_KIND), Some("m"), 1,
               NEW_IDS).wallets))
  {
    MainOfTwoIsOpen();
    OtherIsNowhereElse(ProjectGroup(TWO_OF_A_KIND, Some("g")));
    hide Held, SeedOf, GuardedSave, Stranded, InPayload, MergeFlatIntoV3, ProjectV3ToV2, TargetOf;
    SaveDropsStranded(TWO_OF_A_KIND, Some("m"), 1, NEW_IDS, OTHER_XMR);
  }

  const SECOND := Entry("s", "Second", Bip39, "s", 1, Some("h"), None, None, None, None, None, None, None)
  const UNPROMOTED := VaultV3([MAIN, SECOND], None, None, None, Some("z"), None)

  lemma SecondDoesNotRead()
    ensures !ReadsLegacySeed(UNPROMOTED, Some("s"))
  {
    var ws := UNPROMOTED.wallets;
    assert ws == [MAIN, SECOND] && SECOND in ws && UniqueIds(ws);
    hide GroupIdForWallet;
    OpenWalletGroup(UNPROMOTED, SECOND, 1, NEW_IDS);
    assert OfKind(Bip39)(MAIN);
    assert PrimaryGroup(ws) == Some("g");
  }

  lemma NotPromoted()
    ensures LegacyKey(UNPROMOTED) == SeedKey("z", "") && !Promoted(UNPROMOTED)
  {
    assert UNPROMOTED.wallets == [MAIN, SECOND];
    OneLetterSeed('a');
    OneLetterSeed('s');
    OneLetterSeed('z');
    hide NormalizeSeed;
  }

  /** With the second context open, saving exactly what was read deletes the only copy of a
      vault-wide Zano seed that has not become an entry. */
  lemma SecondContextSaveDropsLegacySeed(now: int, ids: FreshIds)
    ensures var flat := ProjectV3ToV2(UNPROMOTED, Some("s"));
            && GuardedSave(flat, flat, None)
            && SeedKey("z", "") in Stored(UNPROMOTED)
            && SeedKey("z", "") !in Stored(MergeFlatIntoV3(flat, Some(UNPROMOTED), Some("s"), now, ids))
  {
    var flat := ProjectV3ToV2(UNPROMOTED, Some("s"));
    SecondDoesNotRead();
    NotPromoted();
    SameIsGuarded(flat);
    hide ProjectV3ToV2, MergeFlatIntoV3, ReadsLegacySeed, LegacyKey, Held, GuardedSave;
    assert SeedKey("z", "") in Stored(UNPROMOTED);
    LegacySeedKeptExactly(UNPROMOTED, flat, None, Some("s"), now, ids);
  }

  // Files of entries that store no name.

  /** A flat save leaves the file of an existing entry alone exactly when the entry stores its
      name. Otherwise the file it resolves to was its canonical one, and the save stores the
      legacy name instead (for Zano: when the vault carries a vault-wide Zano seed). */
  lemma FileKeptExactly(v: VaultV3, flat: Payload, t: Target, kind: Kind)
    requires t.existing == Some(v) && (kind.Xmr? || kind.Zph? || kind.Zano?)
    requires t.Prev(kind).Some? && t.Rebuilt(flat, kind).Some?
    ensures t.Rebuilt(flat, kind).value.File() == t.Prev(kind).value.File()
       <==> || t.Prev(kind).value.sidecarFile.Some?
            || (kind.Zph? && t.Prev(kind).value.id == "active")
            || (kind.Zano? && !Truthy(v.zanoSeed))
  {
    PrevIsInTarget(t, kind);
    LegacyIsNotCanonical(t.Prev(kind).value.id);
  }

  const NAMELESS := Entry("x", "Monero", Xmr, "x", 0, Some("g"), None, None, None, None, None, None, None)
  const WITH_NAMELESS := VaultV3([MAIN, NAMELESS], None, None, None, None, None)

  /** A vault with such an entry: it opens its canonical file, and after any save of a Monero seed
      into its group the legacy one. By `Runs.RunsStoreFileNames` no run from a migrated vault gets
      to such a vault: it has been written by something else. */
  lemma NamelessEntryIsRenamed(flat: Payload, t: Target)
    requires t.existing == Some(WITH_NAMELESS) && t.group == "g" && Truthy(flat.xmrSeed)
    ensures NAMELESS.File() == Some("pwnda-xmr-x")
    ensures exists e :: e in t.Merged(flat) && e.id == NAMELESS.id && e.kind == Xmr && e.File() == Some("pwnda-active")
  {
    assert t.Wallets() == [MAIN] + [NAMELESS];
    FindConcat(OfKindIn(Xmr, "g"), [MAIN], [NAMELESS]);
    var e := t.Rebuilt(flat, Xmr).value;
    RebuiltShape(flat, t, Xmr);
    InMerged(flat, t, e);
    assert NewSidecarFile(Xmr, "x") == "pwnda-xmr-x";
  }

  // Zano across contexts.

  const MAIN_ZANO := Entry("z", "Zano", Zano, "z", 0, Some("g"), None, None, None, Some(LEGACY_ZANO_FILE), None, None,
      None)

  /** Main has a Zano wallet on the legacy file, and has been saved once since, which leaves a copy
      of its seed at the top level. */
  const TWO_CONTEXTS := VaultV3([MAIN, MAIN_ZANO, SECOND], None, None, None, Some("z"), None)

  /** Importing a Zano wallet into the second context then puts it on Main's file. */
  lemma SecondZanoTakesMainsFile(flat: Payload)
    requires flat == ProjectV3ToV2(TWO_CONTEXTS, Some("s")).(zanoSeed := Some("y"))
    ensures exists e :: e in MergeFlatIntoV3(flat, Some(TWO_CONTEXTS), Some("s"), 1, NEW_IDS).wallets
              && e.GroupKey() == "h" && e.kind == Zano && e.File() == MAIN_ZANO.File()
    ensures MAIN_ZANO in MergeFlatIntoV3(flat, Some(TWO_CONTEXTS), Some("s"), 1, NEW_IDS).wallets
  {
    hide GroupIdForWallet, MergeAt;
    var v := TWO_CONTEXTS;
    assert v.wallets == [MAIN, MAIN_ZANO, SECOND];
    assert SECOND in v.wallets && UniqueIds(v.wallets);
    OpenWalletGroup(v, SECOND, 1, NEW_IDS);
    SecondZano(flat, TargetOf(Some(v), Some("s"), 1, NEW_IDS));
    MergedIntoTarget(flat, Some(v), Some("s"));
  }

  lemma MergedIntoTarget(flat: Payload, existing: Option<VaultV3>, active: Option<string>)
    ensures MergeFlatIntoV3(flat, existing, active, 1, NEW_IDS).wallets
        == TargetOf(existing, active, 1, NEW_IDS).Merged(flat)
  {
  }

  lemma SecondZano(flat: Payload, t: Target)
    requires t.existing == Some(TWO_CONTEXTS) && t.group == "h" && flat.zanoSeed == Some("y")
    ensures exists e :: e in t.Merged(flat) && e.GroupKey() == "h" && e.kind == Zano && e.File() == MAIN_ZANO.File()
    ensures MAIN_ZANO in t.Merged(flat)
  {
    assert t.Wallets() == [MAIN, MAIN_ZANO, SECOND];
    assert t.Prev(Zano).None?;
    assert t.ZanoFile() == LEGACY_ZANO_FILE;
    var e := t.Rebuilt(flat, Zano).value;
    assert e.sidecarFile == Some(LEGACY_ZANO_FILE);
    RebuiltShape(flat, t, Zano);
    InMerged(flat, t, e);
    InMerged(flat, t, MAIN_ZANO);
  }

  lemma WithoutMainZano()
    ensures RemoveWalletEntry(TWO_CONTEXTS, "z").wallets == [MAIN, SECOND]
    ensures PrimaryGroup([MAIN, SECOND]) == Some("g")
  {
    assert TWO_CONTEXTS.wallets == [MAIN] + ([MAIN_ZANO] + ([SECOND] + []));
    FilterCons(OtherThan("z"), MAIN, [MAIN_ZANO] + ([SECOND] + []));
    FilterCons(OtherThan("z"), MAIN_ZANO, [SECOND] + []);
    FilterCons(OtherThan("z"), SECOND, []);
    assert OfKind(Bip39)(MAIN);
  }

  /** Removing Main's Zano wallet: the context goes on reading its seed, from the vault-wide copy. */
  lemma RemovedZanoIsStillRead()
    ensures MAIN_ZANO in TWO_CONTEXTS.wallets && MAIN_ZANO !in RemoveWalletEntry(TWO_CONTEXTS, "z").wallets
    ensures ProjectV3ToV2(RemoveWalletEntry(TWO_CONTEXTS, "z"), Some("m")).zanoSeed == Some("z")
  {
    var v := TWO_CONTEXTS;
    assert v.wallets == [MAIN, MAIN_ZANO, SECOND];
    assert MAIN in v.wallets && MAIN_ZANO in v.wallets && UniqueIds(v.wallets);
    WithoutMainZano();
    hide ProjectV3ToV2, Filter, Find;
    RemovedKindIsRead(v, MAIN_ZANO, MAIN);
  }

  /** Removing Main's bip39 wallet makes the second context the primary one, and hands it Main's
      vault-wide Zano seed. */
  lemma RemovingMainHandsOnItsZano()
    ensures ProjectV3ToV2(UNPROMOTED, Some("s")).zanoSeed.None?
    ensures ProjectV3ToV2(RemoveWalletEntry(UNPROMOTED, "m"), Some("s")).zanoSeed == Some("z")
  {
    hide GroupIdForWallet;
    var v, after := UNPROMOTED, RemoveWalletEntry(UNPROMOTED, "m");
    assert v.wallets == [MAIN, SECOND] && UniqueIds(v.wallets) && SECOND in v.wallets;
    assert v.wallets[1..] == [SECOND];
    assert after.wallets == [SECOND];
    OpenWalletGroup(v, SECOND, 1, NEW_IDS);
    OpenWalletGroup(after, SECOND, 1, NEW_IDS);
    assert OfKind(Bip39)(MAIN) && OfKind(Bip39)(SECOND);
    assert PrimaryGroup(v.wallets) == Some("g") && PrimaryGroup(after.wallets) == Some("h");
  }

  const TWO_WITHOUT_ZANO := VaultV3([MAIN, SECOND], None, None, None, None, None)

  /** With no Zano wallet anywhere, importing one into the second context shows it in Main too. */
  lemma SecondZanoShowsInMain(flat: Payload)
    requires Truthy(flat.zanoSeed)
    ensures !ZanoIsolated(flat, TargetOf(Some(TWO_WITHOUT_ZANO), Some("s"), 1, NEW_IDS), TWO_WITHOUT_ZANO)
  {
    var v := TWO_WITHOUT_ZANO;
    TwoWithoutZano();
    OpenWalletGroup(v, SECOND, 1, NEW_IDS);
    var t := TargetOf(Some(v), Some("s"), 1, NEW_IDS);
    hide GroupIdForWallet, PrimaryGroup, FirstIn;
    ZanoIsolationExact(flat, t, v);
  }

  lemma TwoWithoutZano()
    ensures SECOND in TWO_WITHOUT_ZANO.wallets && UniqueIds(TWO_WITHOUT_ZANO.wallets)
    ensures Fresh(NEW_IDS, TWO_WITHOUT_ZANO.wallets) && TWO_WITHOUT_ZANO.wallets != []
    ensures PrimaryGroup(TWO_WITHOUT_ZANO.wallets) == Some("g")
    ensures FirstIn(TWO_WITHOUT_ZANO.wallets, Zano, "g").None?
  {
    assert TWO_WITHOUT_ZANO.wallets == [MAIN, SECOND];
    NewIdsAreNew(TWO_WITHOUT_ZANO.wallets);
    assert OfKind(Bip39)(MAIN);
  }

  // Put-get after the save dropped the open wallet.

  const SECOND_XMR := Entry("x", "Monero", Xmr, "x", 1, Some("h"), None, None, None, Some("f"), None, None, None)
  const TWO_WITH_XMR := VaultV3([MAIN, SECOND, SECOND_XMR], None, None, None, None, None)

  /** Forgetting the second context's Monero wallet while that wallet is the open one: the next
      read answers for Main, with Main's seed where the second context's was saved. */
  lemma ForgettingTheOpenWalletReadsMain(flat: Payload)
    requires flat.xmrSeed.None?
    ensures GroupIdForWallet(TWO_WITH_XMR, Some("x")) == Some("h")
    ensures GroupIdForWallet(MergeFlatIntoV3(flat, Some(TWO_WITH_XMR), Some("x"), 1, NEW_IDS), Some("x")) == Some("g")
    ensures ProjectV3ToV2(MergeFlatIntoV3(flat, Some(TWO_WITH_XMR), Some("x"), 1, NEW_IDS), Some("x")).bip39 == "a"
    ensures ProjectV3ToV2(TWO_WITH_XMR, Some("x")).bip39 == "s"
  {
    hide GroupIdForWallet, MergeAt, ProjectGroup;
    var v := TWO_WITH_XMR;
    TwoWithXmr();
    OpenWalletGroup(v, SECOND_XMR, 1, NEW_IDS);
    var t := TargetOf(Some(v), Some("x"), 1, NEW_IDS);
    ForgottenIsDropped(flat, t);
    MainIsRead(flat, t);
    hide Fresh, UniqueIds, DropsOpenWallet, PrimaryGroup, AllNew;
    GroupAfterSave(flat, Some(v), Some("x"), 1, NEW_IDS);
  }

  lemma MainIsRead(flat: Payload, t: Target)
    requires t.existing == Some(TWO_WITH_XMR) && t.group == "h" && Good(t)
    ensures ProjectGroup(MergeAt(flat, t), Some("g")).bip39 == "a"
    ensures ProjectGroup(TWO_WITH_XMR, Some("h")).bip39 == "s"
  {
    assert TWO_WITH_XMR.wallets == [MAIN] + [SECOND, SECOND_XMR];
    FindConcat(OfKindIn(Bip39, "g"), [MAIN], [SECOND, SECOND_XMR]);
    FindConcat(OfKindIn(Bip39, "h"), [MAIN], [SECOND, SECOND_XMR]);
    FirstOfOtherGroup(flat, t, Bip39, "g");
  }

  lemma TwoWithXmr()
    ensures UniqueIds(TWO_WITH_XMR.wallets) && AllNew(NEW_IDS, TWO_WITH_XMR.wallets)
        && Fresh(NEW_IDS, TWO_WITH_XMR.wallets)
    ensures SECOND_XMR in TWO_WITH_XMR.wallets
    ensures PrimaryGroup(TWO_WITH_XMR.wallets) == Some("g") && Find(OfKind(Bip39), TWO_WITH_XMR.wallets).Some?
  {
    assert TWO_WITH_XMR.wallets == [MAIN, SECOND, SECOND_XMR];
    NewIdsAreNew(TWO_WITH_XMR.wallets);
    assert OfKind(Bip39)(MAIN);
  }

  lemma ForgottenIsDropped(flat: Payload, t: Target)
    requires flat.xmrSeed.None? && t.existing == Some(TWO_WITH_XMR) && t.group == "h"
    ensures DropsOpenWallet(flat, t, Some("x"))
  {
    TwoWithXmr();
    FindById(TWO_WITH_XMR.wallets, SECOND_XMR);
    assert Image(flat, t, SECOND_XMR) == [];
  }
}
