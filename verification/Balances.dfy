/** The request tokens that guard balances against late answers (`App.tsx`), under every order in
    which fetches start and come back. */
module Balances {
  import opened Wrappers

  type Chain = string
  type Address = string

  const DASH := "—"
  const RESET := "--"

  /** `isNumericBalance` is a parameter of which only this is used. */
  ghost predicate TellsNumbers(numeric: string -> bool) {
    !numeric(DASH) && !numeric(RESET)
  }

  /** A text on display, and the address it is the balance of; none for a placeholder. The source
      keeps only the text. */
  datatype Reading = Reading(text: string, of: Option<Address>)

  /** Where a request came from: the focal number's refresh, or the sweep over all chains. */
  datatype Lane = Hero | Sweep(chain: Chain)

  /** A fetch in flight: what the closure of the call remembers. */
  datatype Request = Request(lane: Lane, id: nat, chain: Chain, address: Address)

  /** The refs and the state they guard: `balanceReqRef`, `chainReqRef`, `balanceAddrRef`,
      `balance` and `balancesByChain`. */
  datatype Board = Board(heroReq: nat, chainReq: map<Chain, nat>, addrs: map<Chain, Address>,
                         hero: Reading, shown: map<Chain, Reading>) {
    function Counter(lane: Lane): nat {
      match lane
      case Hero => heroReq
      case Sweep(c) => if c in chainReq then chainReq[c] else 0
    }

    function Bumped(lane: Lane): Board {
      match lane
      case Hero => this.(heroReq := heroReq + 1)
      case Sweep(c) => this.(chainReq := chainReq[c := Counter(lane) + 1])
    }

    predicate IsNewest(r: Request) {
      r.id == Counter(r.lane)
    }

    /** A fetch that came back with `bal`. */
    function Fetched(r: Request, bal: string): Board {
      if !IsNewest(r) then this else
        var reading := Reading(bal, Some(r.address));
        this.(hero := if r.lane.Hero? then reading else hero,
              shown := shown[r.chain := reading],
              addrs := addrs[r.chain := r.address])
    }

    /** A sweep's fetch that failed: `keepLastGood`. A failed hero fetch leaves the board alone. */
    function Failed(r: Request, numeric: string -> bool): Board {
      if !IsNewest(r) || r.lane.Hero? then this else
        var foreign := r.chain in addrs && addrs[r.chain] != r.address;
        if foreign || r.chain !in shown || !numeric(shown[r.chain].text)
        then this.(shown := shown[r.chain := Reading(DASH, None)])
        else this
    }

    /** A sweep over Monero before its seed is loaded. */
    function Locked(r: Request): Board {
      if !IsNewest(r) then this else this.(shown := shown[r.chain := Reading(DASH, None)])
    }

    /** Cached readings for the wallets now open: `hydrateBalances`, which is not called when none
        is. */
    function Hydrated(wallets: map<Chain, Address>, cached: map<(Chain, Address), string>,
                      numeric: string -> bool): Board {
      if wallets == map[] then this else
      this.(addrs := wallets,
            shown := map c | c in wallets && (Keeps(c, wallets[c]) || HasCached(c, wallets[c], cached, numeric)) ::
                       if Keeps(c, wallets[c]) then shown[c]
                       else Reading(cached[(c, wallets[c])], Some(wallets[c])))
    }

    predicate Keeps(c: Chain, address: Address) {
      c in shown && (c !in addrs || addrs[c] == address)
    }

    predicate HasCached(c: Chain, address: Address, cached: map<(Chain, Address), string>, numeric: string -> bool) {
      (c, address) in cached && numeric(cached[(c, address)])
    }
  }

  /** The refs as an object, changed step by step. */
  class BalanceBoard {
    var balanceReq: nat
    var chainReq: map<Chain, nat>
    var balanceAddr: map<Chain, Address>
    var balance: Reading
    var balancesByChain: map<Chain, Reading>

    function View(): Board
      reads this
    {
      Board(balanceReq, chainReq, balanceAddr, balance, balancesByChain)
    }

    constructor ()
      ensures View() == EMPTY
    {
      balanceReq, chainReq, balanceAddr, balance, balancesByChain := 0, map[], map[], Reading(RESET, None), map[];
    }

    method StartHero(chain: Chain, address: Address) returns (r: Request)
      modifies this
      ensures View() == old(View()).Bumped(Hero)
      ensures r == Request(Hero, View().Counter(Hero), chain, address)
    {
      balanceReq := balanceReq + 1;
      r := Request(Hero, balanceReq, chain, address);
    }

    method ResolveHero(r: Request, bal: string)
      requires r.lane == Hero
      modifies this
      ensures View() == old(View()).Fetched(r, bal)
    {
      if r.id != balanceReq {
        return;
      }
      balance := Reading(bal, Some(r.address));
      balancesByChain := balancesByChain[r.chain := Reading(bal, Some(r.address))];
      balanceAddr := balanceAddr[r.chain := r.address];
    }

    method StartSweep(chain: Chain, address: Address) returns (r: Request)
      modifies this
      ensures View() == old(View()).Bumped(Sweep(chain))
      ensures r == Request(Sweep(chain), View().Counter(Sweep(chain)), chain, address)
    {
      chainReq := chainReq[chain := (if chain in chainReq then chainReq[chain] else 0) + 1];
      r := Request(Sweep(chain), chainReq[chain], chain, address);
    }

    method ResolveSweep(r: Request, bal: string)
      requires r.lane == Sweep(r.chain) && r.chain in chainReq
      modifies this
      ensures View() == old(View()).Fetched(r, bal)
    {
      if r.id != chainReq[r.chain] {
        return;
      }
      balancesByChain := balancesByChain[r.chain := Reading(bal, Some(r.address))];
      balanceAddr := balanceAddr[r.chain := r.address];
    }

    method FailSweep(r: Request, numeric: string -> bool)
      requires r.lane == Sweep(r.chain) && r.chain in chainReq
      modifies this
      ensures View() == old(View()).Failed(r, numeric)
    {
      if r.id != chainReq[r.chain] {
        return;
      }
      var belongsToAnotherWallet := r.chain in balanceAddr && balanceAddr[r.chain] != r.address;
      if belongsToAnotherWallet || r.chain !in balancesByChain || !numeric(balancesByChain[r.chain].text) {
        balancesByChain := balancesByChain[r.chain := Reading(DASH, None)];
      }
    }

    method LockSweep(r: Request)
      requires r.lane == Sweep(r.chain) && r.chain in chainReq
      modifies this
      ensures View() == old(View()).Locked(r)
    {
      if r.id == chainReq[r.chain] {
        balancesByChain := balancesByChain[r.chain := Reading(DASH, None)];
      }
    }

    method ResetBalance()
      modifies this
      ensures View() == old(View()).(hero := Reading(RESET, None))
    {
      balance := Reading(RESET, None);
    }

    method Hydrate(wallets: map<Chain, Address>, cached: map<(Chain, Address), string>, numeric: string -> bool)
      modifies this
      ensures View() == old(View()).Hydrated(wallets, cached, numeric)
    {
      if wallets == map[] {
        return;
      }
      var todo := wallets.Keys;
      var balances: map<Chain, Reading> := map[];
      ghost var want := View().Hydrated(wallets, cached, numeric).shown;
      while todo != {}
        invariant todo <= wallets.Keys
        invariant View() == old(View())
        invariant balances == map c | c in want && c !in todo :: want[c]
      {
        var c :| c in todo;
        var address := wallets[c];
        if c in balancesByChain && (c !in balanceAddr || balanceAddr[c] == address) {
          balances := balances[c := balancesByChain[c]];
        } else if (c, address) in cached && numeric(cached[(c, address)]) {
          balances := balances[c := Reading(cached[(c, address)], Some(address))];
        }
        todo := todo - {c};
      }
      assert balances == want;
      balancesByChain := balances;
      balanceAddr := wallets;
    }
  }

  const EMPTY := Board(0, map[], map[], Reading(RESET, None), map[])

  // Runs.

  datatype Event =
    | StartHero(chain: Chain, address: Address)
    | StartSweep(chain: Chain, address: Address)
    | Resolve(request: Request, bal: string)
    | Fail(request: Request)
    | Lock(request: Request)
    | Hydrate(wallets: map<Chain, Address>, cached: map<(Chain, Address), string>)
    | ResetHero

  /** The board and the fetches in flight. A fetch comes back at most once, in any order. */
  datatype Session = Session(board: Board, pending: set<Request>)

  const START := Session(EMPTY, {})

  function NewRequest(b: Board, lane: Lane, chain: Chain, address: Address): Request {
    Request(lane, b.Counter(lane) + 1, chain, address)
  }

  function Step(s: Session, e: Event, numeric: string -> bool): Session {
    match e
    case StartHero(c, a) => Session(s.board.Bumped(Hero), s.pending + {NewRequest(s.board, Hero, c, a)})
    case StartSweep(c, a) => Session(s.board.Bumped(Sweep(c)), s.pending + {NewRequest(s.board, Sweep(c), c, a)})
    case Resolve(r, bal) => if r in s.pending then Session(s.board.Fetched(r, bal), s.pending - {r}) else s
    case Fail(r) => if r in s.pending then Session(s.board.Failed(r, numeric), s.pending - {r}) else s
    case Lock(r) =>
      if r in s.pending && r.lane.Sweep? then Session(s.board.Locked(r), s.pending - {r}) else s
    case Hydrate(wallets, cached) => s.(board := s.board.Hydrated(wallets, cached, numeric))
    case ResetHero => s.(board := s.board.(hero := Reading(RESET, None)))
  }

  function Run(events: seq<Event>, numeric: string -> bool): Session {
    if events == [] then START
    else Step(Run(events[..|events| - 1], numeric), events[|events| - 1], numeric)
  }

  /** Sweeps in flight are for a chain that has a counter. */
  ghost predicate Tracked(pending: set<Request>, chainReq: map<Chain, nat>) {
    forall r :: r in pending && r.lane.Sweep? ==> r.lane == Sweep(r.chain) && r.chain in chainReq
  }

  /** One event on the object. */
  method Happen(b: BalanceBoard, pending: set<Request>, e: Event, numeric: string -> bool) returns (now: set<Request>)
    requires Tracked(pending, b.chainReq)
    modifies b
    ensures Session(b.View(), now) == Step(Session(old(b.View()), pending), e, numeric)
    ensures Tracked(now, b.chainReq)
  {
    now := pending;
    match e
    case StartHero(c, a) =>
      var r := b.StartHero(c, a);
      now := pending + {r};
    case StartSweep(c, a) =>
      var r := b.StartSweep(c, a);
      now := pending + {r};
    case Resolve(r, bal) =>
      if r in pending {
        now := pending - {r};
        if r.lane.Hero? {
          b.ResolveHero(r, bal);
        } else {
          b.ResolveSweep(r, bal);
        }
      }
    case Fail(r) =>
      if r in pending {
        now := pending - {r};
        if r.lane.Sweep? {
          b.FailSweep(r, numeric);
        }
      }
    case Lock(r) =>
      if r in pending && r.lane.Sweep? {
        now := pending - {r};
        b.LockSweep(r);
      }
    case Hydrate(wallets, cached) => b.Hydrate(wallets, cached, numeric);
    case ResetHero => b.ResetBalance();
  }

  /** A whole run on the object: what the laws say of runs, they say of it. */
  method Replay(events: seq<Event>, numeric: string -> bool) returns (b: BalanceBoard, pending: set<Request>)
    ensures Session(b.View(), pending) == Run(events, numeric)
  {
    b := new BalanceBoard();
    pending := {};
    for i := 0 to |events|
      invariant Session(b.View(), pending) == Run(events[..i], numeric)
      invariant Tracked(pending, b.chainReq) && fresh(b)
    {
      pending := Happen(b, pending, events[i], numeric);
      assert events[..i + 1] == events[..i] + [events[i]];
      RunSnoc(events[..i], events[i], numeric);
    }
    assert events[..|events|] == events;
  }

  /** The request an event starts on a lane. */
  function Starts(b: Board, e: Event, lane: Lane): Option<Request> {
    match e
    case StartHero(c, a) => if lane == Hero then Some(NewRequest(b, Hero, c, a)) else None
    case StartSweep(c, a) => if lane == Sweep(c) then Some(NewRequest(b, lane, c, a)) else None
    case _ => None
  }

  /** The last request of a run on a lane. */
  function LastStarted(events: seq<Event>, lane: Lane, numeric: string -> bool): Option<Request> {
    if events == [] then None else
      var front := events[..|events| - 1];
      Starts(Run(front, numeric).board, events[|events| - 1], lane).Or(LastStarted(front, lane, numeric))
  }

  /** The ids of the successful fetches of a lane that were let through, in order. */
  function WriteIds(events: seq<Event>, lane: Lane, numeric: string -> bool): seq<nat> {
    if events == [] then [] else
      var front, e := events[..|events| - 1], events[|events| - 1];
      var s := Run(front, numeric);
      WriteIds(front, lane, numeric)
      + (if e.Resolve? && e.request in s.pending && e.request.lane == lane && s.board.IsNewest(e.request)
         then [e.request.id] else [])
  }

  /** Of a lane: ids in flight are at most the counter, no two alike, and the one that equals it is
      the last that was started. */
  ghost predicate LaneOk(s: Session, lane: Lane, last: Option<Request>) {
    && (forall r :: r in s.pending && r.lane == lane ==> 0 < r.id <= s.board.Counter(lane))
    && (forall r :: r in s.pending && r.lane == lane && s.board.IsNewest(r) ==> last == Some(r))
    && (last.Some? ==> last.value.lane == lane && s.board.IsNewest(last.value))
    && (last.None? ==> s.board.Counter(lane) == 0)
  }

  lemma StepKeepsLane(s: Session, e: Event, lane: Lane, last: Option<Request>, numeric: string -> bool)
    requires LaneOk(s, lane, last)
    ensures LaneOk(Step(s, e, numeric), lane, Starts(s.board, e, lane).Or(last))
  {
  }

  lemma {:induction false} RunKeepsLane(events: seq<Event>, lane: Lane, numeric: string -> bool)
    ensures LaneOk(Run(events, numeric), lane, LastStarted(events, lane, numeric))
  {
    if events != [] {
      var front, e := events[..|events| - 1], events[|events| - 1];
      RunKeepsLane(front, lane, numeric);
      StepKeepsLane(Run(front, numeric), e, lane, LastStarted(front, lane, numeric), numeric);
    }
  }

  /** After any run, an answer in flight is let through exactly when its request is the last one
      started on its lane: the last refresh for the focal number, the last sweep of its chain for
      a row. */
  lemma OnlyTheNewestWrites(events: seq<Event>, r: Request, numeric: string -> bool)
    requires r in Run(events, numeric).pending
    ensures Run(events, numeric).board.IsNewest(r) <==> LastStarted(events, r.lane, numeric) == Some(r)
  {
    RunKeepsLane(events, r.lane, numeric);
  }

  /** What an answer does: the last request of its lane puts its text and address under its chain, and
      in the focal place if it is a focal one; any other leaves everything. */
  lemma AnswerIsShown(events: seq<Event>, r: Request, bal: string, numeric: string -> bool)
    requires r in Run(events, numeric).pending
    ensures var before, after := Run(events, numeric).board, Run(events + [Resolve(r, bal)], numeric).board;
            if LastStarted(events, r.lane, numeric) == Some(r) then
              && after.shown == before.shown[r.chain := Reading(bal, Some(r.address))]
              && after.addrs == before.addrs[r.chain := r.address]
              && after.hero == (if r.lane == Hero then Reading(bal, Some(r.address)) else before.hero)
            else after == before
  {
    OnlyTheNewestWrites(events, r, numeric);
    RunSnoc(events, Resolve(r, bal), numeric);
  }

  /** The focal number a run leaves: the last focal answer that was let through since the last reset. */
  function FocalReading(events: seq<Event>, numeric: string -> bool): Reading {
    if events == [] then Reading(RESET, None) else
      var front, e := events[..|events| - 1], events[|events| - 1];
      match e
      case ResetHero => Reading(RESET, None)
      case Resolve(r, bal) =>
        if r in Run(front, numeric).pending && r.lane == Hero && LastStarted(front, Hero, numeric) == Some(r)
        then Reading(bal, Some(r.address)) else FocalReading(front, numeric)
      case _ => FocalReading(front, numeric)
  }

  lemma {:induction false} FocalIsTheLastAnswer(events: seq<Event>, numeric: string -> bool)
    ensures Run(events, numeric).board.hero == FocalReading(events, numeric)
  {
    if events != [] {
      var front, e := events[..|events| - 1], events[|events| - 1];
      FocalIsTheLastAnswer(front, numeric);
      assert events == front + [e];
      if e.Resolve? && e.request in Run(front, numeric).pending {
        AnswerIsShown(front, e.request, e.bal, numeric);
      }
    }
  }

  /** No written id is in flight again, nor above the counter. */
  ghost predicate WrittenBelow(s: Session, lane: Lane, ids: seq<nat>) {
    && (forall i :: 0 <= i < |ids| ==> ids[i] <= s.board.Counter(lane))
    && (forall i, r :: 0 <= i < |ids| && r in s.pending && r.lane == lane ==> r.id != ids[i])
    && (forall i, j :: 0 <= i < j < |ids| ==> ids[i] < ids[j])
  }

  lemma CounterGrows(s: Session, e: Event, lane: Lane, numeric: string -> bool)
    ensures Step(s, e, numeric).board.Counter(lane)
         == s.board.Counter(lane) + (if Starts(s.board, e, lane).Some? then 1 else 0)
    ensures forall r :: r in Step(s, e, numeric).pending && r.lane == lane ==>
              r in s.pending || Starts(s.board, e, lane) == Some(r)
  {
  }

  lemma {:induction false} WrittenStaysBelow(events: seq<Event>, lane: Lane, numeric: string -> bool)
    ensures WrittenBelow(Run(events, numeric), lane, WriteIds(events, lane, numeric))
  {
    if events != [] {
      var front, e := events[..|events| - 1], events[|events| - 1];
      WrittenStaysBelow(front, lane, numeric);
      RunKeepsLane(front, lane, numeric);
      var s, ids := Run(front, numeric), WriteIds(front, lane, numeric);
      CounterGrows(s, e, lane, numeric);
      WriteStaysBelow(s, e, lane, ids, LastStarted(front, lane, numeric), numeric);
    }
  }

  lemma WriteStaysBelow(s: Session, e: Event, lane: Lane, ids: seq<nat>, last: Option<Request>, numeric: string -> bool)
    requires WrittenBelow(s, lane, ids) && LaneOk(s, lane, last)
    ensures var written := e.Resolve? && e.request in s.pending && e.request.lane == lane
        && s.board.IsNewest(e.request);
      WrittenBelow(Step(s, e, numeric), lane, ids + (if written then [e.request.id] else []))
  {
    CounterGrows(s, e, lane, numeric);
    var s' := Step(s, e, numeric);
    if e.Resolve? && e.request in s.pending && e.request.lane == lane && s.board.IsNewest(e.request) {
      var r := e.request;
      forall q | q in s'.pending && q.lane == lane ensures q.id != r.id {
        assert q in s.pending && q != r;
      }
    }
  }

  /** Answers never go back in time: the ids of the writes of a lane strictly increase, and no
      request writes twice. */
  lemma WritesIncrease(events: seq<Event>, lane: Lane, numeric: string -> bool)
    ensures var ids := WriteIds(events, lane, numeric);
      forall i, j :: 0 <= i < j < |ids| ==> ids[i] < ids[j]
  {
    WrittenStaysBelow(events, lane, numeric);
  }

  // Whose balance is on display.

  /** A reading under a chain is of the address recorded for the chain, and only placeholders have
      no address. */
  ghost predicate Honest(b: Board, numeric: string -> bool) {
    && (forall c :: c in b.shown && b.shown[c].of.Some? ==> c in b.addrs && b.shown[c].of == Some(b.addrs[c]))
    && (forall c :: c in b.shown && b.shown[c].of.None? ==> !numeric(b.shown[c].text))
  }

  lemma {:induction false} RecordedAddressIsTheFetched(events: seq<Event>, numeric: string -> bool)
    requires TellsNumbers(numeric)
    ensures Honest(Run(events, numeric).board, numeric)
  {
    if events != [] {
      var front := events[..|events| - 1];
      RecordedAddressIsTheFetched(front, numeric);
      StepIsHonest(Run(front, numeric), events[|events| - 1], numeric);
    }
  }

  lemma StepIsHonest(s: Session, e: Event, numeric: string -> bool)
    requires TellsNumbers(numeric) && Honest(s.board, numeric)
    ensures Honest(Step(s, e, numeric).board, numeric)
  {
  }

  /** When the sweep fails for an address, the number that stays under its chain is a balance of
      that address: another wallet's number is replaced by a dash. */
  lemma FailureKeepsOwnNumbersOnly(events: seq<Event>, r: Request, numeric: string -> bool)
    requires TellsNumbers(numeric)
    requires r in Run(events, numeric).pending && r.lane == Sweep(r.chain)
    requires Run(events, numeric).board.IsNewest(r)
    ensures var before, after := Run(events, numeric).board, Run(events + [Fail(r)], numeric).board;
      && r.chain in after.shown
      && (if r.chain in before.shown && numeric(before.shown[r.chain].text)
         && before.shown[r.chain].of == Some(r.address)
          then after == before
          else after.shown[r.chain] == Reading(DASH, None))
  {
    RecordedAddressIsTheFetched(events, numeric);
    assert (events + [Fail(r)])[..|events|] == events;
  }

  /** A coin whose wallet is locked shows a dash, if the sweep that found it so is the newest; nothing
      else changes. */
  lemma LockShowsADash(events: seq<Event>, r: Request, numeric: string -> bool)
    requires r in Run(events, numeric).pending && r.lane == Sweep(r.chain)
    ensures var before, after := Run(events, numeric).board, Run(events + [Lock(r)], numeric).board;
            after == if LastStarted(events, r.lane, numeric) == Some(r)
                     then before.(shown := before.shown[r.chain := Reading(DASH, None)]) else before
  {
    OnlyTheNewestWrites(events, r, numeric);
    RunSnoc(events, Lock(r), numeric);
  }

  /** Of the numbers on display, hydrating keeps exactly those of the wallets now open; the rest gives
      way to the open wallet's cached number, or to nothing. */
  lemma NumbersKeptExactly(events: seq<Event>, wallets: map<Chain, Address>, cached: map<(Chain, Address), string>,
                           numeric: string -> bool, c: Chain)
    requires TellsNumbers(numeric) && c in wallets
    requires c in Run(events, numeric).board.shown && numeric(Run(events, numeric).board.shown[c].text)
    ensures var before := Run(events, numeric).board;
            var after := Run(events + [Hydrate(wallets, cached)], numeric).board;
            && after.addrs == wallets && after.hero == before.hero
            && (if before.shown[c].of == Some(wallets[c]) then c in after.shown && after.shown[c] == before.shown[c]
                else if (c, wallets[c]) in cached && numeric(cached[(c, wallets[c])])
                then c in after.shown && after.shown[c] == Reading(cached[(c, wallets[c])], Some(wallets[c]))
                else c !in after.shown)
  {
    RecordedAddressIsTheFetched(events, numeric);
    RunSnoc(events, Hydrate(wallets, cached), numeric);
  }

  /** Switching wallets carries no number across: every reading left is of the wallet now open.
      Closing all wallets leaves the rows as they were. */
  lemma SwitchShowsOwnNumbersOnly(events: seq<Event>, wallets: map<Chain, Address>,
                                  cached: map<(Chain, Address), string>, numeric: string -> bool)
    requires TellsNumbers(numeric) && wallets != map[]
    ensures var after := Run(events + [Hydrate(wallets, cached)], numeric).board;
      forall c :: c in after.shown && after.shown[c].of.Some? ==> c in wallets && after.shown[c].of == Some(wallets[c])
  {
    RecordedAddressIsTheFetched(events, numeric);
    assert (events + [Hydrate(wallets, cached)])[..|events|] == events;
  }

  ghost predicate OwnNumber(b: Board, c: Chain, address: Address) {
    c in b.shown && b.shown[c].of.Some? ==> b.shown[c].of == Some(address)
  }

  /** One answer: it puts another wallet's number under a chain exactly when it is for that chain,
      for another address, and still the newest of its lane. */
  lemma ForeignAnswer(s: Session, r: Request, bal: string, c: Chain, address: Address, numeric: string -> bool)
    requires r in s.pending && OwnNumber(s.board, c, address)
    ensures OwnNumber(Step(s, Resolve(r, bal), numeric).board, c, address)
       <==> !(r.chain == c && r.address != address && s.board.IsNewest(r))
  {
  }

  /** The requests an event starts are for open wallets, and it is no other hydration. */
  predicate ForOpen(e: Event, wallets: map<Chain, Address>) {
    match e
    case StartHero(c, a) => c in wallets && wallets[c] == a
    case StartSweep(c, a) => c in wallets && wallets[c] == a
    case Hydrate(_, _) => false
    case _ => true
  }

  /** The event lets a late answer through: its request was in flight at the switch, for this chain
      and another address, and is still the last one started on its lane. */
  ghost predicate LateForeign(atSwitch: Session, before: seq<Event>, e: Event, c: Chain, address: Address,
                              numeric: string -> bool)
  {
    && e.Resolve? && e.request in atSwitch.pending && e.request in Run(before, numeric).pending
    && e.request.chain == c && e.request.address != address
    && LastStarted(before, e.request.lane, numeric) == Some(e.request)
  }

  /** What is in flight after a switch was in flight at it, or is for an open wallet. */
  ghost predicate PendingKnown(s: Session, atSwitch: Session, wallets: map<Chain, Address>) {
    forall r :: r in s.pending ==> r in atSwitch.pending || (r.chain in wallets && wallets[r.chain] == r.address)
  }

  lemma {:induction false} PendingStaysKnown(base: seq<Event>, es: seq<Event>, wallets: map<Chain, Address>,
                                             numeric: string -> bool)
    requires forall i :: 0 <= i < |es| ==> ForOpen(es[i], wallets)
    ensures PendingKnown(Run(base + es, numeric), Run(base, numeric), wallets)
  {
    if es == [] {
      assert base + es == base;
    } else {
      var front, e := es[..|es| - 1], es[|es| - 1];
      PendingStaysKnown(base, front, wallets, numeric);
      assert base + es == (base + front) + [e];
      RunSnoc(base + front, e, numeric);
      hide Run;
      assert ForOpen(e, wallets);
    }
  }

  /** One event after a switch keeps the chain's own number unless it lets a late answer through. */
  lemma EventAfterSwitch(base: seq<Event>, es: seq<Event>, e: Event, wallets: map<Chain, Address>, c: Chain,
                         numeric: string -> bool)
    requires c in wallets && ForOpen(e, wallets) && forall i :: 0 <= i < |es| ==> ForOpen(es[i], wallets)
    requires OwnNumber(Run(base + es, numeric).board, c, wallets[c])
    ensures OwnNumber(Run(base + es + [e], numeric).board, c, wallets[c])
       <==> !LateForeign(Run(base, numeric), base + es, e, c, wallets[c], numeric)
  {
    var s := Run(base + es, numeric);
    RunSnoc(base + es, e, numeric);
    PendingStaysKnown(base, es, wallets, numeric);
    if e.Resolve? && e.request in s.pending {
      OnlyTheNewestWrites(base + es, e.request, numeric);
      ForeignAnswer(s, e.request, e.bal, c, wallets[c], numeric);
    }
    hide Run, LastStarted;
  }

  /** After a switch, and as long as new requests are for the open wallets, a chain shows its own
      wallet's number at every moment exactly when no request from before the switch, for the chain
      and another address, comes back while it is still the last one started on its lane. Nothing
      but a new request makes it stale: a switch does not raise the counters. */
  lemma {:induction false} ForeignNumberExactly(base: seq<Event>, es: seq<Event>, wallets: map<Chain, Address>,
                                                c: Chain,
                                                numeric: string -> bool)
    requires c in wallets && forall i :: 0 <= i < |es| ==> ForOpen(es[i], wallets)
    requires OwnNumber(Run(base, numeric).board, c, wallets[c])
    ensures OwnThroughout(base, es, c, wallets[c], numeric) <==> NoLateForeign(base, es, c, wallets[c], numeric)
  {
    if es == [] {
      assert base + es[..0] == base;
    } else {
      var front, e := es[..|es| - 1], es[|es| - 1];
      ForeignNumberExactly(base, front, wallets, c, numeric);
      PrefixesSnoc(base, front, e, c, wallets[c], numeric);
      assert es == front + [e];
      assert ForOpen(e, wallets);
      if OwnThroughout(base, front, c, wallets[c], numeric) {
        assert front[..|front|] == front;
        EventAfterSwitch(base, front, e, wallets, c, numeric);
      }
    }
  }

  ghost predicate OwnThroughout(base: seq<Event>, es: seq<Event>, c: Chain, address: Address, numeric: string -> bool) {
    forall n :: 0 <= n <= |es| ==> OwnNumber(Run(base + es[..n], numeric).board, c, address)
  }

  ghost predicate NoLateForeign(base: seq<Event>, es: seq<Event>, c: Chain, address: Address, numeric: string -> bool) {
    forall n :: 0 <= n < |es| ==> !LateForeign(Run(base, numeric), base + es[..n], es[n], c, address, numeric)
  }

  lemma PrefixesSnoc(base: seq<Event>, es: seq<Event>, e: Event, c: Chain, address: Address, numeric: string -> bool)
    ensures OwnThroughout(base, es + [e], c, address, numeric)
       <==> OwnThroughout(base, es, c, address, numeric) && OwnNumber(Run(base + es + [e], numeric).board, c, address)
    ensures NoLateForeign(base, es + [e], c, address, numeric)
       <==> NoLateForeign(base, es, c, address, numeric)
            && !LateForeign(Run(base, numeric), base + es, e, c, address, numeric)
  {
    var all := es + [e];
    hide Run, LateForeign, OwnNumber;
    assert all[..|es| + 1] == all && base + all == base + es + [e];
    assert forall n :: 0 <= n <= |es| ==> all[..n] == es[..n];
    assert es[..|es|] == es;
    forall n | 0 <= n < |es| ensures all[n] == es[n] && all[..n] == es[..n] {
    }
    assert all[|es|] == e;
  }

  /** So it is after hydrating for the wallets now open, whatever came before. */
  lemma SwitchIsSafeExactly(before: seq<Event>, cached: map<(Chain, Address), string>, es: seq<Event>,
                            wallets: map<Chain, Address>, c: Chain, numeric: string -> bool)
    requires TellsNumbers(numeric) && c in wallets && forall i :: 0 <= i < |es| ==> ForOpen(es[i], wallets)
    ensures var base := before + [Hydrate(wallets, cached)];
            OwnThroughout(base, es, c, wallets[c], numeric) <==> NoLateForeign(base, es, c, wallets[c], numeric)
  {
    SwitchShowsOwnNumbersOnly(before, wallets, cached, numeric);
    hide Run, OwnThroughout, NoLateForeign;
    ForeignNumberExactly(before + [Hydrate(wallets, cached)], es, wallets, c, numeric);
  }

  predicate Displays(b: Board, c: Chain, text: string, address: Address) {
    && c in b.shown && b.shown[c] == Reading(text, Some(address))
    && c in b.addrs && b.addrs[c] == address
  }

  /** A focal refresh starts, the wallet is switched, and a sweep of the new wallet is started and
      answered. */
  function SwitchDuringRefresh(c: Chain, before: Address, after: Address, mine: string): seq<Event> {
    [StartHero(c, before), Hydrate(map[c := after], map[]), StartSweep(c, after),
     Resolve(Request(Sweep(c), 1, c, after), mine)]
  }

  /** The board and the pending request after each of the four events. */
  function SwitchedStates(c: Chain, before: Address, after: Address, mine: string): (r: seq<Session>)
    ensures |r| == 4
  {
    var focal, row := Request(Hero, 1, c, before), Request(Sweep(c), 1, c, after);
    var b1 := EMPTY.(heroReq := 1);
    var b2 := b1.(addrs := map[c := after]);
    var b3 := b2.(chainReq := map[c := 1]);
    var b4 := b3.(shown := map[c := Reading(mine, Some(after))]);
    [Session(b1, {focal}), Session(b2, {focal}), Session(b3, {focal, row}), Session(b4, {focal})]
  }

  lemma FirstSwitchStep(c: Chain, before: Address, after: Address, mine: string, numeric: string -> bool)
    ensures Step(START, StartHero(c, before), numeric) == SwitchedStates(c, before, after, mine)[0]
  {
  }

  lemma SecondSwitchStep(c: Chain, before: Address, after: Address, mine: string, numeric: string -> bool)
    ensures Step(SwitchedStates(c, before, after, mine)[0], Hydrate(map[c := after], map[]), numeric)
         == SwitchedStates(c, before, after, mine)[1]
  {
    assert c in map[c := after];
  }

  lemma ThirdSwitchStep(c: Chain, before: Address, after: Address, mine: string, numeric: string -> bool)
    ensures Step(SwitchedStates(c, before, after, mine)[1], StartSweep(c, after), numeric)
         == SwitchedStates(c, before, after, mine)[2]
  {
    assert {Request(Hero, 1, c, before)} + {Request(Sweep(c), 1, c, after)}
        == {Request(Hero, 1, c, before), Request(Sweep(c), 1, c, after)};
  }

  lemma FourthSwitchStep(c: Chain, before: Address, after: Address, mine: string, numeric: string -> bool)
    ensures Step(SwitchedStates(c, before, after, mine)[2], Resolve(Request(Sweep(c), 1, c, after), mine), numeric)
         == SwitchedStates(c, before, after, mine)[3]
  {
    var focal, row := Request(Hero, 1, c, before), Request(Sweep(c), 1, c, after);
    assert {focal, row} - {row} == {focal};
    assert map[c := after][c := after] == map[c := after];
  }

  lemma SwitchedBoard(c: Chain, before: Address, after: Address, mine: string, numeric: string -> bool)
    ensures Run(SwitchDuringRefresh(c, before, after, mine), numeric) == SwitchedStates(c, before, after, mine)[3]
  {
    var e1, e2, e3 := StartHero(c, before), Hydrate(map[c := after], map[]), StartSweep(c, after);
    var e4 := Resolve(Request(Sweep(c), 1, c, after), mine);
    assert [] + [e1] == [e1] && [e1] + [e2] == [e1, e2] && [e1, e2] + [e3] == [e1, e2, e3];
    assert SwitchDuringRefresh(c, before, after, mine) == [e1, e2, e3] + [e4];
    assert Run([], numeric) == START;
    hide Run, Step, SwitchedStates;
    RunSnoc([], e1, numeric);
    RunSnoc([e1], e2, numeric);
    RunSnoc([e1, e2], e3, numeric);
    RunSnoc([e1, e2, e3], e4, numeric);
    FirstSwitchStep(c, before, after, mine, numeric);
    SecondSwitchStep(c, before, after, mine, numeric);
    ThirdSwitchStep(c, before, after, mine, numeric);
    FourthSwitchStep(c, before, after, mine, numeric);
  }

  /** The two lanes do not know each other: the row shows the new wallet's number, fetched by the
      newest sweep, and then the old wallet's again, with its address on record, when the focal
      refresh from before the switch comes back. */
  lemma LateFocalAnswerOverwritesTheSweep(c: Chain, before: Address, after: Address, mine: string, theirs: string,
                                          numeric: string -> bool)
    ensures var events := SwitchDuringRefresh(c, before, after, mine);
      && Displays(Run(events, numeric).board, c, mine, after)
      && Displays(Run(events + [Resolve(Request(Hero, 1, c, before), theirs)], numeric).board, c, theirs, before)
  {
    hide Run, SwitchDuringRefresh;
    SwitchedBoard(c, before, after, mine, numeric);
    RunSnoc(SwitchDuringRefresh(c, before, after, mine), Resolve(Request(Hero, 1, c, before), theirs), numeric);
  }

  lemma RunSnoc(events: seq<Event>, e: Event, numeric: string -> bool)
    ensures Run(events + [e], numeric) == Step(Run(events, numeric), e, numeric)
  {
    assert (events + [e])[..|events|] == events;
  }
}
