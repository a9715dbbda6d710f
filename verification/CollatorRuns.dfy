/** Whole runs of the collator pallet: bonds are conserved however its calls interleave with one
    another, with sessions, and with the rest of the runtime. */
module CollatorRuns {
  import opened Eviction
  import opened CollatorBonds
  import opened CollatorSelection
  import Pallet = CollatorSelection
  import PotRewards

  /** `other` is what the rest of the runtime holds in reserve for each account. */
  datatype World = World(
    book: Book, performance: Performance, invulnerables: seq<AccountId>, desired: nat, bond: nat,
    baseline: Percent, tolerance: Percent, pot: AccountId, minimumBalance: nat, other: map<AccountId, nat>)

  /** `Elsewhere` is the rest of the runtime: it sets the free balance of an account and what it
      holds in reserve itself, and leaves the reserve of the pallet alone. */
  datatype Event =
    | Register(who: AccountId, facts: AccountFacts)
    | Leave(who: AccountId)
    | Remove(isUpdateOrigin: bool, who: AccountId)
    | Author(author: AccountId)
    | Session(validators: seq<AccountId>)
    | SetBond(bond: nat)
    | SetInvulnerables(invulnerables: seq<AccountId>)
    | SetDesired(desired: nat)
    | SetEviction(baseline: Percent, tolerance: Percent)
    | Elsewhere(who: AccountId, free: nat, reserved: nat)

  function Minus(a: nat, b: nat): nat { if a < b then 0 else a - b }

  function Removing(w: World, who: AccountId): World {
    w.(book := RemoveOne(w.book, who).GetOr(w.book))
  }

  /** Who would be removed if the session ended now. */
  ghost function Losers(w: World): set<AccountId> {
    Evicted(w.performance, w.baseline, w.tolerance, w.book.candidates)
  }

  ghost function Next(w: World, e: Event): World {
    match e
    case Register(who, facts) =>
      (match Enrol(w.book, w.invulnerables, w.desired, w.bond, who, facts)
       case Ok(book) => w.(book := book)
       case Err(_) => w)
    case Leave(who) => Removing(w, who)
    case Remove(isUpdateOrigin, who) =>
      if !isUpdateOrigin || who in w.invulnerables then w else Removing(w, who)
    case Author(author) =>
      w.(book := w.book.(bank := PotRewards.NoteAuthor(w.book.bank, w.minimumBalance, w.pot, author)),
         performance := WithBlock(w.performance, author))
    case Session(validators) =>
      w.(book := Released(w.book, Losers(w)),
         performance := if validators == [] then w.performance else ZeroFor(validators))
    case SetBond(bond) => w.(bond := bond)
    case SetInvulnerables(invulnerables) => w.(invulnerables := invulnerables)
    case SetDesired(desired) => w.(desired := desired)
    case SetEviction(baseline, tolerance) => w.(baseline := baseline, tolerance := tolerance)
    case Elsewhere(who, free, reserved) =>
      var ours := Minus(w.book.bank.Reserved(who), Foreign(w.other, who));
      w.(book := w.book.(bank := Bank(w.book.bank.freeOf[who := free],
                                      w.book.bank.reservedOf[who := reserved + ours])),
         other := w.other[who := reserved])
  }

  ghost function Run(w: World, events: seq<Event>): World
    decreases |events|
  {
    if events == [] then w else Run(Next(w, events[0]), events[1..])
  }

  // ---- The runs are the pallet's ----

  /** The pallet as a world; `other` is what the rest of the runtime holds in reserve. */
  ghost function WorldOf(c: Pallet.CollatorSelection, other: map<AccountId, nat>): World
    reads c
  {
    World(c.Books(), c.blocksPerCollatorThisSession, c.invulnerables, c.desiredCandidates, c.candidacyBond,
          c.evictionBaseline, c.evictionTolerance, c.pot, c.minimumBalance, other)
  }

  /** Every event but those of the rest of the runtime is a call of the pallet, with the same effect. */
  method Deliver(c: Pallet.CollatorSelection, e: Event, ghost other: map<AccountId, nat>)
    requires !e.Elsewhere? && DistinctCandidates(c.candidates)
    modifies c
    ensures WorldOf(c, other) == Next(old(WorldOf(c, other)), e)
  {
    match e {
      case Register(who, facts) => var _ := c.RegisterAsCandidate(who, facts);
      case Leave(who) => var _ := c.LeaveIntent(who);
      case Remove(isUpdateOrigin, who) => var _ := c.RemoveCollator(isUpdateOrigin, who);
      case Author(author) => var _ := c.NoteAuthor(author);
      case Session(validators) => var _ := c.NewSession(validators);
      case SetBond(bond) => c.candidacyBond := bond;
      case SetInvulnerables(invulnerables) => c.invulnerables := invulnerables;
      case SetDesired(desired) => c.desiredCandidates := desired;
      case SetEviction(baseline, tolerance) =>
        c.evictionBaseline := baseline;
        c.evictionTolerance := tolerance;
    }
  }

  lemma NextKeepsBonds(w: World, e: Event)
    requires BondsHeld(w.book, w.other)
    ensures BondsHeld(Next(w, e).book, Next(w, e).other)
  {
    match e
    case Register(who, facts) =>
      if Enrol(w.book, w.invulnerables, w.desired, w.bond, who, facts).Ok? {
        EnrolKeepsBonds(w.book, w.other, who, w.bond, facts.liquid);
      }
    case Leave(who) =>
      if HasCandidate(w.book.candidates, who) {
        RemoveReturnsDeposit(w.book, w.other, who);
      }
    case Remove(_, who) =>
      if HasCandidate(w.book.candidates, who) {
        RemoveReturnsDeposit(w.book, w.other, who);
      }
    case Session(_) =>
      ReleaseKeepsBonds(w.book, w.other, Losers(w));
    case _ =>
  }

  /** In every reachable state the candidates are distinct and an account's reserve held by the
      pallet is its recorded deposit, 0 for those who are no candidates. */
  lemma {:induction false} BondConservation(w: World, events: seq<Event>)
    requires BondsHeld(w.book, w.other)
    ensures var w' := Run(w, events);
      && DistinctCandidates(w'.book.candidates)
      && (forall i :: 0 <= i < |w'.book.candidates| ==> var c := w'.book.candidates[i];
            w'.book.bank.Reserved(c.who) - Foreign(w'.other, c.who) == c.deposit)
      && (forall a :: !HasCandidate(w'.book.candidates, a) ==> w'.book.bank.Reserved(a) == Foreign(w'.other, a))
    decreases |events|
  {
    if events == [] {
      forall a | !HasCandidate(w.book.candidates, a) ensures DepositOf(w.book.candidates, a) == 0 {
        NoCandidateNoDeposit(w.book.candidates, a);
      }
      forall i: nat | i < |w.book.candidates|
        ensures DepositOf(w.book.candidates, w.book.candidates[i].who) == w.book.candidates[i].deposit
      {
        WithoutFirstSplits(w.book.candidates, w.book.candidates[i].who, i);
      }
    } else {
      NextKeepsBonds(w, events[0]);
      BondConservation(Next(w, events[0]), events[1..]);
    }
  }

  // ---- The bond taken is the bond returned ----

  /** The account is a candidate all through the run. */
  ghost predicate Stays(w: World, events: seq<Event>, who: AccountId)
    decreases |events|
  {
    && HasCandidate(w.book.candidates, who)
    && (events != [] ==> Stays(Next(w, events[0]), events[1..], who))
  }

  lemma NextKeepsDeposit(w: World, e: Event, who: AccountId)
    requires BondsHeld(w.book, w.other)
    requires HasCandidate(w.book.candidates, who) && HasCandidate(Next(w, e).book.candidates, who)
    ensures DepositOf(Next(w, e).book.candidates, who) == DepositOf(w.book.candidates, who)
  {
    match e
    case Register(x, facts) =>
      if Enrol(w.book, w.invulnerables, w.desired, w.bond, x, facts).Ok? {
        DepositAfterPush(w.book.candidates, CandidateInfo(x, w.bond), who);
      }
    case Leave(x) => WithoutFirstKeeps(w.book.candidates, x);
    case Remove(_, x) => WithoutFirstKeeps(w.book.candidates, x);
    case Session(_) =>
      DepositWithout(w.book.candidates, Losers(w), who);
      WithoutHas(w.book.candidates, Losers(w), who);
    case _ =>
  }

  lemma {:induction false} DepositFixed(w: World, events: seq<Event>, who: AccountId)
    requires BondsHeld(w.book, w.other) && Stays(w, events, who)
    ensures DepositOf(Run(w, events).book.candidates, who) == DepositOf(w.book.candidates, who)
    ensures BondsHeld(Run(w, events).book, Run(w, events).other) && HasCandidate(Run(w, events).book.candidates, who)
    decreases |events|
  {
    if events != [] {
      NextKeepsBonds(w, events[0]);
      NextKeepsDeposit(w, events[0], who);
      DepositFixed(Next(w, events[0]), events[1..], who);
    }
  }

  /** Registration takes the bond of the day from the free balance; whatever happens to the bond
      parameter and to everyone else, leaving later returns exactly that amount. */
  lemma BondComesBack(w: World, who: AccountId, facts: AccountFacts, between: seq<Event>)
    requires BondsHeld(w.book, w.other)
    requires Enrol(w.book, w.invulnerables, w.desired, w.bond, who, facts).Ok?
    requires Stays(Next(w, Register(who, facts)), between, who)
    ensures var enrolled := Next(w, Register(who, facts));
            var later := Run(enrolled, between);
            var left := Next(later, Leave(who));
      && enrolled.book.bank.Free(who) == w.book.bank.Free(who) - w.bond
      && left.book.bank.Free(who) == later.book.bank.Free(who) + w.bond
      && left.book.bank.Reserved(who) == Foreign(left.other, who)
      && !HasCandidate(left.book.candidates, who)
  {
    var enrolled := Next(w, Register(who, facts));
    var later := Run(enrolled, between);
    NextKeepsBonds(w, Register(who, facts));
    DepositAfterPush(w.book.candidates, CandidateInfo(who, w.bond), who);
    DepositFixed(enrolled, between, who);
    RemoveReturnsDeposit(later.book, later.other, who);
    WithoutFirstKeeps(later.book.candidates, who);
  }

  // ---- Who a session evicts ----

  /** The blocks a authored in these events. */
  function Blocks(events: seq<Event>, a: AccountId): nat
    decreases |events|
  {
    if events == [] then 0
    else (if events[0] == Author(a) then 1 else 0) + Blocks(events[1..], a)
  }

  function Saturated(n: nat): BlockCount { if n < U32_MAX then n else U32_MAX }

  /** The records are the earlier ones plus the blocks authored in these events. */
  ghost predicate Adds(perf: Performance, events: seq<Event>, later: Performance) {
    forall a ::
      && (a in later <==> a in perf || Blocks(events, a) > 0)
      && (a in later ==> later[a] == Saturated((if a in perf then perf[a] else 0) + Blocks(events, a)))
  }

  /** No session with validators begins in these events. */
  predicate SameSession(events: seq<Event>) {
    forall i :: 0 <= i < |events| && events[i].Session? ==> events[i].validators == []
  }

  lemma EventRecords(w: World, e: Event)
    requires e.Session? ==> e.validators == []
    ensures Next(w, e).performance == if e.Author? then WithBlock(w.performance, e.author) else w.performance
  {
    hide Released, Losers, RemoveOne, Enrol, WithBlock;
  }

  lemma AddsOneMore(perf: Performance, events: seq<Event>, later: Performance)
    requires events != []
    requires Adds(if events[0].Author? then WithBlock(perf, events[0].author) else perf, events[1..], later)
    ensures Adds(perf, events, later)
  {
  }

  lemma {:induction false} RecordsAddUp(w: World, events: seq<Event>)
    requires SameSession(events)
    ensures Adds(w.performance, events, Run(w, events).performance)
    decreases |events|
  {
    if events != [] {
      hide Next, Adds, WithBlock;
      EventRecords(w, events[0]);
      RecordsAddUp(Next(w, events[0]), events[1..]);
      AddsOneMore(w.performance, events, Run(w, events).performance);
    }
  }

  lemma {:induction false} RunInTwo(w: World, a: seq<Event>, b: seq<Event>)
    ensures Run(w, a + b) == Run(Run(w, a), b)
    decreases |a|
  {
    if a == [] {
      assert a + b == b;
    } else {
      assert (a + b)[1..] == a[1..] + b;
      RunInTwo(Next(w, a[0]), a[1..], b);
    }
  }

  /** However everything interleaves: since the last session with validators the records are exactly
      its validators and the later authors with the number of blocks each authored, and the next
      session removes exactly the candidates whose number is below the threshold of these numbers. */
  lemma SessionJudgesBlocks(
    w: World, before: seq<Event>, validators: seq<AccountId>, since: seq<Event>, next: seq<AccountId>)
    requires validators != [] && SameSession(since)
    ensures var now := Run(w, before + [Session(validators)] + since);
            var counts := now.performance;
            var after := Next(now, Session(next));
      && (forall a :: a in counts <==> a in validators || Blocks(since, a) > 0)
      && (forall a :: a in counts ==> counts[a] == Saturated(Blocks(since, a)))
      && SurvivorsAre(counts, now.baseline, now.tolerance, now.book.candidates, after.book.candidates)
  {
    hide SurvivorsAre;
    var earlier := Run(w, before);
    var now := Run(w, before + [Session(validators)] + since);
    RunInTwo(w, before + [Session(validators)], since);
    RunInTwo(w, before, [Session(validators)]);
    assert [Session(validators)][1..] == [];
    assert Run(earlier, [Session(validators)]) == Next(earlier, Session(validators));
    RecordsAddUp(Next(earlier, Session(validators)), since);
    SurvivorsInNumbers(now.performance, now.baseline, now.tolerance, now.book.candidates);
  }
}
