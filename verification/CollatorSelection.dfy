/** The collator pallet: candidates with bonds, eviction at the end of a session, and rewards. */
module CollatorSelection {
  import opened Wrappers
  import opened Eviction
  import opened CollatorBonds
  import opened PotRewards

  datatype Error =
    | BadOrigin
    | TooManyCandidates
    | AlreadyInvulnerable
    | NoAssociatedValidatorId
    | ValidatorNotRegistered
    | AlreadyCandidate
    | NotCandidate
    | NotAllowRemoveInvulnerable
    | InsufficientBalance

  /** What the session pallet and the currency's locks say about an account. */
  datatype AccountFacts = AccountFacts(hasValidatorId: bool, isRegistered: bool, liquid: bool)

  /** Registering an account with the bond of the day: the checks in their order, then the effect. */
  function Enrol(
    book: Book, invulnerables: seq<AccountId>, desired: nat, bond: nat, who: AccountId, facts: AccountFacts)
    : Result<Book, Error>
  {
    if |book.candidates| >= desired then Err(TooManyCandidates)
    else if who in invulnerables then Err(AlreadyInvulnerable)
    else if !facts.hasValidatorId then Err(NoAssociatedValidatorId)
    else if !facts.isRegistered then Err(ValidatorNotRegistered)
    else if HasCandidate(book.candidates, who) then Err(AlreadyCandidate)
    else
      match book.bank.Reserve(who, bond, facts.liquid)
      case None => Err(Error.InsufficientBalance)
      case Some(bank) => Ok(Book(book.candidates + [CandidateInfo(who, bond)], bank))
  }

  /** The first thing that is wrong decides the error. */
  lemma EnrolIff(
    book: Book, invulnerables: seq<AccountId>, desired: nat, bond: nat, who: AccountId, facts: AccountFacts)
    ensures var e := Enrol(book, invulnerables, desired, bond, who, facts);
      var room := |book.candidates| < desired;
      var isNew := forall i :: 0 <= i < |book.candidates| ==> book.candidates[i].who != who;
      var outside := forall i :: 0 <= i < |invulnerables| ==> invulnerables[i] != who;
      && (e.Ok? <==> && room && outside && facts.hasValidatorId && facts.isRegistered && isNew
                     && (bond == 0 || (facts.liquid && book.bank.Free(who) >= bond)))
      && (e == Err(TooManyCandidates) <==> !room)
      && (e == Err(AlreadyInvulnerable) <==> room && !outside)
      && (e == Err(NoAssociatedValidatorId) <==> room && outside && !facts.hasValidatorId)
      && (e == Err(ValidatorNotRegistered) <==> room && outside && facts.hasValidatorId && !facts.isRegistered)
      && (e == Err(AlreadyCandidate)
          <==> room && outside && facts.hasValidatorId && facts.isRegistered && !isNew)
  {
  }

  /** A successful registration appends the account with the bond and moves the bond from its free
      balance into its reserve; nothing else changes. */
  lemma EnrolMovesBond(
    book: Book, invulnerables: seq<AccountId>, desired: nat, bond: nat, who: AccountId, facts: AccountFacts)
    requires Enrol(book, invulnerables, desired, bond, who, facts).Ok?
    ensures var book' := Enrol(book, invulnerables, desired, bond, who, facts).value;
      && |book'.candidates| == |book.candidates| + 1
      && book'.candidates[|book.candidates|] == CandidateInfo(who, bond)
      && (forall i :: 0 <= i < |book.candidates| ==> book'.candidates[i] == book.candidates[i])
      && book'.bank.Free(who) + bond == book.bank.Free(who)
      && book'.bank.Reserved(who) == book.bank.Reserved(who) + bond
      && (forall a :: a != who ==> book'.bank.Free(a) == book.bank.Free(a))
      && (forall a :: a != who ==> book'.bank.Reserved(a) == book.bank.Reserved(a))
  {
  }

  // ---- Sorting ----

  function InsertRecord(x: Record, v: seq<Record>): seq<Record> {
    if v == [] || x.1 <= v[0].1 then [x] + v else [v[0]] + InsertRecord(x, v[1..])
  }

  lemma {:induction false} InsertRecordAdds(x: Record, v: seq<Record>)
    ensures multiset(InsertRecord(x, v)) == multiset(v) + multiset{x}
  {
    if v != [] && v[0].1 < x.1 {
      InsertRecordAdds(x, v[1..]);
      assert v == [v[0]] + v[1..];
    }
  }

  lemma {:induction false} InsertRecordSorts(x: Record, v: seq<Record>)
    requires Ascending(v)
    ensures Ascending(InsertRecord(x, v))
  {
    if v != [] && v[0].1 < x.1 {
      InsertRecordSorts(x, v[1..]);
      InsertRecordAdds(x, v[1..]);
      var tail := InsertRecord(x, v[1..]);
      forall i | 0 <= i < |tail| ensures v[0].1 <= tail[i].1 {
        assert tail[i] in multiset(tail);
        assert tail[i] == x || tail[i] in v[1..];
      }
    }
  }

  /** `sort_unstable_by_key` on the count. Callers may rely on nothing about the order of ties. */
  method SortUnstableByBlocks(records: seq<Record>) returns (sorted: seq<Record>)
    ensures Ascending(sorted) && multiset(sorted) == multiset(records)
  {
    sorted := [];
    for i := 0 to |records|
      invariant Ascending(sorted) && multiset(sorted) == multiset(records[..i])
    {
      InsertRecordSorts(records[i], sorted);
      InsertRecordAdds(records[i], sorted);
      assert records[..i + 1] == records[..i] + [records[i]];
      sorted := InsertRecord(records[i], sorted);
    }
    assert records[..|records|] == records;
  }

  /** Iterating a storage map: every record once, in an order nobody may rely on. */
  method Iterate(perf: Performance) returns (records: seq<Record>)
    ensures Lists(records, perf)
  {
    records := [];
    var left := perf.Items;
    while left != {}
      invariant multiset(records) + multiset(left) == multiset(perf.Items)
      decreases left
    {
      var r :| r in left;
      records, left := records + [r], left - {r};
    }
  }

  // ---- Eviction over any ascending list ----

  /** The accounts that the scan of the first `upto` records removes, in order. */
  function Kicked(
    records: seq<Record>, upto: nat, threshold: nat, candidates: seq<CandidateInfo>, stored: seq<CandidateInfo>)
    : (r: seq<AccountId>)
    requires upto <= |records|
    decreases upto
  {
    if upto == 0 then []
    else
      var (who, blocks) := records[upto - 1];
      Kicked(records, upto - 1, threshold, candidates, stored)
      + if blocks < threshold && HasCandidate(candidates, who) && HasCandidate(stored, who) then [who] else []
  }

  lemma {:induction false} KickedMember(
    records: seq<Record>, upto: nat, threshold: nat, candidates: seq<CandidateInfo>, stored: seq<CandidateInfo>,
    a: AccountId)
    requires upto <= |records|
    ensures a in Kicked(records, upto, threshold, candidates, stored)
            <==> && HasCandidate(candidates, a) && HasCandidate(stored, a)
                 && exists i :: 0 <= i < upto && records[i].0 == a && records[i].1 < threshold
  {
    if upto > 0 {
      KickedMember(records, upto - 1, threshold, candidates, stored, a);
    }
  }

  /** The scan stops at the percentile, yet removes every underperforming candidate: the result
      depends on the counts alone, not on the order of the list. */
  lemma KickedAreUnderperformers(
    records: seq<Record>, perf: Performance, baseline: Percent, tolerance: Percent,
    candidates: seq<CandidateInfo>, stored: seq<CandidateInfo>)
    requires Lists(records, perf) && Ascending(records)
    requires baseline > 0 && tolerance < 100 && perf != map[]
    ensures var index, threshold := Rank(perf, baseline) - 1, Threshold(perf, baseline, tolerance);
      && index < |records|
      && IdSet(Kicked(records, index, threshold, candidates, stored))
         == set a | a in Underperformers(perf, baseline, tolerance) && HasCandidate(candidates, a) && HasCandidate(stored, a)
  {
    var index, threshold := Rank(perf, baseline) - 1, Threshold(perf, baseline, tolerance);
    CountAtRank(records, perf, index + 1);
    MulCeilBounds(100 - tolerance, RankValue(perf, index + 1));
    forall a
      ensures a in Kicked(records, index, threshold, candidates, stored)
              <==> a in Under(perf, threshold) && HasCandidate(candidates, a) && HasCandidate(stored, a)
    {
      KickedMember(records, index, threshold, candidates, stored, a);
      if a in Under(perf, threshold) {
        ScannedBeforeIndex(records, perf, index, threshold, a);
        var i :| 0 <= i < index && records[..index][i] == (a, perf[a]);
        assert records[i].0 == a;
      }
      if i :| 0 <= i < index && records[i].0 == a && records[i].1 < threshold {
        ListedRecord(records, perf, records[i]);
      }
    }
  }

  /** Everyone is recorded and named once, and the worst come first. */
  ghost predicate WorstFirst(ids: seq<AccountId>, perf: Performance) {
    && (forall i :: 0 <= i < |ids| ==> ids[i] in perf)
    && (forall i, j :: 0 <= i < j < |ids| ==> ids[i] != ids[j])
    && (forall i, j :: 0 <= i < j < |ids| ==> perf[ids[i]] <= perf[ids[j]])
  }

  lemma {:induction false} KickedOrdered(
    records: seq<Record>, perf: Performance, upto: nat, threshold: nat,
    candidates: seq<CandidateInfo>, stored: seq<CandidateInfo>)
    requires Lists(records, perf) && Ascending(records) && upto <= |records|
    ensures WorstFirst(Kicked(records, upto, threshold, candidates, stored), perf)
  {
    if upto > 0 {
      var before := Kicked(records, upto - 1, threshold, candidates, stored);
      var (who, blocks) := records[upto - 1];
      KickedOrdered(records, perf, upto - 1, threshold, candidates, stored);
      ListedRecord(records, perf, records[upto - 1]);
      forall k | 0 <= k < |before| ensures before[k] != who && perf[before[k]] <= blocks {
        KickedMember(records, upto - 1, threshold, candidates, stored, before[k]);
        var i :| 0 <= i < upto - 1 && records[i].0 == before[k] && records[i].1 < threshold;
        ListedRecord(records, perf, records[i]);
        ListedOnce(records, perf, i, upto - 1);
      }
      assert WorstFirst(before + [who], perf);
    }
  }

  /** The eviction of one session: no list, no order. */
  ghost function Evicted(
    perf: Performance, baseline: Percent, tolerance: Percent, candidates: seq<CandidateInfo>): set<AccountId>
  {
    set a | a in Underperformers(perf, baseline, tolerance) && HasCandidate(candidates, a)
  }

  /** Who stays, in numbers: everyone when eviction is switched off or nothing is recorded; otherwise
      all but the candidates recorded with a count below 100 - tolerance percent of the percentile. */
  ghost predicate SurvivorsAre(
    perf: Performance, baseline: Percent, tolerance: Percent, candidates: seq<CandidateInfo>, kept: seq<CandidateInfo>)
  {
    if baseline == 0 || perf == map[] then kept == candidates
    else exists v :: (
      && IsPercentile(perf, baseline, v)
      && forall a :: HasCandidate(kept, a) <==>
           HasCandidate(candidates, a) && !(a in perf && 100 * perf[a] < (100 - tolerance) * v))
  }

  lemma SurvivorsInNumbers(
    perf: Performance, baseline: Percent, tolerance: Percent, candidates: seq<CandidateInfo>)
    ensures SurvivorsAre(perf, baseline, tolerance, candidates,
                         Without(candidates, Evicted(perf, baseline, tolerance, candidates)))
  {
    var out := Evicted(perf, baseline, tolerance, candidates);
    PercentileExists(perf, baseline, tolerance);
    if baseline == 0 || perf == map[] {
      WithoutNone(candidates);
      assert out == {};
    } else {
      var v :| IsPercentile(perf, baseline, v);
      forall a
        ensures HasCandidate(Without(candidates, out), a) <==>
          HasCandidate(candidates, a) && !(a in perf && 100 * perf[a] < (100 - tolerance) * v)
      {
        WithoutHas(candidates, out, a);
        UnderperformsIff(perf, baseline, tolerance, v, a);
      }
    }
  }

  /** The records after one more block of the author; a full counter stays full. */
  function WithBlock(perf: Performance, author: AccountId): Performance {
    var blocks := if author in perf then perf[author] else 0;
    perf[author := if blocks < U32_MAX then blocks + 1 else U32_MAX]
  }

  function ZeroFor(validators: seq<AccountId>): Performance {
    map a | a in validators :: 0
  }

  lemma ZeroForOneMore(perf: Performance, validators: seq<AccountId>, i: nat)
    requires i < |validators|
    ensures (perf + ZeroFor(validators[..i]))[validators[i] := 0] == perf + ZeroFor(validators[..i + 1])
  {
    assert validators[..i + 1] == validators[..i] + [validators[i]];
  }

  lemma ZeroForEach(validators: seq<AccountId>)
    ensures forall perf: Performance :: perf + ZeroFor(validators[..0]) == perf
    ensures validators[..|validators|] == validators
    ensures map[] + ZeroFor(validators) == ZeroFor(validators)
  {
  }

  /** The accounts of the records are the recorded accounts. */
  lemma AccountsListed(records: seq<Record>, perf: Performance, order: seq<AccountId>)
    requires Lists(records, perf)
    requires |order| == |records| && forall i :: 0 <= i < |records| ==> order[i] == records[i].0
    ensures forall a :: a in perf ==> a in order
  {
    forall a | a in perf ensures a in order {
      ListedRecord(records, perf, (a, perf[a]));
      var i :| 0 <= i < |records| && records[i] == (a, perf[a]);
      assert order[i] == a;
    }
  }

  /** Where a clearing of at most `limit` keys stops. */
  function ClearEnd(order: seq<AccountId>, limit: nat, position: nat): nat {
    if position + limit < |order| then position + limit else |order|
  }

  function DropKeys(perf: Performance, keys: seq<AccountId>): Performance {
    map a | a in perf && a !in keys :: perf[a]
  }

  lemma DropPieces(perf: Performance, a: seq<AccountId>, b: seq<AccountId>)
    ensures DropKeys(DropKeys(perf, a), b) == DropKeys(perf, a + b)
    ensures DropKeys(perf, []) == perf
  {
  }

  /** One candidate less: whether another one is still there does not change. */
  lemma StillCandidate(book: Book, ids: seq<AccountId>, a: AccountId)
    requires DistinctCandidates(book.candidates) && a !in ids
    ensures HasCandidate(RemoveEach(book, ids).candidates, a) <==> HasCandidate(book.candidates, a)
  {
    RemoveEachFilters(book, ids);
    WithoutHas(book.candidates, IdSet(ids), a);
  }

  /** The accounts of the snapshot that were not removed, in order. */
  method ActiveIds(snapshot: seq<CandidateInfo>, removed: seq<AccountId>) returns (active: seq<AccountId>)
    ensures active == Ids(Without(snapshot, IdSet(removed)))
  {
    active := [];
    for i := 0 to |snapshot|
      invariant active == Ids(Without(snapshot[..i], IdSet(removed)))
    {
      assert snapshot[..i + 1] == snapshot[..i] + [snapshot[i]];
      WithoutAppend(snapshot[..i], [snapshot[i]], IdSet(removed));
      WithoutSingle(snapshot[i], IdSet(removed));
      if snapshot[i].who !in removed {
        active := active + [snapshot[i].who];
      }
    }
    assert snapshot[..|snapshot|] == snapshot;
  }

  lemma WithoutSingle(c: CandidateInfo, ids: set<AccountId>)
    ensures Without([c], ids) == if c.who in ids then [] else [c]
  {
  }

  lemma NobodyRemoved(book: Book)
    requires DistinctCandidates(book.candidates)
    ensures IdSet([]) == {} && RemoveEach(book, []) == book && Without(book.candidates, {}) == book.candidates
  {
    RemoveEachFilters(book, []);
  }

  class CollatorSelection {
    const pot: AccountId
    const minimumBalance: nat

    var invulnerables: seq<AccountId>
    var candidates: seq<CandidateInfo>
    var blocksPerCollatorThisSession: Performance
    var evictionBaseline: Percent
    var evictionTolerance: Percent
    var desiredCandidates: nat
    var candidacyBond: nat
    var bank: Bank

    function Books(): Book
      reads this
    {
      Book(candidates, bank)
    }

    constructor (pot: AccountId, minimumBalance: nat, bank: Bank, invulnerables: seq<AccountId>, bond: nat,
                 baseline: Percent, tolerance: Percent, desired: nat)
      ensures Books() == Book([], bank) && blocksPerCollatorThisSession == map[]
      ensures BondsHeld(Books(), bank.reservedOf)
    {
      this.pot, this.minimumBalance, this.bank := pot, minimumBalance, bank;
      this.invulnerables, candidates, blocksPerCollatorThisSession := invulnerables, [], map[];
      evictionBaseline, evictionTolerance, desiredCandidates, candidacyBond := baseline, tolerance, desired, bond;
    }

    // ---- Candidates come and go ----

    method RegisterAsCandidate(who: AccountId, facts: AccountFacts) returns (r: Result<nat, Error>)
      modifies `candidates, `bank
      ensures var e := Enrol(old(Books()), invulnerables, desiredCandidates, candidacyBond, who, facts);
        && Books() == (if e.Ok? then e.value else old(Books()))
        && r == (if e.Ok? then Ok(|e.value.candidates|) else Err(e.error))
    {
      if |candidates| >= desiredCandidates {
        return Err(TooManyCandidates);
      }
      if who in invulnerables {
        return Err(AlreadyInvulnerable);
      }
      if !facts.hasValidatorId {
        return Err(NoAssociatedValidatorId);
      }
      if !facts.isRegistered {
        return Err(ValidatorNotRegistered);
      }
      if HasCandidate(candidates, who) {
        return Err(AlreadyCandidate);
      }
      match bank.Reserve(who, candidacyBond, facts.liquid)
      case None =>
        return Err(Error.InsufficientBalance);
      case Some(reserved) =>
        bank := reserved;
        candidates := candidates + [CandidateInfo(who, candidacyBond)];
        return Ok(|candidates|);
    }

    method RegisterCandidate(isUpdateOrigin: bool, who: AccountId, facts: AccountFacts) returns (r: Result<nat, Error>)
      modifies `candidates, `bank
      ensures !isUpdateOrigin ==> r == Err(BadOrigin) && Books() == old(Books())
      ensures isUpdateOrigin ==>
        var e := Enrol(old(Books()), invulnerables, desiredCandidates, candidacyBond, who, facts);
        && Books() == (if e.Ok? then e.value else old(Books()))
        && r == (if e.Ok? then Ok(|e.value.candidates|) else Err(e.error))
    {
      if !isUpdateOrigin {
        return Err(BadOrigin);
      }
      r := RegisterAsCandidate(who, facts);
    }

    /** Finds the candidate, gives the deposit back and takes the entry out of the list. */
    method TryRemoveCandidate(who: AccountId) returns (r: Result<nat, Error>)
      modifies `candidates, `bank
      ensures var removed := RemoveOne(old(Books()), who);
        && Books() == removed.GetOr(old(Books()))
        && r == (if removed.None? then Err(NotCandidate) else Ok(|candidates|))
    {
      var index := 0;
      while index < |candidates| && candidates[index].who != who
        invariant index <= |candidates|
        invariant forall j :: 0 <= j < index ==> candidates[j].who != who
      {
        index := index + 1;
      }
      if index == |candidates| {
        return Err(NotCandidate);
      }
      WithoutFirstSplits(candidates, who, index);
      bank := bank.Unreserve(who, candidates[index].deposit);
      candidates := candidates[..index] + candidates[index + 1..];
      return Ok(|candidates|);
    }

    method LeaveIntent(who: AccountId) returns (r: Result<nat, Error>)
      modifies `candidates, `bank
      ensures var removed := RemoveOne(old(Books()), who);
        && Books() == removed.GetOr(old(Books()))
        && r == (if removed.None? then Err(NotCandidate) else Ok(|candidates|))
    {
      r := TryRemoveCandidate(who);
    }

    method RemoveCollator(isUpdateOrigin: bool, collator: AccountId) returns (r: Result<nat, Error>)
      modifies `candidates, `bank
      ensures var removed := RemoveOne(old(Books()), collator);
        if !isUpdateOrigin || collator in invulnerables then
          && Books() == old(Books())
          && r == Err(if !isUpdateOrigin then BadOrigin else NotAllowRemoveInvulnerable)
        else
          && Books() == removed.GetOr(old(Books()))
          && r == (if removed.None? then Err(NotCandidate) else Ok(|candidates|))
    {
      if !isUpdateOrigin {
        return Err(BadOrigin);
      }
      if collator in invulnerables {
        return Err(NotAllowRemoveInvulnerable);
      }
      r := TryRemoveCandidate(collator);
    }

    // ---- The end of a session ----

    /** Removes the candidates that underperformed and are stored; `failures` counts the removals
        that went wrong. */
    method EvictBadCollators(snapshot: seq<CandidateInfo>) returns (removed: seq<AccountId>, failures: nat)
      requires DistinctCandidates(candidates)
      modifies `candidates, `bank
      ensures IdSet(removed)
           == set a | a in Evicted(blocksPerCollatorThisSession, evictionBaseline, evictionTolerance, snapshot)
                      && HasCandidate(old(candidates), a)
      ensures WorstFirst(removed, blocksPerCollatorThisSession)
      ensures Books() == RemoveEach(old(Books()), removed)
      ensures candidates == Without(old(candidates), IdSet(removed))
      ensures (forall a :: HasCandidate(snapshot, a) ==> HasCandidate(old(candidates), a)) ==> failures == 0
    {
      hide Lists, Ascending, RemoveEach, Without, Under, Threshold, Rank, Kicked;
      removed, failures := [], 0;
      NobodyRemoved(Books());
      if snapshot == [] {
        return;
      }
      if evictionBaseline == 0 {
        return;
      }
      if evictionTolerance == 100 {
        return;
      }
      var performance := Iterate(blocksPerCollatorThisSession);
      ListedAll(performance, blocksPerCollatorThisSession);
      if performance == [] {
        return;
      }
      var sorted, index, evictBelow := Cutoff(performance);
      removed, failures := RemoveUnderperformers(snapshot, sorted, index, evictBelow);
      KickedAreUnderperformers(sorted, blocksPerCollatorThisSession, evictionBaseline, evictionTolerance,
                               snapshot, old(candidates));
      KickedOrdered(sorted, blocksPerCollatorThisSession, index, evictBelow, snapshot, old(candidates));
      RemoveEachFilters(old(Books()), removed);
    }

    /** Sorts the records, reads the percentile off at the rank and derives the threshold. */
    method Cutoff(performance: seq<Record>) returns (sorted: seq<Record>, index: nat, evictBelow: nat)
      requires Lists(performance, blocksPerCollatorThisSession) && blocksPerCollatorThisSession != map[]
      requires evictionBaseline > 0
      ensures Lists(sorted, blocksPerCollatorThisSession) && Ascending(sorted)
      ensures index < |sorted| && index == Rank(blocksPerCollatorThisSession, evictionBaseline) - 1
      ensures evictBelow == Threshold(blocksPerCollatorThisSession, evictionBaseline, evictionTolerance)
      ensures IsPercentile(blocksPerCollatorThisSession, evictionBaseline, sorted[index].1)
      ensures forall n: nat :: n < evictBelow <==> 100 * n < (100 - evictionTolerance) * sorted[index].1
    {
      sorted := SortUnstableByBlocks(performance);
      ListedAll(sorted, blocksPerCollatorThisSession);
      CountAtRank(sorted, blocksPerCollatorThisSession, Rank(blocksPerCollatorThisSession, evictionBaseline));
      var ordinalRank := MulCeil(evictionBaseline, |sorted|);
      index := if ordinalRank < 1 then 0 else ordinalRank - 1;
      var blocksAtBaseline := sorted[index].1;
      evictBelow := MulCeil(100 - evictionTolerance, blocksAtBaseline);
      RankValueIsPercentile(blocksPerCollatorThisSession, evictionBaseline, blocksAtBaseline);
      forall n: nat ensures n < evictBelow <==> 100 * n < (100 - evictionTolerance) * blocksAtBaseline {
        MulCeilLeast(100 - evictionTolerance, blocksAtBaseline, n);
      }
    }

    /** The walk over the slice below the percentile. */
    method RemoveUnderperformers(snapshot: seq<CandidateInfo>, sorted: seq<Record>, index: nat, evictBelow: nat)
      returns (removed: seq<AccountId>, failures: nat)
      requires DistinctCandidates(candidates)
      requires Lists(sorted, blocksPerCollatorThisSession) && index <= |sorted|
      modifies `candidates, `bank
      ensures removed == Kicked(sorted, index, evictBelow, snapshot, old(candidates))
      ensures Books() == RemoveEach(old(Books()), removed)
      ensures (forall a :: HasCandidate(snapshot, a) ==> HasCandidate(old(candidates), a)) ==> failures == 0
    {
      removed, failures := [], 0;
      for i := 0 to index
        invariant removed == Kicked(sorted, i, evictBelow, snapshot, old(candidates))
        invariant Books() == RemoveEach(old(Books()), removed)
        invariant (forall a :: HasCandidate(snapshot, a) ==> HasCandidate(old(candidates), a)) ==> failures == 0
      {
        var (who, blocks) := sorted[i];
        NotYetKicked(sorted, blocksPerCollatorThisSession, i, evictBelow, snapshot, old(candidates));
        StillCandidate(old(Books()), removed, who);
        RemoveEachOneMore(old(Books()), removed, who);
        if blocks < evictBelow && HasCandidate(snapshot, who) {
          var result := TryRemoveCandidate(who);
          if result.Ok? {
            removed := removed + [who];
          } else {
            failures := failures + 1;
          }
        }
      }
    }

    /** `clear`: takes out up to `limit` keys from the position on and says where to go on. The
        storage keeps its keys in the order `order`. */
    method Clear(order: seq<AccountId>, limit: nat, position: nat) returns (next: Option<nat>)
      requires position <= |order|
      modifies `blocksPerCollatorThisSession
      ensures var end := ClearEnd(order, limit, position);
        && next == (if end < |order| then Some(end) else None)
        && blocksPerCollatorThisSession == DropKeys(old(blocksPerCollatorThisSession), order[position..end])
    {
      var end := ClearEnd(order, limit, position);
      blocksPerCollatorThisSession := DropKeys(blocksPerCollatorThisSession, order[position..end]);
      next := if end < |order| then Some(end) else None;
    }

    /** The cursor loop. It ends for any limit; with limit 0 it gives up at a cursor that stays. */
    method ClearAll(order: seq<AccountId>, limit: nat)
      requires forall a :: a in blocksPerCollatorThisSession ==> a in order
      modifies `blocksPerCollatorThisSession
      ensures blocksPerCollatorThisSession == if limit == 0 then old(blocksPerCollatorThisSession) else map[]
    {
      ghost var before := blocksPerCollatorThisSession;
      DropPieces(before, [], []);
      var maybeCursor := Clear(order, limit, 0);
      var oldCursor: Option<nat> := None;
      ghost var position := ClearEnd(order, limit, 0);
      while maybeCursor.Some?
        invariant position <= |order|
        invariant maybeCursor == if position < |order| then Some(position) else None
        invariant blocksPerCollatorThisSession == DropKeys(before, order[..position])
        invariant limit == 0 ==> position == 0 && (oldCursor.None? || oldCursor == Some(0))
        invariant limit > 0 && oldCursor.Some? ==> oldCursor.value < position
        decreases |order| - position, oldCursor.None?
      {
        var cursor := maybeCursor.value;
        ghost var end := ClearEnd(order, limit, cursor);
        DropPieces(before, order[..cursor], order[cursor..end]);
        assert order[..end] == order[..cursor] + order[cursor..end];
        maybeCursor := Clear(order, limit, cursor);
        position := end;
        if oldCursor == Some(cursor) {
          break;
        }
        oldCursor := Some(cursor);
      }
      if limit > 0 {
        assert order[..|order|] == order;
      }
    }

    /** Clears the performance map piece by piece and enters the validators with 0 blocks. Without
        any validator nothing is cleared. */
    method ResetCollatorPerformance(validators: seq<AccountId>)
      modifies `blocksPerCollatorThisSession
      ensures blocksPerCollatorThisSession
           == if validators == [] then old(blocksPerCollatorThisSession) else ZeroFor(validators)
    {
      var records := Iterate(blocksPerCollatorThisSession);
      var order := seq(|records|, i requires 0 <= i < |records| => records[i].0);
      AccountsListed(records, blocksPerCollatorThisSession, order);
      hide ZeroFor, Lists;
      ZeroForEach(validators);
      ClearAll(order, |validators|);
      ghost var cleared := blocksPerCollatorThisSession;
      for i := 0 to |validators|
        invariant blocksPerCollatorThisSession == cleared + ZeroFor(validators[..i])
      {
        ZeroForOneMore(cleared, validators, i);
        blocksPerCollatorThisSession := blocksPerCollatorThisSession[validators[i] := 0];
      }
    }

    /** Evicts, then hands over the invulnerables followed by the remaining candidates. */
    method NewSession(validators: seq<AccountId>) returns (result: seq<AccountId>)
      requires DistinctCandidates(candidates)
      modifies `candidates, `bank, `blocksPerCollatorThisSession
      ensures candidates == Without(old(candidates),
                Evicted(old(blocksPerCollatorThisSession), evictionBaseline, evictionTolerance, old(candidates)))
      ensures Books() == Released(old(Books()),
                Evicted(old(blocksPerCollatorThisSession), evictionBaseline, evictionTolerance, old(candidates)))
      ensures |result| == |invulnerables| + |candidates|
      ensures forall i :: 0 <= i < |invulnerables| ==> result[i] == invulnerables[i]
      ensures forall i :: 0 <= i < |candidates| ==> result[|invulnerables| + i] == candidates[i].who
      ensures SurvivorsAre(old(blocksPerCollatorThisSession), evictionBaseline, evictionTolerance,
                           old(candidates), candidates)
      ensures blocksPerCollatorThisSession
           == if validators == [] then old(blocksPerCollatorThisSession) else ZeroFor(validators)
    {
      hide SurvivorsAre;
      var snapshot := candidates;
      var removed, failures := EvictBadCollators(snapshot);
      assert failures == 0;
      assert IdSet(removed)
          == Evicted(blocksPerCollatorThisSession, evictionBaseline, evictionTolerance, snapshot);
      RemoveEachReleases(old(Books()), removed);
      var active := ActiveIds(snapshot, removed);
      result := invulnerables + active;
      SurvivorsInNumbers(blocksPerCollatorThisSession, evictionBaseline, evictionTolerance, snapshot);
      ResetCollatorPerformance(validators);
    }

    /** Pays the author from the pot and counts the block. */
    method NoteAuthor(author: AccountId) returns (paid: bool)
      modifies `bank, `blocksPerCollatorThisSession
      ensures bank == PotRewards.NoteAuthor(old(bank), minimumBalance, pot, author)
      ensures paid <==> Transfer(old(bank), minimumBalance, pot, author, Reward(old(bank), minimumBalance, pot)).Ok?
      ensures blocksPerCollatorThisSession == WithBlock(old(blocksPerCollatorThisSession), author)
    {
      var reward := if bank.Free(pot) < minimumBalance then 0 else (bank.Free(pot) - minimumBalance) / 2;
      var transfer := Transfer(bank, minimumBalance, pot, author, reward);
      paid := transfer.Ok?;
      if paid {
        bank := transfer.value;
      }
      var blocks := if author in blocksPerCollatorThisSession then blocksPerCollatorThisSession[author] else 0;
      blocksPerCollatorThisSession :=
        blocksPerCollatorThisSession[author := if blocks < U32_MAX then blocks + 1 else U32_MAX];
    }
  }

  lemma NotYetKicked(
    records: seq<Record>, perf: Performance, i: nat, threshold: nat,
    candidates: seq<CandidateInfo>, stored: seq<CandidateInfo>)
    requires Lists(records, perf) && i < |records|
    ensures records[i].0 !in Kicked(records, i, threshold, candidates, stored)
  {
    KickedMember(records, i, threshold, candidates, stored, records[i].0);
    forall j: nat | j < i ensures records[j].0 != records[i].0 {
      ListedOnce(records, perf, j, i);
    }
  }

  lemma {:induction false} WithoutAppend(a: seq<CandidateInfo>, b: seq<CandidateInfo>, ids: set<AccountId>)
    ensures Without(a + b, ids) == Without(a, ids) + Without(b, ids)
  {
    if a == [] {
      assert a + b == b;
    } else {
      assert (a + b)[1..] == a[1..] + b;
      WithoutAppend(a[1..], b, ids);
    }
  }
}
