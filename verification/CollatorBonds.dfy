/** Candidates and the deposits reserved for them, as values. */
module CollatorBonds {
  import opened Wrappers
  import opened Eviction

  datatype CandidateInfo = CandidateInfo(who: AccountId, deposit: nat)

  /** The balances kept by the currency; an account without an entry has 0. */
  datatype Bank = Bank(freeOf: map<AccountId, nat>, reservedOf: map<AccountId, nat>) {
    function Free(a: AccountId): nat { if a in freeOf then freeOf[a] else 0 }

    function Reserved(a: AccountId): nat { if a in reservedOf then reservedOf[a] else 0 }

    function Total(a: AccountId): nat { Free(a) + Reserved(a) }

    /** `reserve`: moves free balance into the reserve, or fails and changes nothing. `liquid` is
        the verdict of the currency's locks. */
    function Reserve(a: AccountId, amount: nat, liquid: bool): Option<Bank> {
      if amount == 0 then Some(this)
      else if Free(a) < amount || !liquid then None
      else Some(Bank(freeOf[a := Free(a) - amount], reservedOf[a := Reserved(a) + amount]))
    }

    /** `unreserve`: moves back as much as there is, up to the amount. */
    function Unreserve(a: AccountId, amount: nat): Bank {
      var actual := if amount < Reserved(a) then amount else Reserved(a);
      Bank(freeOf[a := Free(a) + actual], reservedOf[a := Reserved(a) - actual])
    }
  }

  /** The part of the storage that bonds are about. */
  datatype Book = Book(candidates: seq<CandidateInfo>, bank: Bank)

  predicate HasCandidate(candidates: seq<CandidateInfo>, who: AccountId) {
    exists i :: 0 <= i < |candidates| && candidates[i].who == who
  }

  ghost predicate DistinctCandidates(candidates: seq<CandidateInfo>) {
    forall i, j :: 0 <= i < j < |candidates| ==> candidates[i].who != candidates[j].who
  }

  /** What is recorded for an account: the deposit of its first entry, 0 without one. */
  function DepositOf(candidates: seq<CandidateInfo>, who: AccountId): nat {
    if candidates == [] then 0
    else if candidates[0].who == who then candidates[0].deposit
    else DepositOf(candidates[1..], who)
  }

  /** The list without the first entry of an account. */
  function WithoutFirst(candidates: seq<CandidateInfo>, who: AccountId): seq<CandidateInfo> {
    if candidates == [] then []
    else if candidates[0].who == who then candidates[1..]
    else [candidates[0]] + WithoutFirst(candidates[1..], who)
  }

  /** The list without all entries of the accounts in `ids`, in the same order. */
  function Without(candidates: seq<CandidateInfo>, ids: set<AccountId>): seq<CandidateInfo> {
    if candidates == [] then []
    else if candidates[0].who in ids then Without(candidates[1..], ids)
    else [candidates[0]] + Without(candidates[1..], ids)
  }

  ghost function IdSet(ids: seq<AccountId>): set<AccountId> { set a | a in ids }

  function Ids(candidates: seq<CandidateInfo>): (r: seq<AccountId>)
    ensures |r| == |candidates|
    ensures forall i :: 0 <= i < |candidates| ==> r[i] == candidates[i].who
  {
    seq(|candidates|, i requires 0 <= i < |candidates| => candidates[i].who)
  }

  /** Removing one candidate and returning its deposit; None when there is no such candidate. */
  function RemoveOne(book: Book, who: AccountId): Option<Book> {
    if !HasCandidate(book.candidates, who) then None
    else Some(Book(WithoutFirst(book.candidates, who),
                   book.bank.Unreserve(who, DepositOf(book.candidates, who))))
  }

  /** Removing several, one after another; those who are no candidates are skipped. */
  function RemoveEach(book: Book, ids: seq<AccountId>): Book
    decreases |ids|
  {
    if ids == [] then book
    else
      match RemoveOne(book, ids[0])
      case None => RemoveEach(book, ids[1..])
      case Some(book') => RemoveEach(book', ids[1..])
  }

  lemma {:induction false} RemoveEachOneMore(book: Book, ids: seq<AccountId>, who: AccountId)
    ensures RemoveEach(book, ids + [who])
         == match RemoveOne(RemoveEach(book, ids), who) case None => RemoveEach(book, ids) case Some(b) => b
    decreases |ids|
  {
    if ids == [] {
      assert ids + [who] == [who];
      assert [who][1..] == [];
    } else {
      assert (ids + [who])[1..] == ids[1..] + [who];
      var next := match RemoveOne(book, ids[0]) case None => book case Some(b) => b;
      RemoveEachOneMore(next, ids[1..], who);
    }
  }

  // ---- Lists ----

  lemma {:induction false} WithoutFirstSplits(candidates: seq<CandidateInfo>, who: AccountId, i: nat)
    requires i < |candidates| && candidates[i].who == who
    requires forall j :: 0 <= j < i ==> candidates[j].who != who
    ensures WithoutFirst(candidates, who) == candidates[..i] + candidates[i + 1..]
    ensures DepositOf(candidates, who) == candidates[i].deposit
  {
    if i > 0 {
      WithoutFirstSplits(candidates[1..], who, i - 1);
      assert candidates[..i] == [candidates[0]] + candidates[1..][..i - 1];
    }
  }

  lemma {:induction false} NoCandidateNoDeposit(candidates: seq<CandidateInfo>, who: AccountId)
    requires !HasCandidate(candidates, who)
    ensures DepositOf(candidates, who) == 0 && WithoutFirst(candidates, who) == candidates
  {
    if candidates != [] {
      forall i | 0 <= i < |candidates[1..]| ensures candidates[1..][i].who != who {
        assert candidates[1..][i] == candidates[i + 1];
      }
      NoCandidateNoDeposit(candidates[1..], who);
    }
  }

  lemma TailCandidates(candidates: seq<CandidateInfo>)
    requires candidates != []
    ensures forall a :: HasCandidate(candidates, a) <==> candidates[0].who == a || HasCandidate(candidates[1..], a)
    ensures DistinctCandidates(candidates)
            <==> DistinctCandidates(candidates[1..]) && !HasCandidate(candidates[1..], candidates[0].who)
  {
    var tail := candidates[1..];
    assert candidates == [candidates[0]] + tail;
    forall a ensures HasCandidate(candidates, a) <==> candidates[0].who == a || HasCandidate(tail, a) {
      if i :| 0 <= i < |tail| && tail[i].who == a {
        assert candidates[i + 1].who == a;
      }
      if i :| 0 <= i < |candidates| && candidates[i].who == a {
        assert i > 0 ==> tail[i - 1].who == a;
      }
    }
  }

  /** Taking out one of distinct candidates leaves the others, their order and their deposits. */
  lemma {:induction false} WithoutFirstKeeps(candidates: seq<CandidateInfo>, who: AccountId)
    requires DistinctCandidates(candidates)
    ensures var rest := WithoutFirst(candidates, who);
      && rest == Without(candidates, {who})
      && DistinctCandidates(rest)
      && (forall a :: HasCandidate(rest, a) <==> HasCandidate(candidates, a) && a != who)
      && (forall a :: DepositOf(rest, a) == if a == who then 0 else DepositOf(candidates, a))
  {
    if candidates != [] {
      TailCandidates(candidates);
      var tail := candidates[1..];
      WithoutFirstKeeps(tail, who);
      if candidates[0].who == who {
        NoCandidateNoDeposit(tail, who);
      } else {
        TailCandidates([candidates[0]] + WithoutFirst(tail, who));
      }
    }
  }

  lemma {:induction false} WithoutNone(candidates: seq<CandidateInfo>)
    ensures Without(candidates, {}) == candidates
  {
    if candidates != [] {
      WithoutNone(candidates[1..]);
    }
  }

  lemma {:induction false} WithoutTwice(candidates: seq<CandidateInfo>, a: set<AccountId>, b: set<AccountId>)
    ensures Without(Without(candidates, a), b) == Without(candidates, a + b)
  {
    if candidates != [] {
      WithoutTwice(candidates[1..], a, b);
      var kept := Without(candidates[1..], a);
      if candidates[0].who !in a {
        assert ([candidates[0]] + kept)[1..] == kept;
      }
    }
  }

  /** Removing distinct candidates one by one is filtering them out. */
  lemma {:induction false} RemoveEachFilters(book: Book, ids: seq<AccountId>)
    requires DistinctCandidates(book.candidates)
    ensures RemoveEach(book, ids).candidates == Without(book.candidates, IdSet(ids))
    ensures DistinctCandidates(RemoveEach(book, ids).candidates)
    decreases |ids|
  {
    if ids == [] {
      assert IdSet(ids) == {};
      WithoutNone(book.candidates);
    } else {
      var next := match RemoveOne(book, ids[0]) case None => book case Some(b) => b;
      WithoutFirstKeeps(book.candidates, ids[0]);
      if !HasCandidate(book.candidates, ids[0]) {
        NoCandidateNoDeposit(book.candidates, ids[0]);
      }
      RemoveEachFilters(next, ids[1..]);
      WithoutTwice(book.candidates, {ids[0]}, IdSet(ids[1..]));
      assert ids == [ids[0]] + ids[1..];
      assert IdSet(ids) == {ids[0]} + IdSet(ids[1..]);
    }
  }

  lemma {:induction false} WithoutHas(candidates: seq<CandidateInfo>, ids: set<AccountId>, a: AccountId)
    ensures HasCandidate(Without(candidates, ids), a) <==> HasCandidate(candidates, a) && a !in ids
  {
    if candidates != [] {
      WithoutHas(candidates[1..], ids, a);
      TailCandidates(candidates);
      var kept := Without(candidates[1..], ids);
      if candidates[0].who !in ids {
        TailCandidates([candidates[0]] + kept);
        assert ([candidates[0]] + kept)[1..] == kept;
      }
    }
  }

  // ---- The bond invariant ----

  /** Candidates are distinct, and beyond what other parts of the runtime reserve (`other`) an
      account's reserve is its recorded deposit. */
  ghost predicate BondsHeld(book: Book, other: map<AccountId, nat>) {
    && DistinctCandidates(book.candidates)
    && forall a :: book.bank.Reserved(a) == Foreign(other, a) + DepositOf(book.candidates, a)
  }

  function Foreign(other: map<AccountId, nat>, a: AccountId): nat { if a in other then other[a] else 0 }

  lemma EnrolKeepsBonds(book: Book, other: map<AccountId, nat>, who: AccountId, bond: nat, liquid: bool)
    requires BondsHeld(book, other)
    requires !HasCandidate(book.candidates, who) && book.bank.Reserve(who, bond, liquid).Some?
    ensures var book' := Book(book.candidates + [CandidateInfo(who, bond)], book.bank.Reserve(who, bond, liquid).value);
            BondsHeld(book', other)
  {
    var grown := book.candidates + [CandidateInfo(who, bond)];
    forall a ensures DepositOf(grown, a) == if a == who then bond else DepositOf(book.candidates, a) {
      DepositAfterPush(book.candidates, CandidateInfo(who, bond), a);
    }
    NoCandidateNoDeposit(book.candidates, who);
  }

  lemma {:induction false} DepositAfterPush(candidates: seq<CandidateInfo>, x: CandidateInfo, a: AccountId)
    requires !HasCandidate(candidates, x.who)
    ensures DepositOf(candidates + [x], a) == if a == x.who then x.deposit else DepositOf(candidates, a)
  {
    if candidates == [] {
      assert candidates + [x] == [x];
    } else {
      TailCandidates(candidates);
      assert (candidates + [x])[1..] == candidates[1..] + [x];
      DepositAfterPush(candidates[1..], x, a);
    }
  }

  /** A candidate is taken out of the list, the others stay as they were, and what its entry records
      moves from its reserve to its free balance, as far as it is there. */
  lemma RemoveTakesEntry(book: Book, i: nat)
    requires DistinctCandidates(book.candidates) && i < |book.candidates|
    ensures var who, deposit := book.candidates[i].who, book.candidates[i].deposit;
      RemoveOne(book, who).Some?
      && var book' := RemoveOne(book, who).value;
         && book'.candidates == book.candidates[..i] + book.candidates[i + 1..]
         && book'.bank.Total(who) == book.bank.Total(who)
         && (book.bank.Reserved(who) >= deposit ==> book'.bank.Free(who) == book.bank.Free(who) + deposit)
         && (book.bank.Reserved(who) < deposit ==> book'.bank.Reserved(who) == 0)
         && (forall a :: a != who ==> book'.bank.Free(a) == book.bank.Free(a))
         && (forall a :: a != who ==> book'.bank.Reserved(a) == book.bank.Reserved(a))
  {
    WithoutFirstSplits(book.candidates, book.candidates[i].who, i);
  }

  /** Removal returns exactly the recorded deposit, to that account only, and keeps the invariant. */
  lemma RemoveReturnsDeposit(book: Book, other: map<AccountId, nat>, who: AccountId)
    requires BondsHeld(book, other) && HasCandidate(book.candidates, who)
    ensures var book' := RemoveOne(book, who).value; var d := DepositOf(book.candidates, who);
      && BondsHeld(book', other)
      && book'.bank.Free(who) == book.bank.Free(who) + d
      && book'.bank.Reserved(who) == Foreign(other, who)
      && (forall a :: a != who ==> book'.bank.Free(a) == book.bank.Free(a))
      && (forall a :: a != who ==> book'.bank.Reserved(a) == book.bank.Reserved(a))
  {
    WithoutFirstKeeps(book.candidates, who);
  }

  // ---- Removing a set of candidates ----

  ghost function Gone(book: Book, ids: set<AccountId>): set<AccountId> {
    set a | a in ids && HasCandidate(book.candidates, a)
  }

  /** Removing all candidates among `ids` at once: the others keep their order, and everyone removed
      gets the recorded deposit back. */
  ghost function Released(book: Book, ids: set<AccountId>): Book {
    Book(Without(book.candidates, ids), AllReturned(book, Gone(book, ids)))
  }

  ghost function AllReturned(book: Book, gone: set<AccountId>): Bank {
    Bank(map a | a in book.bank.freeOf.Keys + gone :: Returned(book, gone, a).Free(a),
         map a | a in book.bank.reservedOf.Keys + gone :: Returned(book, gone, a).Reserved(a))
  }

  /** The balances as far as account a is concerned. */
  ghost function Returned(book: Book, gone: set<AccountId>, a: AccountId): Bank {
    if a in gone then book.bank.Unreserve(a, DepositOf(book.candidates, a)) else book.bank
  }

  lemma ReleaseNobody(book: Book, ids: set<AccountId>)
    requires forall a :: a in ids ==> !HasCandidate(book.candidates, a)
    ensures Released(book, ids) == book
  {
    WithoutOthers(book.candidates, ids);
    assert Released(book, ids).bank.freeOf == book.bank.freeOf;
    assert Released(book, ids).bank.reservedOf == book.bank.reservedOf;
  }

  lemma {:induction false} WithoutOthers(candidates: seq<CandidateInfo>, ids: set<AccountId>)
    requires forall a :: a in ids ==> !HasCandidate(candidates, a)
    ensures Without(candidates, ids) == candidates
  {
    if candidates != [] {
      TailCandidates(candidates);
      WithoutOthers(candidates[1..], ids);
    }
  }

  lemma ReturnedInTurn(book: Book, who: AccountId, rest: set<AccountId>, a: AccountId)
    requires DistinctCandidates(book.candidates) && HasCandidate(book.candidates, who)
    ensures var next := RemoveOne(book, who).value;
            var one, all := Returned(next, Gone(next, rest), a), Returned(book, Gone(book, {who} + rest), a);
      one.Free(a) == all.Free(a) && one.Reserved(a) == all.Reserved(a)
  {
    WithoutFirstKeeps(book.candidates, who);
  }

  lemma GoneInTurn(book: Book, who: AccountId, rest: set<AccountId>)
    requires DistinctCandidates(book.candidates) && HasCandidate(book.candidates, who)
    ensures var next := RemoveOne(book, who).value;
      && Gone(book, {who} + rest) == {who} + Gone(next, rest)
      && next.bank.freeOf.Keys == book.bank.freeOf.Keys + {who}
      && next.bank.reservedOf.Keys == book.bank.reservedOf.Keys + {who}
  {
    WithoutFirstKeeps(book.candidates, who);
  }

  /** Releasing one and then others is releasing all of them. */
  lemma ReleaseOneThenRest(book: Book, who: AccountId, rest: set<AccountId>)
    requires DistinctCandidates(book.candidates) && HasCandidate(book.candidates, who)
    ensures Released(RemoveOne(book, who).value, rest) == Released(book, {who} + rest)
  {
    var next := RemoveOne(book, who).value;
    WithoutFirstKeeps(book.candidates, who);
    WithoutTwice(book.candidates, {who}, rest);
    GoneInTurn(book, who, rest);
    assert next.candidates == Without(book.candidates, {who});
    hide Returned, AllReturned, Gone, RemoveOne, HasCandidate, Without, DistinctCandidates;
    forall a
      ensures Returned(next, Gone(next, rest), a).Free(a) == Returned(book, Gone(book, {who} + rest), a).Free(a)
      ensures Returned(next, Gone(next, rest), a).Reserved(a) == Returned(book, Gone(book, {who} + rest), a).Reserved(a)
    {
      ReturnedInTurn(book, who, rest, a);
    }
    SameReturned(next, Gone(next, rest), book, Gone(book, {who} + rest));
  }

  lemma SameReturned(x: Book, xs: set<AccountId>, y: Book, ys: set<AccountId>)
    requires x.bank.freeOf.Keys + xs == y.bank.freeOf.Keys + ys
    requires x.bank.reservedOf.Keys + xs == y.bank.reservedOf.Keys + ys
    requires forall a :: Returned(x, xs, a).Free(a) == Returned(y, ys, a).Free(a)
    requires forall a :: Returned(x, xs, a).Reserved(a) == Returned(y, ys, a).Reserved(a)
    ensures AllReturned(x, xs) == AllReturned(y, ys)
  {
    hide Returned;
    assert AllReturned(x, xs).freeOf == AllReturned(y, ys).freeOf;
    assert AllReturned(x, xs).reservedOf == AllReturned(y, ys).reservedOf;
  }

  /** One removal after another, in whatever order, is releasing the set: list and balances do not
      depend on the order. */
  lemma {:induction false} RemoveEachReleases(book: Book, ids: seq<AccountId>)
    requires DistinctCandidates(book.candidates)
    ensures RemoveEach(book, ids) == Released(book, IdSet(ids))
    decreases |ids|
  {
    if ids == [] {
      ReleaseNobody(book, IdSet(ids));
    } else {
      assert ids == [ids[0]] + ids[1..];
      assert IdSet(ids) == {ids[0]} + IdSet(ids[1..]);
      if HasCandidate(book.candidates, ids[0]) {
        WithoutFirstKeeps(book.candidates, ids[0]);
        RemoveEachReleases(RemoveOne(book, ids[0]).value, ids[1..]);
        ReleaseOneThenRest(book, ids[0], IdSet(ids[1..]));
      } else {
        RemoveEachReleases(book, ids[1..]);
        NonCandidateIgnored(book, ids[0], IdSet(ids[1..]));
      }
    }
  }

  lemma NonCandidateIgnored(book: Book, who: AccountId, rest: set<AccountId>)
    requires !HasCandidate(book.candidates, who)
    ensures Released(book, {who} + rest) == Released(book, rest)
  {
    WithoutTwice(book.candidates, {who}, rest);
    WithoutOthers(book.candidates, {who});
    assert Gone(book, {who} + rest) == Gone(book, rest);
  }

  lemma {:induction false} DepositWithout(candidates: seq<CandidateInfo>, ids: set<AccountId>, a: AccountId)
    ensures DepositOf(Without(candidates, ids), a) == if a in ids then 0 else DepositOf(candidates, a)
  {
    if candidates != [] {
      DepositWithout(candidates[1..], ids, a);
      if candidates[0].who !in ids {
        assert ([candidates[0]] + Without(candidates[1..], ids))[1..] == Without(candidates[1..], ids);
      }
    }
  }

  lemma {:induction false} DistinctWithout(candidates: seq<CandidateInfo>, ids: set<AccountId>)
    requires DistinctCandidates(candidates)
    ensures DistinctCandidates(Without(candidates, ids))
  {
    if candidates != [] {
      var kept := Without(candidates[1..], ids);
      TailCandidates(candidates);
      DistinctWithout(candidates[1..], ids);
      if candidates[0].who !in ids {
        WithoutHas(candidates[1..], ids, candidates[0].who);
        TailCandidates([candidates[0]] + kept);
        assert ([candidates[0]] + kept)[1..] == kept;
      }
    }
  }

  /** Releasing returns exactly the recorded deposits, touches nobody else and keeps the invariant. */
  lemma ReleaseKeepsBonds(book: Book, other: map<AccountId, nat>, ids: set<AccountId>)
    requires BondsHeld(book, other)
    ensures BondsHeld(Released(book, ids), other)
    ensures forall a :: Released(book, ids).bank.Free(a)
                        == book.bank.Free(a) + if a in ids then DepositOf(book.candidates, a) else 0
  {
    DistinctWithout(book.candidates, ids);
    forall a
      ensures Released(book, ids).bank.Reserved(a) == Foreign(other, a) + DepositOf(Without(book.candidates, ids), a)
      ensures Released(book, ids).bank.Free(a)
           == book.bank.Free(a) + if a in ids then DepositOf(book.candidates, a) else 0
    {
      DepositWithout(book.candidates, ids, a);
      if !HasCandidate(book.candidates, a) {
        NoCandidateNoDeposit(book.candidates, a);
      }
    }
  }
}
