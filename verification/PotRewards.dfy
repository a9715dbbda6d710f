/** The reward pot: each authored block pays its author half of the pot's surplus. */
module PotRewards {
  import opened Wrappers
  import opened Eviction
  import opened CollatorBonds
  import opened Ceilings

  datatype TransferError = InsufficientBalance | BelowExistentialDeposit | WouldKill

  /** `Currency::transfer` with KeepAlive: neither side may end below the existential deposit. */
  function Transfer(bank: Bank, ed: nat, from: AccountId, to: AccountId, amount: nat): Result<Bank, TransferError> {
    if amount == 0 || from == to then Ok(bank)
    else if bank.Free(from) < amount then Err(InsufficientBalance)
    else if bank.Total(to) + amount < ed then Err(BelowExistentialDeposit)
    else if bank.Total(from) - amount < ed then Err(WouldKill)
    else Ok(bank.(freeOf := bank.freeOf[from := bank.Free(from) - amount][to := bank.Free(to) + amount]))
  }

  function Reward(bank: Bank, ed: nat, pot: AccountId): nat {
    if bank.Free(pot) < ed then 0 else (bank.Free(pot) - ed) / 2
  }

  /** One authored block; a transfer that fails is ignored. */
  function NoteAuthor(bank: Bank, ed: nat, pot: AccountId, author: AccountId): Bank {
    match Transfer(bank, ed, pot, author, Reward(bank, ed, pot))
    case Ok(bank') => bank'
    case Err(_) => bank
  }

  function NoteAuthors(bank: Bank, ed: nat, pot: AccountId, authors: seq<AccountId>): Bank
    decreases |authors|
  {
    if authors == [] then bank else NoteAuthors(NoteAuthor(bank, ed, pot, authors[0]), ed, pot, authors[1..])
  }

  /** The pot can always afford the reward; only an author that would stay below the existential
      deposit makes the transfer fail. */
  lemma RewardPaidIff(bank: Bank, ed: nat, pot: AccountId, author: AccountId)
    ensures var reward := Reward(bank, ed, pot);
            Transfer(bank, ed, pot, author, reward).Ok?
            <==> reward == 0 || author == pot || bank.Total(author) + reward >= ed
  {
  }

  /** It does fail: a new author whose first reward is below the existential deposit gets nothing. */
  lemma RewardRefused(ed: nat, pot: AccountId, author: AccountId)
    requires ed >= 2 && author != pot
    ensures var bank := Bank(map[pot := ed + 2], map[]);
      && Reward(bank, ed, pot) == 1
      && Transfer(bank, ed, pot, author, 1) == Err(BelowExistentialDeposit)
      && NoteAuthor(bank, ed, pot, author) == bank
  {
  }

  function Surplus(bank: Bank, ed: nat, pot: AccountId): nat {
    if bank.Free(pot) < ed then 0 else bank.Free(pot) - ed
  }

  function Pow2(k: nat): (r: nat)
    ensures r > 0
  {
    if k == 0 then 1 else 2 * Pow2(k - 1)
  }

  /** Halving with the remainder kept, k times, is dividing by 2^k and rounding up. */
  lemma CeilHalf(a: nat, b: nat)
    requires b > 0
    ensures CeilDiv(a - a / 2, b) == CeilDiv(a, 2 * b)
  {
    var c := CeilDiv(a - a / 2, b);
    CeilDivBounds(a - a / 2, b);
    assert a <= 2 * (a - a / 2) <= a + 1;
    assert 2 * b * c == 2 * (b * c);
    if c > 0 {
      assert 2 * b * (c - 1) == 2 * (b * (c - 1));
    }
    CeilDivIs(a, 2 * b, c);
  }

  /** What the authors of these blocks receive in all, and what one of them receives. */
  function Paid(bank: Bank, ed: nat, pot: AccountId, authors: seq<AccountId>): nat
    decreases |authors|
  {
    if authors == [] then 0
    else Reward(bank, ed, pot) + Paid(NoteAuthor(bank, ed, pot, authors[0]), ed, pot, authors[1..])
  }

  function PaidTo(bank: Bank, ed: nat, pot: AccountId, authors: seq<AccountId>, a: AccountId): nat
    decreases |authors|
  {
    if authors == [] then 0
    else (if authors[0] == a then Reward(bank, ed, pot) else 0)
         + PaidTo(NoteAuthor(bank, ed, pot, authors[0]), ed, pot, authors[1..], a)
  }

  /** The authors exist and none of them is the pot. */
  predicate ProperAuthors(bank: Bank, ed: nat, pot: AccountId, authors: seq<AccountId>) {
    forall i :: 0 <= i < |authors| ==> authors[i] != pot && bank.Total(authors[i]) >= ed
  }

  /** One block: the author gets half of what the pot holds above the existential deposit, unless it
      is the pot or would stay below the existential deposit; nothing else changes. */
  lemma BlockPays(bank: Bank, ed: nat, pot: AccountId, author: AccountId)
    ensures var bank' := NoteAuthor(bank, ed, pot, author);
      var half := if bank.Free(pot) < ed then 0 else (bank.Free(pot) - ed) / 2;
      var paid := if author == pot || bank.Free(author) + bank.Reserved(author) + half < ed then 0 else half;
      && bank'.Free(pot) == bank.Free(pot) - paid
      && (author != pot ==> bank'.Free(author) == bank.Free(author) + paid)
      && (forall a :: a != pot && a != author ==> bank'.Free(a) == bank.Free(a))
      && (forall a :: bank'.Reserved(a) == bank.Reserved(a))
  {
  }

  lemma NoteAuthorPays(bank: Bank, ed: nat, pot: AccountId, author: AccountId)
    requires author != pot && bank.Total(author) >= ed
    ensures var bank' := NoteAuthor(bank, ed, pot, author); var reward := Reward(bank, ed, pot);
      && bank'.Free(pot) == bank.Free(pot) - reward
      && (forall a :: a != pot ==> bank'.Free(a) == bank.Free(a) + if a == author then reward else 0)
      && (forall a :: bank'.Reserved(a) == bank.Reserved(a))
      && Surplus(bank', ed, pot) == Surplus(bank, ed, pot) - reward
      && reward == Surplus(bank, ed, pot) / 2
      && (bank.Free(pot) >= ed ==> bank'.Free(pot) >= ed)
  {
  }

  /** k blocks turn a surplus d into ceil(d / 2^k); the authors get the difference, each exactly the
      rewards of its own blocks; the pot never drops below the existential deposit. */
  lemma {:induction false} PotDecay(bank: Bank, ed: nat, pot: AccountId, authors: seq<AccountId>)
    requires ProperAuthors(bank, ed, pot, authors)
    ensures var bank' := NoteAuthors(bank, ed, pot, authors); var d := Surplus(bank, ed, pot);
      && Surplus(bank', ed, pot) == CeilDiv(d, Pow2(|authors|))
      && Paid(bank, ed, pot, authors) == d - CeilDiv(d, Pow2(|authors|))
      && bank'.Free(pot) + Paid(bank, ed, pot, authors) == bank.Free(pot)
      && (bank.Free(pot) >= ed ==> bank'.Free(pot) >= ed)
      && (forall a :: a != pot ==> bank'.Free(a) == bank.Free(a) + PaidTo(bank, ed, pot, authors, a))
    decreases |authors|
  {
    if authors != [] {
      var next := NoteAuthor(bank, ed, pot, authors[0]);
      NoteAuthorPays(bank, ed, pot, authors[0]);
      hide NoteAuthor, Reward, Surplus, CeilDiv;
      PotDecay(next, ed, pot, authors[1..]);
      CeilHalf(Surplus(bank, ed, pot), Pow2(|authors| - 1));
    }
  }

  // ---- Total issuance ----

  function SumFree(bank: Bank, accounts: seq<AccountId>): nat {
    if accounts == [] then 0 else bank.Free(accounts[0]) + SumFree(bank, accounts[1..])
  }

  predicate DistinctAccounts(accounts: seq<AccountId>) {
    forall i, j :: 0 <= i < j < |accounts| ==> accounts[i] != accounts[j]
  }

  lemma {:induction false} SumFreeMoves(a: Bank, b: Bank, accounts: seq<AccountId>, x: AccountId)
    requires DistinctAccounts(accounts)
    requires forall y :: y in accounts && y != x ==> a.Free(y) == b.Free(y)
    ensures SumFree(a, accounts) - SumFree(b, accounts) == if x in accounts then a.Free(x) - b.Free(x) else 0
  {
    if accounts != [] {
      SumFreeMoves(a, b, accounts[1..], x);
      assert accounts == [accounts[0]] + accounts[1..];
    }
  }

  /** Whatever the authors are, the blocks only move balance around: over any list of accounts
      that contains everyone involved the sum stays the same. */
  lemma {:induction false} IssuanceUnchanged(
    bank: Bank, ed: nat, pot: AccountId, authors: seq<AccountId>, accounts: seq<AccountId>)
    requires DistinctAccounts(accounts) && pot in accounts
    requires forall i :: 0 <= i < |authors| ==> authors[i] in accounts
    ensures SumFree(NoteAuthors(bank, ed, pot, authors), accounts) == SumFree(bank, accounts)
    decreases |authors|
  {
    if authors != [] {
      var author, next := authors[0], NoteAuthor(bank, ed, pot, authors[0]);
      var middle := bank.(freeOf := bank.freeOf[pot := next.Free(pot)]);
      SumFreeMoves(bank, middle, accounts, pot);
      SumFreeMoves(middle, next, accounts, author);
      IssuanceUnchanged(next, ed, pot, authors[1..], accounts);
    }
  }
}
