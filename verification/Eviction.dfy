/** Which collators underperform: the percentile and the threshold as facts about the recorded
    counts, without any sorting. */
module Eviction {

  type AccountId = nat
  type Percent = p: nat | p <= 100

  const U32_MAX: nat := 0xFFFF_FFFF
  type BlockCount = c: nat | c <= U32_MAX

  type Performance = map<AccountId, BlockCount>

  /** `Percent::mul_ceil`: p percent of n, rounded up. */
  function MulCeil(p: Percent, n: nat): nat { (p * n + 99) / 100 }

  lemma MulCeilBounds(p: Percent, n: nat)
    ensures MulCeil(p, n) <= n
    ensures p > 0 && n > 0 ==> MulCeil(p, n) >= 1
  {
    assert p * n <= 100 * n;
    if p > 0 && n > 0 {
      assert p * n >= 1;
    }
  }

  lemma MulCeilMonotone(p: Percent, p': Percent, n: nat, n': nat)
    requires p <= p' && n <= n'
    ensures MulCeil(p, n) <= MulCeil(p', n')
  {
    assert p * n <= p' * n;
    assert p' * n <= p' * n';
  }

  // ---- The percentile without sorting ----

  ghost function Under(perf: Performance, v: int): set<AccountId> {
    set a | a in perf && perf[a] < v
  }

  /** v is the nearest-rank value: fewer than `rank` counts lie below it, at least `rank` do not
      exceed it. */
  ghost predicate IsRankValue(perf: Performance, rank: nat, v: BlockCount) {
    |Under(perf, v)| < rank <= |Under(perf, v + 1)|
  }

  lemma {:induction false} SubsetSize<T>(a: set<T>, b: set<T>)
    requires a <= b
    ensures |a| <= |b|
  {
    if a != {} {
      var x :| x in a;
      SubsetSize(a - {x}, b - {x});
    }
  }

  lemma RankValueUnique(perf: Performance, rank: nat, v: BlockCount, w: BlockCount)
    requires IsRankValue(perf, rank, v) && IsRankValue(perf, rank, w)
    ensures v == w
  {
    SubsetSize(Under(perf, v + 1), if v < w then Under(perf, w) else Under(perf, v + 1));
    SubsetSize(Under(perf, w + 1), if w < v then Under(perf, v) else Under(perf, w + 1));
  }

  /** The least value from v on that enough counts do not exceed. */
  ghost function LeastCovering(perf: Performance, rank: nat, v: BlockCount): (r: BlockCount)
    requires |Under(perf, v)| < rank <= |perf|
    ensures IsRankValue(perf, rank, r)
    decreases U32_MAX - v
  {
    if rank <= |Under(perf, v + 1)| then v
    else
      EverythingIsUnder(perf, v);
      LeastCovering(perf, rank, v + 1)
  }

  lemma EverythingIsUnder(perf: Performance, v: BlockCount)
    requires |Under(perf, v + 1)| < |perf|
    ensures v < U32_MAX
  {
    assert Under(perf, U32_MAX + 1) == perf.Keys;
  }

  ghost function RankValue(perf: Performance, rank: nat): (v: BlockCount)
    requires 1 <= rank <= |perf|
    ensures IsRankValue(perf, rank, v)
  {
    assert Under(perf, 0) == {};
    LeastCovering(perf, rank, 0)
  }

  // ---- The eviction rule ----

  /** The rank is always within 1..n. */
  ghost function Rank(perf: Performance, baseline: Percent): (rank: nat)
    requires baseline > 0 && perf != map[]
    ensures 1 <= rank <= |perf|
  {
    MulCeilBounds(baseline, |perf|);
    MulCeil(baseline, |perf|)
  }

  /** Whoever made fewer blocks than this is evicted. */
  ghost function Threshold(perf: Performance, baseline: Percent, tolerance: Percent): nat
    requires baseline > 0 && perf != map[]
  {
    MulCeil(100 - tolerance, RankValue(perf, Rank(perf, baseline)))
  }

  /** Everyone whose recorded count is too low; nobody when eviction is switched off. */
  ghost function Underperformers(perf: Performance, baseline: Percent, tolerance: Percent): set<AccountId> {
    if baseline == 0 || tolerance == 100 || perf == map[] then {}
    else Under(perf, Threshold(perf, baseline, tolerance))
  }

  // ---- The rule in numbers ----

  /** v is the percentile value: fewer than baseline percent of the records lie below it, and at
      least baseline percent do not exceed it. */
  ghost predicate IsPercentile(perf: Performance, baseline: Percent, v: nat) {
    100 * |set a | a in perf && perf[a] < v| < baseline * |perf| <= 100 * |set a | a in perf && perf[a] <= v|
  }

  lemma MulCeilLeast(p: Percent, n: nat, k: nat)
    ensures p * n <= 100 * k <==> MulCeil(p, n) <= k
  {
  }

  lemma RankValueIsPercentile(perf: Performance, baseline: Percent, v: nat)
    requires baseline > 0 && perf != map[]
    ensures IsPercentile(perf, baseline, v) <==> v == RankValue(perf, Rank(perf, baseline))
  {
    var rank := Rank(perf, baseline);
    var w := RankValue(perf, rank);
    PercentileIsRankValue(perf, baseline, w);
    if IsPercentile(perf, baseline, v) {
      PercentileIsRecorded(perf, baseline, v);
      PercentileIsRankValue(perf, baseline, v);
      RankValueUnique(perf, rank, v, w);
    }
  }

  lemma EverythingIsBelow(perf: Performance, v: nat)
    ensures v > U32_MAX ==> |set a | a in perf && perf[a] < v| == |perf|
  {
    var below := set a | a in perf && perf[a] < v;
    if v > U32_MAX {
      assert below == perf.Keys;
    }
  }

  lemma PercentileIsRecorded(perf: Performance, baseline: Percent, v: nat)
    requires IsPercentile(perf, baseline, v)
    ensures v <= U32_MAX
  {
    EverythingIsBelow(perf, v);
  }

  lemma PercentileIsRankValue(perf: Performance, baseline: Percent, v: BlockCount)
    requires baseline > 0 && perf != map[]
    ensures IsPercentile(perf, baseline, v) <==> IsRankValue(perf, Rank(perf, baseline), v)
  {
    assert Under(perf, v) == set a | a in perf && perf[a] < v;
    assert Under(perf, v + 1) == set a | a in perf && perf[a] <= v;
    MulCeilLeast(baseline, |perf|, |Under(perf, v)|);
    MulCeilLeast(baseline, |perf|, |Under(perf, v + 1)|);
  }

  /** Someone recorded is evicted exactly when its count is below 100 - tolerance percent of the
      percentile value, compared without rounding. */
  lemma UnderperformsIff(perf: Performance, baseline: Percent, tolerance: Percent, v: nat, a: AccountId)
    requires IsPercentile(perf, baseline, v)
    ensures a in Underperformers(perf, baseline, tolerance)
            <==> a in perf && 100 * perf[a] < (100 - tolerance) * v
  {
    if perf != map[] && tolerance < 100 {
      RankValueIsPercentile(perf, baseline, v);
      if a in perf {
        MulCeilLeast(100 - tolerance, v, perf[a]);
      }
    }
  }

  /** There is a percentile value when there are records and the baseline is not 0; otherwise, and
      with full tolerance, nobody is evicted. */
  lemma PercentileExists(perf: Performance, baseline: Percent, tolerance: Percent)
    ensures if baseline > 0 && perf != map[] then exists v :: IsPercentile(perf, baseline, v)
            else Underperformers(perf, baseline, tolerance) == {}
    ensures Underperformers(perf, baseline, 100) == {}
  {
    if baseline > 0 && perf != map[] {
      RankValueIsPercentile(perf, baseline, RankValue(perf, Rank(perf, baseline)));
    }
  }

  // ---- Bounds ----

  /** At or above the percentile value nobody is evicted, and less than baseline percent of the
      recorded collators are. */
  lemma EvictionBounded(perf: Performance, baseline: Percent, tolerance: Percent)
    requires baseline > 0 && perf != map[]
    ensures Underperformers(perf, baseline, tolerance) <= Under(perf, RankValue(perf, Rank(perf, baseline)))
    ensures 100 * |Underperformers(perf, baseline, tolerance)| < baseline * |perf|
  {
    var v := RankValue(perf, Rank(perf, baseline));
    MulCeilLeast(baseline, |perf|, |Under(perf, v)|);
    MulCeilBounds(100 - tolerance, v);
    SubsetSize(Underperformers(perf, baseline, tolerance), Under(perf, v));
  }

  /** Equal performance evicts nobody. */
  lemma EqualPerformanceSurvives(perf: Performance, baseline: Percent, tolerance: Percent)
    requires forall a, b :: a in perf && b in perf ==> perf[a] == perf[b]
    ensures Underperformers(perf, baseline, tolerance) == {}
  {
    if baseline > 0 && perf != map[] {
      EvictionBounded(perf, baseline, tolerance);
      var v := RankValue(perf, Rank(perf, baseline));
      assert Under(perf, v) == {} || Under(perf, v) == perf.Keys;
    }
  }

  /** More tolerance evicts fewer. */
  lemma ToleranceShrinks(perf: Performance, baseline: Percent, tolerance: Percent, tolerance': Percent)
    requires tolerance <= tolerance'
    ensures Underperformers(perf, baseline, tolerance') <= Underperformers(perf, baseline, tolerance)
  {
    if baseline > 0 && perf != map[] {
      var v := RankValue(perf, Rank(perf, baseline));
      MulCeilMonotone(100 - tolerance', 100 - tolerance, v, v);
    }
  }

  lemma RankValueMonotone(perf: Performance, rank: nat, rank': nat)
    requires 1 <= rank <= rank' <= |perf|
    ensures RankValue(perf, rank) <= RankValue(perf, rank')
  {
    var v, v' := RankValue(perf, rank), RankValue(perf, rank');
    if v' < v {
      SubsetSize(Under(perf, v' + 1), Under(perf, v));
    }
  }

  /** A higher percentile evicts more. */
  lemma BaselineGrows(perf: Performance, baseline: Percent, baseline': Percent, tolerance: Percent)
    requires baseline <= baseline'
    ensures Underperformers(perf, baseline, tolerance) <= Underperformers(perf, baseline', tolerance)
  {
    if baseline > 0 && perf != map[] {
      var rank, rank' := Rank(perf, baseline), Rank(perf, baseline');
      MulCeilMonotone(baseline, baseline', |perf|, |perf|);
      RankValueMonotone(perf, rank, rank');
      MulCeilMonotone(100 - tolerance, 100 - tolerance, RankValue(perf, rank), RankValue(perf, rank'));
    }
  }

  // ---- Any sorted list of the records ----

  type Record = (AccountId, BlockCount)

  /** The list holds every record exactly once. */
  ghost predicate Lists(records: seq<Record>, perf: Performance) {
    multiset(records) == multiset(perf.Items)
  }

  ghost predicate Ascending(records: seq<Record>) {
    forall i, j :: 0 <= i < j < |records| ==> records[i].1 <= records[j].1
  }

  lemma ListedRecord(records: seq<Record>, perf: Performance, r: Record)
    requires Lists(records, perf)
    ensures r in records <==> r.0 in perf && perf[r.0] == r.1
  {
    assert r in records <==> r in multiset(records);
  }

  lemma ListedOnce(records: seq<Record>, perf: Performance, i: nat, j: nat)
    requires Lists(records, perf) && i < j < |records|
    ensures records[i].0 != records[j].0
  {
    ListedRecord(records, perf, records[i]);
    ListedRecord(records, perf, records[j]);
    CountedTwice(records, i, j);
    assert multiset(perf.Items)[records[i]] <= 1;
  }

  lemma CountedTwice<T>(s: seq<T>, i: nat, j: nat)
    requires i < j < |s|
    ensures s[i] == s[j] ==> multiset(s)[s[i]] >= 2
  {
    assert s == s[..j] + s[j..];
    assert s[i] in s[..j] && s[j] in s[j..];
  }

  function AccountsOf(records: seq<Record>): set<AccountId> {
    set i | 0 <= i < |records| :: records[i].0
  }

  lemma {:induction false} AccountsCount(records: seq<Record>, perf: Performance, k: nat)
    requires Lists(records, perf) && k <= |records|
    ensures |AccountsOf(records[..k])| == k
  {
    if k > 0 {
      AccountsCount(records, perf, k - 1);
      assert records[..k] == records[..k - 1] + [records[k - 1]];
      assert AccountsOf(records[..k]) == AccountsOf(records[..k - 1]) + {records[k - 1].0};
      forall i: nat | i < k - 1 ensures records[i].0 != records[k - 1].0 {
        ListedOnce(records, perf, i, k - 1);
      }
    }
  }

  lemma ListedAll(records: seq<Record>, perf: Performance)
    requires Lists(records, perf)
    ensures |records| == |perf|
  {
    AccountsCount(records, perf, |records|);
    assert records[..|records|] == records;
    forall a ensures a in AccountsOf(records) <==> a in perf {
      if a in perf {
        ListedRecord(records, perf, (a, perf[a]));
      }
      if a in AccountsOf(records) {
        var i :| 0 <= i < |records| && records[i].0 == a;
        ListedRecord(records, perf, records[i]);
      }
    }
    assert AccountsOf(records) == perf.Keys;
  }

  /** The count at the rank's index is the percentile value in every ascending list, however ties
      are ordered. */
  lemma CountAtRank(records: seq<Record>, perf: Performance, rank: nat)
    requires Lists(records, perf) && Ascending(records) && 1 <= rank <= |perf|
    ensures rank <= |records|
    ensures records[rank - 1].1 == RankValue(perf, rank)
  {
    ListedAll(records, perf);
    var v: int := records[rank - 1].1;
    forall a | a in Under(perf, v) ensures a in AccountsOf(records[..rank - 1]) {
      ListedRecord(records, perf, (a, perf[a]));
      var i :| 0 <= i < |records| && records[i] == (a, perf[a]);
      assert i < rank - 1;
      assert records[..rank - 1][i].0 == a;
    }
    forall a | a in AccountsOf(records[..rank]) ensures a in Under(perf, v + 1) {
      var i :| 0 <= i < rank && records[..rank][i].0 == a;
      ListedRecord(records, perf, records[i]);
      assert i < rank - 1 ==> records[i].1 <= v;
    }
    AccountsCount(records, perf, rank - 1);
    AccountsCount(records, perf, rank);
    SubsetSize(Under(perf, v), AccountsOf(records[..rank - 1]));
    SubsetSize(AccountsOf(records[..rank]), Under(perf, v + 1));
    RankValueUnique(perf, rank, v, RankValue(perf, rank));
  }

  /** Everyone under a threshold not above the count at `index` is listed before `index`. */
  lemma ScannedBeforeIndex(records: seq<Record>, perf: Performance, index: nat, threshold: nat, a: AccountId)
    requires Lists(records, perf) && Ascending(records) && index < |records|
    requires threshold <= records[index].1
    requires a in Under(perf, threshold)
    ensures (a, perf[a]) in records[..index]
  {
    ListedRecord(records, perf, (a, perf[a]));
    var i :| 0 <= i < |records| && records[i] == (a, perf[a]);
    assert i < index;
    assert records[..index][i] == (a, perf[a]);
  }
}
