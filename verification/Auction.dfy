/**
 Campaign selection: an auction per currency, currencies weighted by how many campaigns
 they have, campaigns by their bid. The draws are inputs, so the weights are exact counts.
 */
module Auction {
  import opened Sorting
  import opened Strings

  datatype Campaign = Campaign(id: string, currency: string, bidAmountMinor: int)

  datatype Group = Group(currency: string, indices: seq<nat>)

  // ------------------------------------------------------------ grouping

  /** Positions of the campaigns of a currency, ascending. */
  function IndicesOf(campaigns: seq<Campaign>, currency: string): seq<nat> {
    if campaigns == [] then []
    else
      var n := |campaigns| - 1;
      IndicesOf(campaigns[..n], currency) + (if campaigns[n].currency == currency then [n] else [])
  }

  /** The currencies, in order of first appearance. */
  function Currencies(campaigns: seq<Campaign>): seq<string> {
    if campaigns == [] then []
    else
      var n := |campaigns| - 1;
      var before := Currencies(campaigns[..n]);
      if campaigns[n].currency in before then before else before + [campaigns[n].currency]
  }

  function GroupsFor(campaigns: seq<Campaign>, currencies: seq<string>): seq<Group> {
    seq(|currencies|, i requires 0 <= i < |currencies| => Group(currencies[i], IndicesOf(campaigns, currencies[i])))
  }

  function Grouped(campaigns: seq<Campaign>): seq<Group> {
    GroupsFor(campaigns, StableSort(Currencies(campaigns), StrLeq))
  }

  /** `groupCampaignsByCurrency`: a map filled in place, its keys remembered in order of insertion and then sorted. */
  method GroupCampaignsByCurrency(campaigns: seq<Campaign>) returns (r: seq<Group>)
    ensures r == Grouped(campaigns)
  {
    var groups: map<string, seq<nat>>, keys: seq<string> := map[], [];
    for index := 0 to |campaigns|
      invariant keys == Currencies(campaigns[..index])
      invariant forall c :: c in groups <==> c in keys
      invariant forall c | c in groups :: groups[c] == IndicesOf(campaigns[..index], c)
      invariant forall c | c !in groups :: IndicesOf(campaigns[..index], c) == []
    {
      var currency := campaigns[index].currency;
      assert campaigns[..index + 1][..index] == campaigns[..index];
      if currency in groups {
        groups := groups[currency := groups[currency] + [index]];
      } else {
        groups := groups[currency := [index]];
        keys := keys + [currency];
      }
    }
    assert campaigns[..|campaigns|] == campaigns;
    var sorted := StableSort(keys, StrLeq);
    SameMultisetSameMembers(sorted, keys);
    r := seq(|sorted|, i requires 0 <= i < |sorted| && sorted[i] in groups => Group(sorted[i], groups[sorted[i]]));
    assert r == Grouped(campaigns);
  }

  lemma {:induction false} IndicesAre(campaigns: seq<Campaign>, currency: string)
    ensures forall i :: i in IndicesOf(campaigns, currency) <==> 0 <= i < |campaigns| && campaigns[i].currency == currency
    ensures forall p | 0 <= p < |IndicesOf(campaigns, currency)| :: IndicesOf(campaigns, currency)[p] < |campaigns|
    ensures forall p, q | 0 <= p < q < |IndicesOf(campaigns, currency)| ::
              IndicesOf(campaigns, currency)[p] < IndicesOf(campaigns, currency)[q]
  {
    if campaigns != [] {
      var front := campaigns[..|campaigns| - 1];
      IndicesAre(front, currency);
      forall p | 0 <= p < |IndicesOf(front, currency)| ensures IndicesOf(front, currency)[p] < |front| {
        assert IndicesOf(front, currency)[p] in IndicesOf(front, currency);
      }
    }
  }

  lemma {:induction false} CurrenciesAre(campaigns: seq<Campaign>)
    ensures NoRepeats(Currencies(campaigns))
    ensures forall i | 0 <= i < |campaigns| :: campaigns[i].currency in Currencies(campaigns)
  {
    if campaigns != [] { CurrenciesAre(campaigns[..|campaigns| - 1]); }
  }

  lemma SortedCurrenciesAre(campaigns: seq<Campaign>)
    ensures NoRepeats(StableSort(Currencies(campaigns), StrLeq))
    ensures forall i | 0 <= i < |campaigns| :: campaigns[i].currency in StableSort(Currencies(campaigns), StrLeq)
  {
    var keys := Currencies(campaigns);
    CurrenciesAre(campaigns);
    NoRepeatsCount(keys);
    SameMultisetSameMembers(StableSort(keys, StrLeq), keys);
    CountNoRepeats(StableSort(keys, StrLeq));
  }

  /** Groups come in strictly ascending order of currency. */
  lemma GroupsAreSorted(campaigns: seq<Campaign>)
    ensures forall i, j | 0 <= i < j < |Grouped(campaigns)| ::
              && StrLeq(Grouped(campaigns)[i].currency, Grouped(campaigns)[j].currency)
              && Grouped(campaigns)[i].currency != Grouped(campaigns)[j].currency
  {
    SortedCurrenciesAre(campaigns);
    StringOrder(Currencies(campaigns));
    StableSortSorted(Currencies(campaigns), StrLeq);
  }

  /** Grouping is a partition: a group lists exactly the campaigns of its currency, and each campaign is listed. */
  lemma GroupsPartition(campaigns: seq<Campaign>, i: nat)
    requires i < |campaigns|
    ensures exists k :: 0 <= k < |Grouped(campaigns)| && Grouped(campaigns)[k].currency == campaigns[i].currency
    ensures forall g | g in Grouped(campaigns) :: i in g.indices <==> g.currency == campaigns[i].currency
  {
    var sorted := StableSort(Currencies(campaigns), StrLeq);
    SortedCurrenciesAre(campaigns);
    var k :| 0 <= k < |sorted| && sorted[k] == campaigns[i].currency;
    assert Grouped(campaigns)[k].currency == campaigns[i].currency;
    forall g | g in Grouped(campaigns) ensures i in g.indices <==> g.currency == campaigns[i].currency {
      IndicesAre(campaigns, g.currency);
    }
  }

  // ------------------------------------------------------------ weighted picks

  function Sum(weights: seq<nat>): nat {
    if weights == [] then 0 else Sum(weights[..|weights| - 1]) + weights[|weights| - 1]
  }

  /** The first position, from `k` on, whose cumulative weight exceeds the draw; the last position if none does. */
  function PickFrom(weights: seq<nat>, draw: int, k: nat): (r: nat)
    requires k < |weights|
    ensures r < |weights|
    decreases |weights| - k
  {
    if draw < Sum(weights[..k + 1]) || k == |weights| - 1 then k else PickFrom(weights, draw, k + 1)
  }

  function Pick(weights: seq<nat>, draw: int): (r: nat)
    requires weights != []
    ensures r < |weights|
  {
    PickFrom(weights, draw, 0)
  }

  lemma {:induction false} SumGrows(weights: seq<nat>, j: nat, k: nat)
    requires j <= k <= |weights|
    ensures Sum(weights[..j]) <= Sum(weights[..k])
    decreases k - j
  {
    if j < k {
      SumGrows(weights, j, k - 1);
      assert weights[..k][..k - 1] == weights[..k - 1];
    }
  }

  lemma {:induction false} PickFromInterval(weights: seq<nat>, draw: nat, from: nat, k: nat)
    requires from < |weights| && k < |weights| && Sum(weights[..from]) <= draw < Sum(weights)
    ensures PickFrom(weights, draw, from) == k <==> from <= k && Sum(weights[..k]) <= draw < Sum(weights[..k + 1])
    decreases |weights| - from
  {
    assert weights[..|weights|] == weights;
    if draw < Sum(weights[..from + 1]) {
      if k > from { SumGrows(weights, from + 1, k); }
    } else {
      assert from < |weights| - 1;
      PickFromInterval(weights, draw, from + 1, k);
    }
  }

  function Draws(lo: nat, hi: nat): (r: set<nat>)
    ensures forall d :: d in r <==> lo <= d < hi
    decreases hi
  {
    if lo >= hi then {} else Draws(lo, hi - 1) + {hi - 1}
  }

  lemma {:induction false} DrawCount(lo: nat, hi: nat)
    requires lo <= hi
    ensures |Draws(lo, hi)| == hi - lo
  {
    if lo < hi { DrawCount(lo, hi - 1); }
  }

  /** Of the draws below the total, exactly `weights[k]` pick position `k`; the fallback is never what decides. */
  lemma PickIsExact(weights: seq<nat>, k: nat)
    requires k < |weights|
    ensures |set d | d in Draws(0, Sum(weights)) && Pick(weights, d) == k| == weights[k]
  {
    var lo, hi := Sum(weights[..k]), Sum(weights[..k + 1]);
    assert weights[..k + 1][..k] == weights[..k];
    assert weights[..|weights|] == weights;
    SumGrows(weights, k + 1, |weights|);
    DrawCount(lo, hi);
    forall d | 0 <= d < Sum(weights) ensures Pick(weights, d) == k <==> lo <= d < hi {
      PickFromInterval(weights, d, 0, k);
    }
    assert (set d | d in Draws(0, Sum(weights)) && Pick(weights, d) == k) == Draws(lo, hi);
  }

  // ------------------------------------------------------------ selection

  function Clamped(bid: int): nat {
    if bid < 0 then 0 else bid
  }

  function Bids(campaigns: seq<Campaign>, indices: seq<nat>): seq<nat>
    requires forall k | 0 <= k < |indices| :: indices[k] < |campaigns|
  {
    seq(|indices|, k requires 0 <= k < |indices| => Clamped(campaigns[indices[k]].bidAmountMinor))
  }

  function Sizes(groups: seq<Group>): seq<nat> {
    seq(|groups|, k requires 0 <= k < |groups| => |groups[k].indices|)
  }

  /** The currency the group draw chooses. */
  function ChosenCurrency(campaigns: seq<Campaign>, groupDraw: nat): string
    requires campaigns != []
  {
    SomeGroup(campaigns);
    var groups := Grouped(campaigns);
    groups[Pick(Sizes(groups), groupDraw)].currency
  }

  lemma SomeGroup(campaigns: seq<Campaign>)
    requires campaigns != []
    ensures Grouped(campaigns) != []
  {
    CurrenciesAre(campaigns);
    assert campaigns[0].currency in Currencies(campaigns);
  }

  /** What the second draw is drawn below: the group's total bid, or its size when all bids are zero. */
  function SecondBound(campaigns: seq<Campaign>, currency: string): nat {
    IndicesAre(campaigns, currency);
    var indices := IndicesOf(campaigns, currency);
    var total := Sum(Bids(campaigns, indices));
    if total <= 0 then |indices| else total
  }

  /** `selectCampaignIndex` as a function of its two draws. */
  function Selected(campaigns: seq<Campaign>, groupDraw: nat, bidDraw: nat): int {
    if |campaigns| == 0 then -1
    else if |campaigns| == 1 then 0
    else SelectedIn(campaigns, ChosenCurrency(campaigns, groupDraw), bidDraw)
  }

  function SelectedIn(campaigns: seq<Campaign>, currency: string, bidDraw: nat): int {
    IndicesAre(campaigns, currency);
    var indices := IndicesOf(campaigns, currency);
    WeightedIndex(indices, Bids(campaigns, indices), bidDraw)
  }

  /** The second draw picks by bid, or evenly when there is no bid at all. */
  function WeightedIndex(indices: seq<nat>, bids: seq<nat>, draw: nat): int
    requires |bids| == |indices|
  {
    if indices == [] then -1
    else if Sum(bids) <= 0 then indices[if draw < |indices| - 1 then draw else |indices| - 1]
    else indices[Pick(bids, draw)]
  }

  method SelectCampaignIndex(campaigns: seq<Campaign>, groupDraw: nat, bidDraw: nat) returns (r: int)
    ensures r == Selected(campaigns, groupDraw, bidDraw)
  {
    if |campaigns| == 0 { return -1; }
    if |campaigns| == 1 { return 0; }
    var groups := GroupCampaignsByCurrency(campaigns);
    SomeGroup(campaigns);
    var sizes := Sizes(groups);
    var acc: nat, group := 0, groups[|groups| - 1];
    for i := 0 to |groups|
      invariant acc == Sum(sizes[..i]) && group == groups[|groups| - 1]
      invariant Pick(sizes, groupDraw) == if i < |groups| then PickFrom(sizes, groupDraw, i) else |groups| - 1
    {
      assert sizes[..i + 1][..i] == sizes[..i];
      acc := acc + sizes[i];
      if groupDraw < acc {
        group := groups[i];
        break;
      }
    }
    assert group == groups[Pick(sizes, groupDraw)];
    IndicesAre(campaigns, group.currency);
    r := SelectInGroup(group.indices, Bids(campaigns, group.indices), bidDraw);
  }

  /** The bid-weighted half of the selection, within one currency. */
  method SelectInGroup(indices: seq<nat>, bids: seq<nat>, bidDraw: nat) returns (r: int)
    requires |bids| == |indices|
    ensures r == WeightedIndex(indices, bids, bidDraw)
  {
    if indices == [] { return -1; }
    if Sum(bids) <= 0 {
      return indices[if bidDraw < |indices| - 1 then bidDraw else |indices| - 1];
    }
    var random: int := bidDraw;
    for k := 0 to |indices|
      invariant random == bidDraw - Sum(bids[..k])
      invariant Pick(bids, bidDraw) == if k < |indices| then PickFrom(bids, bidDraw, k) else |indices| - 1
    {
      assert bids[..k + 1][..k] == bids[..k];
      random := random - bids[k];
      if random < 0 { return indices[k]; }
    }
    return indices[|indices| - 1];
  }

  // ------------------------------------------------------------ exact weights

  lemma {:induction false} SizesOfOneMore(campaigns: seq<Campaign>, keys: seq<string>)
    requires campaigns != [] && NoRepeats(keys)
    ensures
      var n := |campaigns| - 1;
      Sum(Sizes(GroupsFor(campaigns, keys)))
        == Sum(Sizes(GroupsFor(campaigns[..n], keys))) + (if campaigns[n].currency in keys then 1 else 0)
  {
    var n := |campaigns| - 1;
    var all, before := Sizes(GroupsFor(campaigns, keys)), Sizes(GroupsFor(campaigns[..n], keys));
    if keys != [] {
      var front, last := keys[..|keys| - 1], keys[|keys| - 1];
      SizesOfOneMore(campaigns, front);
      assert all[..|keys| - 1] == Sizes(GroupsFor(campaigns, front));
      assert before[..|keys| - 1] == Sizes(GroupsFor(campaigns[..n], front));
      assert keys == front + [last];
      assert last !in front;
    }
  }

  /** The groups of all currencies hold every campaign once. */
  lemma {:induction false} SizesAddUp(campaigns: seq<Campaign>, keys: seq<string>)
    requires NoRepeats(keys) && forall i | 0 <= i < |campaigns| :: campaigns[i].currency in keys
    ensures Sum(Sizes(GroupsFor(campaigns, keys))) == |campaigns|
  {
    if campaigns == [] {
      NoSizes(keys);
    } else {
      SizesOfOneMore(campaigns, keys);
      SizesAddUp(campaigns[..|campaigns| - 1], keys);
    }
  }

  lemma {:induction false} NoSizes(keys: seq<string>)
    ensures Sum(Sizes(GroupsFor([], keys))) == 0
  {
    if keys != [] {
      NoSizes(keys[..|keys| - 1]);
      assert Sizes(GroupsFor([], keys))[..|keys| - 1] == Sizes(GroupsFor([], keys[..|keys| - 1]));
    }
  }

  function GroupDraws(campaigns: seq<Campaign>, currency: string): set<nat>
    requires campaigns != []
  {
    set d | d in Draws(0, |campaigns|) && ChosenCurrency(campaigns, d) == currency
  }

  /** Of the `N` group draws, exactly as many choose a currency as it has campaigns. */
  lemma GroupWeightIsExact(campaigns: seq<Campaign>, i: nat)
    requires i < |campaigns|
    ensures |GroupDraws(campaigns, campaigns[i].currency)| == |IndicesOf(campaigns, campaigns[i].currency)|
  {
    var currency, groups := campaigns[i].currency, Grouped(campaigns);
    SortedCurrenciesAre(campaigns);
    SizesAddUp(campaigns, StableSort(Currencies(campaigns), StrLeq));
    GroupsPartition(campaigns, i);
    var k :| 0 <= k < |groups| && groups[k].currency == currency;
    SomeGroup(campaigns);
    PickIsExact(Sizes(groups), k);
    DrawsOfGroup(campaigns, k);
    assert GroupDraws(campaigns, currency) == set d | d in Draws(0, Sum(Sizes(groups))) && Pick(Sizes(groups), d) == k;
  }

  /** The draws that choose a group's currency are those that pick the group. */
  lemma DrawsOfGroup(campaigns: seq<Campaign>, k: nat)
    requires campaigns != [] && k < |Grouped(campaigns)|
    ensures forall d | d in Draws(0, |campaigns|) ::
              ChosenCurrency(campaigns, d) == Grouped(campaigns)[k].currency <==> Pick(Sizes(Grouped(campaigns)), d) == k
  {
    SomeGroup(campaigns);
    forall d | d in Draws(0, |campaigns|)
      ensures ChosenCurrency(campaigns, d) == Grouped(campaigns)[k].currency <==> Pick(Sizes(Grouped(campaigns)), d) == k
    {
      OnlyGroupOf(campaigns, Pick(Sizes(Grouped(campaigns)), d), k);
    }
  }

  lemma OnlyGroupOf(campaigns: seq<Campaign>, p: nat, k: nat)
    requires p < |Grouped(campaigns)| && k < |Grouped(campaigns)|
    ensures Grouped(campaigns)[p].currency == Grouped(campaigns)[k].currency <==> p == k
  {
    GroupsAreSorted(campaigns);
  }

  function BidDraws(campaigns: seq<Campaign>, groupDraw: nat, i: nat): set<nat>
    requires i < |campaigns|
  {
    set d | d in Draws(0, SecondBound(campaigns, campaigns[i].currency)) && Selected(campaigns, groupDraw, d) == i
  }

  /** Some campaign of the currency bids more than nothing. */
  predicate SomebodyBids(campaigns: seq<Campaign>, currency: string) {
    exists c :: c in campaigns && c.currency == currency && c.bidAmountMinor > 0
  }

  /**
   With two or more campaigns the weights are exact. Once its currency is chosen a campaign
   is selected by exactly as many of the second draws as its bid, negative bids counting
   as zero, or by exactly one when no campaign of the group bids anything; while another
   currency is chosen nothing selects it.
   */
  lemma SelectionIsExact(campaigns: seq<Campaign>, groupDraw: nat, i: nat)
    requires |campaigns| >= 2 && i < |campaigns| && groupDraw < |campaigns|
    ensures var bid := campaigns[i].bidAmountMinor;
            ChosenCurrency(campaigns, groupDraw) == campaigns[i].currency ==>
              |BidDraws(campaigns, groupDraw, i)|
                == if !SomebodyBids(campaigns, campaigns[i].currency) then 1 else if bid > 0 then bid else 0
    ensures ChosenCurrency(campaigns, groupDraw) != campaigns[i].currency ==>
      forall d: nat :: Selected(campaigns, groupDraw, d) != i
  {
    var currency := campaigns[i].currency;
    if ChosenCurrency(campaigns, groupDraw) == currency {
      SelectionInGroupIsExact(campaigns, i);
      BidsCount(campaigns, i);
      assert BidDraws(campaigns, groupDraw, i) == set d | d in Draws(0, SecondBound(campaigns, currency)) && SelectedIn(campaigns, currency, d) == i;
    } else {
      IndicesAre(campaigns, ChosenCurrency(campaigns, groupDraw));
    }
  }

  lemma {:induction false} SomeWeight(weights: seq<nat>)
    ensures Sum(weights) > 0 <==> exists k :: 0 <= k < |weights| && weights[k] > 0
  {
    if weights != [] {
      var front := weights[..|weights| - 1];
      SomeWeight(front);
      if k :| 0 <= k < |front| && front[k] > 0 { assert weights[k] > 0; }
    }
  }

  lemma BidsCount(campaigns: seq<Campaign>, i: nat)
    requires i < |campaigns|
    ensures Sum(Bids(campaigns, Competitors(campaigns, i))) > 0 <==> SomebodyBids(campaigns, campaigns[i].currency)
  {
    var currency, indices := campaigns[i].currency, Competitors(campaigns, i);
    var bids := Bids(campaigns, indices);
    IndicesAre(campaigns, currency);
    SomeWeight(bids);
    if k :| 0 <= k < |bids| && bids[k] > 0 {
      assert indices[k] in indices;
      assert campaigns[indices[k]] in campaigns;
    }
    if c :| c in campaigns && c.currency == currency && c.bidAmountMinor > 0 {
      var n :| 0 <= n < |campaigns| && campaigns[n] == c;
      assert n in indices;
      var k :| 0 <= k < |indices| && indices[k] == n;
      assert bids[k] > 0;
    }
  }

  /** Whatever the draws, one of the campaigns is selected, and none only when there is none. */
  lemma SomeIsSelected(campaigns: seq<Campaign>, groupDraw: nat, bidDraw: nat)
    ensures Selected(campaigns, groupDraw, bidDraw) == -1 <==> campaigns == []
    ensures campaigns != [] ==> 0 <= Selected(campaigns, groupDraw, bidDraw) < |campaigns|
  {
    if |campaigns| >= 2 {
      var currency := ChosenCurrency(campaigns, groupDraw);
      SomeGroup(campaigns);
      CurrencyHasCampaigns(campaigns, Pick(Sizes(Grouped(campaigns)), groupDraw));
      IndicesAre(campaigns, currency);
      assert forall p | 0 <= p < |IndicesOf(campaigns, currency)| :: IndicesOf(campaigns, currency)[p] < |campaigns|;
    }
  }

  lemma CurrencyHasCampaigns(campaigns: seq<Campaign>, k: nat)
    requires k < |Grouped(campaigns)|
    ensures IndicesOf(campaigns, Grouped(campaigns)[k].currency) != []
  {
    var keys, currency := Currencies(campaigns), Grouped(campaigns)[k].currency;
    SameMultisetSameMembers(StableSort(keys, StrLeq), keys);
    assert currency in StableSort(keys, StrLeq);
    var i := WhereFound(campaigns, currency);
    IndicesAre(campaigns, currency);
    assert i in IndicesOf(campaigns, currency);
  }

  lemma {:induction false} WhereFound(campaigns: seq<Campaign>, currency: string) returns (i: nat)
    requires currency in Currencies(campaigns)
    ensures i < |campaigns| && campaigns[i].currency == currency
  {
    var n := |campaigns| - 1;
    if campaigns[n].currency == currency { i := n; }
    else { i := WhereFound(campaigns[..n], currency); }
  }

  /** The positions a campaign competes with, itself included. */
  function Competitors(campaigns: seq<Campaign>, i: nat): (r: seq<nat>)
    requires i < |campaigns|
    ensures forall k | 0 <= k < |r| :: r[k] < |campaigns|
  {
    IndicesAre(campaigns, campaigns[i].currency);
    IndicesOf(campaigns, campaigns[i].currency)
  }

  lemma SelectionInGroupIsExact(campaigns: seq<Campaign>, i: nat)
    requires i < |campaigns|
    ensures
      var currency, indices := campaigns[i].currency, Competitors(campaigns, i);
      |set d | d in Draws(0, SecondBound(campaigns, currency)) && SelectedIn(campaigns, currency, d) == i|
        == if Sum(Bids(campaigns, indices)) > 0 then Clamped(campaigns[i].bidAmountMinor) else 1
  {
    var currency, indices := campaigns[i].currency, Competitors(campaigns, i);
    var bids, bound := Bids(campaigns, indices), SecondBound(campaigns, currency);
    IndicesAre(campaigns, currency);
    assert i in indices;
    var k :| 0 <= k < |indices| && indices[k] == i;
    WeightedIndexIsExact(indices, bids, bound, k);
    assert (set d | d in Draws(0, bound) && SelectedIn(campaigns, currency, d) == i)
        == (set d | d in Draws(0, bound) && WeightedIndex(indices, bids, d) == i);
  }

  lemma WeightedIndexIsExact(indices: seq<nat>, bids: seq<nat>, bound: nat, k: nat)
    requires |bids| == |indices| && k < |indices| && forall p, q | 0 <= p < q < |indices| :: indices[p] < indices[q]
    requires bound == if Sum(bids) <= 0 then |indices| else Sum(bids)
    ensures |set d | d in Draws(0, bound) && WeightedIndex(indices, bids, d) == indices[k]|
         == if Sum(bids) > 0 then bids[k] else 1
  {
    var chosen := set d | d in Draws(0, bound) && WeightedIndex(indices, bids, d) == indices[k];
    if Sum(bids) > 0 {
      PickIsExact(bids, k);
      forall d | d in Draws(0, bound) ensures WeightedIndex(indices, bids, d) == indices[k] <==> Pick(bids, d) == k {
        PositionsDiffer(indices, k, Pick(bids, d));
      }
      assert chosen == set d | d in Draws(0, Sum(bids)) && Pick(bids, d) == k;
    } else {
      EvenIndex(indices, bids, k);
      assert chosen == {k};
    }
  }

  lemma EvenIndex(indices: seq<nat>, bids: seq<nat>, k: nat)
    requires |bids| == |indices| && k < |indices| && forall p, q | 0 <= p < q < |indices| :: indices[p] < indices[q]
    requires Sum(bids) <= 0
    ensures forall d | d in Draws(0, |indices|) :: WeightedIndex(indices, bids, d) == indices[k] <==> d == k
  {
    forall d | d in Draws(0, |indices|) ensures WeightedIndex(indices, bids, d) == indices[k] <==> d == k {
      PositionsDiffer(indices, k, d);
    }
  }

  lemma PositionsDiffer(indices: seq<nat>, p: nat, q: nat)
    requires p < |indices| && q < |indices| && forall j, k | 0 <= j < k < |indices| :: indices[j] < indices[k]
    ensures indices[p] == indices[q] <==> p == q
  {
  }
}
