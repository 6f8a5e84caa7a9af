/** The transform from the affiliate service's entries to the published
    leaderboard: filter, rank by amount, keep the top ten, swap the first two,
    and mask the names. */
module Leaderboard {
  import opened Wrappers
  import Text
  import Mask

  /** How many ranked entries are published. */
  const TopN: nat := 10

  /** The name excluded from the board, matched case-insensitively. */
  const Excluded: string := "tyler"

  /** One element of the service's `affiliates` array. `username` is `None`
      when the field is missing or null; `amount` is the rounded value of
      `parseFloat(wagered_amount)`, or `None` when that is NaN. */
  datatype RawEntry = RawEntry(username: Option<string>, amount: Option<int>)

  /** An entry that passed the filter, with its name and amount read out. */
  datatype Candidate = Candidate(name: string, amount: int)

  /** One row of the published leaderboard. */
  datatype Entry = Entry(username: string, wagered: int, weightedWager: int)

  /** A name may appear on the board: it is non-empty and its lower-cased
      form has no occurrence of the excluded name. */
  ghost predicate EligibleName(name: string) {
    name != [] && forall i :: !Text.OccursAt(Text.Lower(name), Excluded, i)
  }

  /** The filter's condition on a raw entry: a truthy username that is
      eligible, and an amount that is a number. */
  ghost predicate Accepted(e: RawEntry) {
    e.username.Some? && EligibleName(e.username.value) && e.amount.Some?
  }

  /** The test the program applies, one raw entry at a time. */
  function Keep(e: RawEntry): (r: Option<Candidate>)
    ensures r.Some? <==> Accepted(e)
    ensures r.Some? ==> r.value == Candidate(e.username.value, e.amount.value)
  {
    match e.username
    case None => None
    case Some(u) =>
      if u == [] || Text.Includes(Text.Lower(u), Excluded) then None
      else match e.amount
        case None => None
        case Some(w) => Some(Candidate(u, w))
  }

  /** The filtered entries, in input order. */
  function Filter(raw: seq<RawEntry>): (r: seq<Candidate>)
    ensures |r| <= |raw|
    ensures forall k :: 0 <= k < |r| ==> EligibleName(r[k].name)
  {
    if |raw| == 0 then []
    else
      match Keep(raw[0])
      case None => Filter(raw[1..])
      case Some(c) => [c] + Filter(raw[1..])
  }

  /** Exactly the candidates of accepted entries survive the filter: each
      survivor comes from an accepted entry, and each accepted entry yields
      a survivor. */
  lemma {:induction false} FilterMembership(raw: seq<RawEntry>, c: Candidate)
    ensures c in Filter(raw) <==>
      exists j :: 0 <= j < |raw| && Accepted(raw[j]) && c == Candidate(raw[j].username.value, raw[j].amount.value)
  {
    if |raw| > 0 {
      FilterMembership(raw[1..], c);
      var tail := raw[1..];
      assert forall j :: 0 <= j < |tail| ==> tail[j] == raw[j + 1];
      if c in Filter(raw) && !(c in Filter(raw[1..])) {
        assert Accepted(raw[0]);
      }
      if Accepted(raw[0]) && c == Candidate(raw[0].username.value, raw[0].amount.value) {
        assert c in Filter(raw);
      }
    }
  }

  /** The filter looks at one entry at a time: an accepted entry yields its
      candidate once, any other entry yields nothing. */
  lemma FilterSingle(e: RawEntry)
    ensures Filter([e]) == if Accepted(e) then [Candidate(e.username.value, e.amount.value)] else []
  {
    assert [e][1..] == [];
  }

  /** Filtering a concatenation filters each part and concatenates, so every
      accepted entry survives exactly once, duplicates included, and in
      input order. */
  lemma {:induction false} FilterAppend(a: seq<RawEntry>, b: seq<RawEntry>)
    ensures Filter(a + b) == Filter(a) + Filter(b)
    decreases |a|
  {
    if |a| > 0 {
      assert (a + b)[0] == a[0];
      assert (a + b)[1..] == a[1..] + b;
      FilterAppend(a[1..], b);
    } else {
      assert a + b == b;
    }
  }

  /** The number of entries the filter's condition accepts. */
  ghost function AcceptedCount(raw: seq<RawEntry>): nat {
    if |raw| == 0 then 0
    else (if Accepted(raw[0]) then 1 else 0) + AcceptedCount(raw[1..])
  }

  /** The filter keeps one candidate per accepted entry. */
  lemma {:induction false} FilterCount(raw: seq<RawEntry>)
    ensures |Filter(raw)| == AcceptedCount(raw)
  {
    if |raw| > 0 {
      FilterCount(raw[1..]);
    }
  }

  /** Amounts never increase from one position to a later one. */
  predicate NonIncreasing(s: seq<Candidate>) {
    forall i, j :: 0 <= i < j < |s| ==> s[i].amount >= s[j].amount
  }

  /** Inserts `c` into a non-increasing sequence, before the first entry with
      a smaller or equal amount. */
  function Insert(c: Candidate, s: seq<Candidate>): (r: seq<Candidate>)
    requires NonIncreasing(s)
    ensures NonIncreasing(r)
    ensures multiset(r) == multiset(s) + multiset{c}
    ensures |r| == |s| + 1
    ensures r[0] == c || (|s| > 0 && r[0] == s[0])
  {
    if |s| == 0 then [c]
    else if c.amount >= s[0].amount then [c] + s
    else
      assert s == [s[0]] + s[1..];
      [s[0]] + Insert(c, s[1..])
  }

  /** Sorting by amount, largest first (insertion sort). */
  function SortDescending(s: seq<Candidate>): (r: seq<Candidate>)
    ensures NonIncreasing(r)
    ensures multiset(r) == multiset(s)
    ensures |r| == |s|
  {
    if |s| == 0 then []
    else
      assert s == [s[0]] + s[1..];
      Insert(s[0], SortDescending(s[1..]))
  }

  /** The first `n` entries, or all of them when there are fewer. */
  function Take(s: seq<Candidate>, n: nat): (r: seq<Candidate>)
    ensures |r| == if |s| < n then |s| else n
    ensures forall k :: 0 <= k < |r| ==> r[k] == s[k]
  {
    if |s| < n then s else s[..n]
  }

  /** In a non-increasing list, every entry after position `n` is no larger
      than every entry before it. */
  lemma SplitOrdered(s: seq<Candidate>, n: nat)
    requires NonIncreasing(s) && n <= |s|
    ensures forall x, y :: x in s[n..] && y in s[..n] ==> x.amount <= y.amount
  {
    forall x, y | x in s[n..] && y in s[..n]
      ensures x.amount <= y.amount
    {
      var i :| 0 <= i < |s[n..]| && s[n..][i] == x;
      var j :| 0 <= j < n && s[..n][j] == y;
      assert s[n + i] == x && s[j] == y;
    }
  }

  /** What the sorted prefix keeps is never below what it drops: every
      candidate left out has an amount no larger than any kept one. */
  lemma TakeKeepsLargest(s: seq<Candidate>, n: nat)
    requires NonIncreasing(s)
    ensures multiset(Take(s, n)) <= multiset(s)
    ensures forall x, y :: x in multiset(s) - multiset(Take(s, n)) && y in Take(s, n) ==> x.amount <= y.amount
  {
    if |s| >= n {
      var kept, dropped := s[..n], s[n..];
      assert s == kept + dropped;
      assert multiset(s) - multiset(kept) == multiset(dropped);
      assert Take(s, n) == kept;
      SplitOrdered(s, n);
    } else {
      assert multiset(s) - multiset(Take(s, n)) == multiset{};
    }
  }

  /** Exchanges the first two entries when there are at least two. */
  function SwapFirstTwo<T>(s: seq<T>): (r: seq<T>)
    ensures |r| == |s|
    ensures |s| >= 2 ==> r[0] == s[1] && r[1] == s[0]
    ensures forall k :: 2 <= k < |s| ==> r[k] == s[k]
    ensures |s| < 2 ==> r == s
    ensures multiset(r) == multiset(s)
  {
    if |s| < 2 then s
    else
      assert s == [s[0]] + [s[1]] + s[2..];
      [s[1], s[0]] + s[2..]
  }

  /** The swap undoes itself. */
  lemma SwapInvolution<T>(s: seq<T>)
    ensures SwapFirstTwo(SwapFirstTwo(s)) == s
  {
  }

  /** The ranked list before masking: the top ten by amount, first two
      exchanged. */
  function Ranked(raw: seq<RawEntry>): (r: seq<Candidate>)
    ensures |r| <= TopN
  {
    SwapFirstTwo(Take(SortDescending(Filter(raw)), TopN))
  }

  /** The published row for a ranked candidate: masked name, and the amount
      as both wager fields. */
  function Publish(c: Candidate): (e: Entry)
    ensures e.wagered == e.weightedWager == c.amount
    ensures e.username == Mask.MaskUsername(c.name)
  {
    Entry(Mask.MaskUsername(c.name), c.amount, c.amount)
  }

  /** The leaderboard the refresh stores. */
  function BuildLeaderboard(raw: seq<RawEntry>): (board: seq<Entry>)
    ensures |board| == |Ranked(raw)| <= TopN
    ensures forall k :: 0 <= k < |board| ==> board[k] == Publish(Ranked(raw)[k])
  {
    var ranked := Ranked(raw);
    seq(|ranked|, k requires 0 <= k < |ranked| => Publish(ranked[k]))
  }

  /** The ranked list holds `min(10, number filtered)` candidates, all taken
      from the filtered ones, and no filtered candidate left out has a
      larger amount than one kept. */
  lemma RankedIsTopOfFiltered(raw: seq<RawEntry>)
    ensures |Ranked(raw)| == if |Filter(raw)| < TopN then |Filter(raw)| else TopN
    ensures multiset(Ranked(raw)) <= multiset(Filter(raw))
    ensures forall x, y :: x in multiset(Filter(raw)) - multiset(Ranked(raw)) && y in Ranked(raw)
              ==> x.amount <= y.amount
  {
    var sorted := SortDescending(Filter(raw));
    var top := Take(sorted, TopN);
    TakeKeepsLargest(sorted, TopN);
    assert multiset(Ranked(raw)) == multiset(top);
    forall y | y in Ranked(raw) ensures y in top {
      assert y in multiset(Ranked(raw));
    }
  }

  /** Swapping the first two entries of a non-increasing list: the second
      is then at least the first, the first is at least every later one, and
      from the second on the order is kept. */
  lemma SwappedOrder(s: seq<Candidate>)
    requires NonIncreasing(s)
    ensures var r := SwapFirstTwo(s);
      && (|r| >= 2 ==> r[1].amount >= r[0].amount)
      && (forall k :: 2 <= k < |r| ==> r[0].amount >= r[k].amount)
      && (forall i, j :: 1 <= i < j < |r| ==> r[i].amount >= r[j].amount)
  {
    var r := SwapFirstTwo(s);
    if |s| >= 2 {
      forall k | 2 <= k < |r| ensures r[0].amount >= r[k].amount {
        assert r[0] == s[1] && r[k] == s[k];
      }
      forall i, j | 1 <= i < j < |r| ensures r[i].amount >= r[j].amount {
        assert r[j] == s[j];
        if i == 1 {
          assert r[i] == s[0];
        } else {
          assert r[i] == s[i];
        }
      }
    }
  }

  /** The order of the ranked list: the second entry is at least the first,
      the first is at least every entry from the third on, and from the
      second entry on amounts never increase. */
  lemma RankedOrder(raw: seq<RawEntry>)
    ensures var r := Ranked(raw);
      && (|r| >= 2 ==> r[1].amount >= r[0].amount)
      && (forall k :: 2 <= k < |r| ==> r[0].amount >= r[k].amount)
      && (forall i, j :: 1 <= i < j < |r| ==> r[i].amount >= r[j].amount)
  {
    var sorted := SortDescending(Filter(raw));
    var top := Take(sorted, TopN);
    assert NonIncreasing(top) by {
      forall i, j | 0 <= i < j < |top| ensures top[i].amount >= top[j].amount {
        assert top[i] == sorted[i] && top[j] == sorted[j];
      }
    }
    SwappedOrder(top);
  }

  /** Every ranked candidate's name is eligible. */
  lemma RankedEligible(raw: seq<RawEntry>)
    ensures forall k :: 0 <= k < |Ranked(raw)| ==> EligibleName(Ranked(raw)[k].name)
  {
    RankedIsTopOfFiltered(raw);
    var f := Filter(raw);
    forall k | 0 <= k < |Ranked(raw)| ensures EligibleName(Ranked(raw)[k].name) {
      var y := Ranked(raw)[k];
      assert y in multiset(Ranked(raw));
      assert y in multiset(f);
      var i :| 0 <= i < |f| && f[i] == y;
    }
  }

  /** The published board in terms of the raw entries: at most ten rows,
      each with equal wager fields and the masked form of an eligible name;
      in wager order apart from the exchanged first two. */
  lemma BoardShape(raw: seq<RawEntry>)
    ensures var b := BuildLeaderboard(raw);
      && |b| <= TopN
      && (forall k :: 0 <= k < |b| ==> b[k].weightedWager == b[k].wagered && |b[k].username| <= 7)
      && (forall k :: 0 <= k < |b| ==> exists n :: EligibleName(n) && b[k].username == Mask.MaskUsername(n))
      && (|b| >= 2 ==> b[1].wagered >= b[0].wagered)
      && (forall k :: 2 <= k < |b| ==> b[0].wagered >= b[k].wagered)
      && (forall i, j :: 1 <= i < j < |b| ==> b[i].wagered >= b[j].wagered)
  {
    var b := BuildLeaderboard(raw);
    RankedOrder(raw);
    RankedEligible(raw);
    forall k | 0 <= k < |b|
      ensures |b[k].username| <= 7
      ensures exists n :: EligibleName(n) && b[k].username == Mask.MaskUsername(n)
    {
      var n := Ranked(raw)[k].name;
      Mask.MaskBounds(n);
      assert EligibleName(n) && b[k].username == Mask.MaskUsername(n);
    }
  }

  /** The filter's three exclusions: "tyler" in any letter case anywhere in
      the name, an amount that is not a number, and an empty or missing
      name. An eligible entry passes. */
  lemma KeepExamples()
    ensures Keep(RawEntry(Some("xTyLeRx"), Some(1))) == None
    ensures Keep(RawEntry(Some("ann"), None)) == None
    ensures Keep(RawEntry(Some(""), Some(1))) == None
    ensures Keep(RawEntry(None, Some(1))) == None
    ensures Keep(RawEntry(Some("ann"), Some(7))) == Some(Candidate("ann", 7))
  {
    assert Text.Lower("xTyLeRx") == "xtylerx";
    assert Text.OccursAt("xtylerx", Excluded, 1);
  }

  /** Four entries with amounts 5, 50, 20 and 1, all of them eligible. */
  function ExampleEntries(): seq<RawEntry> {
    [RawEntry(Some("ann"), Some(5)), RawEntry(Some("bob"), Some(50)),
     RawEntry(Some("cy"), Some(20)), RawEntry(Some("dee"), Some(1))]
  }

  /** All four example entries pass the filter, in input order. */
  lemma ExampleFilter()
    ensures Filter(ExampleEntries()) ==
      [Candidate("ann", 5), Candidate("bob", 50), Candidate("cy", 20), Candidate("dee", 1)]
  {
    var raw := ExampleEntries();
    assert Keep(raw[0]) == Some(Candidate("ann", 5));
    assert Keep(raw[1]) == Some(Candidate("bob", 50));
    assert Keep(raw[2]) == Some(Candidate("cy", 20));
    assert Keep(raw[3]) == Some(Candidate("dee", 1));
    assert raw[1..][1..][1..][1..] == [];
    assert raw[1..][1..][1..] == raw[3..];
    assert raw[1..][1..] == raw[2..];
    assert Filter(raw[3..]) == [Candidate("dee", 1)];
    assert Filter(raw[2..]) == [Candidate("cy", 20), Candidate("dee", 1)];
  }

  /** The last two example candidates are already in order. */
  lemma ExampleSortTail()
    ensures SortDescending([Candidate("bob", 50), Candidate("cy", 20), Candidate("dee", 1)]) ==
      [Candidate("bob", 50), Candidate("cy", 20), Candidate("dee", 1)]
  {
    var b, c, d := Candidate("bob", 50), Candidate("cy", 20), Candidate("dee", 1);
    assert [b, c, d][1..] == [c, d];
    assert [c, d][1..] == [d];
    assert SortDescending([d]) == [d];
    assert SortDescending([c, d]) == [c, d];
  }

  /** Inserting the amount 5 places it third. */
  lemma ExampleInsert()
    ensures Insert(Candidate("ann", 5), [Candidate("bob", 50), Candidate("cy", 20), Candidate("dee", 1)]) ==
      [Candidate("bob", 50), Candidate("cy", 20), Candidate("ann", 5), Candidate("dee", 1)]
  {
    var a, b, c, d := Candidate("ann", 5), Candidate("bob", 50), Candidate("cy", 20), Candidate("dee", 1);
    assert [b, c, d][1..] == [c, d];
    assert [c, d][1..] == [d];
    assert Insert(a, [d]) == [a, d];
    assert Insert(a, [c, d]) == [c] + [a, d];
  }

  /** Sorting the example's candidates puts the amounts in the order
      50, 20, 5, 1. */
  lemma ExampleSort()
    ensures SortDescending([Candidate("ann", 5), Candidate("bob", 50), Candidate("cy", 20), Candidate("dee", 1)]) ==
      [Candidate("bob", 50), Candidate("cy", 20), Candidate("ann", 5), Candidate("dee", 1)]
  {
    var a, b, c, d := Candidate("ann", 5), Candidate("bob", 50), Candidate("cy", 20), Candidate("dee", 1);
    assert [a, b, c, d][1..] == [b, c, d];
    ExampleSortTail();
    ExampleInsert();
  }

  /** The ranked example: the amounts 20, 50, 5, 1. */
  lemma ExampleRanked()
    ensures Ranked(ExampleEntries()) ==
      [Candidate("cy", 20), Candidate("bob", 50), Candidate("ann", 5), Candidate("dee", 1)]
  {
    ExampleFilter();
    ExampleSort();
  }

  /** Amounts 5, 50, 20 and 1 are published in the order 20, 50, 5, 1: the
      largest amount is shown second. */
  lemma RankingExample()
    ensures var b := BuildLeaderboard(ExampleEntries());
      |b| == 4 && b[0].wagered == 20 && b[1].wagered == 50 && b[2].wagered == 5 && b[3].wagered == 1
  {
    var r := Ranked(ExampleEntries());
    var b := BuildLeaderboard(ExampleEntries());
    ExampleRanked();
    assert b[0] == Publish(r[0]) && b[1] == Publish(r[1]);
    assert b[2] == Publish(r[2]) && b[3] == Publish(r[3]);
  }
}
