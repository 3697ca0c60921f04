/**
 * The sweep-selection step of the simulate-sweep route: given the accounts
 * reported by the balance provider and the active threshold, list the
 * accounts whose available balance is above the threshold, each with the
 * fixed sweep amount.
 *
 * Money is integer cents throughout: 2000 is 20.00, 500 is 5.00.
 */
module Sweep {
  import opened Wrappers

  /** The threshold used when the session holds no sweep rule (20.00). */
  const DefaultThreshold: int := 2000

  /** The amount every eligible account is swept by, whatever its surplus (5.00). */
  const SweepAmount: int := 500

  /** One account of the balance provider's answer; `available` is absent when it reports none. */
  datatype Account = Account(name: string, available: Option<int>)

  /** One entry of the sweep summary. */
  datatype SweepEntry = SweepEntry(name: string, availableBalance: int, sweepAmount: int)

  /** The rule stored by the sweep-rules form; neither field is validated. */
  datatype SweepRule = SweepRule(threshold: int, frequency: string)

  /** The threshold a simulation uses: the stored rule's, or the default when none is stored. */
  function ActiveThreshold(rule: Option<SweepRule>): (t: int)
    ensures rule.None? ==> t == DefaultThreshold
    ensures rule.Some? ==> t == rule.value.threshold
  {
    if rule.Some? then rule.value.threshold else DefaultThreshold
  }

  /**
   * The eligibility test `available and available > threshold`: a missing
   * balance is falsy, and so is a balance of exactly zero.
   */
  predicate Eligible(acct: Account, threshold: int): (b: bool)
    ensures acct.available.None? ==> !b
    ensures acct.available == Some(0) ==> !b
    ensures acct.available.Some? && acct.available.value != 0 ==> (b <==> acct.available.value > threshold)
  {
    acct.available.Some? && acct.available.value != 0 && acct.available.value > threshold
  }

  /** The summary entry built for an account that has a balance. */
  function EntryFor(acct: Account): (e: SweepEntry)
    requires acct.available.Some?
    ensures e.name == acct.name && e.availableBalance == acct.available.value
    ensures e.sweepAmount == SweepAmount
  {
    SweepEntry(acct.name, acct.available.value, SweepAmount)
  }

  /** The sweep summary: the entries of the eligible accounts, in input order. */
  function Summary(accounts: seq<Account>, threshold: int): (r: seq<SweepEntry>)
    ensures |r| <= |accounts|
    ensures forall e :: e in r ==>
      e.availableBalance > threshold && e.availableBalance != 0 && e.sweepAmount == SweepAmount
  {
    if |accounts| == 0 then []
    else
      (if Eligible(accounts[0], threshold) then [EntryFor(accounts[0])] else [])
      + Summary(accounts[1..], threshold)
  }

  /** The loop of the simulate-sweep route that builds the list of sweepable accounts. */
  method SelectSweepable(accounts: seq<Account>, threshold: int) returns (sweepable: seq<SweepEntry>)
    ensures sweepable == Summary(accounts, threshold)
  {
    sweepable := [];
    for i := 0 to |accounts|
      invariant sweepable == Summary(accounts[..i], threshold)
    {
      var acct := accounts[i];
      var available := acct.available;
      if available.Some? && available.value != 0 && available.value > threshold {
        sweepable := sweepable + [SweepEntry(acct.name, available.value, SweepAmount)];
      }
      SummaryAppend(accounts[..i], [acct], threshold);
      assert accounts[..i + 1] == accounts[..i] + [acct];
    }
    assert accounts[..|accounts|] == accounts;
  }

  /** Selecting from two lists one after the other gives the two summaries one after the other. */
  lemma {:induction false} SummaryAppend(front: seq<Account>, back: seq<Account>, threshold: int)
    ensures Summary(front + back, threshold) == Summary(front, threshold) + Summary(back, threshold)
  {
    if front == [] {
      assert front + back == back;
    } else {
      assert (front + back)[0] == front[0];
      assert (front + back)[1..] == front[1..] + back;
      SummaryAppend(front[1..], back, threshold);
    }
  }

  /** Entry `k` of the summary is built from the eligible account at position `idx[k]`. */
  ghost predicate BuiltFrom(accounts: seq<Account>, threshold: int, idx: seq<int>)
  {
    var r := Summary(accounts, threshold);
    && |idx| == |r|
    && forall k :: 0 <= k < |idx| ==>
         0 <= idx[k] < |accounts| && Eligible(accounts[idx[k]], threshold)
         && r[k] == EntryFor(accounts[idx[k]])
  }

  /** The positions are listed in input order. */
  ghost predicate Increasing(idx: seq<int>)
  {
    forall k, l :: 0 <= k < l < |idx| ==> idx[k] < idx[l]
  }

  /** Every eligible position is listed. */
  ghost predicate CoversEligible(accounts: seq<Account>, threshold: int, idx: seq<int>)
  {
    forall i :: 0 <= i < |accounts| && Eligible(accounts[i], threshold) ==> i in idx
  }

  /** The positions of a selection for the tail, moved one place right, led by 0 when the head is eligible. */
  function ConsPositions(accounts: seq<Account>, threshold: int, rest: seq<int>): (idx: seq<int>)
    requires |accounts| > 0
  {
    (if Eligible(accounts[0], threshold) then [0] else [])
    + seq(|rest|, k requires 0 <= k < |rest| => rest[k] + 1)
  }

  /**
   * The summary is exactly the eligible accounts, each turned into its
   * entry, in input order: `idx` lists the positions of the accounts it was
   * built from, strictly increasing, and holds every eligible position.
   */
  lemma {:induction false} SummaryIsOrderedSelection(accounts: seq<Account>, threshold: int)
    returns (idx: seq<int>)
    ensures |idx| == |Summary(accounts, threshold)|
    ensures forall k :: 0 <= k < |idx| ==>
      0 <= idx[k] < |accounts| && Eligible(accounts[idx[k]], threshold)
      && Summary(accounts, threshold)[k] == EntryFor(accounts[idx[k]])
    ensures forall k, l :: 0 <= k < l < |idx| ==> idx[k] < idx[l]
    ensures forall i :: 0 <= i < |accounts| && Eligible(accounts[i], threshold) ==> i in idx
  {
    if |accounts| == 0 {
      idx := [];
    } else {
      var rest := SummaryIsOrderedSelection(accounts[1..], threshold);
      assert BuiltFrom(accounts[1..], threshold, rest);
      idx := ConsPositions(accounts, threshold, rest);
      ConsBuiltFrom(accounts, threshold, rest);
      ConsIncreasing(accounts, threshold, rest);
      ConsCovers(accounts, threshold, rest);
    }
  }

  lemma ConsBuiltFrom(accounts: seq<Account>, threshold: int, rest: seq<int>)
    requires |accounts| > 0 && BuiltFrom(accounts[1..], threshold, rest)
    ensures BuiltFrom(accounts, threshold, ConsPositions(accounts, threshold, rest))
  {
    var tail := accounts[1..];
    var idx := ConsPositions(accounts, threshold, rest);
    var r, rt := Summary(accounts, threshold), Summary(tail, threshold);
    var lead := if Eligible(accounts[0], threshold) then 1 else 0;
    assert r == (if lead == 1 then [EntryFor(accounts[0])] else []) + rt;
    forall k | 0 <= k < |idx|
      ensures 0 <= idx[k] < |accounts| && Eligible(accounts[idx[k]], threshold)
      ensures r[k] == EntryFor(accounts[idx[k]])
    {
      if k >= lead {
        assert idx[k] == rest[k - lead] + 1;
        assert r[k] == rt[k - lead];
        assert accounts[idx[k]] == tail[rest[k - lead]];
      }
    }
  }

  lemma ConsIncreasing(accounts: seq<Account>, threshold: int, rest: seq<int>)
    requires |accounts| > 0 && Increasing(rest)
    requires forall k :: 0 <= k < |rest| ==> 0 <= rest[k]
    ensures Increasing(ConsPositions(accounts, threshold, rest))
  {
    var idx := ConsPositions(accounts, threshold, rest);
    var lead := if Eligible(accounts[0], threshold) then 1 else 0;
    forall k, l | 0 <= k < l < |idx| ensures idx[k] < idx[l] {
      assert idx[l] == rest[l - lead] + 1;
      if k >= lead {
        assert idx[k] == rest[k - lead] + 1;
      }
    }
  }

  lemma ConsCovers(accounts: seq<Account>, threshold: int, rest: seq<int>)
    requires |accounts| > 0 && CoversEligible(accounts[1..], threshold, rest)
    ensures CoversEligible(accounts, threshold, ConsPositions(accounts, threshold, rest))
  {
    var tail := accounts[1..];
    var idx := ConsPositions(accounts, threshold, rest);
    var lead := if Eligible(accounts[0], threshold) then 1 else 0;
    forall i | 0 <= i < |accounts| && Eligible(accounts[i], threshold)
      ensures i in idx
    {
      if i > 0 {
        assert accounts[i] == tail[i - 1];
        assert Eligible(tail[i - 1], threshold);
        var k :| 0 <= k < |rest| && rest[k] == i - 1;
        assert idx[k + lead] == i;
      }
    }
  }

  /** An entry is in the summary exactly when some eligible account produces it. */
  lemma SummaryMembership(accounts: seq<Account>, threshold: int, e: SweepEntry)
    ensures e in Summary(accounts, threshold) <==>
      exists i :: 0 <= i < |accounts| && Eligible(accounts[i], threshold) && e == EntryFor(accounts[i])
  {
    var idx := SummaryIsOrderedSelection(accounts, threshold);
    var r := Summary(accounts, threshold);
    if e in r {
      var k :| 0 <= k < |r| && r[k] == e;
      assert Eligible(accounts[idx[k]], threshold) && e == EntryFor(accounts[idx[k]]);
    }
    if exists i :: 0 <= i < |accounts| && Eligible(accounts[i], threshold) && e == EntryFor(accounts[i]) {
      var i :| 0 <= i < |accounts| && Eligible(accounts[i], threshold) && e == EntryFor(accounts[i]);
      var k :| 0 <= k < |idx| && idx[k] == i;
      assert r[k] == e;
    }
  }

  /** The summary around one account: what comes before it, its own part, what comes after. */
  lemma SummaryAround(before: seq<Account>, acct: Account, after: seq<Account>, threshold: int)
    ensures Summary(before + [acct] + after, threshold)
         == Summary(before, threshold)
            + (if Eligible(acct, threshold) then [EntryFor(acct)] else [])
            + Summary(after, threshold)
  {
    SummaryAppend(before + [acct], after, threshold);
    SummaryAppend(before, [acct], threshold);
    assert [acct][1..] == [];
  }

  /**
   * An account with no available balance, or with a balance of exactly
   * zero, leaves the summary as it would be without it, whatever the
   * threshold (even a negative one).
   */
  lemma UnknownOrZeroBalanceIgnored(before: seq<Account>, acct: Account, after: seq<Account>, threshold: int)
    requires acct.available == None || acct.available == Some(0)
    ensures Summary(before + [acct] + after, threshold) == Summary(before + after, threshold)
  {
    SummaryAround(before, acct, after, threshold);
    SummaryAppend(before, after, threshold);
  }

  /**
   * The boundary is strict: an account whose balance equals the threshold
   * contributes nothing, and one cent above it contributes its entry
   * (unless that balance is zero).
   */
  lemma ThresholdBoundary(before: seq<Account>, name: string, after: seq<Account>, threshold: int)
    ensures Summary(before + [Account(name, Some(threshold))] + after, threshold)
         == Summary(before, threshold) + Summary(after, threshold)
    ensures threshold != -1 ==>
      Summary(before + [Account(name, Some(threshold + 1))] + after, threshold)
      == Summary(before, threshold) + [SweepEntry(name, threshold + 1, SweepAmount)] + Summary(after, threshold)
  {
    SummaryAround(before, Account(name, Some(threshold)), after, threshold);
    SummaryAround(before, Account(name, Some(threshold + 1)), after, threshold);
    assert Summary(before, threshold) + [] == Summary(before, threshold);
  }

  /** Checking 25.00, Savings 10.00 and Credit with no balance, against 20.00: only Checking is swept. */
  lemma ExampleScenario()
    ensures Summary([Account("Checking", Some(2500)), Account("Savings", Some(1000)), Account("Credit", None)], 2000)
         == [SweepEntry("Checking", 2500, SweepAmount)]
  {
  }
}
