/** The parts of the owner's `/admin` command that compute something: the
    split of the argument into an action and its value, and the
    `referral_stats` report (total referrals and the five top referrers). */
module AdminCommands {
  import opened JsSemantics
  import opened EntitlementStore
  import ReferralLedger

  // ---------------------------------------------------------------------------
  // Command split

  datatype AdminRequest = Help | Action(action: string, value: string)

  /** `/admin [command]`: no command (or an empty one) asks for help;
      otherwise `parts = command.split(' ')`, the action is `parts[0]` and the
      value `parts.slice(1).join(' ')`. */
  function ParseAdmin(command: Option<string>): (r: AdminRequest)
    ensures r.Help? <==> command.None? || command.value == ""
    ensures r.Action? ==> ' ' !in r.action
    ensures r.Action? && ' ' in command.value ==> command.value == r.action + " " + r.value
    ensures r.Action? && ' ' !in command.value ==> r.action == command.value && r.value == ""
  {
    if command.None? || command.value == "" then Help
    else
      var parts := Split(command.value, ' ');
      SplitFirstField(command.value, ' ');
      Action(parts[0], Join(parts[1..], ' '))
  }

  /** The first field and the join of the rest put the string back together
      around its first separator. */
  lemma SplitFirstField(s: string, d: char)
    ensures var parts := Split(s, d);
            && (d in s ==> s == parts[0] + [d] + Join(parts[1..], d))
            && (d !in s ==> parts[0] == s && Join(parts[1..], d) == "")
  {
    var parts := Split(s, d);
    JoinSplit(s, d);
    if d in s {
      assert |parts| >= 2;
    }
  }

  // ---------------------------------------------------------------------------
  // Referral statistics

  /** One `[userId, stats]` pair of `Object.entries(referrers)`. */
  type Entry = (UserId, ReferrerStats)

  /** `data.totalReferrals || 0`. */
  function Count(e: Entry): nat
  {
    e.1.totalReferrals
  }

  function SumTotals(es: seq<Entry>): nat
  {
    if |es| == 0 then 0 else Count(es[0]) + SumTotals(es[1..])
  }

  predicate SortedDesc(es: seq<Entry>)
  {
    forall i, j :: 0 <= i < j < |es| ==> Count(es[i]) >= Count(es[j])
  }

  /** Places `e` in front of every entry with a total no larger than its own,
      so earlier entries stay ahead of later ones with the same total. */
  function InsertDesc(e: Entry, xs: seq<Entry>): seq<Entry>
  {
    if |xs| == 0 then [e]
    else if Count(xs[0]) > Count(e) then [xs[0]] + InsertDesc(e, xs[1..])
    else [e] + xs
  }

  /** The comparator sort of the entries by descending total. */
  function SortDesc(es: seq<Entry>): seq<Entry>
  {
    if |es| == 0 then [] else InsertDesc(es[0], SortDesc(es[1..]))
  }

  lemma {:induction false} InsertDescPermutes(e: Entry, xs: seq<Entry>)
    ensures multiset(InsertDesc(e, xs)) == multiset(xs) + multiset{e}
  {
    if |xs| > 0 && Count(xs[0]) > Count(e) {
      InsertDescPermutes(e, xs[1..]);
      assert xs == [xs[0]] + xs[1..];
    }
  }

  /** An entry no larger than a bound, inserted among entries no larger than
      it, leaves every entry no larger than it. */
  lemma {:induction false} InsertDescBelow(e: Entry, xs: seq<Entry>, b: nat)
    requires Count(e) <= b
    requires forall k :: 0 <= k < |xs| ==> Count(xs[k]) <= b
    ensures forall k :: 0 <= k < |InsertDesc(e, xs)| ==> Count(InsertDesc(e, xs)[k]) <= b
  {
    if |xs| > 0 && Count(xs[0]) > Count(e) {
      InsertDescBelow(e, xs[1..], b);
    }
  }

  /** A descending sequence stays descending under a head no smaller than
      any of its entries. */
  lemma ConsSorted(h: Entry, t: seq<Entry>)
    requires SortedDesc(t)
    requires forall k :: 0 <= k < |t| ==> Count(t[k]) <= Count(h)
    ensures SortedDesc([h] + t)
  {
    var r := [h] + t;
    forall i, j | 0 <= i < j < |r| ensures Count(r[i]) >= Count(r[j]) {
      assert r[j] == t[j - 1];
      if i > 0 {
        assert r[i] == t[i - 1];
      }
    }
  }

  lemma {:induction false} InsertDescSorted(e: Entry, xs: seq<Entry>)
    requires SortedDesc(xs)
    ensures SortedDesc(InsertDesc(e, xs))
  {
    if |xs| == 0 {
      assert InsertDesc(e, xs) == [e];
    } else if Count(xs[0]) > Count(e) {
      assert forall k :: 0 <= k < |xs[1..]| ==> Count(xs[1..][k]) <= Count(xs[0]) by {
        forall k | 0 <= k < |xs[1..]| ensures Count(xs[1..][k]) <= Count(xs[0]) {
          assert xs[1..][k] == xs[k + 1];
        }
      }
      InsertDescSorted(e, xs[1..]);
      InsertDescBelow(e, xs[1..], Count(xs[0]));
      ConsSorted(xs[0], InsertDesc(e, xs[1..]));
    } else {
      ConsSorted(e, xs);
    }
  }

  /** Sorting yields a descending permutation of the entries. */
  lemma {:induction false} SortDescCorrect(es: seq<Entry>)
    ensures SortedDesc(SortDesc(es))
    ensures multiset(SortDesc(es)) == multiset(es)
  {
    if |es| > 0 {
      SortDescCorrect(es[1..]);
      InsertDescSorted(es[0], SortDesc(es[1..]));
      InsertDescPermutes(es[0], SortDesc(es[1..]));
      assert es == [es[0]] + es[1..];
    }
  }

  /** The referral report: the sum of all totals and the first five entries
      by descending total. */
  datatype ReferralReport = ReferralReport(total: nat, top: seq<Entry>)


  lemma {:induction false} SumTotalsAppend(a: seq<Entry>, b: seq<Entry>)
    ensures SumTotals(a + b) == SumTotals(a) + SumTotals(b)
  {
    if |a| > 0 {
      assert (a + b)[0] == a[0];
      assert (a + b)[1..] == a[1..] + b;
      SumTotalsAppend(a[1..], b);
    } else {
      assert a + b == b;
    }
  }

  lemma {:induction false} SumTotalsInsert(e: Entry, xs: seq<Entry>)
    ensures SumTotals(InsertDesc(e, xs)) == Count(e) + SumTotals(xs)
  {
    if |xs| > 0 && Count(xs[0]) > Count(e) {
      SumTotalsInsert(e, xs[1..]);
    }
  }

  /** Sorting does not change the total. */
  lemma {:induction false} SumTotalsSort(es: seq<Entry>)
    ensures SumTotals(SortDesc(es)) == SumTotals(es)
  {
    if |es| > 0 {
      SumTotalsSort(es[1..]);
      SumTotalsInsert(es[0], SortDesc(es[1..]));
    }
  }

  /** In a descending sequence, nothing after a cut outranks anything
      before it. */
  lemma CutBound(sorted: seq<Entry>, n: nat)
    requires SortedDesc(sorted) && n <= |sorted|
    ensures forall e, t :: e in multiset(sorted[n..]) && t in sorted[..n] ==> Count(e) <= Count(t)
  {
    forall e, t | e in multiset(sorted[n..]) && t in sorted[..n]
      ensures Count(e) <= Count(t)
    {
      var i :| 0 <= i < |sorted[n..]| && sorted[n..][i] == e;
      var j :| 0 <= j < n && sorted[..n][j] == t;
      assert sorted[n + i] == e && sorted[j] == t;
    }
  }

  /** Splitting a sequence at a cut splits its multiset and its total. */
  lemma CutParts(sorted: seq<Entry>, n: nat)
    requires n <= |sorted|
    ensures multiset(sorted) == multiset(sorted[..n]) + multiset(sorted[n..])
    ensures SumTotals(sorted) == SumTotals(sorted[..n]) + SumTotals(sorted[n..])
  {
    assert sorted == sorted[..n] + sorted[n..];
    SumTotalsAppend(sorted[..n], sorted[n..]);
  }

  /** A prefix of a descending permutation of `es`: itself descending,
      drawn from `es`, outranking everything left out, and totalling no more
      than `es`. */
  lemma SortedPrefix(es: seq<Entry>, sorted: seq<Entry>, n: nat)
    requires SortedDesc(sorted) && multiset(sorted) == multiset(es)
    requires SumTotals(sorted) == SumTotals(es)
    requires n <= |sorted|
    ensures SortedDesc(sorted[..n])
    ensures multiset(sorted[..n]) <= multiset(es)
    ensures forall e, t :: e in multiset(es) - multiset(sorted[..n]) && t in sorted[..n] ==> Count(e) <= Count(t)
    ensures SumTotals(sorted[..n]) <= SumTotals(es)
  {
    CutParts(sorted, n);
    CutBound(sorted, n);
    assert multiset(es) - multiset(sorted[..n]) == multiset(sorted[n..]);
  }

  /** `referral_stats`: the total of all referrals and the top five
      referrers. The top list holds five entries, or all when fewer, in
      descending order, drawn from the input, each outranking every entry
      left out. */
  function ReferralStats(es: seq<Entry>): (rep: ReferralReport)
    ensures |rep.top| == (if |es| < 5 then |es| else 5)
    ensures SortedDesc(rep.top)
    ensures multiset(rep.top) <= multiset(es)
    ensures forall e, t :: e in multiset(es) - multiset(rep.top) && t in rep.top ==> Count(e) <= Count(t)
    ensures rep.total == SumTotals(es)
    ensures SumTotals(rep.top) <= rep.total
  {
    var sorted := SortDesc(es);
    SortDescCorrect(es);
    SumTotalsSort(es);
    assert |sorted| == |multiset(sorted)| == |multiset(es)| == |es|;
    var n := if |sorted| < 5 then |sorted| else 5;
    SortedPrefix(es, sorted, n);
    ReferralReport(SumTotals(es), sorted[..n])
  }


  /** The entries enumerate exactly the referrer records of a store, each key
      once. */
  predicate Enumerates(es: seq<Entry>, m: map<UserId, ReferrerStats>)
  {
    && (forall i :: 0 <= i < |es| ==> es[i].0 in m && m[es[i].0] == es[i].1)
    && (forall i, j :: 0 <= i < j < |es| ==> es[i].0 != es[j].0)
    && (forall k :: k in m ==> exists i :: 0 <= i < |es| && es[i].0 == k)
  }

  function Keys(es: seq<Entry>): set<UserId>
  {
    set i | 0 <= i < |es| :: es[i].0
  }

  /** Redemptions crediting any referrer in `referrers`. */
  function CreditedTo(s: Store, referrers: set<UserId>): set<UserId>
  {
    set u | u in s.redemptions && s.redemptions[u].referredBy in referrers
  }

  /** The keys of a list of distinct keys are its head's and, apart from
      it, its tail's. */
  lemma KeysCons(es: seq<Entry>)
    requires |es| > 0
    requires forall i, j :: 0 <= i < j < |es| ==> es[i].0 != es[j].0
    ensures Keys(es) == Keys(es[1..]) + {es[0].0} && es[0].0 !in Keys(es[1..])
  {
    var rest := es[1..];
    forall x | x in Keys(es) ensures x in Keys(rest) + {es[0].0} {
      var i :| 0 <= i < |es| && es[i].0 == x;
      if i > 0 {
        assert rest[i - 1].0 == x;
      }
    }
    forall x | x in Keys(rest) ensures x in Keys(es) {
      var i :| 0 <= i < |rest| && rest[i].0 == x;
      assert es[i + 1].0 == x;
    }
    forall i | 0 <= i < |rest| ensures rest[i].0 != es[0].0 {
      assert rest[i] == es[i + 1];
    }
  }

  lemma {:induction false} SumTotalsCountsCredits(s: Store, es: seq<Entry>)
    requires forall i :: 0 <= i < |es| ==> es[i].1.totalReferrals == |ReferralLedger.Referees(s.redemptions, es[i].0)|
    requires forall i, j :: 0 <= i < j < |es| ==> es[i].0 != es[j].0
    ensures SumTotals(es) == |CreditedTo(s, Keys(es))|
  {
    if |es| > 0 {
      var k := es[0].0;
      var rest := es[1..];
      SumTotalsCountsCredits(s, rest);
      KeysCons(es);
      var mine := ReferralLedger.Referees(s.redemptions, k);
      var others := CreditedTo(s, Keys(rest));
      assert CreditedTo(s, Keys(es)) == others + mine;
      assert others !! mine;
    } else {
      assert CreditedTo(s, {}) == {};
    }
  }

  /** On a consistent ledger, the report's total is the number of
      redemption records: every referral is counted once, on its referrer. */
  lemma {:induction false} ReferralTotalCountsRedemptions(s: Store, es: seq<Entry>)
    requires ReferralLedger.LedgerConsistent(s)
    requires Enumerates(es, s.referrers)
    ensures ReferralStats(es).total == |s.redemptions|
  {
    SumTotalsCountsCredits(s, es);
    assert Keys(es) == s.referrers.Keys by {
      forall k | k in s.referrers ensures k in Keys(es) {
        var i :| 0 <= i < |es| && es[i].0 == k;
      }
    }
    assert CreditedTo(s, Keys(es)) == s.redemptions.Keys;
    assert |s.redemptions.Keys| == |s.redemptions|;
  }
}
