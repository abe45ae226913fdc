/** The leaderboard query: every record, sorted by points from high to low,
    cut to the first ten, projected to the public fields. */
module Leaderboard {
  import opened Donor
  import opened Badges

  /** How many entries the leaderboard returns at most. */
  const Limit := 10

  /** The fields the leaderboard shows of a donor. */
  datatype Entry = Entry(
    firstName: string,
    lastName: string,
    points: int,
    donationCount: int,
    badges: seq<Badge>)

  /** The public view of a donor: names, points, donation count and badges;
      the email, password, personal details and location are not shown. */
  function EntryOf(d: Donor): (e: Entry)
    ensures e.firstName == d.details.firstName && e.lastName == d.details.lastName
    ensures e.points == d.points && e.donationCount == d.donationCount
    ensures e.badges == d.badges
  {
    Entry(d.details.firstName, d.details.lastName, d.points, d.donationCount, d.badges)
  }

  /** Two donors give the same entry exactly when they agree on the shown
      fields; whatever else differs between them is invisible. */
  lemma SameEntry(d1: Donor, d2: Donor)
    ensures EntryOf(d1) == EntryOf(d2) <==>
              && d1.details.firstName == d2.details.firstName
              && d1.details.lastName == d2.details.lastName
              && d1.points == d2.points && d1.donationCount == d2.donationCount
              && d1.badges == d2.badges
  {
  }

  /** `x` is the public view of some record of `all`. */
  predicate ViewIn(x: Entry, all: seq<Donor>) {
    exists d :: d in all && x == EntryOf(d)
  }

  predicate SortedByPoints(s: seq<Donor>) {
    forall i, j :: 0 <= i < j < |s| ==> s[i].points >= s[j].points
  }

  /** A record with at least the points of the head of a sorted list can
      go in front of it. */
  lemma ConsSorted(x: Donor, s: seq<Donor>)
    requires SortedByPoints(s)
    requires s != [] ==> x.points >= s[0].points
    ensures SortedByPoints([x] + s)
  {
    var r := [x] + s;
    forall i, j | 0 <= i < j < |r| ensures r[i].points >= r[j].points {
      if i == 0 {
        assert r[j] == s[j - 1];
      } else {
        assert r[i] == s[i - 1] && r[j] == s[j - 1];
      }
    }
  }

  /** The tail of a sorted list is sorted. */
  lemma TailSorted(s: seq<Donor>)
    requires s != []
    requires SortedByPoints(s)
    ensures SortedByPoints(s[1..])
    ensures |s| > 1 ==> s[0].points >= s[1].points
  {
    forall i, j | 0 <= i < j < |s[1..]| ensures s[1..][i].points >= s[1..][j].points {
      assert s[1..][i] == s[i + 1] && s[1..][j] == s[j + 1];
    }
  }

  /** Puts `d` into a list sorted by points, ahead of every record with the
      same points. */
  function Insert(d: Donor, s: seq<Donor>): (r: seq<Donor>)
    requires SortedByPoints(s)
    ensures SortedByPoints(r)
    ensures multiset(r) == multiset(s) + multiset{d}
    ensures |r| == |s| + 1
  {
    if s == [] then [d]
    else if s[0].points > d.points then
      TailSorted(s);
      var rest := Insert(d, s[1..]);
      assert multiset(s) == multiset{s[0]} + multiset(s[1..]) by {
        assert s == [s[0]] + s[1..];
      }
      assert multiset([s[0]] + rest) == multiset{s[0]} + multiset(rest);
      ConsSorted(s[0], rest);
      [s[0]] + rest
    else
      assert multiset([d] + s) == multiset{d} + multiset(s);
      ConsSorted(d, s);
      [d] + s
  }

  /** Sorts by points, highest first. Nothing is promised about the order
      of records with equal points. */
  function SortByPoints(s: seq<Donor>): (r: seq<Donor>)
    ensures SortedByPoints(r)
    ensures multiset(r) == multiset(s)
  {
    if s == [] then []
    else
      assert s == [s[0]] + s[1..];
      Insert(s[0], SortByPoints(s[1..]))
  }

  function Min(a: int, b: int): int {
    if a <= b then a else b
  }

  /** In a sorted list, whatever lies past the first `k` records has no
      more points than any of them. */
  lemma SortedPrefixIsTop(s: seq<Donor>, k: nat)
    requires SortedByPoints(s)
    requires k <= |s|
    ensures forall d, i :: d in s && d !in s[..k] && 0 <= i < k ==> d.points <= s[i].points
  {
    forall d, i | d in s && d !in s[..k] && 0 <= i < k
      ensures d.points <= s[i].points
    {
      var j := IndexOf(d, s);
    }
  }

  /** Two lists that are permutations of each other have the same length
      and the same members. */
  lemma SamePermutation(a: seq<Donor>, b: seq<Donor>)
    requires multiset(a) == multiset(b)
    ensures |a| == |b|
    ensures forall d :: d in a <==> d in b
  {
    assert |multiset(a)| == |multiset(b)|;
    forall d ensures d in a <==> d in b {
      assert d in a <==> d in multiset(a);
      assert d in b <==> d in multiset(b);
    }
  }

  /** The first `k` records of a sorted list are sorted and drawn from it. */
  lemma PrefixOfPermutation(s: seq<Donor>, k: nat)
    requires SortedByPoints(s)
    requires k <= |s|
    ensures SortedByPoints(s[..k])
    ensures multiset(s[..k]) <= multiset(s)
  {
    assert s == s[..k] + s[k..];
  }

  /** The records the leaderboard shows, best first. */
  function Ranked(all: seq<Donor>): (r: seq<Donor>)
    ensures |r| == Min(Limit, |all|)
    ensures SortedByPoints(r)
    ensures multiset(r) <= multiset(all)
  {
    var s := SortByPoints(all);
    var k := Min(Limit, |all|);
    SamePermutation(s, all);
    PrefixOfPermutation(s, k);
    s[..k]
  }

  /** Nobody left out has more points than anybody shown. */
  lemma RankedIsTop(all: seq<Donor>)
    ensures var r := Ranked(all);
            forall d, i :: d in all && d !in r && 0 <= i < |r| ==> d.points <= r[i].points
  {
    var s := SortByPoints(all);
    RankedIsPrefix(all);
    SamePermutation(s, all);
    SortedPrefixIsTop(s, Min(Limit, |all|));
  }

  /** A record with more points than the last one shown is shown as often
      as it occurs in the collection. */
  lemma RankedAboveCut(all: seq<Donor>)
    ensures var r := Ranked(all);
            |r| > 0 ==>
              forall d: Donor {:trigger multiset(r)[d]} :: d.points > r[|r| - 1].points ==>
                multiset(r)[d] == multiset(all)[d]
  {
    RankedIsPrefix(all);
    SortedCut(SortByPoints(all), Min(Limit, |all|));
  }

  /** The records shown are the first ones of the sorted collection. */
  lemma RankedIsPrefix(all: seq<Donor>)
    ensures Min(Limit, |all|) <= |SortByPoints(all)|
    ensures Ranked(all) == SortByPoints(all)[..Min(Limit, |all|)]
  {
    SamePermutation(SortByPoints(all), all);
  }

  /** Cutting a sorted list after `k` records loses no occurrence of a
      record with more points than the last one kept. */
  lemma SortedCut(s: seq<Donor>, k: nat)
    requires SortedByPoints(s)
    requires k <= |s|
    ensures k > 0 ==>
              forall d: Donor {:trigger multiset(s[..k])[d]} :: d.points > s[k - 1].points ==> multiset(s[..k])[d] == multiset(s)[d]
  {
    assert s == s[..k] + s[k..];
    forall d: Donor | k > 0 && d.points > s[k - 1].points ensures multiset(s[..k])[d] == multiset(s)[d] {
      forall i | k <= i < |s| ensures s[i] != d {
        assert s[k - 1].points >= s[i].points;
      }
      assert d !in s[k..];
      assert multiset(s[k..])[d] == 0;
    }
  }

  /** The same for a list of entries sorted by points. */
  lemma SortedEntriesCut(t: seq<Entry>, k: nat)
    requires forall i, j :: 0 <= i < j < |t| ==> t[i].points >= t[j].points
    requires 0 < k <= |t|
    ensures forall e: Entry {:trigger multiset(t[..k])[e]} :: e.points > t[k - 1].points ==> multiset(t[..k])[e] == multiset(t)[e]
  {
    assert t == t[..k] + t[k..];
    forall e: Entry | e.points > t[k - 1].points ensures multiset(t[..k])[e] == multiset(t)[e] {
      forall i | k <= i < |t| ensures t[i] != e {
        assert t[k - 1].points >= t[i].points;
      }
      assert e !in t[k..];
      assert multiset(t[k..])[e] == 0;
    }
  }

  /** The position of a record known to be in `s`. */
  function IndexOf(d: Donor, s: seq<Donor>): (j: nat)
    requires d in s
    ensures j < |s| && s[j] == d
  {
    if s[0] == d then 0 else 1 + IndexOf(d, s[1..])
  }

  /** The public view of each record of `s`, in the same order. */
  function Entries(s: seq<Donor>): (r: seq<Entry>)
    ensures |r| == |s|
    ensures forall i :: 0 <= i < |s| ==> r[i] == EntryOf(s[i])
  {
    if s == [] then [] else [EntryOf(s[0])] + Entries(s[1..])
  }

  /** Taking out the element at `j` takes one occurrence of it out of the
      multiset. */
  lemma RemoveAt<T>(s: seq<T>, j: nat)
    requires j < |s|
    ensures multiset(s) == multiset(s[..j] + s[j + 1..]) + multiset{s[j]}
  {
    assert s == s[..j] + [s[j]] + s[j + 1..];
  }

  /** Projecting a concatenation projects each part. */
  lemma EntriesAppend(a: seq<Donor>, b: seq<Donor>)
    ensures Entries(a + b) == Entries(a) + Entries(b)
  {
    var l, r := Entries(a + b), Entries(a) + Entries(b);
    forall i | 0 <= i < |l| ensures l[i] == r[i] {
      if i < |a| {
        assert (a + b)[i] == a[i];
      } else {
        assert (a + b)[i] == b[i - |a|];
      }
    }
  }

  /** Projecting the first `k` records is taking the first `k` entries. */
  lemma EntriesPrefix(s: seq<Donor>, k: nat)
    requires k <= |s|
    ensures Entries(s[..k]) == Entries(s)[..k]
  {
    var l, r := Entries(s[..k]), Entries(s)[..k];
    forall i | 0 <= i < k ensures l[i] == r[i] {
      assert l[i] == EntryOf(s[i]) == Entries(s)[i] == r[i];
    }
  }

  /** Projecting a list with one record taken out is projecting it whole
      and taking that entry out. */
  lemma EntriesRemoveAt(s: seq<Donor>, j: nat)
    requires j < |s|
    ensures Entries(s[..j] + s[j + 1..]) == Entries(s)[..j] + Entries(s)[j + 1..]
  {
    var t := s[..j] + s[j + 1..];
    var l, r := Entries(t), Entries(s)[..j] + Entries(s)[j + 1..];
    assert |l| == |r| == |s| - 1;
    forall i | 0 <= i < |l| ensures l[i] == r[i] {
      if i < j {
        assert t[i] == s[i];
        assert l[i] == EntryOf(s[i]) == Entries(s)[i] == r[i];
      } else {
        assert t[i] == s[i + 1];
        assert l[i] == EntryOf(s[i + 1]) == Entries(s)[i + 1] == r[i];
      }
    }
  }

  /** The projection of a list holds the entry of the record at `j` once
      more than the projection of the list without it. */
  lemma EntriesMultisetRemoveAt(s: seq<Donor>, j: nat)
    requires j < |s|
    ensures multiset(Entries(s)) == multiset(Entries(s[..j] + s[j + 1..])) + multiset{EntryOf(s[j])}
  {
    EntriesRemoveAt(s, j);
    RemoveAt(Entries(s), j);
  }

  /** Taking the same element out of both sides keeps a sub-multiset. */
  lemma SubMultisetRemove(a: seq<Donor>, b: seq<Donor>, j: nat)
    requires a != [] && j < |b| && a[0] == b[j]
    requires multiset(a) <= multiset(b)
    ensures multiset(a[1..]) <= multiset(b[..j] + b[j + 1..])
  {
    var rest := b[..j] + b[j + 1..];
    RemoveAt(b, j);
    assert a == [a[0]] + a[1..];
    forall y ensures multiset(a[1..])[y] <= multiset(rest)[y] {
      assert multiset(a)[y] <= multiset(b)[y];
    }
  }

  /** Adding the same element to both sides keeps a sub-multiset. */
  lemma SubMultisetAdd<T>(p: multiset<T>, q: multiset<T>, x: T)
    requires p <= q
    ensures p + multiset{x} <= q + multiset{x}
  {
    forall y ensures (p + multiset{x})[y] <= (q + multiset{x})[y] {
      assert p[y] <= q[y];
    }
  }

  /** Projecting keeps the sub-multiset relation: records drawn from `b`,
      each at most as often as it occurs there, give entries drawn from the
      entries of `b` in the same way. */
  lemma {:induction false} EntriesSubMultiset(a: seq<Donor>, b: seq<Donor>)
    requires multiset(a) <= multiset(b)
    ensures multiset(Entries(a)) <= multiset(Entries(b))
    decreases |a|
  {
    if a != [] {
      assert a[0] in multiset(a);
      var j := IndexOf(a[0], b);
      var rest := b[..j] + b[j + 1..];
      SubMultisetRemove(a, b, j);
      EntriesSubMultiset(a[1..], rest);
      SubMultisetAdd(multiset(Entries(a[1..])), multiset(Entries(rest)), EntryOf(a[0]));
      EntriesMultisetRemoveAt(b, j);
      EntriesMultisetRemoveAt(a, 0);
      assert a[..0] + a[1..] == a[1..];
    }
  }

  /** The entries of a list sorted by points are in the same order. */
  lemma EntriesSorted(s: seq<Donor>)
    requires SortedByPoints(s)
    ensures forall i, j :: 0 <= i < j < |Entries(s)| ==> Entries(s)[i].points >= Entries(s)[j].points
  {
  }

  /** Permutations of records project to permutations of entries. */
  lemma EntriesPermutation(a: seq<Donor>, b: seq<Donor>)
    requires multiset(a) == multiset(b)
    ensures multiset(Entries(a)) == multiset(Entries(b))
  {
    EntriesSubMultiset(a, b);
    EntriesSubMultiset(b, a);
  }

  /** Above the last entry shown, each public view is shown exactly as
      often as it occurs in the projection of the collection. */
  lemma RankedEntriesAboveCut(all: seq<Donor>)
    ensures var r := Entries(Ranked(all));
            |r| > 0 ==>
              forall e: Entry {:trigger multiset(r)[e]} :: e.points > r[|r| - 1].points ==> multiset(r)[e] == multiset(Entries(all))[e]
  {
    var s := SortByPoints(all);
    var k := Min(Limit, |all|);
    RankedIsPrefix(all);
    if k > 0 {
      EntriesPrefix(s, k);
      EntriesSorted(s);
      SortedEntriesCut(Entries(s), k);
      EntriesPermutation(s, all);
    }
  }

  /** Every entry of records drawn from `all` is the entry of a record of `all`. */
  lemma EntriesDrawn(ranked: seq<Donor>, all: seq<Donor>)
    requires multiset(ranked) <= multiset(all)
    ensures forall i :: 0 <= i < |Entries(ranked)| ==> ViewIn(Entries(ranked)[i], all)
  {
    var r := Entries(ranked);
    forall i | 0 <= i < |r| ensures ViewIn(r[i], all) {
      assert ranked[i] in multiset(ranked);
      assert ranked[i] in multiset(all);
      assert ranked[i] in all && r[i] == EntryOf(ranked[i]);
    }
  }

  /** The leaderboard: at most ten entries, highest points first, each one
      the public view of a record in the collection, and no record shown
      more often than it occurs in the collection. */
  function TopDonors(all: seq<Donor>): (r: seq<Entry>)
    ensures |r| == Min(Limit, |all|)
    ensures forall i, j :: 0 <= i < j < |r| ==> r[i].points >= r[j].points
    ensures multiset(r) <= multiset(Entries(all))
  {
    var ranked := Ranked(all);
    EntriesSorted(ranked);
    EntriesSubMultiset(ranked, all);
    Entries(ranked)
  }

  /** Each entry of the leaderboard is the public view of a record of the
      collection. */
  lemma TopDonorsDrawn(all: seq<Donor>)
    ensures var r := TopDonors(all);
            forall i :: 0 <= i < |r| ==> ViewIn(r[i], all)
  {
    EntriesDrawn(Ranked(all), all);
  }

  /** No public view with more points than the last entry loses an
      occurrence: it is shown as many times as there are records with it. */
  lemma TopDonorsAboveCut(all: seq<Donor>)
    ensures var r := TopDonors(all);
            |r| > 0 ==>
              forall e: Entry {:trigger multiset(r)[e]} :: e.points > r[|r| - 1].points ==>
                multiset(r)[e] == multiset(Entries(all))[e]
  {
    assert TopDonors(all) == Entries(Ranked(all));
    RankedEntriesAboveCut(all);
  }

  /** The leaderboard never leaves out a donor with strictly more points
      than its last entry: its view is shown, and as many times as there
      are donors with that view, so two donors who look alike are both
      shown. */
  lemma TopDonorsNeverOmits(all: seq<Donor>, d: Donor)
    requires d in all
    ensures var r := TopDonors(all);
            |r| > 0 && d.points > r[|r| - 1].points ==> EntryOf(d) in r
    ensures var r := TopDonors(all);
            |r| > 0 && d.points > r[|r| - 1].points ==>
              multiset(r)[EntryOf(d)] == multiset(Entries(all))[EntryOf(d)]
  {
    TopDonorsAboveCut(all);
    RankedIsTop(all);
    var ranked := Ranked(all);
    assert TopDonors(all) == Entries(ranked);
    if |ranked| > 0 && d.points > ranked[|ranked| - 1].points {
      assert d in ranked;
      var j := IndexOf(d, ranked);
      assert Entries(ranked)[j] == EntryOf(d);
    }
  }
}
