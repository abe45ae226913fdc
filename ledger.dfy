/** The donation event applied to one loaded donor record, and what a run
    of donation events does to it. */
module Ledger {
  import opened Donor
  import opened Badges

  /** The record after one donation stamped `now`: one more donation, ten
      more points, and the badge checks run against the new count. */
  function Donated(d: Donor, now: Timestamp): (r: Donor)
    ensures r.donationCount == d.donationCount + 1
    ensures r.points == d.points + 10
    ensures r.lastDonationDate == Some(now)
    ensures d.badges <= r.badges
    // every field outside the donation profile is left alone
    ensures r.details == d.details && r.profilePicture == d.profilePicture
    ensures r.latitude == d.latitude && r.longitude == d.longitude && r.lastUpdated == d.lastUpdated
  {
    d.(donationCount := d.donationCount + 1,
       points := d.points + 10,
       lastDonationDate := Some(now),
       badges := AwardBadges(d.donationCount + 1, d.badges))
  }

  /** The donation profile of a record whose every donation went through
      `Donated` since it was created: ten points and exactly the badges
      earned for each donation. */
  predicate Tracked(d: Donor) {
    && d.donationCount >= 0
    && d.points == 10 * d.donationCount
    && d.badges == BadgesFor(d.donationCount)
  }

  /** A donation keeps a record tracked. */
  lemma DonatedKeepsTracked(d: Donor, now: Timestamp)
    requires Tracked(d)
    ensures Tracked(Donated(d, now))
  {
    AwardStep(d.donationCount);
  }

  /** The record after one donation per timestamp of `times`, in order. */
  function DonateAll(d: Donor, times: seq<Timestamp>): Donor
    decreases |times|
  {
    if times == [] then d else DonateAll(Donated(d, times[0]), times[1..])
  }

  /** After `n` donations the count is up by `n`, the points by `10 n`, the
      old badges are still a prefix, the last stamp is the date, and the
      fields outside the donation profile are those of the start. */
  lemma {:induction false} DonateAllCounters(d: Donor, times: seq<Timestamp>)
    ensures DonateAll(d, times).donationCount == d.donationCount + |times|
    ensures DonateAll(d, times).points == d.points + 10 * |times|
    ensures d.badges <= DonateAll(d, times).badges
    ensures DonateAll(d, times).lastDonationDate
            == if times == [] then d.lastDonationDate else Some(times[|times| - 1])
    ensures DonateAll(d, times).details == d.details
    ensures DonateAll(d, times).latitude == d.latitude
    ensures DonateAll(d, times).longitude == d.longitude
    ensures DonateAll(d, times).lastUpdated == d.lastUpdated
    ensures DonateAll(d, times).profilePicture == d.profilePicture
    decreases |times|
  {
    if times != [] {
      var d1 := Donated(d, times[0]);
      DonateAllCounters(d1, times[1..]);
      assert DonateAll(d, times) == DonateAll(d1, times[1..]);
      assert times[1..] != [] ==> times[1..][|times[1..]| - 1] == times[|times| - 1];
    }
  }

  /** A record whose badges are those earned over its `k` donations keeps
      that shape: after `n` more it holds exactly the badges for `k + n`. */
  lemma {:induction false} DonateAllBadges(d: Donor, times: seq<Timestamp>)
    requires d.donationCount >= 0
    requires d.badges == BadgesFor(d.donationCount)
    ensures DonateAll(d, times).badges == BadgesFor(d.donationCount + |times|)
    decreases |times|
  {
    if times != [] {
      var d1 := Donated(d, times[0]);
      AwardStep(d.donationCount);
      assert d1.badges == BadgesFor(d1.donationCount);
      DonateAllBadges(d1, times[1..]);
      assert DonateAll(d, times) == DonateAll(d1, times[1..]);
    }
  }

  /** From a freshly registered record, "Legendary Donor" is held after `n`
      donations exactly when `n` is at least 20; the other three badges
      appear from their own counts on. */
  lemma FreshDonorBadges(d: Donor, times: seq<Timestamp>)
    requires Fresh(d)
    ensures LegendaryDonor in DonateAll(d, times).badges <==> |times| >= 20
    ensures FirstDonation in DonateAll(d, times).badges <==> |times| >= 1
    ensures FrequentDonor in DonateAll(d, times).badges <==> |times| >= 5
    ensures LifeSaver in DonateAll(d, times).badges <==> |times| >= 10
    ensures NoDuplicates(DonateAll(d, times).badges)
  {
    DonateAllBadges(d, times);
  }

  /** A donor at four donations and forty points, not yet "Frequent Donor",
      reaches five and fifty and gains that badge. */
  lemma FifthDonation(d: Donor, now: Timestamp)
    requires d.donationCount == 4 && d.points == 40
    requires FrequentDonor !in d.badges
    ensures Donated(d, now).donationCount == 5
    ensures Donated(d, now).points == 50
    ensures FrequentDonor in Donated(d, now).badges
  {
  }
}
