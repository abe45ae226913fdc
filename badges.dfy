/** The badge rules the donation handler runs against the post-increment
    donation count: three exact-count badges and one threshold badge, each
    appended to the donor's list only when it is not already there. */
module Badges {

  /** The four badges the donation handler can award, in the order it
      checks them. */
  datatype Badge = FirstDonation | FrequentDonor | LifeSaver | LegendaryDonor

  /** The name stored in the donor's `badges` array. */
  function Name(b: Badge): (r: string)
    // each stored name identifies its badge
    ensures r == "First Donation" <==> b == FirstDonation
    ensures r == "Frequent Donor" <==> b == FrequentDonor
    ensures r == "Life Saver" <==> b == LifeSaver
    ensures r == "Legendary Donor" <==> b == LegendaryDonor
  {
    match b
    case FirstDonation => "First Donation"
    case FrequentDonor => "Frequent Donor"
    case LifeSaver => "Life Saver"
    case LegendaryDonor => "Legendary Donor"
  }

  /** Distinct badges are stored under distinct names, so a list of badges
      has a duplicate exactly when its list of names does. */
  lemma NamesDistinct(a: Badge, b: Badge)
    requires a != b
    ensures Name(a) != Name(b)
  {
  }

  predicate NoDuplicates(s: seq<Badge>) {
    forall i, j :: 0 <= i < j < |s| ==> s[i] != s[j]
  }

  /** `b` is not in `before` but is in `after`. */
  predicate NewlyAdded(b: Badge, before: seq<Badge>, after: seq<Badge>) {
    b !in before && b in after
  }

  /** One guarded push: `b` is appended when it is earned and not yet held. */
  function Push(badges: seq<Badge>, b: Badge, earned: bool): (r: seq<Badge>)
    ensures r == badges || (earned && b !in badges && r == badges + [b])
    ensures b in r <==> b in badges || earned
  {
    if earned && b !in badges then badges + [b] else badges
  }

  /** A push onto a list that extends `base` by badges new to it, none
      twice, gives another such list. */
  lemma PushExtends(base: seq<Badge>, badges: seq<Badge>, b: Badge, earned: bool)
    requires base <= badges
    requires forall i :: |base| <= i < |badges| ==> badges[i] !in base
    requires NoDuplicates(badges[|base|..])
    requires NoDuplicates(base) ==> NoDuplicates(badges)
    ensures var r := Push(badges, b, earned);
            && base <= r
            && (forall i :: |base| <= i < |r| ==> r[i] !in base)
            && NoDuplicates(r[|base|..])
            && (NoDuplicates(base) ==> NoDuplicates(r))
  {
    var r := Push(badges, b, earned);
    if r != badges {
      assert r[|base|..] == badges[|base|..] + [b];
      assert badges == base + badges[|base|..];
      assert b !in base;
    }
  }

  /** The four guarded pushes, in order, against the post-increment count. */
  function AwardBadges(count: int, badges: seq<Badge>): (r: seq<Badge>)
    // append-only: the old list is a prefix and nothing already there is added again
    ensures badges <= r
    ensures forall i :: |badges| <= i < |r| ==> r[i] !in badges
    ensures NoDuplicates(r[|badges|..])
    ensures NoDuplicates(badges) ==> NoDuplicates(r)
    // the exact-count badges are added at exactly one count each
    ensures NewlyAdded(FirstDonation, badges, r) <==> count == 1 && FirstDonation !in badges
    ensures NewlyAdded(FrequentDonor, badges, r) <==> count == 5 && FrequentDonor !in badges
    ensures NewlyAdded(LifeSaver, badges, r) <==> count == 10 && LifeSaver !in badges
    // the threshold badge is present from 20 on and never newly added below it
    ensures count >= 20 ==> LegendaryDonor in r
    ensures count < 20 ==> (LegendaryDonor in r <==> LegendaryDonor in badges)
  {
    var b1 := Push(badges, FirstDonation, count == 1);
    PushExtends(badges, badges, FirstDonation, count == 1);
    var b2 := Push(b1, FrequentDonor, count == 5);
    PushExtends(badges, b1, FrequentDonor, count == 5);
    var b3 := Push(b2, LifeSaver, count == 10);
    PushExtends(badges, b2, LifeSaver, count == 10);
    PushExtends(badges, b3, LegendaryDonor, count >= 20);
    Push(b3, LegendaryDonor, count >= 20)
  }

  /** Running the badge checks a second time against the same count adds nothing. */
  lemma AwardIdempotent(count: int, badges: seq<Badge>)
    ensures AwardBadges(count, AwardBadges(count, badges)) == AwardBadges(count, badges)
  {
  }

  /** The badge list of a record that started with none and has donated
      `n` times, each badge in the order it was earned. */
  function BadgesFor(n: int): (r: seq<Badge>)
    ensures NoDuplicates(r)
    ensures FirstDonation in r <==> n >= 1
    ensures FrequentDonor in r <==> n >= 5
    ensures LifeSaver in r <==> n >= 10
    ensures LegendaryDonor in r <==> n >= 20
  {
    if n < 1 then []
    else if n < 5 then [FirstDonation]
    else if n < 10 then [FirstDonation, FrequentDonor]
    else if n < 20 then [FirstDonation, FrequentDonor, LifeSaver]
    else [FirstDonation, FrequentDonor, LifeSaver, LegendaryDonor]
  }

  /** One more donation turns the badge list earned over `n` donations into
      the list earned over `n + 1`. */
  lemma AwardStep(n: nat)
    ensures AwardBadges(n + 1, BadgesFor(n)) == BadgesFor(n + 1)
  {
  }

  /** Badges earned by a fresh record are never lost as the count grows. */
  lemma BadgesForMonotone(m: int, n: int)
    requires m <= n
    ensures BadgesFor(m) <= BadgesFor(n)
  {
  }
}
