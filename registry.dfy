/** The `users` collection keyed by email, with the handlers that change it
    (signup, donate, location update) and the leaderboard that reads it. */
module Registry {
  import opened Donor
  import opened Badges
  import opened Ledger
  import opened Leaderboard

  datatype Error =
    | AllFieldsRequired   // signup with a missing field
    | UserAlreadyExists   // signup with an email already registered
    | UserNotFound        // donate or location update for an unknown email
    | LocationRequired    // location update without email or a coordinate

  datatype Result<T> = Ok(value: T) | Err(error: Error)

  /** The records stored under `keys`, in that order. */
  function Collect(keys: seq<string>, m: map<string, Donor>): (r: seq<Donor>)
    requires forall k :: k in keys ==> k in m
    ensures |r| == |keys|
    ensures forall i :: 0 <= i < |keys| ==> r[i] == m[keys[i]]
  {
    if keys == [] then [] else [m[keys[0]]] + Collect(keys[1..], m)
  }

  /** The records collected are exactly those stored under the keys. */
  lemma CollectMembers(keys: seq<string>, m: map<string, Donor>)
    requires forall k :: k in keys ==> k in m
    ensures forall d :: d in Collect(keys, m) ==> exists k :: k in keys && m[k] == d
    ensures forall k :: k in keys ==> m[k] in Collect(keys, m)
  {
    var r := Collect(keys, m);
    forall d | d in r ensures exists k :: k in keys && m[k] == d {
      var i :| 0 <= i < |r| && r[i] == d;
      assert keys[i] in keys && m[keys[i]] == d;
    }
    forall k | k in keys ensures m[k] in r {
      var i :| 0 <= i < |keys| && keys[i] == k;
      assert r[i] == m[k];
    }
  }

  /** What every record reachable through the handlers modelled here looks
      like: stored under its own email, ten points per donation, exactly
      the badges its count has earned, and a location set as a pair. */
  ghost predicate Consistent(email: string, d: Donor) {
    && d.details.email == email
    && Tracked(d)
    && (d.latitude.Some? <==> d.longitude.Some?)
  }

  /** Replacing the record under a registered email by a consistent one
      (giving `m'`) keeps the keys and keeps every record consistent. */
  lemma UpdateKeepsConsistent(m: map<string, Donor>, email: string, d: Donor, m': map<string, Donor>)
    requires email in m && m' == m[email := d]
    requires forall e :: e in m ==> Consistent(e, m[e])
    requires Consistent(email, d)
    ensures m'.Keys == m.Keys
    ensures forall e :: e in m' ==> Consistent(e, m'[e])
  {
    forall e | e in m' ensures Consistent(e, m'[e]) {
      if e != email {
        assert m'[e] == m[e];
      }
    }
  }

  /** Storing a consistent record under a new email (giving `m'`) and
      appending the email to the insertion order (giving `order'`) keeps
      the order and the keys in step and every record consistent. */
  lemma AddKeepsConsistent(order: seq<string>, m: map<string, Donor>, email: string, d: Donor,
                           order': seq<string>, m': map<string, Donor>)
    requires email !in m && m' == m[email := d] && order' == order + [email]
    requires |order| == |m| && (forall e :: e in order <==> e in m)
    requires forall e :: e in m ==> Consistent(e, m[e])
    requires Consistent(email, d)
    ensures |order'| == |m'|
    ensures forall e :: e in order' <==> e in m'
    ensures forall e :: e in m' ==> Consistent(e, m'[e])
  {
    assert m'.Keys == m.Keys + {email};
    forall e | e in m' ensures Consistent(e, m'[e]) {
      if e != email {
        assert m'[e] == m[e];
      }
    }
  }

  class Registry {
    /** The documents, keyed by their unique email. */
    var donors: map<string, Donor>
    /** The emails in the order the documents were inserted. The model
        lists the collection in this order; the database promises none. */
    var order: seq<string>

    ghost predicate Valid()
      reads this
    {
      && "" !in donors
      && |order| == |donors|
      && (forall e :: e in order <==> e in donors)
      && (forall e :: e in donors ==> Consistent(e, donors[e]))
    }

    constructor ()
      ensures Valid()
      ensures donors == map[] && order == []
    {
      donors := map[];
      order := [];
    }

    /** Every record, in insertion order. */
    function Listing(): (r: seq<Donor>)
      reads this
      requires Valid()
      ensures |r| == |donors|
      ensures forall d :: d in r ==> exists e :: e in donors && donors[e] == d
      ensures forall e :: e in donors ==> donors[e] in r
    {
      CollectMembers(order, donors);
      Collect(order, donors)
    }

    /** Signup: all eleven fields are required and the email must be new;
        on success the record is stored with its schema defaults. The
        password hash is computed by the caller. */
    method Signup(req: Details, hashedPassword: string) returns (res: Result<()>)
      requires Valid()
      modifies this
      ensures Valid()
      ensures !AllFieldsPresent(req) ==> res == Err(AllFieldsRequired)
      ensures AllFieldsPresent(req) && req.email in old(donors) ==> res == Err(UserAlreadyExists)
      ensures res.Err? ==> donors == old(donors) && order == old(order)
      ensures res.Ok? <==> AllFieldsPresent(req) && req.email !in old(donors)
      ensures res.Ok? ==> donors == old(donors)[req.email := NewDonor(req, hashedPassword)]
                          && order == old(order) + [req.email]
    {
      if !AllFieldsPresent(req) {
        return Err(AllFieldsRequired);
      }
      if req.email in donors {
        return Err(UserAlreadyExists);
      }
      var d := NewDonor(req, hashedPassword);
      AddKeepsConsistent(order, donors, req.email, d, order + [req.email], donors[req.email := d]);
      donors := donors[req.email := d];
      order := order + [req.email];
      res := Ok(());
    }

    /** The in-place changes the donation handler makes to the loaded
        record before saving it. */
    static method ApplyDonation(user: Donor, now: Timestamp) returns (u: Donor)
      ensures u == Donated(user, now)
    {
      u := user;
      var count := u.donationCount + 1;
      u := u.(donationCount := count);
      u := u.(points := u.points + 10);
      u := u.(lastDonationDate := Some(now));
      // each badge is pushed only when its rule holds and it is not yet held
      u := u.(badges := Push(u.badges, FirstDonation, count == 1));
      u := u.(badges := Push(u.badges, FrequentDonor, count == 5));
      u := u.(badges := Push(u.badges, LifeSaver, count == 10));
      u := u.(badges := Push(u.badges, LegendaryDonor, count >= 20));
    }

    /** A donation for `email` stamped `now`: load the record, apply the
        donation to it, save it back. The email is a plain string, matched
        only against the key it equals; a request value that is an object
        is outside the model. */
    method Donate(email: string, now: Timestamp) returns (res: Result<Donor>)
      requires Valid()
      modifies this
      ensures Valid()
      ensures order == old(order)
      ensures res.Ok? <==> email in old(donors)
      ensures email !in old(donors) ==> res == Err(UserNotFound) && donors == old(donors)
      ensures email in old(donors) ==>
                res.Ok? && res.value == Donated(old(donors)[email], now)
                && donors == old(donors)[email := res.value]
    {
      if email !in donors {
        return Err(UserNotFound);
      }
      var user := donors[email];
      user := ApplyDonation(user, now);
      DonatedKeepsTracked(donors[email], now);
      UpdateKeepsConsistent(donors, email, user, donors[email := user]);
      donors := donors[email := user];
      res := Ok(user);
    }

    /** Location update: the email and both coordinates are required; the
        pair is written together with the time of the update. The email is
        a plain string and each coordinate a number or `None`; other
        request values are outside the model. */
    method UpdateLocation(email: string, latitude: Option<real>, longitude: Option<real>,
                          now: Timestamp)
      returns (res: Result<()>)
      requires Valid()
      modifies this
      ensures Valid()
      ensures order == old(order)
      ensures email == "" || latitude == None || longitude == None ==> res == Err(LocationRequired)
      ensures res.Ok? <==> email != "" && latitude.Some? && longitude.Some? && email in old(donors)
      ensures email != "" && latitude.Some? && longitude.Some? && email !in old(donors)
              ==> res == Err(UserNotFound)
      ensures res.Err? ==> donors == old(donors)
      ensures res.Ok? ==>
                donors == old(donors)[email := old(donors)[email].(latitude := latitude,
                                                                 longitude := longitude,
                                                                 lastUpdated := Some(now))]
    {
      if email == "" || latitude == None || longitude == None {
        return Err(LocationRequired);
      }
      if email !in donors {
        return Err(UserNotFound);
      }
      var user := donors[email];
      donors := donors[email := user.(latitude := latitude, longitude := longitude,
                                      lastUpdated := Some(now))];
      res := Ok(());
    }

    /** The leaderboard over the whole collection: each registered donor
        is shown at most once. */
    function Leaderboard(): (r: seq<Entry>)
      reads this
      requires Valid()
      ensures |r| == Min(Limit, |donors|)
      ensures forall i, j :: 0 <= i < j < |r| ==> r[i].points >= r[j].points
      ensures forall i :: 0 <= i < |r| ==> ShowsRegistered(r[i])
      // no donor is shown more often than it is registered
      ensures multiset(r) <= multiset(Entries(Listing()))
    {
      var all := Listing();
      var r := TopDonors(all);
      TopDonorsDrawn(all);
      ListedEntries(all, r);
      r
    }

    /** Entries of listed records are entries of registered donors. */
    lemma ListedEntries(all: seq<Donor>, r: seq<Entry>)
      requires Valid() && all == Listing()
      requires forall i :: 0 <= i < |r| ==> ViewIn(r[i], all)
      ensures forall i :: 0 <= i < |r| ==> ShowsRegistered(r[i])
    {
      forall i | 0 <= i < |r| ensures ShowsRegistered(r[i]) {
        var d :| d in all && r[i] == EntryOf(d);
        var e :| e in donors && donors[e] == d;
        assert e in donors && r[i] == EntryOf(donors[e]);
      }
    }

    /** `x` is the public view of a registered donor. */
    ghost predicate ShowsRegistered(x: Entry)
      reads this
    {
      exists e :: e in donors && x == EntryOf(donors[e])
    }

    /** No registered donor with strictly more points than the last entry
        is missing from the leaderboard: its view is shown once for every
        registered donor who has that view, so look-alike donors are all
        shown. */
    lemma LeaderboardNeverOmits(email: string)
      requires Valid()
      requires email in donors
      ensures var r := Leaderboard();
              |r| > 0 && donors[email].points > r[|r| - 1].points ==> EntryOf(donors[email]) in r
      ensures var r := Leaderboard();
              |r| > 0 && donors[email].points > r[|r| - 1].points ==>
                multiset(r)[EntryOf(donors[email])] == multiset(Entries(Listing()))[EntryOf(donors[email])]
    {
      var all, d := Listing(), donors[email];
      assert Leaderboard() == TopDonors(all);
      assert d in all;
      TopDonorsNeverOmits(all, d);
    }

    /** What the invariant says of any registered donor: no badge twice,
        "Legendary Donor" held exactly from twenty donations on, and ten
        points per donation. */
    lemma RegisteredDonor(email: string)
      requires Valid()
      requires email in donors
      ensures NoDuplicates(donors[email].badges)
      ensures LegendaryDonor in donors[email].badges <==> donors[email].donationCount >= 20
      ensures FirstDonation in donors[email].badges <==> donors[email].donationCount >= 1
      ensures donors[email].points == 10 * donors[email].donationCount
      ensures donors[email].latitude.Some? <==> donors[email].longitude.Some?
    {
    }
  }
}
