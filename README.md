# Donor registry and donation ledger

A Dafny model of the gamification core of a blood-donor registry backend
(an Express + Mongoose server). Donors sign up under a unique email. They can
share their live location. Each recorded donation earns them ten points and
possibly badges, and a leaderboard ranks them by points.

The model has five modules:

- `Donor` (`donor.dfy`): the `users` document (`Donor`), the eleven signup
  fields (`Details`), the signup guard and the record a signup creates.
- `Badges` (`badges.dfy`): the four badge rules as guarded pushes
  (`Push`, `AwardBadges`), and the closed form `BadgesFor(n)` of the badges a
  fresh record holds after `n` donations.
- `Ledger` (`ledger.dfy`): one donation applied to a record (`Donated`), a run
  of donations (`DonateAll`), and lemmas about counters and badges after
  `n` donations.
- `Leaderboard` (`leaderboard.dfy`): a sort by points, highest first, then
  the first ten records, projected to the public fields.
- `Registry` (`registry.dfy`): the collection as a class holding a
  `map<string, Donor>` keyed by email, plus the insertion order of the
  emails. Its methods are `Signup`, `Donate` and `UpdateLocation`, and its
  function is `Leaderboard`. The invariant `Valid()` says five things: the
  empty email is never a key, the order lists every key exactly once (as
  many emails as keys, and the same ones), every record sits under its own
  email, every record has ten points per donation and exactly the badges its
  count has earned, and latitude and longitude are set as a pair.

Modelling choices:

- A request field that is absent, `null` or `""` is the empty string. The
  signup and location guards test for it.
- Coordinates are `Option<real>`, with `None` for `null`. They are stored,
  never computed on. A zero coordinate is accepted, because the source tests
  `== null` and not falsiness.
- `new Date()` is a `Timestamp` parameter `now`.
- bcrypt is outside the model. `Signup` takes the hash as a parameter and
  stores it in place of the password.
- Badges are the datatype `Badge`. `Name` gives the string stored in the
  database, and `NamesDistinct` proves that distinct badges have distinct
  names, so duplicate checks on badges and on names agree.
- The database sort gives no order among equal points, and an unsorted find
  gives no order at all. The model lists the collection in insertion order and
  sorts with an insertion sort. Which of several equal-point records comes
  first, or makes the cut at ten, is therefore the model's own choice, and no
  contract states it.

Where the design description and the code differ, the model follows the code:

- The description speaks of a blood-type compatibility resolver. The code has
  none: `/api/donors` (server.js:185-202) returns every user unfiltered.
- The description says blood types are validated. Signup only checks that the
  field is non-empty (server.js:81-82).
- The description says badges form a set. The code keeps a list and checks
  membership before each push (server.js:251-258). The model keeps the list
  and proves that it never holds a badge twice.

## Model

| member | source | states |
|---|---|---|
| `Donor.AllFieldsPresent` | server.js:76-82 | the signup guard passes exactly when none of the eleven fields read from the request is empty, field by field |
| `Donor.NewDonor` | server.js:40-47 | a signed-up record is fresh: zero donations and points, no badges, no location, no last donation date; the request fields are kept, with the password replaced by its hash |
| `Badges.Name` | server.js:251-258 | each of the four strings pushed into `badges` names exactly one badge: a stored name equals "First Donation", "Frequent Donor", "Life Saver" or "Legendary Donor" iff the badge is that one |
| `Badges.NamesDistinct` | server.js:251-258 | the four badge names are pairwise distinct |
| `Badges.Push` | server.js:251-252 | a guarded push either leaves the list alone or appends the badge once, only when it is earned and not yet held; afterwards the badge is held iff it was held before or is earned |
| `Badges.AwardBadges` | server.js:250-258 | the badge checks only append: the old list is a prefix, nothing already held is appended again, and no duplicate is introduced; "First Donation", "Frequent Donor" and "Life Saver" are newly added iff the post-increment count is 1, 5 and 10 respectively and they were not held; "Legendary Donor" is held whenever the count is at least 20 and is never newly added below 20 |
| `Badges.AwardIdempotent` | server.js:251-258 | running the badge checks twice against the same count gives the same list as running them once |
| `Badges.BadgesFor` | server.js:251-258 | the badges of a fresh record after `n` donations have no duplicates, and each badge is held iff `n` has reached its count (1, 5, 10, 20) |
| `Badges.AwardStep` | server.js:246-258 | one more donation turns the badges earned over `n` donations into those earned over `n + 1` |
| `Badges.BadgesForMonotone` | server.js:251-258 | the badges earned by a fresh record are never lost as its count grows: the earlier list is a prefix of the later one |
| `Ledger.Donated` | server.js:246-258 | a donation adds one to `donationCount`, adds ten to `points`, stamps `lastDonationDate`, keeps the old badges as a prefix, and leaves the personal details and the location alone |
| `Ledger.DonatedKeepsTracked` | server.js:246-258 | a record with ten points per donation and exactly the badges its count has earned keeps that shape after a donation |
| `Ledger.DonateAllCounters` | server.js:246-248 | after `n` donations the count is up by `n` and the points by `10 n`; the last stamp is the last donation's date; the old badges are a prefix; details, profile picture, location and `lastUpdated` are unchanged |
| `Ledger.DonateAllBadges` | server.js:251-258 | a record whose badges are those earned over its `k` donations holds exactly those earned over `k + n` after `n` more |
| `Ledger.FreshDonorBadges` | server.js:257-258 | from a freshly signed-up record, "Legendary Donor" is held after `n` donations iff `n >= 20`; likewise the other badges from 1, 5 and 10; never a duplicate |
| `Ledger.FifthDonation` | server.js:246-254 | a donor at 4 donations and 40 points moves to 5 and 50 and gains "Frequent Donor" |
| `Leaderboard.EntryOf` | server.js:270-276 | the public view of a donor carries its first name, last name, points, donation count and badges |
| `Leaderboard.SameEntry` | server.js:270-276 | two donors have the same public view iff they agree on those five fields, so email, password, personal details and location do not show |
| `Leaderboard.Insert` | server.js:277 | inserting into a points-sorted list keeps it sorted and adds exactly that record |
| `Leaderboard.SortByPoints` | server.js:277 | the result is sorted by points, highest first, and is a permutation of the input |
| `Leaderboard.Ranked` | server.js:277 | `min(10, n)` records, sorted by points, drawn from the input (a sub-multiset of it) |
| `Leaderboard.RankedIsTop` | server.js:277 | no record left out has more points than any record shown |
| `Leaderboard.RankedAboveCut` | server.js:277 | every record with more points than the last one shown is shown exactly as many times as it occurs in the input |
| `Leaderboard.Entries` | server.js:270-276 | each entry is the projection of the record at the same position to first name, last name, points, donation count and badges |
| `Leaderboard.EntriesSubMultiset` | server.js:270-277 | records drawn from a list, none more often than it occurs there, project to entries drawn in the same way from the list's projection |
| `Leaderboard.TopDonors` | server.js:270-277 | the leaderboard has `min(10, n)` entries in non-increasing order of points, and as a multiset the entries are contained in the projection of the collection, so no record is shown twice |
| `Leaderboard.TopDonorsDrawn` | server.js:270-276 | each leaderboard entry is the projection of some record of the collection |
| `Leaderboard.TopDonorsAboveCut` | server.js:270-277 | every public view with more points than the last entry is shown exactly as many times as records with that view occur in the collection |
| `Leaderboard.TopDonorsNeverOmits` | server.js:277 | a record with strictly more points than the last entry is on the leaderboard, and its view is shown once per record that has it, so two look-alike records are both shown |
| `Registry.Collect` | server.js:270 | listing the records under a sequence of keys gives one record per key, in key order |
| `Registry.AddKeepsConsistent` | server.js:88-98 | storing a fresh, consistent record under a new email and appending that email to the insertion order keeps one listed email per key and every record consistent |
| `Registry.UpdateKeepsConsistent` | server.js:246-260 | saving a consistent record back under a registered email keeps the set of emails and every record consistent |
| `Registry.Registry.Listing` | server.js:270 | the unsorted listing holds exactly the registered records, one per email |
| `Registry.Registry.Signup` | server.js:74-101 | a missing field gives `AllFieldsRequired` ("All fields are required") and an already-registered email gives `UserAlreadyExists` ("User already exists"), both leaving the collection unchanged; otherwise the fresh record is stored under its email and nothing else changes |
| `Registry.Registry.ApplyDonation` | server.js:246-258 | the in-place changes to the loaded record give exactly `Donated` of it |
| `Registry.Registry.Donate` | server.js:240-266 | an unknown email gives `UserNotFound` ("User not found") and leaves the collection unchanged; otherwise exactly that donor becomes `Donated` of its old record, the updated record is returned, and every other donor is untouched |
| `Registry.Registry.UpdateLocation` | server.js:206-224 | a missing email or coordinate gives `LocationRequired` ("Email and location are required"), and an unknown email gives `UserNotFound`, both leaving the collection unchanged; otherwise exactly that donor gets both coordinates and `lastUpdated` together |
| `Registry.Registry.Leaderboard` | server.js:268-284 | the leaderboard over the collection has `min(10, number of donors)` entries, sorted by points from high to low, each the projection of a registered donor, and as a multiset contained in the projections of the listed donors, one per email, so no donor appears twice |
| `Registry.Registry.LeaderboardNeverOmits` | server.js:277 | no registered donor with strictly more points than the last entry is missing from the leaderboard: its view is shown once per registered donor with that view, so look-alike donors are all shown |
| `Registry.Registry.RegisteredDonor` | server.js:251-258 | every registered donor has no duplicate badge, holds "Legendary Donor" iff its count is at least 20 and "First Donation" iff it is at least 1, has ten points per donation, and has either both coordinates or neither |

## Left out

- Blood-type compatibility ("who can donate to me"): the code has no table or
  filter for it. `/api/donors` returns every user (server.js:185-202), and the
  page script reads fields the server never sends.
- The profile update (server.js:137-151) merges arbitrary request fields,
  including `donationCount`, `points` and `badges`. It is not modelled. The
  `Valid()` invariant, with ten points per donation and badges fixed by the
  count, holds only because no such edit is possible in the model. The same
  is true of the pairing of latitude and longitude.
- The order among records with equal points: MongoDB guarantees none, either
  for the sort or for an unsorted find. The model's insertion order is its own
  choice, and only what holds under every order is stated.
- Coordinates other than numbers or `null`: the location guard (server.js:209)
  rejects only `null` and a missing field. A string such as `""`, `"abc"` or
  `false` passes it, and then Mongoose's cast decides. `""` may be stored as
  `null`, which leaves one coordinate set and the other not. `"abc"` fails the
  cast and gives a 500. The model takes each coordinate as `None` or a number,
  so its pairing of latitude and longitude holds only for such requests.
- Concurrency: the donate handler reads with `findOne` and writes with `save`
  (server.js:243, server.js:260), and two concurrent donations can lose an
  update. `Donate` is one atomic sequential step.
- Login, JWT signing and bcrypt (server.js:104-119): foreign cryptography.
  `Signup` takes the password hash as a parameter.
- The profile read, the feedback and blood-request inserts, and the
  all-locations query (server.js:122-135, 154-181, 226-237): field-presence
  checks and queries with no logic beyond what signup and the leaderboard
  cover.
- HTTP status codes, the Mongo connection, error 500 paths from database
  failures, demo-user seeding and server start (server.js:1-24, 286-314): I/O.
- JavaScript numbers are doubles. The model's counters are unbounded
  integers, which agree with the source up to 2^53.
- Request values that are not strings or `null`, in every handler, are not
  modelled. The body parser (server.js:14) also accepts numbers, booleans,
  arrays and objects. A signup field of `0` is falsy and is refused, although
  the model has no such value. An object with a query operator, such as the
  email `{"$ne": null}`, passes the `!email` guards. Mongoose then casts it
  into an operator filter, which can match some existing user. That would
  put a donation (server.js:242-243) or a location (server.js:208-213) on a
  record nobody named, and it would make signup (server.js:85-86) answer "User
  already exists". In the model every email, name and other request field is
  a string, the empty string stands for a missing or `null` value, and a
  lookup matches only the record stored under exactly that email.
- A donate request without an email is looked up as the empty email, which
  no registered donor has, so the model answers `UserNotFound`. How Mongoose
  casts an `undefined` filter value is not part of this model.
- The separate signup handlers in User.js and authRoutes.js duplicate the
  server's signup over an unseen model, and are not part of this model.
