/** The donor record of the `users` collection and the signup request that creates it. */
module Donor {
  import opened Badges

  /** A point in time (`new Date()` in the handlers). Only ever stored, never computed on. */
  type Timestamp = nat

  datatype Option<T> = None | Some(value: T)

  /** The eleven fields a signup request must carry. A request field that is
      absent, null or the empty string is written here as "". */
  datatype Details = Details(
    firstName: string,
    lastName: string,
    email: string,
    dob: string,
    weight: string,
    aadhar: string,
    phone: string,
    gender: string,
    bloodType: string,
    address: string,
    password: string)

  /** One document of the `users` collection. */
  datatype Donor = Donor(
    details: Details,
    profilePicture: Option<string>,
    latitude: Option<real>,
    longitude: Option<real>,
    lastUpdated: Option<Timestamp>,
    donationCount: int,
    points: int,
    badges: seq<Badge>,
    lastDonationDate: Option<Timestamp>)

  /** The eleven signup fields, in the order the handler reads them. */
  function Fields(req: Details): (r: seq<string>)
    ensures |r| == 11
  {
    [req.firstName, req.lastName, req.email, req.dob, req.weight, req.aadhar,
     req.phone, req.gender, req.bloodType, req.address, req.password]
  }

  /** The signup guard: every one of the eleven fields is truthy. */
  function AllFieldsPresent(req: Details): (r: bool)
    // passes exactly when each field, one by one, is non-empty
    ensures r <==>
              && req.firstName != "" && req.lastName != "" && req.email != ""
              && req.dob != "" && req.weight != "" && req.aadhar != ""
              && req.phone != "" && req.gender != "" && req.bloodType != ""
              && req.address != "" && req.password != ""
  {
    "" !in Fields(req)
  }

  /** The state the schema defaults give a record that has never donated
      nor shared its location. */
  predicate Fresh(d: Donor) {
    && d.donationCount == 0 && d.points == 0 && d.badges == []
    && d.lastDonationDate == None
    && d.latitude == None && d.longitude == None && d.lastUpdated == None
  }

  /** The record a successful signup stores: the request's fields with the
      password replaced by its hash, everything else at its schema default. */
  function NewDonor(req: Details, hashedPassword: string): (d: Donor)
    ensures Fresh(d)
    ensures d.details.email == req.email
    ensures d.details.password == hashedPassword
    ensures d.details.(password := req.password) == req
    ensures d.profilePicture == None
  {
    Donor(req.(password := hashedPassword), None, None, None, None, 0, 0, [], None)
  }
}
