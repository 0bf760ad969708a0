/** The stages of an application and the answers of a request that moves it. */
module Pipeline {
  type AppId = nat

  datatype Stage = New | Screening | Interviewing | Offer | Hired | Rejected | Withdrawn

  // The HTTP answers that matter here: 200, or 409 for a decision that is already out.
  datatype Answer = Done | Conflict
}
