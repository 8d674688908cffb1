/** The identities and admission states shared by the LiveKit protocol models. */
module Lobby {

  /** Attendee identities are digests of the participation, staff ones of the user. */
  datatype Identity = Attendee(participation: nat) | Staff(user: nat)

  datatype AdmissionState =
    Waiting | Admitted | TokenIssued | Connected | Left | Declined | Revoked

  /** States in which the attendee may be given a credential. */
  predicate Active(s: AdmissionState) {
    s.Admitted? || s.TokenIssued? || s.Connected? || s.Left?
  }

  /** States that connection evidence moves; the others are admission decisions. */
  predicate Presence(s: AdmissionState) {
    s.TokenIssued? || s.Connected? || s.Left?
  }
}
