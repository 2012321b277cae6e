/** `getRSVPByToken`: the read-only lookup behind the confirmation page.
    It decodes the token, fetches the one RSVP with that id, and adds the
    `is_inc` flag of the guest with the same names. */
module ConfirmationLookup {
  import opened Records
  import opened ConfirmationToken

  const InvalidToken := "Invalid confirmation token"
  const NotFound := "RSVP not found"
  const RetrieveFailed := "Failed to retrieve RSVP"

  datatype Lookup = Found(data: Rsvp, guest_is_inc: bool) | Unresolved(error: string)

  /** `fetch` is how the store answers the RSVP query, `guestLookup` how it
      answers the guest query. `.single()` answers with an error unless
      exactly one row has the id. An error from the guest query is ignored
      (the flag is then false); a thrown exception anywhere gives the
      generic failure. */
  function GetRsvpByToken(rsvps: seq<Rsvp>, guests: seq<Guest>, token: string,
                          fetch: Reply, guestLookup: Reply): (r: Lookup)
    ensures DecodeConfirmationToken(token).value == [] ==> r == Unresolved(InvalidToken)
    ensures var id := DecodeConfirmationToken(token).value;
            id != [] ==>
              && (fetch == Threw ==> r == Unresolved(RetrieveFailed))
              && (fetch == Failed || (fetch == Ok && CountId(rsvps, RsvpId, id) != 1) ==> r == Unresolved(NotFound))
              && (fetch == Ok && CountId(rsvps, RsvpId, id) == 1 && guestLookup == Threw ==> r == Unresolved(RetrieveFailed))
              && (fetch == Ok && CountId(rsvps, RsvpId, id) == 1 && guestLookup != Threw ==> r.Found?)
    ensures r.Found? ==>
              var id := DecodeConfirmationToken(token).value;
              && id != [] && fetch == Ok && guestLookup != Threw
              && r.data in rsvps && r.data.id == id && CountId(rsvps, RsvpId, id) == 1
              && r.guest_is_inc == GuestIsInc(guests, r.data.first_name, r.data.last_name, guestLookup)
  {
    var id := DecodeConfirmationToken(token).value;
    if id == [] then Unresolved(InvalidToken)
    else if fetch == Threw then Unresolved(RetrieveFailed)
    else if fetch == Failed || CountId(rsvps, RsvpId, id) != 1 then Unresolved(NotFound)
    else
      var rsvp := RowWithId(rsvps, RsvpId, id);
      if guestLookup == Threw then Unresolved(RetrieveFailed)
      else Found(rsvp, GuestIsInc(guests, rsvp.first_name, rsvp.last_name, guestLookup))
  }

  /** The token sent to a guest leads back to their own RSVP, unchanged,
      whenever its id is unique in the table. */
  lemma TokenFindsOwnRsvp(rsvps: seq<Rsvp>, guests: seq<Guest>, row: Rsvp, guestLookup: Reply)
    requires row in rsvps && row.id != [] && CountId(rsvps, RsvpId, row.id) == 1
    requires guestLookup != Threw
    ensures GetRsvpByToken(rsvps, guests, GenerateConfirmationToken(row.id), Ok, guestLookup)
            == Found(row, GuestIsInc(guests, row.first_name, row.last_name, guestLookup))
  {
    TokenRoundTrip(row.id);
    RowWithIdUnique(rsvps, RsvpId, row);
  }

  /** A guest lookup that fails leaves the flag false, as no matching guest
      does. */
  lemma FailedGuestLookupIsNotInc(rsvps: seq<Rsvp>, guests: seq<Guest>, token: string)
    ensures var r := GetRsvpByToken(rsvps, guests, token, Ok, Failed);
            r.Found? ==> !r.guest_is_inc
  {
  }
}
