/** The admin actions over the `guest_list` table: the ordered listing, the
    two case-insensitive name lookups, guest creation behind its three
    guards, and update and deletion by id. */
module GuestAdmin {
  import opened Text
  import opened Records
  import opened Ordering

  function CreatedAtKey(g: Guest): SortKey {
    Text(g.created_at)
  }

  /** `getAllGuests`: every guest, newest first; nothing when the query
      fails or throws. */
  function GetAllGuests(guests: seq<Guest>, reply: Reply): (r: seq<Guest>)
    ensures reply != Ok ==> r == []
    ensures reply == Ok ==> multiset(r) == multiset(guests)
    ensures SortedBy(r, CreatedAtKey, false)
  {
    if reply != Ok then [] else Sort(guests, CreatedAtKey, false)
  }

  /** `checkGuestExists`: some guest matches both trimmed names; a lookup
      that fails or throws answers false. */
  function CheckGuestExists(guests: seq<Guest>, first: string, last: string, lookup: Reply): (b: bool)
    ensures b <==> lookup == Ok && (exists j :: 0 <= j < |guests|
                                      && NamesMatch(guests[j].first_name, guests[j].last_name, Trim(first), Trim(last)))
  {
    lookup == Ok && FirstGuestMatch(guests, Trim(first), Trim(last)).Some?
  }

  /** `checkGuestInRSVPs`: some RSVP matches both trimmed names; a lookup
      that fails or throws answers false. */
  function CheckGuestInRsvps(rsvps: seq<Rsvp>, first: string, last: string, lookup: Reply): (b: bool)
    ensures b <==> lookup == Ok && (exists j :: 0 <= j < |rsvps|
                                      && NamesMatch(rsvps[j].first_name, rsvps[j].last_name, Trim(first), Trim(last)))
  {
    lookup == Ok && AnyRsvpMatch(rsvps, Trim(first), Trim(last))
  }

  const NamesRequired := "First and last name are required."
  const AlreadyListed := "Guest already exists in the list."
  const AlreadyResponded := "This guest has already submitted an RSVP."
  const AddFailed := "Failed to add guest."
  const UpdateFailed := "Failed to update guest."
  const DeleteFailed := "Failed to delete guest."

  /** The lookups trim the names they are given, so handing them names
      already trimmed changes nothing. */
  lemma LookupsOfTrimmed(guests: seq<Guest>, rsvps: seq<Rsvp>, first: string, last: string, guestLookup: Reply, rsvpLookup: Reply)
    ensures CheckGuestExists(guests, Trim(first), Trim(last), guestLookup) == CheckGuestExists(guests, first, last, guestLookup)
    ensures CheckGuestInRsvps(rsvps, Trim(first), Trim(last), rsvpLookup) == CheckGuestInRsvps(rsvps, first, last, rsvpLookup)
  {
    var tf, tl := Trim(first), Trim(last);
    assert CheckGuestExists(guests, tf, tl, guestLookup) == CheckGuestExists(guests, first, last, guestLookup) by {
      TrimIdempotent(first);
      TrimIdempotent(last);
      calc {
        CheckGuestExists(guests, tf, tl, guestLookup);
        guestLookup == Ok && FirstGuestMatch(guests, Trim(tf), Trim(tl)).Some?;
        guestLookup == Ok && FirstGuestMatch(guests, tf, tl).Some?;
        CheckGuestExists(guests, first, last, guestLookup);
      }
    }
    assert CheckGuestInRsvps(rsvps, tf, tl, rsvpLookup) == CheckGuestInRsvps(rsvps, first, last, rsvpLookup) by {
      TrimIdempotent(first);
      TrimIdempotent(last);
      calc {
        CheckGuestInRsvps(rsvps, tf, tl, rsvpLookup);
        rsvpLookup == Ok && AnyRsvpMatch(rsvps, Trim(tf), Trim(tl));
        rsvpLookup == Ok && AnyRsvpMatch(rsvps, tf, tl);
        CheckGuestInRsvps(rsvps, first, last, rsvpLookup);
      }
    }
  }

  /** The guards of `createGuest`, first failure winning: both trimmed names
      non-empty, no guest with those names, no RSVP with those names. `None`
      lets the insert go ahead. */
  function CreateGuard(guests: seq<Guest>, rsvps: seq<Rsvp>, first: string, last: string,
                       guestLookup: Reply, rsvpLookup: Reply): (e: Option<string>)
    ensures Trim(first) == [] || Trim(last) == [] ==> e == Some(NamesRequired)
    ensures Trim(first) != [] && Trim(last) != [] && CheckGuestExists(guests, first, last, guestLookup)
            ==> e == Some(AlreadyListed)
    ensures Trim(first) != [] && Trim(last) != [] && !CheckGuestExists(guests, first, last, guestLookup)
            && CheckGuestInRsvps(rsvps, first, last, rsvpLookup)
            ==> e == Some(AlreadyResponded)
    ensures Trim(first) != [] && Trim(last) != [] && !CheckGuestExists(guests, first, last, guestLookup)
            && !CheckGuestInRsvps(rsvps, first, last, rsvpLookup)
            ==> e == None
  {
    var trimmedFirst := Trim(first);
    var trimmedLast := Trim(last);
    LookupsOfTrimmed(guests, rsvps, first, last, guestLookup, rsvpLookup);
    var listed := CheckGuestExists(guests, trimmedFirst, trimmedLast, guestLookup);
    var inRsvps := CheckGuestInRsvps(rsvps, trimmedFirst, trimmedLast, rsvpLookup);
    if trimmedFirst == [] || trimmedLast == [] then Some(NamesRequired)
    else if listed then Some(AlreadyListed)
    else if inRsvps then Some(AlreadyResponded)
    else None
  }

  /** The row the store holds after the insert: the row it fills in with the
      two inserted name columns. */
  function AddedGuest(filled: Guest, first: string, last: string): Guest {
    filled.(first_name := first, last_name := last)
  }

  /** `createGuest`. `guestLookup` and `rsvpLookup` are how the store answers
      the two checks, `insert` and `filled` how it answers the insert. A
      rejection touches nothing; success appends one guest holding the
      trimmed names. */
  method CreateGuest(db: Database, first: string, last: string, guestLookup: Reply, rsvpLookup: Reply,
                     insert: Reply, filled: Guest) returns (o: Outcome)
    modifies db
    ensures db.rsvps == old(db.rsvps)
    ensures var guard := CreateGuard(old(db.guests), old(db.rsvps), first, last, guestLookup, rsvpLookup);
            && (guard.Some? ==> o == Failure(guard.value) && db.guests == old(db.guests))
            && (guard.None? && insert == Ok ==>
                  o == Success && db.guests == old(db.guests) + [AddedGuest(filled, Trim(first), Trim(last))])
            && (guard.None? && insert == Failed ==> o == Failure(AddFailed) && db.guests == old(db.guests))
            && (guard.None? && insert == Threw ==> o == Failure(UnexpectedError) && db.guests == old(db.guests))
  {
    var trimmedFirst := Trim(first);
    var trimmedLast := Trim(last);
    if trimmedFirst == [] || trimmedLast == [] {
      return Failure(NamesRequired);
    }
    LookupsOfTrimmed(db.guests, db.rsvps, first, last, guestLookup, rsvpLookup);
    var listed := CheckGuestExists(db.guests, trimmedFirst, trimmedLast, guestLookup);
    if listed {
      return Failure(AlreadyListed);
    }
    var inRsvps := CheckGuestInRsvps(db.rsvps, trimmedFirst, trimmedLast, rsvpLookup);
    if inRsvps {
      return Failure(AlreadyResponded);
    }
    match insert {
      case Threw =>
        o := Failure(UnexpectedError);
      case Failed =>
        o := Failure(AddFailed);
      case Ok =>
        db.guests := db.guests + [AddedGuest(filled, trimmedFirst, trimmedLast)];
        o := Success;
    }
  }

  /** No two guests carry the same pair of names, ignoring case. */
  predicate DistinctNames(guests: seq<Guest>) {
    forall i, j :: 0 <= i < j < |guests| ==>
      !NamesMatch(guests[i].first_name, guests[i].last_name, guests[j].first_name, guests[j].last_name)
  }

  /** When the guest lookup answers, a guest the guards let through is new:
      adding it keeps the names of the list distinct. */
  lemma CreateKeepsNamesDistinct(guests: seq<Guest>, rsvps: seq<Rsvp>, first: string, last: string,
                                 rsvpLookup: Reply, filled: Guest)
    requires DistinctNames(guests)
    requires CreateGuard(guests, rsvps, first, last, Ok, rsvpLookup).None?
    ensures DistinctNames(guests + [AddedGuest(filled, Trim(first), Trim(last))])
  {
    var tf, tl := Trim(first), Trim(last);
    assert forall k :: 0 <= k < |guests| ==> !NamesMatch(guests[k].first_name, guests[k].last_name, tf, tl) by {
      assert !CheckGuestExists(guests, first, last, Ok);
      assert FirstGuestMatch(guests, tf, tl).None?;
    }
    var after := guests + [AddedGuest(filled, tf, tl)];
    forall i, j | 0 <= i < j < |after|
      ensures !NamesMatch(after[i].first_name, after[i].last_name, after[j].first_name, after[j].last_name)
    {
      if j == |guests| {
        assert after[i] == guests[i];
      } else {
        assert after[i] == guests[i] && after[j] == guests[j];
      }
    }
  }

  /** The checks fail open: when the guest lookup fails, a guest whose
      names are already listed passes the guards and would be added twice. */
  lemma FailedLookupAdmitsDuplicate(guests: seq<Guest>, rsvps: seq<Rsvp>, k: nat, rsvpLookup: Reply)
    requires k < |guests|
    requires Trim(guests[k].first_name) != [] && Trim(guests[k].last_name) != []
    requires !CheckGuestInRsvps(rsvps, guests[k].first_name, guests[k].last_name, rsvpLookup)
    ensures CreateGuard(guests, rsvps, guests[k].first_name, guests[k].last_name, Failed, rsvpLookup).None?
  {
  }

  /** The fields a guest edit may send. */
  datatype GuestUpdates = GuestUpdates(first_name: JsValue, last_name: JsValue)

  /** The update payload: `updated_at` always, each name only when it
      arrived as a string. */
  datatype GuestPatch = GuestPatch(updated_at: string, first_name: Option<string>, last_name: Option<string>)

  function GuestPatchFor(updates: GuestUpdates, now: string): (p: GuestPatch)
    ensures p.updated_at == now
    ensures p.first_name.Some? <==> updates.first_name.Str?
    ensures p.last_name.Some? <==> updates.last_name.Str?
    ensures p.first_name.Some? ==> p.first_name.value == Trim(updates.first_name.s)
    ensures p.last_name.Some? ==> p.last_name.value == Trim(updates.last_name.s)
  {
    GuestPatch(
      now,
      if updates.first_name.Str? then Some(Trim(updates.first_name.s)) else None,
      if updates.last_name.Str? then Some(Trim(updates.last_name.s)) else None)
  }

  function ApplyGuestPatch(g: Guest, p: GuestPatch): Guest {
    g.(updated_at := Some(p.updated_at),
       first_name := p.first_name.GetOr(g.first_name),
       last_name := p.last_name.GetOr(g.last_name))
  }

  /** `.update(payload).eq('id', id)` on the guest list. */
  function UpdateGuestWhere(guests: seq<Guest>, id: Id, p: GuestPatch): (r: seq<Guest>)
    ensures |r| == |guests|
    ensures forall i :: 0 <= i < |guests| && guests[i].id != id ==> r[i] == guests[i]
    ensures forall i :: 0 <= i < |guests| && guests[i].id == id ==>
              r[i] == ApplyGuestPatch(guests[i], p) && r[i].id == id && r[i].is_inc == guests[i].is_inc
  {
    seq(|guests|, i requires 0 <= i < |guests| => if guests[i].id == id then ApplyGuestPatch(guests[i], p) else guests[i])
  }

  /** `updateGuest`: builds the payload field by field and applies it to the
      guests with the given id. */
  method UpdateGuest(db: Database, id: Id, updates: GuestUpdates, now: string, reply: Reply) returns (o: Outcome)
    modifies db
    ensures db.rsvps == old(db.rsvps)
    ensures reply == Ok ==> o == Success && db.guests == UpdateGuestWhere(old(db.guests), id, GuestPatchFor(updates, now))
    ensures reply == Failed ==> o == Failure(UpdateFailed) && db.guests == old(db.guests)
    ensures reply == Threw ==> o == Failure(UnexpectedError) && db.guests == old(db.guests)
  {
    var payload := GuestPatch(now, None, None);
    if updates.first_name.Str? {
      payload := payload.(first_name := Some(Trim(updates.first_name.s)));
    }
    if updates.last_name.Str? {
      payload := payload.(last_name := Some(Trim(updates.last_name.s)));
    }
    match reply {
      case Threw =>
        o := Failure(UnexpectedError);
      case Failed =>
        o := Failure(UpdateFailed);
      case Ok =>
        db.guests := UpdateGuestWhere(db.guests, id, payload);
        o := Success;
    }
  }

  /** `deleteGuest`. */
  method DeleteGuest(db: Database, id: Id, reply: Reply) returns (o: Outcome)
    modifies db
    ensures db.rsvps == old(db.rsvps)
    ensures reply == Ok ==> o == Success && db.guests == RemoveId(old(db.guests), GuestId, id)
    ensures reply == Failed ==> o == Failure(DeleteFailed) && db.guests == old(db.guests)
    ensures reply == Threw ==> o == Failure(UnexpectedError) && db.guests == old(db.guests)
  {
    match reply {
      case Threw =>
        o := Failure(UnexpectedError);
      case Failed =>
        o := Failure(DeleteFailed);
      case Ok =>
        db.guests := RemoveId(db.guests, GuestId, id);
        o := Success;
    }
  }
}
