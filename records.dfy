/** The rows of the two tables, the answers the hosted store can give, the
    attendance-type semantics shared by the server and the pages, and the
    in-memory database that stands in for the store. */
module Records {
  import opened Text

  datatype Option<T> = None | Some(value: T) {
    function GetOr(default: T): T {
      if Some? then value else default
    }
  }

  /** How one call into the store ends: with an answer, with an `error`
      object in the answer, or with a thrown exception. */
  datatype Reply = Ok | Failed | Threw

  /** The `{ success, error? }` answer of the admin actions. */
  datatype Outcome = Success | Failure(error: string)

  /** The message every admin action gives when something throws. */
  const UnexpectedError := "An unexpected error occurred."

  /** A value handed over from JavaScript, as far as `typeof` and truthiness
      tests tell values apart. Any other value (`null`, a number, an array,
      an object) carries its truthiness and the text `String(v)` gives it. */
  datatype JsValue = Undefined | Str(s: string) | Bool(b: bool) | OtherValue(truthy: bool, text: string)

  /** JavaScript truthiness: `undefined`, `''` and `false` are falsy. */
  predicate Truthy(v: JsValue) {
    match v
    case Undefined => false
    case Str(s) => s != ""
    case Bool(b) => b
    case OtherValue(t, _) => t
  }

  /** The text a value is converted to where a string is expected, as
      `RegExp.prototype.test` converts its argument. */
  function AsText(v: JsValue): string {
    match v
    case Undefined => "undefined"
    case Str(s) => s
    case Bool(b) => if b then "true" else "false"
    case OtherValue(_, t) => t
  }

  /** JavaScript truthiness of an optional string: missing and `''` are falsy. */
  predicate Present(v: Option<string>) {
    v.Some? && v.value != ""
  }

  type byte = x: int | 0 <= x < 256

  /** A row id, held as the bytes of its UTF-8 text. */
  type Id = seq<byte>

  /** A row of the `rsvps` table: every column some part of the code reads or
      writes. `name` is the column the public submission writes; the admin
      pages read `first_name` and `last_name`. */
  datatype Rsvp = Rsvp(
    id: Id,
    name: string,
    first_name: string,
    last_name: string,
    email: string,
    attending: bool,
    attendance_type: string,
    created_at: string,
    updated_at: Option<string>,
    reminder_sent: bool,
    reminder_sent_at: Option<string>)

  /** A row of the `guest_list` table. */
  datatype Guest = Guest(
    id: Id,
    first_name: string,
    last_name: string,
    is_inc: bool,
    created_at: string,
    updated_at: Option<string>)

  datatype AttendanceType = Church | Reception | Both {
    /** The text stored in the `attendance_type` column. */
    function Name(): (s: string)
      ensures IsAttendanceType(s)
    {
      match this
      case Church => "church"
      case Reception => "reception"
      case Both => "both"
    }
  }

  predicate IsAttendanceType(t: string) {
    t == "church" || t == "reception" || t == "both"
  }

  lemma AttendanceTypeNames(t: string)
    ensures IsAttendanceType(t) <==> exists a: AttendanceType :: a.Name() == t
  {
    if IsAttendanceType(t) {
      var a := if t == "church" then Church else if t == "reception" then Reception else Both;
      assert a.Name() == t;
    }
  }

  /** The church section is shown for `church` and `both`. */
  predicate ShowsChurch(t: string) {
    t == "church" || t == "both"
  }

  /** The reception section is shown for `reception` and `both`. */
  predicate ShowsReception(t: string) {
    t == "reception" || t == "both"
  }

  /** The attendance filter of the admin pages: `'all'` or one type. */
  datatype Filter = All | Only(kind: AttendanceType)

  /** A row passes a filter other than `'all'` when it is attending and has
      that attendance type. */
  predicate MatchesFilter(r: Rsvp, f: Filter) {
    f.All? || (r.attending && r.attendance_type == f.kind.Name())
  }

  /** The rows that pass the filter, in their original order. */
  function Filtered(rows: seq<Rsvp>, f: Filter): (r: seq<Rsvp>)
    ensures |r| <= |rows|
    ensures f.All? ==> r == rows
    ensures forall x :: x in r <==> x in rows && MatchesFilter(x, f)
  {
    if rows == [] then []
    else (if MatchesFilter(rows[0], f) then [rows[0]] else []) + Filtered(rows[1..], f)
  }

  /** Filtering keeps order: the filter of a concatenation is the
      concatenation of the filters. */
  lemma {:induction false} FilteredAppend(a: seq<Rsvp>, b: seq<Rsvp>, f: Filter)
    ensures Filtered(a + b, f) == Filtered(a, f) + Filtered(b, f)
  {
    if a == [] {
      assert a + b == b;
    } else {
      var head: seq<Rsvp> := if MatchesFilter(a[0], f) then [a[0]] else [];
      assert (a + b)[1..] == a[1..] + b;
      calc {
        Filtered(a + b, f);
        head + Filtered(a[1..] + b, f);
        { FilteredAppend(a[1..], b, f); }
        head + (Filtered(a[1..], f) + Filtered(b, f));
        (head + Filtered(a[1..], f)) + Filtered(b, f);
        Filtered(a, f) + Filtered(b, f);
      }
    }
  }

  function AttendingCount(rows: seq<Rsvp>): nat {
    if rows == [] then 0 else (if rows[0].attending then 1 else 0) + AttendingCount(rows[1..])
  }

  function NotAttendingCount(rows: seq<Rsvp>): nat {
    if rows == [] then 0 else (if rows[0].attending then 0 else 1) + NotAttendingCount(rows[1..])
  }

  /** The number of attending rows of one type: the count behind each of the
      per-type totals. */
  function TypeCount(rows: seq<Rsvp>, t: AttendanceType): nat {
    |Filtered(rows, Only(t))|
  }

  /** Every row is either attending or not. */
  lemma {:induction false} AttendingPartition(rows: seq<Rsvp>)
    ensures AttendingCount(rows) + NotAttendingCount(rows) == |rows|
  {
    if rows != [] {
      AttendingPartition(rows[1..]);
    }
  }

  /** The three per-type counts never exceed the attending count, and reach it
      exactly when every attending row carries one of the three types. */
  lemma {:induction false} TypeCountsBound(rows: seq<Rsvp>)
    ensures TypeCount(rows, Church) + TypeCount(rows, Reception) + TypeCount(rows, Both)
            <= AttendingCount(rows)
    ensures TypeCount(rows, Church) + TypeCount(rows, Reception) + TypeCount(rows, Both)
            == AttendingCount(rows)
            <==> forall i :: 0 <= i < |rows| && rows[i].attending ==> IsAttendanceType(rows[i].attendance_type)
  {
    if rows != [] {
      TypeCountsBound(rows[1..]);
      var tail := rows[1..];
      if forall i :: 0 <= i < |tail| && tail[i].attending ==> IsAttendanceType(tail[i].attendance_type) {
        if rows[0].attending && IsAttendanceType(rows[0].attendance_type) {
          forall i | 0 <= i < |rows| && rows[i].attending
            ensures IsAttendanceType(rows[i].attendance_type)
          {
            if i > 0 { assert rows[i] == tail[i - 1]; }
          }
        }
      } else {
        var i :| 0 <= i < |tail| && tail[i].attending && !IsAttendanceType(tail[i].attendance_type);
        assert rows[i + 1] == tail[i];
      }
    }
  }

  function RsvpId(r: Rsvp): Id { r.id }

  function GuestId(g: Guest): Id { g.id }

  /** The number of rows with the given id. */
  function CountId<T>(rows: seq<T>, idOf: T -> Id, id: Id): nat {
    if rows == [] then 0 else (if idOf(rows[0]) == id then 1 else 0) + CountId(rows[1..], idOf, id)
  }

  /** `.delete().eq('id', id)`: the rows with that id are gone, every other
      row stays. */
  function RemoveId<T(==,!new)>(rows: seq<T>, idOf: T -> Id, id: Id): (r: seq<T>)
    ensures forall x :: x in r <==> x in rows && idOf(x) != id
    ensures |r| + CountId(rows, idOf, id) == |rows|
  {
    if rows == [] then []
    else (if idOf(rows[0]) == id then [] else [rows[0]]) + RemoveId(rows[1..], idOf, id)
  }

  /** Removal keeps the order of the rows that stay: it distributes over
      concatenation. */
  lemma {:induction false} RemoveIdAppend<T(!new)>(a: seq<T>, b: seq<T>, idOf: T -> Id, id: Id)
    ensures RemoveId(a + b, idOf, id) == RemoveId(a, idOf, id) + RemoveId(b, idOf, id)
  {
    if a == [] {
      assert a + b == b;
    } else {
      var head: seq<T> := if idOf(a[0]) == id then [] else [a[0]];
      assert (a + b)[1..] == a[1..] + b;
      calc {
        RemoveId(a + b, idOf, id);
        head + RemoveId(a[1..] + b, idOf, id);
        { RemoveIdAppend(a[1..], b, idOf, id); }
        head + (RemoveId(a[1..], idOf, id) + RemoveId(b, idOf, id));
        (head + RemoveId(a[1..], idOf, id)) + RemoveId(b, idOf, id);
      }
    }
  }

  /** The row of a table holding exactly one row with the given id, as
      `.eq('id', id).single()` returns it. */
  function RowWithId<T>(rows: seq<T>, idOf: T -> Id, id: Id): (r: T)
    requires CountId(rows, idOf, id) == 1
    ensures r in rows && idOf(r) == id
  {
    if idOf(rows[0]) == id then rows[0] else RowWithId(rows[1..], idOf, id)
  }

  /** When a row's id occurs once, that row is the one found by its id. */
  lemma {:induction false} RowWithIdUnique<T>(rows: seq<T>, idOf: T -> Id, x: T)
    requires x in rows && CountId(rows, idOf, idOf(x)) == 1
    ensures RowWithId(rows, idOf, idOf(x)) == x
  {
    if rows[0] != x {
      assert x in rows[1..];
      if idOf(rows[0]) == idOf(x) {
        CountIdPositive(rows[1..], idOf, x);
        assert false;
      }
      RowWithIdUnique(rows[1..], idOf, x);
    }
  }

  lemma {:induction false} CountIdPositive<T>(rows: seq<T>, idOf: T -> Id, x: T)
    requires x in rows
    ensures CountId(rows, idOf, idOf(x)) > 0
  {
    if rows[0] != x {
      assert x in rows[1..];
      CountIdPositive(rows[1..], idOf, x);
    }
  }

  /** An `ilike` match of a stored first and last name against two query
      names. */
  predicate NamesMatch(first: string, last: string, qFirst: string, qLast: string) {
    EqualsIgnoreCase(first, qFirst) && EqualsIgnoreCase(last, qLast)
  }

  /** The position of the first guest whose names match. An unordered
      `limit(1)` lookup may return any match; the model takes the first in
      table order. */
  function FirstGuestMatch(guests: seq<Guest>, first: string, last: string): (r: Option<nat>)
    ensures r.Some? ==> r.value < |guests| && NamesMatch(guests[r.value].first_name, guests[r.value].last_name, first, last)
    ensures r.Some? ==> forall j :: 0 <= j < r.value ==> !NamesMatch(guests[j].first_name, guests[j].last_name, first, last)
    ensures r.None? <==> forall j :: 0 <= j < |guests| ==> !NamesMatch(guests[j].first_name, guests[j].last_name, first, last)
  {
    if guests == [] then None
    else if NamesMatch(guests[0].first_name, guests[0].last_name, first, last) then Some(0)
    else
      match FirstGuestMatch(guests[1..], first, last)
      case None => None
      case Some(k) => Some(k + 1)
  }

  /** Whether some RSVP's names match. */
  function AnyRsvpMatch(rsvps: seq<Rsvp>, first: string, last: string): (b: bool)
    ensures b <==> exists j :: 0 <= j < |rsvps| && NamesMatch(rsvps[j].first_name, rsvps[j].last_name, first, last)
  {
    if rsvps == [] then false
    else if NamesMatch(rsvps[0].first_name, rsvps[0].last_name, first, last) then true
    else
      var b := AnyRsvpMatch(rsvps[1..], first, last);
      assert b ==> exists j :: 0 <= j < |rsvps| && NamesMatch(rsvps[j].first_name, rsvps[j].last_name, first, last) by {
        if b {
          var j :| 0 <= j < |rsvps| - 1 && NamesMatch(rsvps[1..][j].first_name, rsvps[1..][j].last_name, first, last);
          assert rsvps[j + 1] == rsvps[1..][j];
        }
      }
      b
  }

  /** The `guest_is_inc`/`isInc` flag of a guest lookup by name: the `is_inc`
      of the first match, false when nothing matches or the lookup fails. */
  function GuestIsInc(guests: seq<Guest>, first: string, last: string, lookup: Reply): (b: bool)
    ensures b ==> lookup.Ok? && exists j :: 0 <= j < |guests| && guests[j].is_inc
                                 && NamesMatch(guests[j].first_name, guests[j].last_name, first, last)
    ensures lookup.Ok? ==> forall k :: 0 <= k < |guests|
                                   && NamesMatch(guests[k].first_name, guests[k].last_name, first, last)
                                   && (forall j :: 0 <= j < k ==> !NamesMatch(guests[j].first_name, guests[j].last_name, first, last))
                                   ==> b == guests[k].is_inc
  {
    if !lookup.Ok? then false
    else
      match FirstGuestMatch(guests, first, last)
      case None => false
      case Some(k) => guests[k].is_inc
  }

  /** The hosted store, held in memory: the `rsvps` and `guest_list` tables in
      the order the store returns them when a query names no order. */
  class Database {
    var rsvps: seq<Rsvp>
    var guests: seq<Guest>

    constructor (rsvps: seq<Rsvp>, guests: seq<Guest>)
      ensures this.rsvps == rsvps && this.guests == guests
    {
      this.rsvps := rsvps;
      this.guests := guests;
    }
  }
}
