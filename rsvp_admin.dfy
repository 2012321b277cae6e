/** The admin actions over the `rsvps` table: a filtered, ordered page with
    the dashboard totals, the full export, the update of one row from a
    payload built field by field, and deletion. */
module RsvpAdmin {
  import opened Text
  import opened Records
  import opened Ordering

  /** The columns a page may be ordered by. */
  datatype Column = FirstName | LastName | Email | Attending | AttendanceTypeColumn | CreatedAt | UpdatedAt

  function KeyOf(r: Rsvp, c: Column): SortKey {
    match c
    case FirstName => Text(r.first_name)
    case LastName => Text(r.last_name)
    case Email => Text(r.email)
    case Attending => Flag(r.attending)
    case AttendanceTypeColumn => Text(r.attendance_type)
    case CreatedAt => Text(r.created_at)
    case UpdatedAt => if r.updated_at.Some? then Text(r.updated_at.value) else Null
  }

  function KeyFn(c: Column): Rsvp -> SortKey {
    r => KeyOf(r, c)
  }

  /** The order a page uses when the caller names none: newest first. */
  const DefaultColumn := CreatedAt
  const DefaultAscending := false

  function Min(a: int, b: int): int {
    if a <= b then a else b
  }

  /** `.range(from, to)` with `from = page * pageSize` and
      `to = from + pageSize - 1`, both inclusive: at most `pageSize` rows,
      the ones at positions `from` onwards. */
  function PageWindow<T>(s: seq<T>, page: nat, pageSize: nat): (r: seq<T>)
    ensures |r| <= pageSize
    ensures |r| == if page * pageSize >= |s| then 0 else Min(pageSize, |s| - page * pageSize)
    ensures forall k :: 0 <= k < |r| ==> r[k] == s[page * pageSize + k]
  {
    var from := page * pageSize;
    var to := from + pageSize - 1;
    if from >= |s| then [] else s[from..Min(to + 1, |s|)]
  }

  /** Pages `0` to `k - 1`, one after the other. */
  function FirstPages<T>(s: seq<T>, k: nat, pageSize: nat): seq<T> {
    if k == 0 then [] else FirstPages(s, k - 1, pageSize) + PageWindow(s, k - 1, pageSize)
  }

  /** A window is the slice between two clamped positions. */
  lemma WindowSlice<T>(s: seq<T>, page: nat, pageSize: nat, from: nat)
    requires from == page * pageSize
    ensures PageWindow(s, page, pageSize) == s[Min(from, |s|)..Min(from + pageSize, |s|)]
  {
  }

  /** The rows before `from` followed by the window from `from` are the
      rows before `from + size`. */
  lemma SliceJoin<T>(s: seq<T>, from: nat, size: nat)
    ensures s[..Min(from, |s|)] + s[Min(from, |s|)..Min(from + size, |s|)] == s[..Min(from + size, |s|)]
  {
  }

  lemma MulSucc(k: nat, p: nat)
    ensures (k + 1) * p == k * p + p
  {
  }

  /** Consecutive pages are adjacent and disjoint: the first `k` pages
      together are exactly the first `k * pageSize` rows. */
  lemma {:induction false} PagesTile<T>(s: seq<T>, k: nat, pageSize: nat)
    ensures FirstPages(s, k, pageSize) == s[..Min(k * pageSize, |s|)]
  {
    if k > 0 {
      PagesTile(s, k - 1, pageSize);
      var from := (k - 1) * pageSize;
      MulSucc(k - 1, pageSize);
      WindowSlice(s, k - 1, pageSize, from);
      SliceJoin(s, from, pageSize);
    }
  }

  /** The rows of one page of a query: filter, order, then the window. */
  function PageData(rows: seq<Rsvp>, page: nat, pageSize: nat, filter: Filter, column: Column, ascending: bool): seq<Rsvp> {
    PageWindow(Sort(Filtered(rows, filter), KeyFn(column), ascending), page, pageSize)
  }

  lemma WindowWithin<T>(s: seq<T>, page: nat, pageSize: nat)
    ensures forall x :: x in PageWindow(s, page, pageSize) ==> x in s
  {
    var w := PageWindow(s, page, pageSize);
    forall x | x in w ensures x in s {
      var k :| 0 <= k < |w| && w[k] == x;
      assert s[page * pageSize + k] == x;
    }
  }

  lemma WindowSorted<T>(s: seq<T>, page: nat, pageSize: nat, key: T -> SortKey, ascending: bool)
    requires SortedBy(s, key, ascending)
    ensures SortedBy(PageWindow(s, page, pageSize), key, ascending)
  {
    var w := PageWindow(s, page, pageSize);
    forall i, j | 0 <= i < j < |w| ensures Before(key(w[i]), key(w[j]), ascending) {
      assert w[i] == s[page * pageSize + i] && w[j] == s[page * pageSize + j];
    }
  }

  /** A page holds table rows that pass the filter, in the requested order. */
  lemma PageDataFromRows(rows: seq<Rsvp>, page: nat, pageSize: nat, filter: Filter, column: Column, ascending: bool)
    ensures var data := PageData(rows, page, pageSize, filter, column, ascending);
            SortedBy(data, KeyFn(column), ascending)
            && forall x :: x in data ==> x in rows && MatchesFilter(x, filter)
  {
    var ordered := Sort(Filtered(rows, filter), KeyFn(column), ascending);
    WindowWithin(ordered, page, pageSize);
    WindowSorted(ordered, page, pageSize, KeyFn(column), ascending);
    forall x | x in ordered ensures x in Filtered(rows, filter) {
      assert x in multiset(ordered);
    }
  }

  datatype PageResult = PageResult(
    data: seq<Rsvp>,
    totalFiltered: nat,
    totalAll: nat,
    totalAttending: nat,
    totalNotAttending: nat,
    totalChurch: nat,
    totalReception: nat,
    totalBoth: nat)

  const EmptyPage := PageResult([], 0, 0, 0, 0, 0, 0, 0)

  /** How the store answers the page query and each of the six count queries. */
  datatype PageReplies = PageReplies(
    page: Reply, all: Reply, attending: Reply, notAttending: Reply,
    church: Reply, reception: Reply, both: Reply)

  /** Any one thrown query rejects the combined wait. */
  predicate AnyThrew(q: PageReplies) {
    q.page == Threw || q.all == Threw || q.attending == Threw || q.notAttending == Threw
    || q.church == Threw || q.reception == Threw || q.both == Threw
  }

  predicate AllCountsOk(q: PageReplies) {
    q.all == Ok && q.attending == Ok && q.notAttending == Ok && q.church == Ok && q.reception == Ok && q.both == Ok
  }

  /** A count that failed arrives as `null` and is read as 0. */
  function CountOr(reply: Reply, n: nat): nat {
    if reply == Ok then n else 0
  }

  /** `getRSVPsPaginated`. A thrown query or a failed page query gives the
      empty result. Otherwise the page holds at most `pageSize` rows, all
      from the table and passing the filter, in the requested order; each
      total is its count over the table, or 0 when that count failed, and
      when every count succeeds the totals are consistent with each other. The
      order defaults to newest first, as the source's parameter defaults do. */
  function GetRsvpsPaginated(rows: seq<Rsvp>, page: nat, pageSize: nat, filter: Filter, replies: PageReplies,
                             column: Column := DefaultColumn, ascending: bool := DefaultAscending): (r: PageResult)
    ensures AnyThrew(replies) || replies.page == Failed ==> r == EmptyPage
    ensures |r.data| <= pageSize
    ensures forall x :: x in r.data ==> x in rows && MatchesFilter(x, filter)
    ensures SortedBy(r.data, KeyFn(column), ascending)
    ensures !AnyThrew(replies) && replies.page == Ok ==>
              r.data == PageData(rows, page, pageSize, filter, column, ascending)
              && r.totalFiltered == |Filtered(rows, filter)|
    ensures !AnyThrew(replies) && replies.page == Ok ==>
              && r.totalAll == CountOr(replies.all, |rows|)
              && r.totalAttending == CountOr(replies.attending, AttendingCount(rows))
              && r.totalNotAttending == CountOr(replies.notAttending, NotAttendingCount(rows))
              && r.totalChurch == CountOr(replies.church, |Filtered(rows, Only(Church))|)
              && r.totalReception == CountOr(replies.reception, |Filtered(rows, Only(Reception))|)
              && r.totalBoth == CountOr(replies.both, |Filtered(rows, Only(Both))|)
    ensures !AnyThrew(replies) && replies.page == Ok && AllCountsOk(replies) ==>
              r.totalAll == |rows|
              && r.totalAttending + r.totalNotAttending == r.totalAll
              && r.totalChurch + r.totalReception + r.totalBoth <= r.totalAttending
  {
    if AnyThrew(replies) || replies.page == Failed then EmptyPage
    else
      var data := PageData(rows, page, pageSize, filter, column, ascending);
      PageDataFromRows(rows, page, pageSize, filter, column, ascending);
      AttendingPartition(rows);
      TypeCountsBound(rows);
      PageResult(
        data,
        |Filtered(rows, filter)|,
        CountOr(replies.all, |rows|),
        CountOr(replies.attending, AttendingCount(rows)),
        CountOr(replies.notAttending, NotAttendingCount(rows)),
        CountOr(replies.church, TypeCount(rows, Church)),
        CountOr(replies.reception, TypeCount(rows, Reception)),
        CountOr(replies.both, TypeCount(rows, Both)))
  }

  /** `getAllRSVPsForExport`: every row passing the filter, newest first;
      nothing when the query fails or throws. */
  function GetAllRsvpsForExport(rows: seq<Rsvp>, filter: Filter, reply: Reply): (r: seq<Rsvp>)
    ensures reply != Ok ==> r == []
    ensures reply == Ok ==> multiset(r) == multiset(Filtered(rows, filter))
    ensures SortedBy(r, KeyFn(CreatedAt), false)
  {
    if reply != Ok then [] else Sort(Filtered(rows, filter), KeyFn(CreatedAt), false)
  }

  /** The fields an admin edit may send; each is whatever value arrived. */
  datatype RsvpUpdates = RsvpUpdates(
    first_name: JsValue, last_name: JsValue, email: JsValue, attending: JsValue, attendance_type: JsValue)

  /** The update payload: `updated_at` always, every other column only when
      present. */
  datatype RsvpPatch = RsvpPatch(
    updated_at: string,
    first_name: Option<string>,
    last_name: Option<string>,
    email: Option<string>,
    attending: Option<bool>,
    attendance_type: Option<string>)

  /** A string field is applied only when it arrived as a string, a flag only
      as a boolean, and the attendance type only when it is one of the three
      names; names are trimmed and the address trimmed and lower-cased. */
  function PatchFor(updates: RsvpUpdates, now: string): (p: RsvpPatch)
    ensures p.updated_at == now
    ensures p.first_name.Some? <==> updates.first_name.Str?
    ensures p.last_name.Some? <==> updates.last_name.Str?
    ensures p.email.Some? <==> updates.email.Str?
    ensures p.attending.Some? <==> updates.attending.Bool?
    ensures p.attendance_type.Some? <==> updates.attendance_type.Str? && IsAttendanceType(updates.attendance_type.s)
  {
    RsvpPatch(
      now,
      if updates.first_name.Str? then Some(Trim(updates.first_name.s)) else None,
      if updates.last_name.Str? then Some(Trim(updates.last_name.s)) else None,
      if updates.email.Str? then Some(ToLower(Trim(updates.email.s))) else None,
      if updates.attending.Bool? then Some(updates.attending.b) else None,
      if updates.attendance_type.Str? && IsAttendanceType(updates.attendance_type.s)
      then Some(updates.attendance_type.s) else None)
  }

  /** Each field a patch writes is its input normalised: the names trimmed,
      the address trimmed and lower-cased, the flag and the type as sent.
      The names and address it writes are fixpoints of that normalisation,
      so saving them again changes nothing. */
  lemma PatchNormalised(updates: RsvpUpdates, now: string)
    ensures var p := PatchFor(updates, now);
            && (p.first_name.Some? ==> p.first_name.value == Trim(updates.first_name.s))
            && (p.last_name.Some? ==> p.last_name.value == Trim(updates.last_name.s))
            && (p.email.Some? ==> p.email.value == ToLower(Trim(updates.email.s)))
            && (p.attending.Some? ==> p.attending.value == updates.attending.b)
            && (p.attendance_type.Some? ==> p.attendance_type.value == updates.attendance_type.s)
    ensures var p := PatchFor(updates, now);
            && (p.first_name.Some? ==> p.first_name.value == Trim(p.first_name.value))
            && (p.last_name.Some? ==> p.last_name.value == Trim(p.last_name.value))
            && (p.email.Some? ==> ToLower(p.email.value) == p.email.value)
  {
    TrimIdempotent(if updates.first_name.Str? then updates.first_name.s else "");
    TrimIdempotent(if updates.last_name.Str? then updates.last_name.s else "");
    ToLowerIdempotent(Trim(if updates.email.Str? then updates.email.s else ""));
  }

  /** One row after the payload is applied. */
  function ApplyPatch(r: Rsvp, p: RsvpPatch): Rsvp {
    r.(updated_at := Some(p.updated_at),
       first_name := p.first_name.GetOr(r.first_name),
       last_name := p.last_name.GetOr(r.last_name),
       email := p.email.GetOr(r.email),
       attending := p.attending.GetOr(r.attending),
       attendance_type := p.attendance_type.GetOr(r.attendance_type))
  }

  /** `.update(payload).eq('id', id)`: every row with that id takes the
      payload; every other row is unchanged; no row is added or removed. */
  function UpdateWhere(rows: seq<Rsvp>, id: Id, p: RsvpPatch): (r: seq<Rsvp>)
    ensures |r| == |rows|
    ensures forall i :: 0 <= i < |rows| && rows[i].id != id ==> r[i] == rows[i]
    ensures forall i :: 0 <= i < |rows| && rows[i].id == id ==> r[i] == ApplyPatch(rows[i], p) && r[i].id == id
  {
    seq(|rows|, i requires 0 <= i < |rows| => if rows[i].id == id then ApplyPatch(rows[i], p) else rows[i])
  }

  /** Saving a row's own fields back, once they are trimmed and the address
      lower-case, changes nothing but `updated_at`. */
  lemma SaveUnchangedRow(r: Rsvp, now: string)
    requires Trim(r.first_name) == r.first_name && Trim(r.last_name) == r.last_name
    requires Trim(r.email) == r.email && ToLower(r.email) == r.email
    requires IsAttendanceType(r.attendance_type)
    ensures ApplyPatch(r, PatchFor(RsvpUpdates(Str(r.first_name), Str(r.last_name), Str(r.email),
                                               Bool(r.attending), Str(r.attendance_type)), now))
            == r.(updated_at := Some(now))
  {
  }

  /** Updates keep the attendance types valid: a payload carries only one of
      the three names. */
  lemma UpdateKeepsTypesValid(rows: seq<Rsvp>, id: Id, updates: RsvpUpdates, now: string)
    requires forall i :: 0 <= i < |rows| ==> IsAttendanceType(rows[i].attendance_type)
    ensures var after := UpdateWhere(rows, id, PatchFor(updates, now));
            forall i :: 0 <= i < |after| ==> IsAttendanceType(after[i].attendance_type)
  {
  }

  const UpdateFailed := "Failed to update RSVP."
  const DeleteFailed := "Failed to delete RSVP."

  /** `updateRSVP`: builds the payload field by field and applies it to the
      rows with the given id (none is not an error). */
  method UpdateRsvp(db: Database, id: Id, updates: RsvpUpdates, now: string, reply: Reply) returns (o: Outcome)
    modifies db
    ensures db.guests == old(db.guests)
    ensures reply == Ok ==> o == Success && db.rsvps == UpdateWhere(old(db.rsvps), id, PatchFor(updates, now))
    ensures reply == Failed ==> o == Failure(UpdateFailed) && db.rsvps == old(db.rsvps)
    ensures reply == Threw ==> o == Failure(UnexpectedError) && db.rsvps == old(db.rsvps)
  {
    var payload := RsvpPatch(now, None, None, None, None, None);
    if updates.first_name.Str? {
      payload := payload.(first_name := Some(Trim(updates.first_name.s)));
    }
    if updates.last_name.Str? {
      payload := payload.(last_name := Some(Trim(updates.last_name.s)));
    }
    if updates.email.Str? {
      payload := payload.(email := Some(ToLower(Trim(updates.email.s))));
    }
    if updates.attending.Bool? {
      payload := payload.(attending := Some(updates.attending.b));
    }
    if updates.attendance_type.Str? && IsAttendanceType(updates.attendance_type.s) {
      payload := payload.(attendance_type := Some(updates.attendance_type.s));
    }
    match reply {
      case Threw =>
        o := Failure(UnexpectedError);
      case Failed =>
        o := Failure(UpdateFailed);
      case Ok =>
        db.rsvps := UpdateWhere(db.rsvps, id, payload);
        o := Success;
    }
  }

  /** `deleteRSVP`. */
  method DeleteRsvp(db: Database, id: Id, reply: Reply) returns (o: Outcome)
    modifies db
    ensures db.guests == old(db.guests)
    ensures reply == Ok ==> o == Success && db.rsvps == RemoveId(old(db.rsvps), RsvpId, id)
    ensures reply == Failed ==> o == Failure(DeleteFailed) && db.rsvps == old(db.rsvps)
    ensures reply == Threw ==> o == Failure(UnexpectedError) && db.rsvps == old(db.rsvps)
  {
    match reply {
      case Threw =>
        o := Failure(UnexpectedError);
      case Failed =>
        o := Failure(DeleteFailed);
      case Ok =>
        db.rsvps := RemoveId(db.rsvps, RsvpId, id);
        o := Success;
    }
  }
}
