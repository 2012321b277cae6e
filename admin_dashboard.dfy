/** The admin dashboard: its state (the loaded rows, the edit form, the
    messages, the filter) and the actions that change it, the totals it
    shows, the attendance labels, and the CSV export of the filtered rows. */
module AdminDashboard {
  import opened Text
  import opened Records
  import RsvpAdmin

  /** The label of a stored attendance type; anything else reads `Both`. */
  function AttendanceTypeLabel(t: string): (words: string)
    ensures t == "church" ==> words == "Church Only"
    ensures t == "reception" ==> words == "Reception Only"
    ensures t != "church" && t != "reception" ==> words == "Both"
  {
    match t
    case "church" => "Church Only"
    case "reception" => "Reception Only"
    case "both" => "Both"
    case _ => "Both"
  }

  /** The three types get three different labels. */
  lemma LabelsDistinct(a: AttendanceType, b: AttendanceType)
    requires AttendanceTypeLabel(a.Name()) == AttendanceTypeLabel(b.Name())
    ensures a == b
  {
  }

  /** The totals above the table. */
  datatype Stats = Stats(total: nat, attending: nat, notAttending: nat, churchOnly: nat, receptionOnly: nat, both: nat)

  function DashboardStats(rows: seq<Rsvp>): (s: Stats)
    ensures s.total == |rows|
    ensures s.attending == AttendingCount(rows) && s.notAttending == NotAttendingCount(rows)
    ensures s.attending + s.notAttending == s.total
    ensures s.churchOnly + s.receptionOnly + s.both <= s.attending
    ensures s.churchOnly + s.receptionOnly + s.both == s.attending
            <==> forall i :: 0 <= i < |rows| && rows[i].attending ==> IsAttendanceType(rows[i].attendance_type)
    ensures s.churchOnly == |Filtered(rows, Only(Church))|
    ensures s.receptionOnly == |Filtered(rows, Only(Reception))|
    ensures s.both == |Filtered(rows, Only(Both))|
  {
    AttendingPartition(rows);
    TypeCountsBound(rows);
    Stats(|rows|, AttendingCount(rows), NotAttendingCount(rows),
          TypeCount(rows, Church), TypeCount(rows, Reception), TypeCount(rows, Both))
  }

  /** The totals `getRSVPsPaginated` reads from the store agree with the
      counts the dashboard computes from the rows it holds, whenever every
      count query succeeds. */
  lemma PageTotalsMatchStats(rows: seq<Rsvp>, page: nat, pageSize: nat, filter: Filter,
                             replies: RsvpAdmin.PageReplies)
    requires !RsvpAdmin.AnyThrew(replies) && replies.page == Ok && RsvpAdmin.AllCountsOk(replies)
    ensures var r := RsvpAdmin.GetRsvpsPaginated(rows, page, pageSize, filter, replies);
            var s := DashboardStats(rows);
            && r.totalAll == s.total
            && r.totalAttending == s.attending && r.totalNotAttending == s.notAttending
            && r.totalChurch == s.churchOnly && r.totalReception == s.receptionOnly && r.totalBoth == s.both
  {
  }

  // ---------------------------------------------------------------------
  // CSV export
  // ---------------------------------------------------------------------

  const HeaderNames: seq<string> := ["First Name", "Last Name", "Email", "Attending", "Attendance Type", "Submitted At"]

  const Header := Join(HeaderNames, ",")

  /** The six cells of one row; `fmt` is the browser's locale rendering of
      the submission time. */
  function RowCells(r: Rsvp, fmt: string -> string): (cells: seq<string>)
    ensures |cells| == 6
    ensures cells[3] == (if r.attending then "Yes" else "No")
  {
    [r.first_name, r.last_name, r.email, if r.attending then "Yes" else "No",
     AttendanceTypeLabel(r.attendance_type), fmt(r.created_at)]
  }

  /** A cell quoted as the dashboard writes it: between double quotes, with
      nothing inside escaped. */
  function QuoteAsWritten(c: string): string {
    "\"" + c + "\""
  }

  /** Every double quote doubled, as section 2 of RFC 4180 requires inside a
      quoted field. */
  function Escape(c: string): string {
    if c == [] then []
    else (if c[0] == '"' then "\"\"" else [c[0]]) + Escape(c[1..])
  }

  /** Escaping leaves text without quotes unchanged, and adds or removes no
      character other than the quote. */
  lemma {:induction false} EscapeKeepsOthers(c: string)
    ensures '"' !in c ==> Escape(c) == c
    ensures forall ch :: ch != '"' ==> (ch in Escape(c) <==> ch in c)
    decreases |c|
  {
    if c != [] {
      EscapeKeepsOthers(c[1..]);
      assert c == [c[0]] + c[1..];
    }
  }

  function Quote(c: string): string {
    "\"" + Escape(c) + "\""
  }

  function QuoteAll(cells: seq<string>, quote: string -> string): (q: seq<string>)
    ensures |q| == |cells|
    ensures forall i :: 0 <= i < |cells| ==> q[i] == quote(cells[i])
  {
    seq(|cells|, i requires 0 <= i < |cells| => quote(cells[i]))
  }

  function LineAsWritten(cells: seq<string>): string {
    Join(QuoteAll(cells, QuoteAsWritten), ",")
  }

  function Line(cells: seq<string>): string {
    Join(QuoteAll(cells, Quote), ",")
  }

  /** The export of the filtered rows: the header, then one line per row. */
  function CsvContent(rows: seq<Rsvp>, fmt: string -> string): string {
    Join(CsvLines(rows, fmt), "\n")
  }

  /** A reader of one line of quoted fields (section 2 of RFC 4180): the
      text of a quoted field up to its closing quote, with `""` read as one
      quote, and the text after the closing quote. */
  function ReadQuoted(s: string, field: string): (r: Option<(string, string)>)
    ensures r.Some? ==> |r.value.1| < |s|
    decreases |s|
  {
    if s == [] then None
    else if s[0] == '"' then
      if |s| > 1 && s[1] == '"' then ReadQuoted(s[2..], field + ['"'])
      else Some((field, s[1..]))
    else ReadQuoted(s[1..], field + [s[0]])
  }

  /** The fields of a line whose every field is quoted and separated by
      commas; `None` when the line is not of that form. */
  function ReadLine(s: string): Option<seq<string>>
    decreases |s|
  {
    if s == [] || s[0] != '"' then None
    else
      match ReadQuoted(s[1..], "")
      case None => None
      case Some((cell, rest)) =>
        if rest == [] then Some([cell])
        else if rest[0] != ',' then None
        else
          match ReadLine(rest[1..])
          case None => None
          case Some(cells) => Some([cell] + cells)
  }

  /** A doubled quote inside a quoted field reads as one quote. */
  lemma ReadQuotedPair(t: string, field: string)
    ensures ReadQuoted("\"\"" + t, field) == ReadQuoted(t, field + ['"'])
  {
    var s := "\"\"" + t;
    assert s[2..] == t;
  }

  /** Any other character is taken as it is. */
  lemma ReadQuotedPlain(ch: char, t: string, field: string)
    requires ch != '"'
    ensures ReadQuoted([ch] + t, field) == ReadQuoted(t, field + [ch])
  {
    var s := [ch] + t;
    assert s[1..] == t;
  }

  /** A quote not followed by another one closes the field. */
  lemma ReadQuotedClose(rest: string, field: string)
    requires rest == [] || rest[0] != '"'
    ensures ReadQuoted("\"" + rest, field) == Some((field, rest))
  {
    var s := "\"" + rest;
    assert s[1..] == rest;
    if |s| > 1 {
      assert s[1] == rest[0];
    }
  }

  /** Escaping works character by character. */
  lemma EscapeCons(c: string)
    requires c != []
    ensures Escape(c) == (if c[0] == '"' then "\"\"" else [c[0]]) + Escape(c[1..])
  {
  }

  /** An escaped cell is read back in full, up to its closing quote. */
  lemma {:induction false} ReadEscaped(c: string, field: string, rest: string)
    requires rest == [] || rest[0] != '"'
    ensures ReadQuoted(Escape(c) + "\"" + rest, field) == Some((field + c, rest))
    decreases |c|
  {
    if c == [] {
      assert Escape(c) + "\"" + rest == "\"" + rest;
      ReadQuotedClose(rest, field);
      assert field + c == field;
    } else {
      var tail := Escape(c[1..]) + "\"" + rest;
      ReadEscaped(c[1..], field + [c[0]], rest);
      EscapeCons(c);
      if c[0] == '"' {
        assert Escape(c) + "\"" + rest == "\"\"" + tail;
        ReadQuotedPair(tail, field);
      } else {
        assert Escape(c) + "\"" + rest == [c[0]] + tail;
        ReadQuotedPlain(c[0], tail, field);
      }
      assert field + [c[0]] + c[1..] == field + c;
    }
  }

  /** Every line the export writes reads back as the cells it was made of. */
  lemma {:induction false} LineRoundTrip(cells: seq<string>)
    requires |cells| >= 1
    ensures ReadLine(Line(cells)) == Some(cells)
    decreases |cells|
  {
    var q := QuoteAll(cells, Quote);
    if |cells| == 1 {
      var x := Escape(cells[0]) + "\"" + "";
      assert Line(cells) == "\"" + x;
      assert Line(cells)[1..] == x;
      ReadEscaped(cells[0], "", "");
      assert "" + cells[0] == cells[0];
      assert [cells[0]] == cells;
    } else {
      LineRoundTrip(cells[1..]);
      var rest := Join(QuoteAll(cells[1..], Quote), ",");
      assert q[1..] == QuoteAll(cells[1..], Quote);
      var x := Escape(cells[0]) + "\"" + ("," + rest);
      assert Line(cells) == "\"" + x;
      assert Line(cells)[1..] == x;
      ReadEscaped(cells[0], "", "," + rest);
      assert ("," + rest)[1..] == rest;
      assert "" + cells[0] == cells[0];
      assert rest == Line(cells[1..]);
      assert ReadLine(rest) == Some(cells[1..]);
      assert [cells[0]] + cells[1..] == cells;
    }
  }

  /** Where no cell holds a double quote the two quotings agree. */
  lemma LineAsWrittenAgrees(cells: seq<string>)
    requires forall i :: 0 <= i < |cells| ==> '"' !in cells[i]
    ensures LineAsWritten(cells) == Line(cells)
  {
    forall i | 0 <= i < |cells| ensures QuoteAsWritten(cells[i]) == Quote(cells[i]) {
      EscapeKeepsOthers(cells[i]);
    }
    assert QuoteAll(cells, QuoteAsWritten) == QuoteAll(cells, Quote);
  }

  /** A name holding a double quote: the line written without escaping no
      longer reads back as its cell. */
  lemma LineAsWrittenLosesQuote()
    ensures ReadLine(LineAsWritten(["a\"b"])) != Some(["a\"b"])
  {
    var line := LineAsWritten(["a\"b"]);
    assert line == "\"a\"b\"";
    assert ReadQuoted("\"b\"", "a") == Some(("a", "b\""));
    assert "a\"b\""[1..] == "\"b\"";
    assert "" + ['a'] == "a";
    assert ReadQuoted("a\"b\"", "") == ReadQuoted("\"b\"", "a");
    assert line[1..] == "a\"b\"";
  }

  /** No character the parts and the separator lack appears in the join. */
  lemma {:induction false} NotInJoin(parts: seq<string>, sep: string, ch: char)
    requires ch !in sep
    requires forall i :: 0 <= i < |parts| ==> ch !in parts[i]
    ensures ch !in Join(parts, sep)
    decreases |parts|
  {
    if |parts| > 1 {
      NotInJoin(parts[1..], sep, ch);
    }
  }

  /** Neither cell text nor formatted time holds a line break. */
  predicate SingleLineCells(rows: seq<Rsvp>, fmt: string -> string) {
    forall i :: 0 <= i < |rows| ==> forall k :: 0 <= k < 6 ==> '\n' !in RowCells(rows[i], fmt)[k]
  }

  lemma NoBreakInLine(cells: seq<string>)
    requires forall k :: 0 <= k < |cells| ==> '\n' !in cells[k]
    ensures '\n' !in Line(cells)
  {
    var q := QuoteAll(cells, Quote);
    forall k | 0 <= k < |q| ensures '\n' !in q[k] {
      EscapeKeepsOthers(cells[k]);
      assert q[k] == "\"" + Escape(cells[k]) + "\"";
    }
    NotInJoin(q, ",", '\n');
  }

  lemma NoBreakInHeader()
    ensures '\n' !in Header
  {
    assert '\n' !in HeaderNames[0] && '\n' !in HeaderNames[1] && '\n' !in HeaderNames[2];
    assert '\n' !in HeaderNames[3] && '\n' !in HeaderNames[4] && '\n' !in HeaderNames[5];
    NotInJoin(HeaderNames, ",", '\n');
  }

  /** The export's lines, header first. */
  function CsvLines(rows: seq<Rsvp>, fmt: string -> string): seq<string> {
    [Header] + seq(|rows|, i requires 0 <= i < |rows| => Line(RowCells(rows[i], fmt)))
  }

  lemma NoBreakInLines(rows: seq<Rsvp>, fmt: string -> string)
    requires SingleLineCells(rows, fmt)
    ensures forall i :: 0 <= i < |CsvLines(rows, fmt)| ==> '\n' !in CsvLines(rows, fmt)[i]
  {
    var parts := CsvLines(rows, fmt);
    forall i | 0 <= i < |parts| ensures '\n' !in parts[i] {
      if i > 0 {
        var cells := RowCells(rows[i - 1], fmt);
        NoBreakInLine(cells);
        assert parts[i] == Line(cells);
      } else {
        NoBreakInHeader();
      }
    }
  }

  /** The export reads back: its first line is the header and each further
      line holds exactly the cells of one filtered row, in order. */
  lemma CsvRoundTrip(rows: seq<Rsvp>, fmt: string -> string)
    requires SingleLineCells(rows, fmt)
    ensures var lines := Split(CsvContent(rows, fmt), '\n');
            && |lines| == |rows| + 1
            && lines[0] == Header
            && forall i :: 0 <= i < |rows| ==> ReadLine(lines[i + 1]) == Some(RowCells(rows[i], fmt))
  {
    var parts := CsvLines(rows, fmt);
    NoBreakInLines(rows, fmt);
    SplitJoin(parts, '\n');
    forall i | 0 <= i < |rows| ensures ReadLine(parts[i + 1]) == Some(RowCells(rows[i], fmt)) {
      LineRoundTrip(RowCells(rows[i], fmt));
    }
  }

  /** The export as the dashboard writes it: the header, then one line per
      row with every cell quoted as written. */
  function CsvLinesAsWritten(rows: seq<Rsvp>, fmt: string -> string): seq<string> {
    [Header] + seq(|rows|, i requires 0 <= i < |rows| => LineAsWritten(RowCells(rows[i], fmt)))
  }

  function CsvContentAsWritten(rows: seq<Rsvp>, fmt: string -> string): string {
    Join(CsvLinesAsWritten(rows, fmt), "\n")
  }

  lemma NoBreakInLineAsWritten(cells: seq<string>)
    requires forall k :: 0 <= k < |cells| ==> '\n' !in cells[k]
    ensures '\n' !in LineAsWritten(cells)
  {
    var q := QuoteAll(cells, QuoteAsWritten);
    forall k | 0 <= k < |q| ensures '\n' !in q[k] {
      assert q[k] == "\"" + cells[k] + "\"";
    }
    NotInJoin(q, ",", '\n');
  }

  /** The export as written has one line per filtered row after the header,
      each the row's cells quoted as written, as long as no cell holds a
      line break. */
  lemma CsvAsWrittenLines(rows: seq<Rsvp>, fmt: string -> string)
    requires SingleLineCells(rows, fmt)
    ensures var lines := Split(CsvContentAsWritten(rows, fmt), '\n');
            && |lines| == |rows| + 1
            && lines[0] == Header
            && forall i :: 0 <= i < |rows| ==> lines[i + 1] == LineAsWritten(RowCells(rows[i], fmt))
  {
    var parts := CsvLinesAsWritten(rows, fmt);
    forall i | 0 <= i < |parts| ensures '\n' !in parts[i] {
      if i > 0 {
        var cells := RowCells(rows[i - 1], fmt);
        NoBreakInLineAsWritten(cells);
        assert parts[i] == LineAsWritten(cells);
      } else {
        NoBreakInHeader();
      }
    }
    SplitJoin(parts, '\n');
  }

  /** Where no cell holds a double quote, the export as written is the
      escaped export, so it reads back row for row as `CsvRoundTrip` says. */
  lemma CsvAsWrittenAgrees(rows: seq<Rsvp>, fmt: string -> string)
    requires forall i :: 0 <= i < |rows| ==> forall k :: 0 <= k < 6 ==> '"' !in RowCells(rows[i], fmt)[k]
    ensures CsvContentAsWritten(rows, fmt) == CsvContent(rows, fmt)
  {
    forall i | 0 <= i < |rows|
      ensures LineAsWritten(RowCells(rows[i], fmt)) == Line(RowCells(rows[i], fmt))
    {
      LineAsWrittenAgrees(RowCells(rows[i], fmt));
    }
    assert CsvLinesAsWritten(rows, fmt) == CsvLines(rows, fmt);
  }

  // ---------------------------------------------------------------------
  // Dashboard state
  // ---------------------------------------------------------------------

  /** The edit form; `id` is absent when no row is being edited. */
  datatype EditState = EditState(
    id: Option<Id>, first_name: string, last_name: string, email: string, attending: bool, attendance_type: string)

  const NoEdit := EditState(None, "", "", "", true, "both")

  const LoadFailed := "Failed to load RSVPs"
  const SavedMessage := "RSVP updated successfully."
  const DeletedMessage := "RSVP deleted successfully."

  /** `!editState.id`: no id, or the empty id. */
  predicate Editing(e: EditState) {
    e.id.Some? && e.id.value != []
  }

  /** The update the save sends: every field of the form, as it stands. */
  function FormUpdates(e: EditState): RsvpAdmin.RsvpUpdates {
    RsvpAdmin.RsvpUpdates(Str(e.first_name), Str(e.last_name), Str(e.email), Bool(e.attending), Str(e.attendance_type))
  }

  /** A save that reaches the store sets every column of the form's row to
      the form's value, trimmed or lower-cased as the update does, keeping a
      type outside the three. */
  lemma SavedRowShowsForm(r: Rsvp, e: EditState, now: string)
    ensures var s := RsvpAdmin.ApplyPatch(r, RsvpAdmin.PatchFor(FormUpdates(e), now));
            && s.first_name == Trim(e.first_name) && s.last_name == Trim(e.last_name)
            && s.email == ToLower(Trim(e.email)) && s.attending == e.attending
            && s.attendance_type == (if IsAttendanceType(e.attendance_type) then e.attendance_type else r.attendance_type)
            && s.id == r.id && s.updated_at == Some(now)
  {
  }

  /** The table after the store applies a save of the form. */
  function SavedTable(rows: seq<Rsvp>, e: EditState, now: string): seq<Rsvp>
    requires Editing(e)
  {
    RsvpAdmin.UpdateWhere(rows, e.id.value, RsvpAdmin.PatchFor(FormUpdates(e), now))
  }

  class Dashboard {
    var rsvps: seq<Rsvp>
    var isLoading: bool
    var error: Option<string>
    var actionMessage: Option<string>
    var attendanceFilter: Filter
    var editState: EditState
    var isSaving: bool
    var isDeleting: Option<Id>

    constructor ()
      ensures rsvps == [] && isLoading && error == None && actionMessage == None
      ensures attendanceFilter == All && editState == NoEdit && !isSaving && isDeleting == None
    {
      rsvps := [];
      isLoading := true;
      error := None;
      actionMessage := None;
      attendanceFilter := All;
      editState := NoEdit;
      isSaving := false;
      isDeleting := None;
    }

    /** The rows the table and the export show. */
    function FilteredRsvps(): (r: seq<Rsvp>)
      reads this
      ensures forall x :: x in r <==> x in rsvps && MatchesFilter(x, attendanceFilter)
    {
      Filtered(rsvps, attendanceFilter)
    }

    /** Reloads the table from the store; `threw` says the read threw. */
    method LoadRsvps(db: Database, threw: bool)
      modifies this
      ensures !isLoading && actionMessage == None
      ensures !threw ==> rsvps == db.rsvps && error == None
      ensures threw ==> rsvps == old(rsvps) && error == Some(LoadFailed)
      ensures attendanceFilter == old(attendanceFilter) && editState == old(editState)
      ensures isSaving == old(isSaving) && isDeleting == old(isDeleting)
    {
      isLoading := true;
      error := None;
      actionMessage := None;
      if threw {
        error := Some(LoadFailed);
      } else {
        rsvps := db.rsvps;
      }
      isLoading := false;
    }

    method SetAttendanceFilter(f: Filter)
      modifies this
      ensures attendanceFilter == f
      ensures rsvps == old(rsvps) && isLoading == old(isLoading) && error == old(error)
      ensures actionMessage == old(actionMessage) && editState == old(editState)
      ensures isSaving == old(isSaving) && isDeleting == old(isDeleting)
    {
      attendanceFilter := f;
    }

    /** Fills the form from a row and clears the message. */
    method StartEdit(r: Rsvp)
      modifies this
      ensures editState == EditState(Some(r.id), r.first_name, r.last_name, r.email, r.attending, r.attendance_type)
      ensures actionMessage == None
      ensures rsvps == old(rsvps) && isLoading == old(isLoading) && error == old(error)
      ensures attendanceFilter == old(attendanceFilter)
      ensures isSaving == old(isSaving) && isDeleting == old(isDeleting)
    {
      editState := EditState(Some(r.id), r.first_name, r.last_name, r.email, r.attending, r.attendance_type);
      actionMessage := None;
    }

    /** Resets the form; the message stays. */
    method CancelEdit()
      modifies this
      ensures editState == NoEdit
      ensures rsvps == old(rsvps) && isLoading == old(isLoading) && error == old(error)
      ensures actionMessage == old(actionMessage) && attendanceFilter == old(attendanceFilter)
      ensures isSaving == old(isSaving) && isDeleting == old(isDeleting)
    {
      editState := NoEdit;
    }

    /** Sends the form to `updateRSVP`; on success reloads, resets the form
        and reports it, otherwise shows the error and keeps the form. */
    method SaveEdit(db: Database, now: string, reply: Reply, loadThrew: bool)
      modifies this, db
      ensures db.guests == old(db.guests)
      ensures !Editing(old(editState)) ==>
                db.rsvps == old(db.rsvps) && rsvps == old(rsvps) && editState == old(editState)
                && actionMessage == old(actionMessage) && error == old(error) && isSaving == old(isSaving)
      ensures Editing(old(editState)) && reply == Ok ==>
                && db.rsvps == SavedTable(old(db.rsvps), old(editState), now)
                && editState == NoEdit && actionMessage == Some(SavedMessage) && !isSaving
                && (!loadThrew ==> rsvps == db.rsvps && error == None)
                && (loadThrew ==> rsvps == old(rsvps) && error == Some(LoadFailed))
      ensures Editing(old(editState)) && reply != Ok ==>
                && db.rsvps == old(db.rsvps) && rsvps == old(rsvps) && editState == old(editState)
                && error == old(error) && !isSaving
                && actionMessage == Some(if reply == Failed then RsvpAdmin.UpdateFailed else UnexpectedError)
      ensures attendanceFilter == old(attendanceFilter) && isDeleting == old(isDeleting)
      ensures !Editing(old(editState)) || reply != Ok ==> isLoading == old(isLoading)
      ensures Editing(old(editState)) && reply == Ok ==> !isLoading
    {
      if !Editing(editState) {
        return;
      }
      isSaving := true;
      actionMessage := None;
      var result := RsvpAdmin.UpdateRsvp(db, editState.id.value, FormUpdates(editState), now, reply);
      isSaving := false;
      if result.Failure? {
        actionMessage := Some(if result.error != "" then result.error else RsvpAdmin.UpdateFailed);
        return;
      }
      assert db.rsvps == SavedTable(old(db.rsvps), old(editState), now);
      FinishSave(db, loadThrew);
    }

    /** The end of a save the store accepted: reload, reset the form, and
        report it. */
    method FinishSave(db: Database, loadThrew: bool)
      modifies this
      ensures editState == NoEdit && actionMessage == Some(SavedMessage)
      ensures !loadThrew ==> rsvps == db.rsvps && error == None
      ensures loadThrew ==> rsvps == old(rsvps) && error == Some(LoadFailed)
      ensures attendanceFilter == old(attendanceFilter)
      ensures isSaving == old(isSaving) && isDeleting == old(isDeleting)
      ensures !isLoading
    {
      LoadRsvps(db, loadThrew);
      CancelEdit();
      actionMessage := Some(SavedMessage);
    }

    /** Deletes a row after the admin confirms; on success reloads and
        reports it, otherwise shows the error. */
    method HandleDelete(db: Database, id: Id, confirmed: bool, reply: Reply, loadThrew: bool)
      modifies this, db
      ensures db.guests == old(db.guests)
      ensures !confirmed ==>
                db.rsvps == old(db.rsvps) && rsvps == old(rsvps) && actionMessage == old(actionMessage)
                && error == old(error) && isDeleting == old(isDeleting)
      ensures confirmed && reply == Ok ==>
                && db.rsvps == RemoveId(old(db.rsvps), RsvpId, id)
                && actionMessage == Some(DeletedMessage) && isDeleting == None
                && (!loadThrew ==> rsvps == db.rsvps && error == None)
                && (loadThrew ==> rsvps == old(rsvps) && error == Some(LoadFailed))
      ensures confirmed && reply != Ok ==>
                && db.rsvps == old(db.rsvps) && rsvps == old(rsvps) && error == old(error) && isDeleting == None
                && actionMessage == Some(if reply == Failed then RsvpAdmin.DeleteFailed else UnexpectedError)
      ensures editState == old(editState) && attendanceFilter == old(attendanceFilter) && isSaving == old(isSaving)
      ensures !confirmed || reply != Ok ==> isLoading == old(isLoading)
      ensures confirmed && reply == Ok ==> !isLoading
    {
      if !confirmed {
        return;
      }
      isDeleting := Some(id);
      actionMessage := None;
      var result := RsvpAdmin.DeleteRsvp(db, id, reply);
      isDeleting := None;
      if result.Failure? {
        actionMessage := Some(if result.error != "" then result.error else RsvpAdmin.DeleteFailed);
        return;
      }
      LoadRsvps(db, loadThrew);
      actionMessage := Some(DeletedMessage);
    }
  }
}
