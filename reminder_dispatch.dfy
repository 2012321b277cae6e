/** `POST /api/reminders/send`: the bulk reminder run. After the admin
    cookie, the mail configuration and the fetch of pending RSVPs, a loop
    goes through the pending rows once each, in order: it composes the
    email, hands it to the mail provider, counts a delivery as sent (and
    marks the row) or records the address as failed, and goes on. The
    provider and the store are oracles; `attempts[i]` says how the store
    answers the guest lookup for the `i`-th pending row and how the provider
    and the marking update answer its send. */
module ReminderDispatch {
  import opened Text
  import opened Records
  import opened ReminderEmail

  const Unauthorized := "Unauthorized"
  const NotConfigured := "Email service is not configured. Set RESEND_API_KEY and RESEND_FROM_EMAIL."
  const FetchFailed := "Failed to fetch RSVPs."
  const NothingPending := "No pending reminders to send."

  /** Only the cookie value `true` authenticates. */
  predicate IsAdminAuthenticated(cookie: Option<string>) {
    cookie == Some("true")
  }

  /** Authenticated, and both the API key and the sender address set. */
  predicate Ready(cookie: Option<string>, apiKey: Option<string>, fromEmail: Option<string>) {
    IsAdminAuthenticated(cookie) && Present(apiKey) && Present(fromEmail)
  }

  /** A row the run picks up: attending and not reminded yet. */
  predicate Pending(r: Rsvp) {
    r.attending && !r.reminder_sent
  }

  /** The pending rows, in table order. */
  function Candidates(rows: seq<Rsvp>): (c: seq<Rsvp>)
    ensures |c| <= |rows|
    ensures forall x :: x in c <==> x in rows && Pending(x)
  {
    if rows == [] then []
    else (if Pending(rows[0]) then [rows[0]] else []) + Candidates(rows[1..])
  }

  /** The label the route builds for the subject line. */
  function SubjectLabel(daysAway: int): string {
    if daysAway == 1 then "just 1 day away"
    else if daysAway == 0 then "today"
    else IntToString(daysAway) + " days away"
  }

  /** The subject line and the email heading carry the same label. */
  lemma SubjectLabelIsDaysLabel(daysAway: int)
    ensures SubjectLabel(daysAway) == DaysLabel(daysAway)
  {
  }

  function Subject(daysAway: int): string {
    "Our wedding is " + SubjectLabel(daysAway) + "! \U{1F48C}"
  }

  /** An email as handed to the provider: sender, recipient, and the props
      the template is rendered from. */
  datatype Message = Message(from: string, to: string, daysAway: int, firstName: string,
                             attendanceType: string, isInc: bool)
  {
    function SubjectLine(): string {
      Subject(daysAway)
    }

    /** The sections the rendered template shows. */
    function Layout(): Sections {
      EmailSections(attendanceType, isInc)
    }
  }

  /** How a send ends: the provider accepts it (and the marking update then
      answers `mark`), the provider answers with an error, or rendering or
      sending throws. */
  datatype SendOutcome = Delivered(mark: Reply) | Refused | SendThrew

  datatype Attempt = Attempt(guestLookup: Reply, send: SendOutcome)

  /** What stays the same through the loop. */
  datatype Env = Env(guests: seq<Guest>, from: string, daysAway: int, now: string, attempts: seq<Attempt>)

  /** The state the loop carries: the table, the sent counter, the failed
      addresses and the emails composed so far. */
  datatype Tally = Tally(rows: seq<Rsvp>, sent: nat, failed: seq<string>, outbox: seq<Message>)

  /** A row after the marking update. */
  function Marked(r: Rsvp, now: string): Rsvp {
    r.(reminder_sent := true, reminder_sent_at := Some(now))
  }

  /** `.update({ reminder_sent: true, reminder_sent_at }).eq('id', id)`. */
  function MarkSent(rows: seq<Rsvp>, id: Id, now: string): (r: seq<Rsvp>)
    ensures |r| == |rows|
    ensures forall j :: 0 <= j < |rows| ==> r[j] == if rows[j].id == id then Marked(rows[j], now) else rows[j]
  {
    seq(|rows|, j requires 0 <= j < |rows| => if rows[j].id == id then Marked(rows[j], now) else rows[j])
  }

  /** The email for one pending row; the INC flag comes from the guest
      lookup by name and is false when that lookup fails. */
  function Compose(c: Rsvp, env: Env, a: Attempt): Message {
    var isInc := GuestIsInc(env.guests, c.first_name, c.last_name, a.guestLookup);
    Message(env.from, c.email, env.daysAway, c.first_name, c.attendance_type, isInc)
  }

  /** One pass of the loop body. A delivery counts as sent whether or not
      the marking update reports an error (that error is not inspected); a
      refused or thrown send, or a thrown marking update, records the
      address as failed. */
  function Step(t: Tally, c: Rsvp, env: Env, a: Attempt): Tally {
    var composed := t.(outbox := t.outbox + [Compose(c, env, a)]);
    match a.send
    case Delivered(Ok) => composed.(rows := MarkSent(t.rows, c.id, env.now), sent := t.sent + 1)
    case Delivered(Failed) => composed.(sent := t.sent + 1)
    case _ => composed.(failed := t.failed + [c.email])
  }

  /** A send counts as successful when the provider accepted it and the
      marking update did not throw. */
  predicate Succeeded(a: Attempt) {
    a.send.Delivered? && a.send.mark != Threw
  }

  /** The effect of one pass, field by field: the email is always composed;
      the row is marked only after a delivery whose update succeeded; the
      address is counted as sent or as failed, never both. */
  lemma StepEffect(t: Tally, c: Rsvp, env: Env, a: Attempt)
    ensures Step(t, c, env, a).outbox == t.outbox + [Compose(c, env, a)]
    ensures Step(t, c, env, a).rows == if a.send == Delivered(Ok) then MarkSent(t.rows, c.id, env.now) else t.rows
    ensures Step(t, c, env, a).sent == if Succeeded(a) then t.sent + 1 else t.sent
    ensures Step(t, c, env, a).failed == if Succeeded(a) then t.failed else t.failed + [c.email]
  {
  }

  /** The state after the first `n` pending rows. */
  function Run(rows: seq<Rsvp>, cands: seq<Rsvp>, env: Env, n: nat): Tally
    requires n <= |cands| <= |env.attempts|
  {
    if n == 0 then Tally(rows, 0, [], [])
    else Step(Run(rows, cands, env, n - 1), cands[n - 1], env, env.attempts[n - 1])
  }

  /** The first pending row whose guest lookup throws; the exception is not
      caught, so the run ends there. `|cands|` when none throws. */
  function FirstThrow(cands: seq<Rsvp>, attempts: seq<Attempt>, from: nat): (k: nat)
    requires from <= |cands| <= |attempts|
    requires forall i :: 0 <= i < from ==> attempts[i].guestLookup != Threw
    ensures from <= k <= |cands|
    ensures forall i :: 0 <= i < k ==> attempts[i].guestLookup != Threw
    ensures k < |cands| ==> attempts[k].guestLookup == Threw
    decreases |cands| - from
  {
    if from == |cands| || attempts[from].guestLookup == Threw then from
    else FirstThrow(cands, attempts, from + 1)
  }

  /** The run ends at `i` when no earlier lookup threw and `i` is the end or
      a lookup that throws. */
  lemma FirstThrowAt(cands: seq<Rsvp>, attempts: seq<Attempt>, i: nat)
    requires i <= |cands| <= |attempts|
    requires forall k :: 0 <= k < i ==> attempts[k].guestLookup != Threw
    requires i < |cands| ==> attempts[i].guestLookup == Threw
    ensures FirstThrow(cands, attempts, 0) == i
  {
  }

  /** `Sent n reminder[s].` and, when some failed, ` k failed.`. */
  function Summary(sent: nat, failed: nat): string {
    "Sent " + NatToString(sent) + " " + AfterCount(sent, failed)
  }

  /** One sent, nothing failed: the singular, and no failed note. */
  lemma SummaryOneSent()
    ensures Summary(1, 0) == "Sent 1 reminder."
  {
    assert NatToString(1) == "1";
  }

  /** Nothing sent: the plural. */
  lemma SummaryNoneSent()
    ensures Summary(0, 0) == "Sent 0 reminders."
  {
    assert NatToString(0) == "0";
  }

  /** Some failed: the failed note follows the plural. */
  lemma SummarySomeFailed()
    ensures FailedNote(2) == " 2 failed."
    ensures Summary(3, 2) == "Sent 3 reminders." + FailedNote(2)
  {
    assert NatToString(2) == "2" && NatToString(3) == "3";
  }

  function FailedNote(failed: nat): string {
    if failed > 0 then " " + NatToString(failed) + " failed." else ""
  }

  /** The text after the sent count. */
  function AfterCount(sent: nat, failed: nat): string {
    "reminder" + (if sent != 1 then "s" else "") + "." + FailedNote(failed)
  }

  /** For every pair of counts, the word after the sent count is `reminder`,
      with an `s` unless exactly one was sent, and a failed note follows
      exactly when some failed. */
  lemma AfterCountWording(sent: nat, failed: nat)
    ensures AfterCount(sent, failed)[..8] == "reminder"
    ensures AfterCount(sent, failed)[8] == (if sent == 1 then '.' else 's')
    ensures failed == 0 <==> |AfterCount(sent, failed)| == (if sent == 1 then 9 else 10)
  {
  }

  /** Digits hold no space. */
  lemma NoSpaceInDigits(n: nat)
    ensures ' ' !in NatToString(n)
  {
    var d := NatToString(n);
    forall k | 0 <= k < |d| ensures d[k] != ' ' {
      assert IsDigit(d[k]);
    }
  }

  /** The message is `Sent `, the count, a space, and the rest. */
  lemma SummaryShape(sent: nat, failed: nat)
    ensures Summary(sent, failed)[5..] == NatToString(sent) + [' '] + AfterCount(sent, failed)
  {
    var n, rest := NatToString(sent), AfterCount(sent, failed);
    assert Summary(sent, failed) == "Sent " + (n + [' '] + rest);
  }

  lemma FailedNoteInjective(a: nat, b: nat)
    requires FailedNote(a) == FailedNote(b)
    ensures a == b
  {
    if a > 0 && b > 0 {
      NoSpaceInDigits(a);
      NoSpaceInDigits(b);
      var na, nb := NatToString(a), NatToString(b);
      assert FailedNote(a)[1..] == na + [' '] + "failed.";
      assert FailedNote(b)[1..] == nb + [' '] + "failed.";
      SplitAtSeparator(na, "failed.", nb, "failed.", ' ');
      NatToStringInjective(a, b);
    }
  }

  lemma AfterCountInjective(sent: nat, f1: nat, f2: nat)
    requires AfterCount(sent, f1) == AfterCount(sent, f2)
    ensures f1 == f2
  {
    var head := "reminder" + (if sent != 1 then "s" else "") + ".";
    assert FailedNote(f1) == AfterCount(sent, f1)[|head|..];
    assert FailedNote(f2) == AfterCount(sent, f2)[|head|..];
    FailedNoteInjective(f1, f2);
  }

  /** The message reports both counts: different counts never give the same
      text. */
  lemma SummaryInjective(s1: nat, f1: nat, s2: nat, f2: nat)
    requires Summary(s1, f1) == Summary(s2, f2)
    ensures s1 == s2 && f1 == f2
  {
    SummaryShape(s1, f1);
    SummaryShape(s2, f2);
    NoSpaceInDigits(s1);
    NoSpaceInDigits(s2);
    SplitAtSeparator(NatToString(s1), AfterCount(s1, f1), NatToString(s2), AfterCount(s2, f2), ' ');
    NatToStringInjective(s1, s2);
    AfterCountInjective(s1, f1, f2);
  }

  datatype Body =
    | ErrorBody(error: string)
    | NothingToSend(sent: nat, message: string)
    | Report(sent: nat, failed: nat, message: string)
    | Crash  // an exception the handler does not catch

  datatype Response = Response(status: int, body: Body)

  /** The handler. `attempts` holds one oracle entry per pending row. */
  method SendReminders(db: Database, cookie: Option<string>, apiKey: Option<string>, fromEmail: Option<string>,
                       fetch: Reply, daysAway: int, attempts: seq<Attempt>, now: string)
    returns (resp: Response, outbox: seq<Message>)
    requires |attempts| >= |Candidates(db.rsvps)|
    modifies db
    ensures db.guests == old(db.guests)
    ensures !IsAdminAuthenticated(cookie) ==>
              resp == Response(401, ErrorBody(Unauthorized)) && db.rsvps == old(db.rsvps) && outbox == []
    ensures IsAdminAuthenticated(cookie) && !Ready(cookie, apiKey, fromEmail) ==>
              resp == Response(500, ErrorBody(NotConfigured)) && db.rsvps == old(db.rsvps) && outbox == []
    ensures Ready(cookie, apiKey, fromEmail) && fetch == Failed ==>
              resp == Response(500, ErrorBody(FetchFailed)) && db.rsvps == old(db.rsvps) && outbox == []
    ensures Ready(cookie, apiKey, fromEmail) && fetch == Threw ==>
              resp == Response(500, Crash) && db.rsvps == old(db.rsvps) && outbox == []
    ensures Ready(cookie, apiKey, fromEmail) && fetch == Ok && Candidates(old(db.rsvps)) == [] ==>
              resp == Response(200, NothingToSend(0, NothingPending)) && db.rsvps == old(db.rsvps) && outbox == []
    ensures Ready(cookie, apiKey, fromEmail) && fetch == Ok && Candidates(old(db.rsvps)) != [] ==>
              var cands := Candidates(old(db.rsvps));
              var n := FirstThrow(cands, attempts, 0);
              var t := Run(old(db.rsvps), cands, Env(old(db.guests), fromEmail.value, daysAway, now, attempts), n);
              && db.rsvps == t.rows && outbox == t.outbox
              && resp == if n == |cands| then Response(200, Report(t.sent, |t.failed|, Summary(t.sent, |t.failed|)))
                         else Response(500, Crash)
  {
    outbox := [];
    if !IsAdminAuthenticated(cookie) {
      return Response(401, ErrorBody(Unauthorized)), outbox;
    }
    if !Present(apiKey) || !Present(fromEmail) {
      return Response(500, ErrorBody(NotConfigured)), outbox;
    }
    match fetch {
      case Threw =>
        return Response(500, Crash), outbox;
      case Failed =>
        return Response(500, ErrorBody(FetchFailed)), outbox;
      case Ok =>
    }
    var cands := Candidates(db.rsvps);
    if |cands| == 0 {
      return Response(200, NothingToSend(0, NothingPending)), outbox;
    }
    var env := Env(db.guests, fromEmail.value, daysAway, now, attempts);
    var completed, sent, failed;
    completed, sent, failed, outbox := Dispatch(db, cands, env);
    if !completed {
      return Response(500, Crash), outbox;
    }
    resp := Response(200, Report(sent, |failed|, Summary(sent, |failed|)));
  }

  /** The loop over the pending rows. It stops at the first guest lookup
      that throws (`completed` is then false); otherwise it processes every
      row. */
  method Dispatch(db: Database, cands: seq<Rsvp>, env: Env)
    returns (completed: bool, sent: nat, failed: seq<string>, outbox: seq<Message>)
    requires |cands| <= |env.attempts|
    requires env.guests == db.guests
    modifies db
    ensures db.guests == old(db.guests)
    ensures var n := FirstThrow(cands, env.attempts, 0);
            && (completed <==> n == |cands|)
            && Tally(db.rsvps, sent, failed, outbox) == Run(old(db.rsvps), cands, env, n)
  {
    ghost var rows0 := db.rsvps;
    sent, failed, outbox := 0, [], [];
    var i := 0;
    while i < |cands| && env.attempts[i].guestLookup != Threw
      invariant i <= |cands|
      invariant db.guests == env.guests && rows0 == old(db.rsvps)
      invariant forall k :: 0 <= k < i ==> env.attempts[k].guestLookup != Threw
      invariant Tally(db.rsvps, sent, failed, outbox) == Run(rows0, cands, env, i)
    {
      sent, failed, outbox := Deliver(db, rows0, cands, env, i, sent, failed, outbox);
      i := i + 1;
    }
    FirstThrowAt(cands, env.attempts, i);
    completed := i == |cands|;
  }

  /** The pass over pending row `i` once its guest lookup has answered, and
      the `try` block around its send: the email is composed; a delivery
      counts as sent and marks the row when the update succeeds; a refused
      or thrown send, or a thrown update, records the address as failed. */
  method Deliver(db: Database, ghost rows0: seq<Rsvp>, cands: seq<Rsvp>, env: Env, i: nat,
                 sent: nat, failed: seq<string>, outbox: seq<Message>)
    returns (sent': nat, failed': seq<string>, outbox': seq<Message>)
    requires i < |cands| <= |env.attempts|
    requires Tally(db.rsvps, sent, failed, outbox) == Run(rows0, cands, env, i)
    modifies db
    ensures db.guests == old(db.guests)
    ensures Tally(db.rsvps, sent', failed', outbox') == Run(rows0, cands, env, i + 1)
  {
    var c, a := cands[i], env.attempts[i];
    StepEffect(Tally(db.rsvps, sent, failed, outbox), c, env, a);
    outbox' := outbox + [Compose(c, env, a)];
    sent', failed' := sent, failed;
    match a.send {
      case Refused =>
        failed' := failed + [c.email];
      case SendThrew =>
        failed' := failed + [c.email];
      case Delivered(mark) =>
        if mark == Threw {
          failed' := failed + [c.email];
        } else {
          if mark == Ok {
            db.rsvps := MarkSent(db.rsvps, c.id, env.now);
          }
          sent' := sent + 1;
        }
    }
  }

  /** Every processed row is counted once: as sent or as failed. */
  lemma {:induction false} RunCounts(rows: seq<Rsvp>, cands: seq<Rsvp>, env: Env, n: nat)
    requires n <= |cands| <= |env.attempts|
    ensures var t := Run(rows, cands, env, n);
            t.sent + |t.failed| == n && |t.outbox| == n && |t.rows| == |rows|
  {
    if n > 0 {
      RunCounts(rows, cands, env, n - 1);
    }
  }

  /** The sent counter is the number of successful sends among the rows
      processed. */
  function SuccessCount(attempts: seq<Attempt>, n: nat): nat
    requires n <= |attempts|
  {
    if n == 0 then 0 else SuccessCount(attempts, n - 1) + (if Succeeded(attempts[n - 1]) then 1 else 0)
  }

  lemma {:induction false} RunSentCount(rows: seq<Rsvp>, cands: seq<Rsvp>, env: Env, n: nat)
    requires n <= |cands| <= |env.attempts|
    ensures Run(rows, cands, env, n).sent == SuccessCount(env.attempts, n)
  {
    if n > 0 {
      RunSentCount(rows, cands, env, n - 1);
    }
  }

  /** Every failed address belongs to one of the first `n` rows, one whose
      send did not succeed. */
  ghost predicate FailedFromUnsuccessful(failed: seq<string>, cands: seq<Rsvp>, attempts: seq<Attempt>, n: nat)
    requires n <= |cands| <= |attempts|
  {
    forall k :: 0 <= k < |failed| ==>
      exists i :: 0 <= i < n && failed[k] == cands[i].email && !Succeeded(attempts[i])
  }

  /** The failed list names only rows whose send did not succeed. */
  lemma {:induction false} RunFailedAddresses(rows: seq<Rsvp>, cands: seq<Rsvp>, env: Env, n: nat)
    requires n <= |cands| <= |env.attempts|
    ensures FailedFromUnsuccessful(Run(rows, cands, env, n).failed, cands, env.attempts, n)
  {
    if n > 0 {
      var m := n - 1;
      RunFailedAddresses(rows, cands, env, m);
      var t := Run(rows, cands, env, m);
      StepEffect(t, cands[m], env, env.attempts[m]);
      var before := t.failed;
      var after := Run(rows, cands, env, n).failed;
      forall k | 0 <= k < |after|
        ensures exists i :: 0 <= i < n && after[k] == cands[i].email && !Succeeded(env.attempts[i])
      {
        if k < |before| {
          var i :| 0 <= i < m && before[k] == cands[i].email && !Succeeded(env.attempts[i]);
          assert after[k] == cands[i].email;
        } else {
          assert after[k] == cands[m].email;
        }
      }
    }
  }

  /** A row was marked by the run: some processed row with its id was
      delivered and the marking update succeeded. */
  ghost predicate MarkedByRun(r: Rsvp, cands: seq<Rsvp>, attempts: seq<Attempt>, n: nat)
    requires n <= |cands| <= |attempts|
  {
    exists i :: 0 <= i < n && cands[i].id == r.id && attempts[i].send == Delivered(Ok)
  }

  /** The run changes no row except by marking it, and marks only rows
      whose reminder was delivered and recorded. */
  lemma {:induction false} RunOnlyMarksDelivered(rows: seq<Rsvp>, cands: seq<Rsvp>, env: Env, n: nat)
    requires n <= |cands| <= |env.attempts|
    ensures var t := Run(rows, cands, env, n);
            |t.rows| == |rows|
            && forall j :: 0 <= j < |rows| ==>
                 t.rows[j] == rows[j]
                 || (t.rows[j] == Marked(rows[j], env.now) && MarkedByRun(rows[j], cands, env.attempts, n))
  {
    if n > 0 {
      RunOnlyMarksDelivered(rows, cands, env, n - 1);
      var before := Run(rows, cands, env, n - 1);
      var t := Run(rows, cands, env, n);
      forall j | 0 <= j < |rows|
        ensures t.rows[j] == rows[j]
                || (t.rows[j] == Marked(rows[j], env.now) && MarkedByRun(rows[j], cands, env.attempts, n))
      {
        if before.rows[j] != rows[j] {
          var i :| 0 <= i < n - 1 && cands[i].id == rows[j].id && env.attempts[i].send == Delivered(Ok);
          assert MarkedByRun(rows[j], cands, env.attempts, n);
        }
        if env.attempts[n - 1].send == Delivered(Ok) && before.rows[j].id == cands[n - 1].id {
          assert MarkedByRun(rows[j], cands, env.attempts, n);
        }
      }
    }
  }

  /** Every row whose id was delivered and recorded ends up marked. */
  lemma {:induction false} RunMarksDelivered(rows: seq<Rsvp>, cands: seq<Rsvp>, env: Env, n: nat)
    requires n <= |cands| <= |env.attempts|
    ensures var t := Run(rows, cands, env, n);
            |t.rows| == |rows|
            && forall i, j :: (0 <= i < n && 0 <= j < |t.rows| && env.attempts[i].send == Delivered(Ok)
                               && t.rows[j].id == cands[i].id) ==> t.rows[j].reminder_sent
  {
    if n > 0 {
      RunMarksDelivered(rows, cands, env, n - 1);
      RunOnlyMarksDelivered(rows, cands, env, n - 1);
      var before := Run(rows, cands, env, n - 1);
      var t := Run(rows, cands, env, n);
      forall i, j | 0 <= i < n && 0 <= j < |t.rows| && env.attempts[i].send == Delivered(Ok) && t.rows[j].id == cands[i].id
        ensures t.rows[j].reminder_sent
      {
        if i < n - 1 {
          assert before.rows[j].id == t.rows[j].id;
          assert before.rows[j].reminder_sent;
        }
      }
    }
  }

  /** A run never creates pending work: every row pending afterwards was
      pending before, so running again cannot remind anyone twice once
      their row is marked. */
  lemma PendingOnlyShrinks(rows: seq<Rsvp>, cands: seq<Rsvp>, env: Env, n: nat)
    requires n <= |cands| <= |env.attempts|
    ensures forall x :: x in Candidates(Run(rows, cands, env, n).rows) ==> x in Candidates(rows)
  {
    RunOnlyMarksDelivered(rows, cands, env, n);
    var after := Run(rows, cands, env, n).rows;
    forall x | x in Candidates(after) ensures x in Candidates(rows) {
      var j :| 0 <= j < |after| && after[j] == x;
      assert x == rows[j];
    }
  }
}
