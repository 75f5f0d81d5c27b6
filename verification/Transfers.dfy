/**
 The file-transfer relay: per-account quota, expiry and delete-on-download. Every handler is one
 step; the last part takes the check and the write of a handler apart.

 Rows are kept in insertion order and a deleted row leaves a gap, so a row's position is its
 identifier. Time is in seconds.
 */
module Transfers {
  import opened Basics

  datatype State = Pending | Delivered | Expired

  datatype Row = Row(
    account: nat, sender: nat, recipient: Option<nat>, len: nat, state: State,
    expires: int, deleteOnDownload: bool, permanent: bool)

  type Table = seq<Option<Row>>

  const MAX_CIPHERTEXT: int := 25 * 1024 * 1024
  const MAX_PENDING: int := 250 * 1024 * 1024
  const DAY: int := 86_400

  /** `knownRecipient` says whether the named recipient is a device of the account. */
  datatype Request =
    | Create(
        account: nat, device: nat, recipient: Option<nat>, knownRecipient: bool, size: int, len: nat,
        deleteOnDownload: bool, permanent: bool, ttlDays: Option<int>)
    | List(account: nat)
    | Download(account: nat, device: nat, id: nat)
    | Delete(account: nat, device: nat, id: nat)

  datatype Step = Step(now: int, request: Request)

  datatype Outcome = Created(id: nat) | Done | Served(row: Row) | BadRequest | NotFound | Forbidden

  // -- The handlers ------------------------------------------------------------------------

  /** What a row adds to the account's use at time `now`. */
  function Charge(o: Option<Row>, account: nat, now: int): nat {
    if o.Some? && o.value.account == account && o.value.state != Expired && o.value.expires > now
    then o.value.len else 0
  }

  function Used(t: Table, account: nat, now: int): nat {
    if t == [] then 0 else Used(t[..|t| - 1], account, now) + Charge(t[|t| - 1], account, now)
  }

  function Days(q: Request): int
    requires q.Create?
  {
    if q.permanent then 36_500
    else if q.ttlDays.None? then 1
    else Max(1, Min(q.ttlDays.value, 365))
  }

  function NewRow(q: Request, now: int): Row
    requires q.Create?
  {
    Row(q.account, q.device, q.recipient, q.len, Pending, now + Days(q) * DAY, q.deleteOnDownload, q.permanent)
  }

  predicate WellFormed(q: Request)
    requires q.Create?
  {
    0 < q.len <= MAX_CIPHERTEXT && q.size >= 0 && (q.recipient.Some? ==> q.knownRecipient)
  }

  predicate Overdue(r: Row, now: int) {
    !r.permanent && r.expires < now
  }

  predicate MayHandle(r: Row, device: nat) {
    r.sender == device || r.recipient.None? || r.recipient == Some(device)
  }

  predicate Visible(t: Table, id: nat, account: nat) {
    id < |t| && t[id].Some? && t[id].value.account == account && t[id].value.state != Expired
  }

  function ExpireOverdue(t: Table, account: nat, now: int): (r: Table)
    ensures |r| == |t|
  {
    seq(|t|, i requires 0 <= i < |t| =>
      if Visible(t, i, account) && Overdue(t[i].value, now) then Some(t[i].value.(state := Expired)) else t[i])
  }

  function Handle(t: Table, s: Step): (Table, Outcome) {
    match s.request
    case Create(account, _, _, _, _, len, _, _, _) =>
      if !WellFormed(s.request) || Used(t, account, s.now) + len > MAX_PENDING then (t, BadRequest)
      else (t + [Some(NewRow(s.request, s.now))], Created(|t|))
    case List(account) => (ExpireOverdue(t, account, s.now), Done)
    case Download(account, device, id) =>
      if !Visible(t, id, account) then (t, NotFound)
      else
        var r := t[id].value;
        if Overdue(r, s.now) then (t[id := Some(r.(state := Expired))], NotFound)
        else if !MayHandle(r, device) then (t, Forbidden)
        else if r.sender == device then (t, Served(r))
        else if r.deleteOnDownload then (t[id := None], Served(r))
        else (t[id := Some(r.(state := Delivered))], Served(r))
    case Delete(account, device, id) =>
      if id < |t| && t[id].Some? && t[id].value.account == account && MayHandle(t[id].value, device)
      then (t[id := None], Done) else (t, NotFound)
  }

  function After(t: Table, s: Step): Table {
    Handle(t, s).0
  }

  function End(t: Table, run: seq<Step>): Table {
    if run == [] then t else After(End(t, run[..|run| - 1]), run[|run| - 1])
  }

  predicate Monotone(run: seq<Step>) {
    forall i, j :: 0 <= i < j < |run| ==> run[i].now <= run[j].now
  }

  // -- Who may do what -----------------------------------------------------------------------

  /** The device sent the file, or the file is addressed to it or to every device of the account. */
  ghost predicate Party(t: Table, id: nat, account: nat, device: nat) {
    id < |t| && t[id].Some? &&
    var r := t[id].value;
    r.account == account && (device == r.sender || (match r.recipient case None => true case Some(d) => d == device))
  }

  /** A file is deleted for a party of it and for nobody else; nothing else changes. */
  lemma DeleteIff(t: Table, s: Step)
    requires s.request.Delete?
    ensures
      var q := s.request;
      && (Handle(t, s).1 == Done <==> Party(t, q.id, q.account, q.device))
      && After(t, s) == if Party(t, q.id, q.account, q.device) then t[q.id := None] else t
  {
  }

  /** A file is handed out to a party of it, while it is neither expired nor, unless permanent, past its
      term, and to nobody else. A device of the account that is no party is told so, anybody else that
      there is no such file. */
  lemma DownloadIff(t: Table, s: Step)
    requires s.request.Download?
    ensures
      var q := s.request;
      var here := q.id < |t| && t[q.id].Some? && t[q.id].value.account == q.account && t[q.id].value.state != Expired
        && (t[q.id].value.permanent || s.now <= t[q.id].value.expires);
      && (Handle(t, s).1.Served? <==> here && Party(t, q.id, q.account, q.device))
      && (Handle(t, s).1.Served? ==> Handle(t, s).1 == Served(t[q.id].value))
      && (Handle(t, s).1 == Forbidden <==> here && !Party(t, q.id, q.account, q.device))
      && (Handle(t, s).1 == NotFound <==> !here)
  {
  }

  /** What a download leaves behind: the sender's own changes nothing; another party's removes a
      delete-on-download file and marks any other delivered; one that comes too late marks it expired. No
      other row changes. */
  lemma DownloadLeaves(t: Table, s: Step, i: nat)
    requires s.request.Download? && i < |t|
    ensures
      var q, u := s.request, After(t, s);
      && |u| == |t|
      && (i != q.id ==> u[i] == t[i])
      && (i == q.id && Handle(t, s).1.Served? ==>
        var r := t[i].value;
        u[i] == if r.sender == q.device then t[i] else if r.deleteOnDownload then None else Some(r.(state := Delivered)))
      && (i == q.id && !Handle(t, s).1.Served? ==>
        u[i] == t[i] || (t[i].Some? && u[i] == Some(t[i].value.(state := Expired)) && t[i].value.expires < s.now))
  {
  }

  /** An upload is accepted exactly when the file has between one byte and 25 MiB, its size is not negative,
      a named recipient is known, and it fits into what the account has left of 250 MiB. The row is what
      was asked for, with a term of 36500 days if permanent, and otherwise of the days asked for, at least
      one and at most 365, one if none were. */
  lemma CreateIff(t: Table, s: Step)
    requires s.request.Create?
    ensures
      var q := s.request;
      && (Handle(t, s).1.Created? <==>
        && 1 <= q.len <= 26_214_400 && q.size >= 0 && (q.recipient.None? || q.knownRecipient)
        && Used(t, q.account, s.now) + q.len <= 262_144_000)
      && (Handle(t, s).1.Created? ==>
        && Handle(t, s).1 == Created(|t|) && |After(t, s)| == |t| + 1 && After(t, s)[..|t|] == t
        && After(t, s)[|t|].Some?
        && var r := After(t, s)[|t|].value;
           && r.account == q.account && r.sender == q.device && r.recipient == q.recipient && r.len == q.len
           && r.state == Pending && r.deleteOnDownload == q.deleteOnDownload && r.permanent == q.permanent
           && (q.permanent ==> r.expires == s.now + 36_500 * 86_400)
           && (!q.permanent && q.ttlDays.None? ==> r.expires == s.now + 86_400)
           && (!q.permanent && q.ttlDays.Some? && 1 <= q.ttlDays.value <= 365 ==>
             r.expires == s.now + q.ttlDays.value * 86_400)
           && (!q.permanent && q.ttlDays.Some? && q.ttlDays.value < 1 ==> r.expires == s.now + 86_400)
           && (!q.permanent && q.ttlDays.Some? && q.ttlDays.value > 365 ==> r.expires == s.now + 365 * 86_400))
      && (!Handle(t, s).1.Created? ==> Handle(t, s) == (t, BadRequest))
  {
  }

  /** Listing marks exactly the account's files that are past their term and not permanent. */
  lemma ListMarks(t: Table, s: Step, i: nat)
    requires s.request.List? && i < |t|
    ensures
      && |After(t, s)| == |t|
      && (if t[i].Some? && t[i].value.account == s.request.account && !t[i].value.permanent && t[i].value.expires < s.now
          then After(t, s)[i] == Some(t[i].value.(state := Expired))
          else After(t, s)[i] == t[i])
  {
    if t[i].Some? && t[i].value.state == Expired {
      assert t[i].value.(state := Expired) == t[i].value;
    }
  }

  /** No request of one account changes what another has used. */
  lemma OtherAccountsApart(t: Table, s: Step, account: nat, now: int)
    requires s.request.account != account
    ensures Used(After(t, s), account, now) == Used(t, account, now)
  {
    var u := After(t, s);
    if Handle(t, s).1.Created? {
      assert u[..|t|] == t;
    } else {
      forall i | 0 <= i < |t| ensures Charge(u[i], account, now) == Charge(t[i], account, now) {
      }
      UsedLe(t, u, account, now, now);
      UsedLe(u, t, account, now, now);
    }
  }

  // -- The quota -----------------------------------------------------------------------------

  lemma {:induction false} UsedLe(t: Table, u: Table, account: nat, early: int, late: int)
    requires |t| == |u|
    requires forall i :: 0 <= i < |t| ==> Charge(t[i], account, late) <= Charge(u[i], account, early)
    ensures Used(t, account, late) <= Used(u, account, early)
  {
    if t != [] {
      UsedLe(t[..|t| - 1], u[..|u| - 1], account, early, late);
    }
  }

  /** Every request but an accepted upload leaves each row's charge or lowers it, and time only
      lowers it. */
  lemma StepCharges(t: Table, s: Step, account: nat, later: int)
    requires s.now <= later
    ensures
      var u := After(t, s);
      if Handle(t, s).1.Created? then
        Used(u, account, later) <= Used(t, account, s.now) + (if s.request.account == account then s.request.len else 0)
      else Used(u, account, later) <= Used(t, account, s.now)
  {
    var u := After(t, s);
    if Handle(t, s).1.Created? {
      assert u[..|u| - 1] == t;
      UsedLe(t, t, account, s.now, later);
    } else {
      UsedLe(u, t, account, s.now, later);
    }
  }

  /** In every reachable state and at every later time the bytes of an account's unexpired transfers
      stay within the quota. */
  lemma {:induction false} QuotaHolds(run: seq<Step>, account: nat, now: int)
    requires Monotone(run) && (run != [] ==> run[|run| - 1].now <= now)
    ensures Used(End([], run), account, now) <= MAX_PENDING
  {
    if run != [] {
      var front, s := run[..|run| - 1], run[|run| - 1];
      QuotaHolds(front, account, s.now);
      StepCharges(End([], front), s, account, now);
    }
  }

  /** Every stored file is non-empty and at most 25 MiB. */
  lemma {:induction false} FilesBounded(run: seq<Step>, i: nat)
    requires i < |End([], run)| && End([], run)[i].Some?
    ensures 0 < End([], run)[i].value.len <= MAX_CIPHERTEXT
  {
    var front, s := run[..|run| - 1], run[|run| - 1];
    var t := End([], front);
    if i < |t| {
      assert t[i].Some?;
      FilesBounded(front, i);
    }
  }

  // -- What is gone stays gone ------------------------------------------------------------------

  /** The row was deleted or marked expired. */
  predicate Gone(t: Table, id: nat) {
    id < |t| && (t[id].None? || t[id].value.state == Expired)
  }

  lemma {:induction false} GoneForever(t: Table, run: seq<Step>, id: nat)
    requires Gone(t, id)
    ensures Gone(End(t, run), id)
  {
    if run != [] {
      GoneForever(t, run[..|run| - 1], id);
    }
  }

  /** Expired is terminal: the row is never handed out again, to anyone. */
  lemma ExpiredIsTerminal(t: Table, run: seq<Step>, s: Step)
    requires s.request.Download? && Gone(t, s.request.id)
    ensures Handle(End(t, run), s).1 == NotFound && Gone(After(End(t, run), s), s.request.id)
  {
    GoneForever(t, run, s.request.id);
  }

  /** What a row promises never changes while it exists. */
  lemma {:induction false} TermsFixed(t: Table, run: seq<Step>, id: nat)
    requires id < |t| && t[id].Some?
    ensures
      var u := End(t, run);
      && id < |u|
      && (u[id].Some? ==> u[id].value.(state := Pending) == t[id].value.(state := Pending))
  {
    if run != [] {
      TermsFixed(t, run[..|run| - 1], id);
    }
  }

  /** A file with a term is never handed out after it, whether or not anything marked it. */
  lemma NeverServedLate(t: Table, run: seq<Step>, s: Step)
    requires s.request.Download? && s.request.id < |t| && t[s.request.id].Some?
    requires Overdue(t[s.request.id].value, s.now)
    ensures Handle(End(t, run), s).1 == NotFound
  {
    TermsFixed(t, run, s.request.id);
  }

  /** A delete-on-download file is handed to at most one device that did not send it; after that
      download nobody gets it. */
  lemma HandedOutOnce(t: Table, first: Step, between: seq<Step>, second: Step)
    requires first.request.Download? && second.request.Download? && first.request.id == second.request.id
    requires Handle(t, first).1.Served?
    requires Handle(t, first).1.row.deleteOnDownload && Handle(t, first).1.row.sender != first.request.device
    ensures Handle(End(After(t, first), between), second).1 == NotFound
  {
    GoneForever(After(t, first), between, first.request.id);
  }

  // -- What the quota does not bound ------------------------------------------------------------

  function Stored(t: Table, account: nat): nat {
    if t == [] then 0
    else
      var o := t[|t| - 1];
      Stored(t[..|t| - 1], account) + if o.Some? && o.value.account == account then o.value.len else 0
  }

  function Upload(account: nat, k: nat): Step {
    Step(2 * k * DAY, Create(account, 0, None, true, 0, MAX_CIPHERTEXT, false, false, None))
  }

  function Uploads(account: nat, k: nat): (run: seq<Step>)
    ensures |run| == k
  {
    if k == 0 then [] else Uploads(account, k - 1) + [Upload(account, k - 1)]
  }

  function Uploaded(account: nat, i: nat): Option<Row> {
    Some(Row(account, 0, None, MAX_CIPHERTEXT, Pending, 2 * i * DAY + DAY, false, false))
  }

  ghost predicate AllUploaded(t: Table, account: nat) {
    forall i :: 0 <= i < |t| ==> t[i] == Uploaded(account, i)
  }

  lemma {:induction false} NothingCounted(t: Table, account: nat, now: int)
    requires AllUploaded(t, account) && now >= 2 * |t| * DAY
    ensures Used(t, account, now) == 0
  {
    if t != [] {
      NothingCounted(t[..|t| - 1], account, now);
    }
  }

  lemma UploadAccepted(t: Table, account: nat)
    requires AllUploaded(t, account)
    ensures After(t, Upload(account, |t|)) == t + [Uploaded(account, |t|)]
    ensures AllUploaded(After(t, Upload(account, |t|)), account)
  {
    NothingCounted(t, account, 2 * |t| * DAY);
  }

  lemma EndMore(t: Table, run: seq<Step>, s: Step)
    ensures End(t, run + [s]) == After(End(t, run), s)
  {
    assert (run + [s])[..|run|] == run;
  }

  lemma {:induction false} UploadsEnd(account: nat, k: nat) returns (t: Table)
    ensures t == End([], Uploads(account, k)) && |t| == k && AllUploaded(t, account)
  {
    if k == 0 {
      t := [];
    } else {
      var front := UploadsEnd(account, k - 1);
      t := After(front, Upload(account, k - 1));
      EndMore([], Uploads(account, k - 1), Upload(account, k - 1));
      UploadAccepted(front, account);
    }
  }

  lemma {:induction false} StoredUploads(t: Table, account: nat)
    requires AllUploaded(t, account)
    ensures Stored(t, account) == |t| * MAX_CIPHERTEXT
  {
    if t != [] {
      StoredUploads(t[..|t| - 1], account);
    }
  }

  /** Nothing removes an expired file's ciphertext: one upload every two days, each with the default
      term of one day, is always accepted, and after `k` of them all `k` files are still stored. */
  lemma StoredBytesUnbounded(account: nat, k: nat)
    ensures Stored(End([], Uploads(account, k)), account) == k * MAX_CIPHERTEXT
  {
    var t := UploadsEnd(account, k);
    StoredUploads(t, account);
  }

  // -- Check and write apart ----------------------------------------------------------------------

  /** The insert of an upload whose check ran on an earlier table. */
  function InsertLate(t: Table, s: Step): Table
    requires s.request.Create?
  {
    t + [Some(NewRow(s.request, s.now))]
  }

  lemma InsertUses(t: Table, s: Step)
    requires s.request.Create?
    ensures Used(InsertLate(t, s), s.request.account, s.now) == Used(t, s.request.account, s.now) + s.request.len
  {
    assert InsertLate(t, s)[..|t|] == t;
    assert Days(s.request) >= 1;
  }

  /** Two uploads that are both checked before either is inserted overrun the quota exactly when
      together they do not fit. */
  lemma RacingUploads(t: Table, a: Step, b: Step)
    requires a.request.Create? && b.request.Create? && a.now == b.now && a.request.account == b.request.account
    ensures Used(InsertLate(InsertLate(t, a), b), a.request.account, a.now) <= MAX_PENDING <==>
      Used(t, a.request.account, a.now) + a.request.len + b.request.len <= MAX_PENDING
  {
    InsertUses(t, a);
    InsertUses(InsertLate(t, a), b);
  }

  /** Taken one after the other, the second of two uploads that do not fit together is refused. */
  lemma SecondUploadRefused(t: Table, a: Step, b: Step)
    requires a.request.Create? && b.request.Create? && a.now == b.now && a.request.account == b.request.account
    requires Handle(t, a).1.Created?
    requires Used(t, a.request.account, a.now) + a.request.len + b.request.len > MAX_PENDING
    ensures Handle(After(t, a), b) == (After(t, a), BadRequest)
  {
    InsertUses(t, a);
  }

  /** A download's SELECT. */
  function Select(t: Table, s: Step): Option<Row>
    requires s.request.Download?
  {
    if Visible(t, s.request.id, s.request.account) then t[s.request.id] else None
  }

  /** What the handler answers to the row it read. */
  function Answer(read: Option<Row>, s: Step): Outcome
    requires s.request.Download?
  {
    if read.None? || Overdue(read.value, s.now) then NotFound
    else if !MayHandle(read.value, s.request.device) then Forbidden
    else Served(read.value)
  }

  lemma AnswerIsHandle(t: Table, s: Step)
    requires s.request.Download?
    ensures Handle(t, s).1 == Answer(Select(t, s), s)
  {
  }

  /** A download's DELETE, run on whatever table it finds. */
  function DeleteLate(t: Table, id: nat): Table {
    if id < |t| then t[id := None] else t
  }

  /** Two downloads of a delete-on-download file by devices that did not send it, with any other requests
      handled between the first one's SELECT and its DELETE: a second SELECT in between is served as well
      if and only if none of those requests took the file away; one after the DELETE never is. */
  lemma RacingDownloads(t: Table, first: Step, between: seq<Step>, second: Step)
    requires first.request.Download? && second.request.Download?
    requires first.request.id == second.request.id && first.request.account == second.request.account
    requires Answer(Select(t, first), first).Served? && Answer(Select(t, second), second).Served?
    ensures
      var u, id := End(t, between), first.request.id;
      && (Answer(Select(u, second), second).Served? <==> !Gone(u, id))
      && Answer(Select(DeleteLate(u, id), second), second) == NotFound
  {
    TermsFixed(t, between, first.request.id);
  }

  // -- The handlers as they change the table --------------------------------------------------------

  class TransferStore {
    var rows: Table

    constructor ()
      ensures rows == []
    {
      rows := [];
    }

    method TransferCreate(q: Request, now: int) returns (r: Outcome)
      requires q.Create?
      modifies this
      ensures (rows, r) == Handle(old(rows), Step(now, q))
    {
      if q.len == 0 || q.len > MAX_CIPHERTEXT {
        return BadRequest;
      }
      if q.size < 0 {
        return BadRequest;
      }
      if q.recipient.Some? && !q.knownRecipient {
        return BadRequest;
      }
      var used := Used(rows, q.account, now);
      if used + q.len > MAX_PENDING {
        return BadRequest;
      }
      r := Created(|rows|);
      rows := rows + [Some(NewRow(q, now))];
    }

    /** Listing first marks what is overdue; a permanent file never is. Newest first: rows are in the order
        of their creation. */
    method TransferList(account: nat, device: nat, now: int) returns (ids: seq<nat>)
      modifies this
      ensures rows == After(old(rows), Step(now, List(account)))
      ensures forall id: nat :: id in ids <==> Visible(rows, id, account) && MayHandle(rows[id].value, device)
      ensures forall id: nat :: id in ids ==> Visible(rows, id, account) && !Overdue(rows[id].value, now)
      ensures forall j, k :: 0 <= j < k < |ids| ==> ids[j] > ids[k]
    {
      rows := ExpireOverdue(rows, account, now);
      ids := [];
      for i := |rows| downto 0
        invariant forall id: nat :: id in ids <==> i <= id && Visible(rows, id, account) && MayHandle(rows[id].value, device)
        invariant forall j :: 0 <= j < |ids| ==> ids[j] >= i
        invariant forall j, k :: 0 <= j < k < |ids| ==> ids[j] > ids[k]
      {
        if Visible(rows, i, account) && MayHandle(rows[i].value, device) {
          ids := ids + [i];
        }
      }
    }

    method TransferDownload(account: nat, device: nat, id: nat, now: int) returns (r: Outcome)
      modifies this
      ensures (rows, r) == Handle(old(rows), Step(now, Download(account, device, id)))
    {
      if !Visible(rows, id, account) {
        return NotFound;
      }
      var row := rows[id].value;
      if !row.permanent && row.expires < now {
        rows := rows[id := Some(row.(state := Expired))];
        return NotFound;
      }
      var allowed := row.sender == device || row.recipient.None? || row.recipient == Some(device);
      if !allowed {
        return Forbidden;
      }
      if row.sender != device {
        if row.deleteOnDownload {
          rows := rows[id := None];
        } else if row.state == Pending {
          rows := rows[id := Some(row.(state := Delivered))];
        } else {
          assert rows == rows[id := Some(row.(state := Delivered))];
        }
      }
      r := Served(row);
    }

    method TransferDelete(account: nat, device: nat, id: nat, now: int) returns (r: Outcome)
      modifies this
      ensures (rows, r) == Handle(old(rows), Step(now, Delete(account, device, id)))
      ensures r == Done ==> Gone(rows, id)
    {
      if id < |rows| && rows[id].Some? && rows[id].value.account == account && MayHandle(rows[id].value, device) {
        rows := rows[id := None];
        return Done;
      }
      return NotFound;
    }
  }
}
