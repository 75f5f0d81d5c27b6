/**
 The vault sync protocol: one server holding a versioned blob behind an If-Match
 compare-and-set, any number of devices running the pull, merge, push cycle, and a network that
 may delay, lose or repeat a PUT at will.

 Grain: a server handler is one step. A later part splits `vault_put` at its SQL statements.
 */
module VaultSync {
  import opened Basics
  import opened VaultStore

  type Dev = nat

  /** A sealed document; the version it was sealed for is authenticated with it. */
  datatype Blob = Blob(doc: Vault, version: int)

  function Encode(doc: Vault, version: int): Blob {
    Blob(doc, version)
  }

  function Decode(b: Blob, expected: int): Option<Vault> {
    if b.version == expected then Some(b.doc) else None
  }

  // -- The server ---------------------------------------------------------------

  datatype Server = NoVault | Stored(version: nat, blob: Blob)

  datatype PutReply = Accepted(version: nat) | Conflict(current: nat)

  function VaultPut(s: Server, ifMatch: int, blob: Blob): (Server, PutReply) {
    match s
    case NoVault =>
      if ifMatch != 0 then (s, Conflict(0)) else (Stored(1, blob), Accepted(1))
    case Stored(v, _) =>
      if ifMatch != v then (s, Conflict(v)) else (Stored(v + 1, blob), Accepted(v + 1))
  }

  /** The row as a function of the blobs accepted so far, oldest first. */
  function RowOf(history: seq<Blob>): Server {
    if history == [] then NoVault else Stored(|history|, history[|history| - 1])
  }

  function DocAt(history: seq<Blob>, v: int): Vault
    requires 0 <= v <= |history|
  {
    if v == 0 then EMPTY else history[v - 1].doc
  }

  /** The handler appends to the history exactly when If-Match names its length. */
  lemma PutAppends(history: seq<Blob>, ifMatch: int, blob: Blob)
    ensures VaultPut(RowOf(history), ifMatch, blob) ==
      if ifMatch == |history| then (RowOf(history + [blob]), Accepted(|history| + 1))
      else (RowOf(history), Conflict(|history|))
  {
  }

  // -- Devices, network, steps ------------------------------------------------------

  datatype Put = Put(ifMatch: int, blob: Blob)

  /** Where a device is in `sync_once`; `attempt` counts the rounds of `push_document`. */
  datatype Phase =
    | Idle
    | Pulled(version: nat, response: Option<Blob>)
    | Ready(attempt: nat, current: int)
    | Sent(attempt: nat)
    | Refused(attempt: nat, serverCurrent: int)
    | Refetched(attempt: nat, serverCurrent: int, version: nat, response: Option<Blob>)

  datatype Device = Device(vault: Vault, phase: Phase)

  datatype Sys = Sys(history: seq<Blob>, devices: map<Dev, Device>, sent: set<Put>)

  datatype Step =
    | Edit(d: Dev, id: ItemId, entry: Entry)
    | Fetch(d: Dev, version: nat)
    | Absorb(d: Dev)
    | Send(d: Dev)
    | Deliver(p: Put)
    | Reply(d: Dev, reply: PutReply)
    | Refetch(d: Dev)
    | Reabsorb(d: Dev)
    | Abort(d: Dev)

  const ATTEMPTS: nat := 2

  function ResponseAt(history: seq<Blob>, v: nat): Option<Blob>
    requires v <= |history|
  {
    if v == 0 then None else Some(history[v - 1])
  }

  function Edited(v: Vault, id: ItemId, e: Entry): Vault {
    match e
    case Live(env) => Upserted(v, env)
    case Tomb(t) => Deleted(v, id, t)
    case Absent => v
  }

  predicate Enabled(s: Sys, step: Step) {
    match step
    case Edit(d, id, e) => d in s.devices && !e.Absent? && (e.Live? ==> e.env.id == id)
    // A pull may be answered from any past state of the row.
    case Fetch(d, v) => d in s.devices && s.devices[d].phase.Idle? && v <= |s.history|
    case Absorb(d) => d in s.devices && s.devices[d].phase.Pulled?
    case Send(d) => d in s.devices && s.devices[d].phase.Ready?
    case Deliver(p) => p in s.sent
    case Reply(d, r) => d in s.devices && s.devices[d].phase.Sent? && (r.Conflict? ==> r.current <= |s.history|)
    case Refetch(d) => d in s.devices && s.devices[d].phase.Refused?
    case Reabsorb(d) => d in s.devices && s.devices[d].phase.Refetched?
    case Abort(d) => d in s.devices
  }

  /** Decode, merge, and go on to push against `version`; a blob that does not open ends the cycle. */
  function AbsorbDevice(v: Vault, attempt: nat, version: nat, response: Option<Blob>, ifNone: int): Device {
    match response
    case None => Device(v, Ready(attempt, ifNone))
    case Some(b) =>
      match Decode(b, version)
      case Some(doc) => Device(Joined(v, doc), Ready(attempt, version))
      case None => Device(v, Idle)
  }

  function Apply(s: Sys, step: Step): Sys
    requires Enabled(s, step)
  {
    match step
    case Edit(d, id, e) =>
      s.(devices := s.devices[d := s.devices[d].(vault := Edited(s.devices[d].vault, id, e))])
    case Fetch(d, v) =>
      s.(devices := s.devices[d := s.devices[d].(phase := Pulled(v, ResponseAt(s.history, v)))])
    case Absorb(d) =>
      var dev := s.devices[d];
      s.(devices := s.devices[d := AbsorbDevice(dev.vault, 0, dev.phase.version, dev.phase.response, 0)])
    case Send(d) =>
      var dev := s.devices[d];
      if dev.phase.attempt < ATTEMPTS then
        var put := Put(dev.phase.current, Encode(dev.vault, dev.phase.current + 1));
        s.(devices := s.devices[d := dev.(phase := Sent(dev.phase.attempt))], sent := s.sent + {put})
      else s.(devices := s.devices[d := dev.(phase := Idle)])
    case Deliver(p) =>
      if p.ifMatch == |s.history| then s.(history := s.history + [p.blob]) else s
    case Reply(d, r) =>
      var dev := s.devices[d];
      s.(devices := s.devices[d := dev.(phase :=
        if r.Accepted? then Idle else Refused(dev.phase.attempt, r.current))])
    case Refetch(d) =>
      var dev := s.devices[d];
      s.(devices := s.devices[d := dev.(phase :=
        Refetched(dev.phase.attempt, dev.phase.serverCurrent, |s.history|, ResponseAt(s.history, |s.history|)))])
    case Reabsorb(d) =>
      var dev := s.devices[d];
      s.(devices := s.devices[d :=
        AbsorbDevice(dev.vault, dev.phase.attempt + 1, dev.phase.version, dev.phase.response, dev.phase.serverCurrent)])
    case Abort(d) =>
      s.(devices := s.devices[d := s.devices[d].(phase := Idle)])
  }

  // -- What is claimed -----------------------------------------------------------------

  /** Every live item of `older` is still there in `newer` and no older; when `strict`, still live. */
  ghost predicate Keeps(strict: bool, older: Vault, newer: Vault) {
    forall id :: EntryOf(older, id).Live? ==>
      && AtLeastAsNew(EntryOf(newer, id), EntryOf(older, id))
      && (strict ==> EntryOf(newer, id).Live?)
  }

  /** Between a merge and the snapshot that follows it no edit is stamped below the entry it replaces
      and, when `strict`, none is a deletion. At any other time edits are free. */
  predicate Disciplined(strict: bool, s: Sys, step: Step)
    requires Enabled(s, step)
  {
    step.Edit? && s.devices[step.d].phase.Ready? ==>
      && AtLeastAsNew(step.entry, EntryOf(s.devices[step.d].vault, step.id))
      && (strict ==> step.entry.Live?)
  }

  ghost predicate PhaseOk(strict: bool, h: seq<Blob>, dev: Device) {
    match dev.phase
    case Idle => true
    case Pulled(v, r) => v <= |h| && r == ResponseAt(h, v)
    case Ready(_, c) => 0 <= c <= |h| && Keeps(strict, DocAt(h, c), dev.vault)
    case Sent(_) => true
    case Refused(_, c) => 0 <= c <= |h|
    case Refetched(_, c, v, r) => v <= |h| && r == ResponseAt(h, v) && (r.None? ==> c == 0)
  }

  ghost predicate PutOk(strict: bool, h: seq<Blob>, p: Put) {
    && 0 <= p.ifMatch <= |h|
    && p.blob.version == p.ifMatch + 1
    && WellFormed(p.blob.doc)
    && Keeps(strict, DocAt(h, p.ifMatch), p.blob.doc)
  }

  ghost predicate HistoryOk(strict: bool, h: seq<Blob>) {
    forall i :: 0 <= i < |h| ==>
      && h[i].version == i + 1
      && WellFormed(h[i].doc)
      && Keeps(strict, DocAt(h, i), h[i].doc)
  }

  ghost predicate Inv(strict: bool, s: Sys) {
    && HistoryOk(strict, s.history)
    && (forall p :: p in s.sent ==> PutOk(strict, s.history, p))
    && (forall d :: d in s.devices ==> WellFormed(s.devices[d].vault) && PhaseOk(strict, s.history, s.devices[d]))
  }

  lemma AbsorbOk(strict: bool, h: seq<Blob>, v: Vault, attempt: nat, version: nat, ifNone: int)
    requires HistoryOk(strict, h) && WellFormed(v) && version <= |h| && (version == 0 ==> ifNone == 0)
    ensures var dev := AbsorbDevice(v, attempt, version, ResponseAt(h, version), ifNone);
      WellFormed(dev.vault) && dev.phase == Ready(attempt, version) && PhaseOk(strict, h, dev)
  {
    if version > 0 {
      JoinedEntries(v, h[version - 1].doc);
    }
  }

  lemma EditKeeps(strict: bool, older: Vault, v: Vault, id: ItemId, e: Entry)
    requires WellFormed(v) && Keeps(strict, older, v)
    requires !e.Absent? && (e.Live? ==> e.env.id == id)
    requires AtLeastAsNew(e, EntryOf(v, id)) && (strict ==> e.Live?)
    ensures WellFormed(Edited(v, id, e)) && Keeps(strict, older, Edited(v, id, e))
  {
    forall i | EntryOf(older, i).Live?
      ensures AtLeastAsNew(EntryOf(Edited(v, id, e), i), EntryOf(older, i)) &&
        (strict ==> EntryOf(Edited(v, id, e), i).Live?)
    {
      assert i != id ==> EntryOf(Edited(v, id, e), i) == EntryOf(v, i);
    }
  }

  /** A longer history agrees with the shorter one wherever that reaches. */
  lemma Longer(h: seq<Blob>, b: Blob)
    ensures forall v :: 0 <= v <= |h| ==> DocAt(h + [b], v) == DocAt(h, v)
    ensures forall v: nat :: v <= |h| ==> ResponseAt(h + [b], v) == ResponseAt(h, v)
  {
  }

  lemma PhaseSurvives(strict: bool, h: seq<Blob>, b: Blob, dev: Device)
    requires PhaseOk(strict, h, dev)
    ensures PhaseOk(strict, h + [b], dev)
  {
    Longer(h, b);
  }

  lemma PutSurvives(strict: bool, h: seq<Blob>, b: Blob, p: Put)
    requires PutOk(strict, h, p)
    ensures PutOk(strict, h + [b], p)
  {
    Longer(h, b);
  }

  lemma HistoryExtends(strict: bool, h: seq<Blob>, p: Put)
    requires HistoryOk(strict, h) && PutOk(strict, h, p) && p.ifMatch == |h|
    ensures HistoryOk(strict, h + [p.blob])
  {
    Longer(h, p.blob);
  }

  lemma DeliverKeepsInv(strict: bool, s: Sys, p: Put)
    requires Inv(strict, s) && p in s.sent
    ensures Inv(strict, Apply(s, Deliver(p)))
  {
    if p.ifMatch == |s.history| {
      HistoryExtends(strict, s.history, p);
      forall q | q in s.sent ensures PutOk(strict, s.history + [p.blob], q) {
        PutSurvives(strict, s.history, p.blob, q);
      }
      forall d | d in s.devices ensures PhaseOk(strict, s.history + [p.blob], s.devices[d]) {
        PhaseSurvives(strict, s.history, p.blob, s.devices[d]);
      }
    }
  }

  /** A step that replaces one device and sends at most one request. */
  lemma DeviceStep(strict: bool, s: Sys, d: Dev, dev: Device, sent: set<Put>)
    requires Inv(strict, s) && d in s.devices
    requires WellFormed(dev.vault) && PhaseOk(strict, s.history, dev)
    requires forall p :: p in sent ==> PutOk(strict, s.history, p)
    ensures Inv(strict, s.(devices := s.devices[d := dev], sent := s.sent + sent))
    ensures s.(devices := s.devices[d := dev], sent := s.sent + {}) == s.(devices := s.devices[d := dev])
  {
    assert s.sent + {} == s.sent;
  }

  lemma EditKeepsInv(strict: bool, s: Sys, d: Dev, id: ItemId, e: Entry)
    requires Inv(strict, s) && Enabled(s, Edit(d, id, e)) && Disciplined(strict, s, Edit(d, id, e))
    ensures Inv(strict, Apply(s, Edit(d, id, e)))
  {
    var dev := s.devices[d];
    assert WellFormed(Edited(dev.vault, id, e));
    if dev.phase.Ready? {
      EditKeeps(strict, DocAt(s.history, dev.phase.current), dev.vault, id, e);
    }
    DeviceStep(strict, s, d, dev.(vault := Edited(dev.vault, id, e)), {});
  }

  lemma SendKeepsInv(strict: bool, s: Sys, d: Dev)
    requires Inv(strict, s) && Enabled(s, Send(d))
    ensures Inv(strict, Apply(s, Send(d)))
  {
    var dev := s.devices[d];
    if dev.phase.attempt < ATTEMPTS {
      var put := Put(dev.phase.current, Encode(dev.vault, dev.phase.current + 1));
      DeviceStep(strict, s, d, dev.(phase := Sent(dev.phase.attempt)), {put});
    } else {
      DeviceStep(strict, s, d, dev.(phase := Idle), {});
    }
  }

  lemma AbsorbKeepsInv(strict: bool, s: Sys, d: Dev, step: Step)
    requires Inv(strict, s) && Enabled(s, step) && (step == Absorb(d) || step == Reabsorb(d))
    ensures Inv(strict, Apply(s, step))
  {
    var dev := s.devices[d];
    var attempt, ifNone :=
      if step.Absorb? then 0 else dev.phase.attempt + 1,
      if step.Absorb? then 0 else dev.phase.serverCurrent;
    AbsorbOk(strict, s.history, dev.vault, attempt, dev.phase.version, ifNone);
    DeviceStep(strict, s, d, AbsorbDevice(dev.vault, attempt, dev.phase.version, dev.phase.response, ifNone), {});
  }

  lemma StepKeepsInv(strict: bool, s: Sys, step: Step)
    requires Inv(strict, s) && Enabled(s, step) && Disciplined(strict, s, step)
    ensures Inv(strict, Apply(s, step))
  {
    match step
    case Deliver(p) => DeliverKeepsInv(strict, s, p);
    case Absorb(d) => AbsorbKeepsInv(strict, s, d, step);
    case Reabsorb(d) => AbsorbKeepsInv(strict, s, d, step);
    case Edit(d, id, e) => EditKeepsInv(strict, s, d, id, e);
    case Send(d) => SendKeepsInv(strict, s, d);
    case Fetch(d, _) => DeviceStep(strict, s, d, Apply(s, step).devices[d], {});
    case Reply(d, _) => DeviceStep(strict, s, d, Apply(s, step).devices[d], {});
    case Refetch(d) => DeviceStep(strict, s, d, Apply(s, step).devices[d], {});
    case Abort(d) => DeviceStep(strict, s, d, Apply(s, step).devices[d], {});
  }

  // -- Whole runs ----------------------------------------------------------------------

  /** `states` is a run of `steps`: any interleaving the protocol allows. */
  ghost predicate IsRun(states: seq<Sys>, steps: seq<Step>) {
    && |states| == |steps| + 1
    && forall k :: 0 <= k < |steps| ==> Enabled(states[k], steps[k]) && states[k + 1] == Apply(states[k], steps[k])
  }

  /** A run whose edits between merge and snapshot are disciplined. */
  ghost predicate IsDisciplinedRun(strict: bool, states: seq<Sys>, steps: seq<Step>) {
    IsRun(states, steps) && forall k :: 0 <= k < |steps| ==> Disciplined(strict, states[k], steps[k])
  }

  /** Before anything was ever synced: no row, no messages, every device at rest. */
  ghost predicate Initial(s: Sys) {
    && s.history == [] && s.sent == {}
    && forall d :: d in s.devices ==> s.devices[d].phase == Idle && WellFormed(s.devices[d].vault)
  }

  lemma {:induction false} RunKeepsInv(strict: bool, states: seq<Sys>, steps: seq<Step>, k: nat)
    requires IsDisciplinedRun(strict, states, steps) && Initial(states[0]) && k < |states|
    ensures Inv(strict, states[k])
  {
    if k > 0 {
      RunKeepsInv(strict, states, steps, k - 1);
      StepKeepsInv(strict, states[k - 1], steps[k - 1]);
    }
  }

  /** Blobs, requests and held responses carry the versions they should; nothing is said of contents. */
  ghost predicate VersionsOk(s: Sys) {
    && (forall i :: 0 <= i < |s.history| ==> s.history[i].version == i + 1)
    && (forall p :: p in s.sent ==> p.blob.version == p.ifMatch + 1)
    && (forall d :: d in s.devices ==> HoldsRow(s.history, s.devices[d].phase))
  }

  ghost predicate HoldsRow(h: seq<Blob>, ph: Phase) {
    && (ph.Pulled? || ph.Refetched? ==> ph.version <= |h| && ph.response == ResponseAt(h, ph.version))
    && (ph.Refused? || ph.Refetched? ==> 0 <= ph.serverCurrent <= |h|)
  }

  lemma StepKeepsVersions(s: Sys, step: Step)
    requires VersionsOk(s) && Enabled(s, step)
    ensures VersionsOk(Apply(s, step))
  {
    var g := Apply(s, step).history;
    forall d | d in s.devices && HoldsRow(s.history, s.devices[d].phase) ensures HoldsRow(g, s.devices[d].phase) {
      if step.Deliver? {
        Longer(s.history, step.p.blob);
      }
    }
  }

  lemma {:induction false} RunKeepsVersions(states: seq<Sys>, steps: seq<Step>, k: nat)
    requires IsRun(states, steps) && Initial(states[0]) && k < |states|
    ensures VersionsOk(states[k])
  {
    if k > 0 {
      RunKeepsVersions(states, steps, k - 1);
      StepKeepsVersions(states[k - 1], steps[k - 1]);
    }
  }

  /** Version coherence: at every point of every run, whatever is edited and however it is stamped, the
      stored blob is sealed for the stored version, and every response a device holds decodes. */
  lemma VersionCoherence(states: seq<Sys>, steps: seq<Step>, k: nat)
    requires IsRun(states, steps) && Initial(states[0]) && k < |states|
    ensures var row := RowOf(states[k].history);
      row.Stored? ==> Decode(row.blob, row.version).Some?
    ensures forall d :: d in states[k].devices ==> var ph := states[k].devices[d].phase;
      (ph.Pulled? || ph.Refetched?) && ph.response.Some? ==> Decode(ph.response.value, ph.version).Some?
  {
    RunKeepsVersions(states, steps, k);
    forall d | d in states[k].devices
      ensures var ph := states[k].devices[d].phase;
        (ph.Pulled? || ph.Refetched?) && ph.response.Some? ==> Decode(ph.response.value, ph.version).Some?
    {
      assert HoldsRow(states[k].history, states[k].devices[d].phase);
    }
  }

  /** No lost update: an accepted PUT raises the version by one and keeps every live item of the
      document it replaces at least as new, through the conflict path as well. */
  lemma NoLostUpdate(states: seq<Sys>, steps: seq<Step>, k: nat)
    requires IsDisciplinedRun(false, states, steps) && Initial(states[0]) && k < |steps|
    requires steps[k].Deliver? && VaultPut(RowOf(states[k].history), steps[k].p.ifMatch, steps[k].p.blob).1.Accepted?
    ensures var before, after := states[k].history, states[k + 1].history;
      && after == before + [steps[k].p.blob]
      && RowOf(after) == VaultPut(RowOf(before), steps[k].p.ifMatch, steps[k].p.blob).0
      && Keeps(false, DocAt(before, |before|), DocAt(after, |after|))
  {
    RunKeepsInv(false, states, steps, k);
    PutAppends(states[k].history, steps[k].p.ifMatch, steps[k].p.blob);
  }

  lemma {:induction false} KeepsAcross(h: seq<Blob>, i: nat, j: nat)
    requires HistoryOk(true, h) && i <= j <= |h|
    ensures Keeps(true, DocAt(h, i), DocAt(h, j))
    decreases j - i
  {
    if i < j {
      KeepsAcross(h, i, j - 1);
      assert Keeps(true, DocAt(h, j - 1), h[j - 1].doc);
    }
  }

  lemma {:induction false} HistoryGrows(states: seq<Sys>, steps: seq<Step>, i: nat, j: nat)
    requires IsRun(states, steps) && i <= j < |states|
    ensures states[i].history <= states[j].history
    decreases j - i
  {
    if i < j {
      HistoryGrows(states, steps, i, j - 1);
    }
  }

  /** Deletions do not travel: in a run whose deletions all fall outside the gap between a merge
      and the next snapshot, an item once live on the server is live in every later version. */
  lemma DeletionsNeverPropagate(states: seq<Sys>, steps: seq<Step>, i: nat, j: nat, id: ItemId)
    requires IsDisciplinedRun(true, states, steps) && Initial(states[0]) && i <= j < |states|
    requires EntryOf(DocAt(states[i].history, |states[i].history|), id).Live?
    ensures var was, now := DocAt(states[i].history, |states[i].history|), DocAt(states[j].history, |states[j].history|);
      EntryOf(now, id).Live? && EntryOf(now, id).env.updatedAt >= EntryOf(was, id).env.updatedAt
  {
    var h, h' := states[i].history, states[j].history;
    RunKeepsInv(true, states, steps, j);
    HistoryGrows(states, steps, i, j);
    KeepsAcross(h', |h|, |h'|);
    assert DocAt(h', |h|) == DocAt(h, |h|);
  }

  // -- Where the claims stop --------------------------------------------------------------

  /** A push against the current version without merging first is accepted and forgets every
      item the device has no row for. */
  lemma BlindPushForgets(h: seq<Blob>, v: Vault, id: ItemId)
    requires id in DocAt(h, |h|).items && id !in v.items && id !in v.tombs
    ensures var (row, reply) := VaultPut(RowOf(h), |h|, Encode(v, |h| + 1));
      && reply.Accepted? && Decode(row.blob, row.version) == Some(v)
      && EntryOf(v, id).Absent? && !Keeps(false, DocAt(h, |h|), v)
  {
    assert EntryOf(DocAt(h, |h|), id).Live?;
  }

  /** The tie rule keeps the local copy, so an edit stamped in the same second as the one on the
      server replaces it without being newer. */
  lemma TieReplacesContent(id: ItemId, t: int, mine: string, theirs: string)
    requires mine != theirs
    ensures var (l, r) := (Live(Envelope(id, t, mine)), Live(Envelope(id, t, theirs)));
      AtLeastAsNew(MergeEntry(l, r), r) && MergeEntry(l, r) != r
  {
  }

  // -- The exact condition, with edits between merge and snapshot ----------------------------

  /** A save or deletion of one id. */
  datatype Change = Change(id: ItemId, entry: Entry)

  predicate ValidEdit(e: Change) {
    !e.entry.Absent? && (e.entry.Live? ==> e.entry.env.id == e.id)
  }

  predicate ValidEdits(es: seq<Change>) {
    forall i :: 0 <= i < |es| ==> ValidEdit(es[i])
  }

  function EditAll(v: Vault, es: seq<Change>): Vault {
    if es == [] then v
    else
      var last := es[|es| - 1];
      Edited(EditAll(v, es[..|es| - 1]), last.id, last.entry)
  }

  function LastEdit(es: seq<Change>, id: ItemId): (e: Entry)
    ensures e.Absent? ==> forall i :: 0 <= i < |es| ==> es[i].id != id || es[i].entry.Absent?
    ensures !e.Absent? ==> exists i :: 0 <= i < |es| && es[i] == Change(id, e)
  {
    if es == [] then Absent
    else if es[|es| - 1].id == id && !es[|es| - 1].entry.Absent? then es[|es| - 1].entry
    else LastEdit(es[..|es| - 1], id)
  }

  lemma {:induction false} EditedEntries(v: Vault, es: seq<Change>, id: ItemId)
    requires WellFormed(v) && ValidEdits(es)
    ensures WellFormed(EditAll(v, es))
    ensures EntryOf(EditAll(v, es), id) == if LastEdit(es, id).Absent? then EntryOf(v, id) else LastEdit(es, id)
  {
    if es != [] {
      EditedEntries(v, es[..|es| - 1], id);
      assert ValidEdit(es[|es| - 1]);
    }
  }

  /** The document pushed by a device that held `v`, merged the server's `w` and then made the edits. */
  function Pushed(v: Vault, w: Vault, es: seq<Change>): Vault {
    EditAll(Joined(v, w), es)
  }

  /** The last edit of an id, if there is one, is stamped no lower than the server's entry. */
  predicate EditNotBehind(w: Vault, es: seq<Change>, id: ItemId) {
    AtLeastAsNew(LastEdit(es, id), EntryOf(w, id))
  }

  predicate Untouched(es: seq<Change>, id: ItemId) {
    LastEdit(es, id).Absent?
  }

  /** Whatever was merged and edited: the pushed document keeps the server's live items if and only if
      each of them that was edited since the merge was last stamped no lower than the server's. */
  lemma PushKeepsLiveIff(v: Vault, w: Vault, es: seq<Change>)
    requires WellFormed(v) && WellFormed(w) && ValidEdits(es)
    ensures Keeps(false, w, Pushed(v, w, es)) <==>
      forall id :: id in w.items ==> Untouched(es, id) || EditNotBehind(w, es, id)
  {
    JoinedEntries(v, w);
    forall id | id in w.items
      ensures AtLeastAsNew(EntryOf(Pushed(v, w, es), id), EntryOf(w, id)) <==> Untouched(es, id) || EditNotBehind(w, es, id)
    {
      EditedEntries(Joined(v, w), es, id);
      MergeKeepsRemoteIff(EntryOf(v, id), EntryOf(w, id));
    }
  }

  /** Exactly which deletions travel: an item live on the server is gone from the pushed document if and
      only if the last thing the device did to it between merge and snapshot was to delete it. What the
      device deleted before the merge comes back. */
  lemma DeletionTravelsIff(v: Vault, w: Vault, es: seq<Change>, id: ItemId)
    requires WellFormed(v) && WellFormed(w) && ValidEdits(es) && id in w.items
    ensures id in Pushed(v, w, es).items <==> !LastEdit(es, id).Tomb?
  {
    JoinedEntries(v, w);
    EditedEntries(Joined(v, w), es, id);
    assert EntryOf(w, id).Live? && EntryOf(Joined(v, w), id).Live?;
  }

  /** A tombstone of the server survives the merge: the device has a row for it, or a tombstone of its
      own that is no older. */
  predicate TombMet(v: Vault, w: Vault, id: ItemId)
    requires id in w.tombs
  {
    id in v.items || (id in v.tombs && v.tombs[id] >= w.tombs[id])
  }

  /** Every entry of `older`, live or deleted, is there in `newer` and no older. */
  ghost predicate AllAsNew(older: Vault, newer: Vault) {
    forall id :: AtLeastAsNew(EntryOf(newer, id), EntryOf(older, id))
  }

  /** Item by item, tombstones included: the pushed document is at least as new as the server's if and
      only if every id the server knows is either edited with a stamp no lower, or left alone and, if it
      is a tombstone there, met by a row or a tombstone no older on the device. */
  lemma PushAsNewIff(v: Vault, w: Vault, es: seq<Change>)
    requires WellFormed(v) && WellFormed(w) && ValidEdits(es)
    ensures AllAsNew(w, Pushed(v, w, es)) <==>
      && (forall id :: id in w.items ==> Untouched(es, id) || EditNotBehind(w, es, id))
      && (forall id :: id in w.tombs ==> if Untouched(es, id) then TombMet(v, w, id) else EditNotBehind(w, es, id))
  {
    JoinedEntries(v, w);
    forall id
      ensures id in w.items ==>
        (AtLeastAsNew(EntryOf(Pushed(v, w, es), id), EntryOf(w, id)) <==> Untouched(es, id) || EditNotBehind(w, es, id))
      ensures id in w.tombs ==>
        (AtLeastAsNew(EntryOf(Pushed(v, w, es), id), EntryOf(w, id)) <==>
          if Untouched(es, id) then TombMet(v, w, id) else EditNotBehind(w, es, id))
    {
      EditedEntries(Joined(v, w), es, id);
      MergeKeepsRemoteIff(EntryOf(v, id), EntryOf(w, id));
    }
    forall id | id !in w.items && id !in w.tombs
      ensures AtLeastAsNew(EntryOf(Pushed(v, w, es), id), EntryOf(w, id))
    {
      assert EntryOf(w, id).Absent?;
    }
  }

  /** The merge alone: at least as new as the remote vault if and only if every tombstone is met. */
  lemma JoinAsNewIff(v: Vault, w: Vault)
    requires WellFormed(v) && WellFormed(w)
    ensures AllAsNew(w, Joined(v, w)) <==> forall id :: id in w.tombs ==> TombMet(v, w, id)
  {
    PushAsNewIff(v, w, []);
    assert Pushed(v, w, []) == Joined(v, w);
  }

  // -- The same condition for the requests of the protocol --------------------------------------

  /** A device that has fetched the current row, first or after a conflict, and may still send. */
  predicate HoldsHead(s: Sys, d: Dev) {
    && d in s.devices
    && var ph, n := s.devices[d].phase, |s.history|;
       || ph == Pulled(n, ResponseAt(s.history, n))
       || (ph.Refetched? && ph.version == n && ph.response == ResponseAt(s.history, n) && ph.attempt + 1 < ATTEMPTS)
  }

  /** The device a step belongs to, if any. */
  function Actor(step: Step): Option<Dev> {
    if step.Deliver? then None else Some(step.d)
  }

  /** A step touches only its own device; only a delivery touches the history and only a send the requests;
      a vault changes only by an edit or a merge. */
  lemma StepTouches(s: Sys, step: Step, e: Dev)
    requires Enabled(s, step) && e in s.devices
    ensures
      var t := Apply(s, step);
      && t.devices.Keys == s.devices.Keys
      && (Actor(step) != Some(e) ==> t.devices[e] == s.devices[e])
      && (!step.Deliver? ==> t.history == s.history)
      && (!step.Send? ==> t.sent == s.sent)
      && (!step.Edit? && !step.Absorb? && !step.Reabsorb? ==> t.devices[e].vault == s.devices[e].vault)
      && (step.Edit? ==> t.devices[e].phase == s.devices[e].phase)
  {
  }

  /** A fetch answered from the current row leaves the device holding it. */
  lemma FetchHolds(s: Sys, d: Dev)
    requires d in s.devices && s.devices[d].phase.Idle?
    ensures HoldsHead(Apply(s, Fetch(d, |s.history|)), d)
    ensures forall v: nat :: v <= |s.history| ==>
      Apply(s, Fetch(d, v)).devices[d].phase == Pulled(v, if v == 0 then None else Some(s.history[v - 1]))
  {
  }

  lemma AbortRests(s: Sys, d: Dev)
    requires d in s.devices
    ensures Apply(s, Abort(d)).devices[d] == Device(s.devices[d].vault, Idle)
  {
  }

  /** A device whose first request meets a conflict comes back, two steps later, holding the current row with
      an attempt left; whose request is accepted, rests; and one that has used both attempts sends no more. */
  lemma RetryPath(s: Sys, d: Dev, current: nat)
    requires d in s.devices && s.devices[d].phase.Sent? && current <= |s.history|
    ensures
      var refused := Apply(s, Reply(d, Conflict(current)));
      && Enabled(refused, Refetch(d))
      && (s.devices[d].phase.attempt == 0 ==> HoldsHead(Apply(refused, Refetch(d)), d))
      && refused.devices[d].vault == s.devices[d].vault
    ensures forall v :: Apply(s, Reply(d, Accepted(v))).devices[d] == Device(s.devices[d].vault, Idle)
  {
  }

  lemma AttemptsRunOut(s: Sys, d: Dev)
    requires Enabled(s, Send(d)) && s.devices[d].phase.attempt >= 2
    ensures Apply(s, Send(d)).sent == s.sent && Apply(s, Send(d)).devices[d].phase == Idle
  {
  }

  function MergeStep(s: Sys, d: Dev): Step
    requires HoldsHead(s, d)
  {
    if s.devices[d].phase.Pulled? then Absorb(d) else Reabsorb(d)
  }

  /** The steps of one device from its merge up to its request, with its edits between. */
  function CycleOf(d: Dev, es: seq<Change>, s: Sys): Sys
    requires HoldsHead(s, d) && ValidEdits(es)
  {
    EditSteps(Apply(s, MergeStep(s, d)), d, es)
  }

  function EditSteps(s: Sys, d: Dev, es: seq<Change>): (t: Sys)
    requires d in s.devices && ValidEdits(es)
    ensures d in t.devices && t.history == s.history && t.sent == s.sent
    ensures t.devices[d] == s.devices[d].(vault := EditAll(s.devices[d].vault, es))
  {
    if es == [] then s
    else
      var e := es[|es| - 1];
      assert ValidEdit(e);
      Apply(EditSteps(s, d, es[..|es| - 1]), Edit(d, e.id, e.entry))
  }

  /** In any state with coherent versions, the request a device sends after fetching the current row, on
      the first attempt or on the retry, merging and making any edits is accepted, and it loses nothing,
      tombstones included, if and only if the condition of `PushAsNewIff` holds for the vault the device
      had when it merged. */
  lemma AcceptedPutAsNewIff(s: Sys, d: Dev, es: seq<Change>)
    requires VersionsOk(s) && HoldsHead(s, d) && ValidEdits(es)
    requires WellFormed(s.devices[d].vault) && WellFormed(DocAt(s.history, |s.history|))
    ensures
      var v, w := s.devices[d].vault, DocAt(s.history, |s.history|);
      var ready := CycleOf(d, es, s);
      && Enabled(ready, Send(d))
      && var put := Put(|s.history|, Encode(Pushed(v, w, es), |s.history| + 1));
         && put in Apply(ready, Send(d)).sent
         && VaultPut(RowOf(s.history), put.ifMatch, put.blob).1.Accepted?
         && (AllAsNew(w, put.blob.doc) <==>
           && (forall id :: id in w.items ==> Untouched(es, id) || EditNotBehind(w, es, id))
           && (forall id :: id in w.tombs ==> if Untouched(es, id) then TombMet(v, w, id) else EditNotBehind(w, es, id)))
         && (Keeps(false, w, put.blob.doc) <==>
           forall id :: id in w.items ==> Untouched(es, id) || EditNotBehind(w, es, id))
  {
    var h, v, w := s.history, s.devices[d].vault, DocAt(s.history, |s.history|);
    SentAfterMerge(s, d, es);
    PushAsNewIff(v, w, es);
    PushKeepsLiveIff(v, w, es);
    PutAppends(h, |h|, Encode(Pushed(v, w, es), |h| + 1));
  }

  lemma SentAfterMerge(s: Sys, d: Dev, es: seq<Change>)
    requires VersionsOk(s) && HoldsHead(s, d) && ValidEdits(es) && WellFormed(s.devices[d].vault)
    ensures
      var doc := Pushed(s.devices[d].vault, DocAt(s.history, |s.history|), es);
      var ready := CycleOf(d, es, s);
      && Enabled(ready, Send(d))
      && Put(|s.history|, Encode(doc, |s.history| + 1)) in Apply(ready, Send(d)).sent
  {
    var h, dev := s.history, s.devices[d];
    assert HoldsRow(h, dev.phase);
    var attempt, ifNone := if dev.phase.Pulled? then 0 else dev.phase.attempt + 1, if dev.phase.Pulled? then 0 else dev.phase.serverCurrent;
    AbsorbedAtHead(h, dev.vault, DocAt(h, |h|), attempt, ifNone);
    assert Apply(s, MergeStep(s, d)).devices[d] == Device(Joined(dev.vault, DocAt(h, |h|)), Ready(attempt, |h|));
  }

  lemma AbsorbedAtHead(h: seq<Blob>, v: Vault, w: Vault, attempt: nat, ifNone: int)
    requires WellFormed(v) && w == DocAt(h, |h|) && (h != [] ==> h[|h| - 1].version == |h|) && 0 <= ifNone <= |h|
    ensures AbsorbDevice(v, attempt, |h|, ResponseAt(h, |h|), ifNone) == Device(Joined(v, w), Ready(attempt, |h|))
  {
    if h == [] {
      JoinedEntries(v, EMPTY);
      SameEntries(v, Joined(v, EMPTY));
    }
  }

  /** Such a request can drop a deletion: a device that never had the item pushes a document without
      the server's tombstone, and it is accepted. */
  lemma AcceptedPutDropsTombstone(h: seq<Blob>, v: Vault, id: ItemId)
    requires WellFormed(v) && WellFormed(DocAt(h, |h|))
    requires id in DocAt(h, |h|).tombs && id !in v.items && id !in v.tombs
    ensures
      var w := DocAt(h, |h|);
      var (row, reply) := VaultPut(RowOf(h), |h|, Encode(Joined(v, w), |h| + 1));
      && reply.Accepted? && row.blob.doc == Joined(v, w)
      && EntryOf(Joined(v, w), id).Absent? && !AllAsNew(w, Joined(v, w))
  {
    var w := DocAt(h, |h|);
    JoinedEntries(v, w);
    JoinAsNewIff(v, w);
    assert !TombMet(v, w, id);
  }

  // -- A blob sealed for the wrong version --------------------------------------------------

  /** The stored blob does not open at its own version, and nobody holds a way past it. */
  ghost predicate Stuck(s: Sys) {
    && s.history != []
    && Decode(s.history[|s.history| - 1], |s.history|).None?
    && (forall p :: p in s.sent ==> p.ifMatch < |s.history|)
    && forall d :: d in s.devices ==> StuckPhase(s.history, s.devices[d].phase)
  }

  ghost predicate StuckPhase(h: seq<Blob>, ph: Phase) {
    match ph
    case Pulled(v, r) => v <= |h| && r == ResponseAt(h, v)
    case Ready(_, c) => c < |h|
    case Refetched(_, _, v, r) => v == |h| && r == ResponseAt(h, v)
    case _ => true
  }

  /** Once stored, such a blob is never replaced by any run of the sync cycle. */
  lemma {:induction false} StuckForever(states: seq<Sys>, steps: seq<Step>, k: nat)
    requires IsRun(states, steps) && Stuck(states[0]) && k < |states|
    ensures Stuck(states[k]) && states[k].history == states[0].history
  {
    if k > 0 {
      StuckForever(states, steps, k - 1);
      var s, step := states[k - 1], steps[k - 1];
      assert states[k] == Apply(s, step);
      match step
      case Absorb(d) =>
      case Reabsorb(d) =>
      case Send(d) =>
      case _ =>
    }
  }

  // -- The handler at statement grain ---------------------------------------------------------

  /** A `vault_put` that has passed its check and not yet run its UPDATE, which names no version. */
  datatype Checked = Checked(seen: nat, blob: Blob)

  function Select(s: Server, p: Put): Option<Checked> {
    if s.Stored? && p.ifMatch == s.version then Some(Checked(s.version, p.blob)) else None
  }

  function Update(s: Server, c: Checked): Server
    requires s.Stored?
  {
    Stored(s.version + 1, c.blob)
  }

  /** The UPDATE stores a blob that opens exactly when no other UPDATE ran since the SELECT. */
  lemma UpdateCoherentIff(before: Server, p: Put, now: Server)
    requires before.Stored? && now.Stored? && p.blob.version == p.ifMatch + 1
    requires Select(before, p).Some?
    ensures var row := Update(now, Select(before, p).value);
      Decode(row.blob, row.version).Some? <==> now.version == before.version
  {
  }

  /** Two PUTs that both pass the check before either writes: the later one overwrites the
      earlier unseen and leaves a blob nobody can open. */
  lemma RacingPutsBreakCoherence(s: Server, a: Vault, b: Vault)
    requires s.Stored?
    ensures var (p, q) := (Put(s.version, Encode(a, s.version + 1)), Put(s.version, Encode(b, s.version + 1)));
      && Select(s, p).Some? && Select(s, q).Some?
      && var row := Update(Update(s, Select(s, p).value), Select(s, q).value);
         row == Stored(s.version + 2, q.blob) && Decode(row.blob, row.version).None?
  {
  }

  // -- The client loop, in place ------------------------------------------------------------------

  /** The server row with the blobs it has accepted. */
  class VaultServer {
    var row: Server
    ghost var history: seq<Blob>

    ghost predicate Valid()
      reads this
    {
      row == RowOf(history)
    }

    method Put(ifMatch: int, blob: Blob) returns (reply: PutReply)
      requires Valid()
      modifies this
      ensures Valid() && row == VaultPut(old(row), ifMatch, blob).0 && reply == VaultPut(old(row), ifMatch, blob).1
      ensures history == if ifMatch == |old(history)| then old(history) + [blob] else old(history)
      ensures HistoryCoherent(old(history)) && Sealed(ifMatch, blob) ==> HistoryCoherent(history)
    {
      match row {
        case NoVault =>
          if ifMatch != 0 {
            return Conflict(0);
          }
          row, history := Stored(1, blob), history + [blob];
          return Accepted(1);
        case Stored(v, _) =>
          if ifMatch != v {
            return Conflict(v);
          }
          row, history := Stored(v + 1, blob), history + [blob];
          return Accepted(v + 1);
      }
    }

    /** Other devices' PUTs handled while this client waits; each is sealed for its own If-Match. */
    method Meanwhile(puts: seq<Put>)
      requires Valid() && AllSealed(puts)
      modifies this
      ensures Valid() && history == Served(old(history), puts) && old(history) <= history
      ensures HistoryCoherent(old(history)) ==> HistoryCoherent(history)
    {
      for i := 0 to |puts|
        invariant Valid() && history == Served(old(history), puts[..i]) && old(history) <= history
        invariant HistoryCoherent(old(history)) ==> HistoryCoherent(history)
      {
        assert puts[..i + 1][..i] == puts[..i];
        var _ := Put(puts[i].ifMatch, puts[i].blob);
      }
      assert puts[..|puts|] == puts;
    }
  }

  /** The blobs accepted once a list of requests has been handled in order. */
  function Served(h: seq<Blob>, puts: seq<Put>): seq<Blob> {
    if puts == [] then h
    else
      var before, p := Served(h, puts[..|puts| - 1]), puts[|puts| - 1];
      if p.ifMatch == |before| then before + [p.blob] else before
  }

  ghost predicate HistoryCoherent(h: seq<Blob>) {
    forall i :: 0 <= i < |h| ==> h[i].version == i + 1 && WellFormed(h[i].doc)
  }

  /** The blob is sealed for the version its acceptance will give it. */
  ghost predicate Sealed(ifMatch: int, blob: Blob) {
    blob.version == ifMatch + 1 && WellFormed(blob.doc)
  }

  ghost predicate AllSealed(puts: seq<Put>) {
    forall i :: 0 <= i < |puts| ==> Sealed(puts[i].ifMatch, puts[i].blob)
  }

  /** `push_document`: snapshot, PUT, and on a conflict pull, merge and try once more. `others[0]` and
      `others[2]` are what the rest of the fleet pushes before this client's first and second request is
      handled, `others[1]` and `others[3]` what it pushes before the refetch after each.

      The call succeeds exactly when nobody got in before the first request, or nobody between the
      refetch and the second. The vault is untouched or has the refetched document merged into it, and
      what is stored is its snapshot. */
  method PushDocument(server: VaultServer, vault: LocalVault, start: int, others: seq<seq<Put>>) returns (r: Result<nat, string>)
    requires server.Valid() && HistoryCoherent(server.history) && WellFormed(vault.Contents())
    requires |others| == 4 && forall k :: 0 <= k < |others| ==> AllSealed(others[k])
    requires 0 <= start <= |server.history|
    modifies server, vault
    ensures server.Valid() && HistoryCoherent(server.history) && old(server.history) <= server.history
    ensures PushOutcome(old(server.history), old(vault.Contents()), start, others, r, server.history, vault.Contents())
  {
    var current := start;
    ghost var h, mine := server.history, vault.Contents();
    for attempt := 0 to 2
      invariant server.Valid() && HistoryCoherent(server.history) && WellFormed(vault.Contents())
      invariant h <= server.history && 0 <= current <= |server.history|
      invariant attempt == 0 ==> server.history == h && vault.Contents() == mine && current == start
      invariant attempt == 1 ==> Retrying(h, mine, start, others, server.history, vault.Contents(), current)
      invariant attempt == 2 ==> PushOutcome(h, mine, start, others, Err(CONFLICT), server.history, vault.Contents())
    {
      var stored;
      stored, current := PushOnce(server, vault, current, others[2 * attempt], others[2 * attempt + 1]);
      if stored.Some? {
        return Ok(stored.value);
      }
    }
    return Err(CONFLICT);
  }

  const CONFLICT: string := "sync failed: version conflict persisted after retry"

  /** After the first round found a conflict. */
  ghost predicate Retrying(
    h: seq<Blob>, mine: Vault, start: int, others: seq<seq<Put>>, now: seq<Blob>, vault: Vault, current: int)
    requires |others| == 4
  {
    && |Served(h, others[0])| != start
    && now == Served(Served(h, others[0]), others[1]) && current == |now|
    && vault == Joined(mine, DocAt(now, current)) && Keeps(true, DocAt(now, current), vault)
  }

  /** What a call of `push_document` from history `h` and vault `mine` comes to. */
  ghost predicate PushOutcome(
    h: seq<Blob>, mine: Vault, start: int, others: seq<seq<Put>>, r: Result<nat, string>, now: seq<Blob>, vault: Vault)
    requires |others| == 4
  {
    var first := Served(h, others[0]);
    var refetched := Served(first, others[1]);
    if |first| == start then
      && r == Ok(start + 1) && vault == mine && now == first + [Encode(mine, start + 1)]
    else if |Served(refetched, others[2])| == |refetched| then
      && r == Ok(|refetched| + 1) && vault == Joined(mine, DocAt(refetched, |refetched|))
      && now == Served(refetched, others[2]) + [Encode(vault, |refetched| + 1)]
      && Keeps(true, DocAt(refetched, |refetched|), vault)
    else r.Err?
  }

  lemma {:induction false} ServedExtends(h: seq<Blob>, puts: seq<Put>)
    ensures h <= Served(h, puts)
  {
    if puts != [] {
      ServedExtends(h, puts[..|puts| - 1]);
    }
  }

  /** A call on a vault that has the document of `start` merged in keeps every live item of whatever
      document it replaces, on the first request and on the second. */
  lemma PushOutcomeKeeps(
    h: seq<Blob>, mine: Vault, start: int, others: seq<seq<Put>>, r: Result<nat, string>, now: seq<Blob>, vault: Vault)
    requires |others| == 4 && PushOutcome(h, mine, start, others, r, now, vault) && r.Ok?
    requires 0 <= start <= |h| && Keeps(true, DocAt(h, start), mine)
    ensures |now| == r.value >= 1 && now[r.value - 1] == Encode(vault, r.value)
    ensures Keeps(true, DocAt(now, r.value - 1), vault)
  {
    var first := Served(h, others[0]);
    var refetched := Served(first, others[1]);
    ServedExtends(h, others[0]);
    ServedExtends(refetched, others[2]);
    if |first| == start {
      assert first == h && DocAt(now, start) == DocAt(h, start);
    } else {
      assert Served(refetched, others[2]) == refetched;
      assert DocAt(now, |refetched|) == DocAt(refetched, |refetched|);
    }
  }

  /** One round: snapshot and PUT, and on a conflict refetch and merge. */
  method PushOnce(server: VaultServer, vault: LocalVault, current: int, before: seq<Put>, after: seq<Put>)
    returns (stored: Option<nat>, next: int)
    requires server.Valid() && HistoryCoherent(server.history) && WellFormed(vault.Contents())
    requires AllSealed(before) && AllSealed(after) && 0 <= current <= |server.history|
    modifies server, vault
    ensures server.Valid() && HistoryCoherent(server.history) && WellFormed(vault.Contents())
    ensures old(server.history) <= server.history && 0 <= next <= |server.history|
    ensures
      var found := Served(old(server.history), before);
      var head := Served(found, after);
      && (stored.Some? <==> |found| == current)
      && (stored.Some? ==>
        && vault.Contents() == old(vault.Contents()) && stored.value == current + 1
        && server.history == found + [Encode(vault.Contents(), current + 1)])
      && (stored.None? ==>
        && server.history == head && next == |head|
        && vault.Contents() == Joined(old(vault.Contents()), DocAt(head, next))
        && Keeps(true, DocAt(head, next), vault.Contents()))
  {
    var blob := Encode(vault.Contents(), current + 1);
    next := current;
    server.Meanwhile(before);
    PutAppends(server.history, current, blob);
    var reply := server.Put(current, blob);
    if reply.Accepted? {
      return Some(reply.version), next;
    }
    server.Meanwhile(after);
    next := PullAndMerge(server, vault);
    stored := None;
  }

  /** The refetch after a conflict. A row exists, because a conflict was reported against one, and it
      opens, because it is sealed for its version. */
  method PullAndMerge(server: VaultServer, vault: LocalVault) returns (current: int)
    requires server.Valid() && HistoryCoherent(server.history) && server.history != [] && WellFormed(vault.Contents())
    modifies vault
    ensures current == |server.history| && WellFormed(vault.Contents())
    ensures vault.Contents() == Joined(old(vault.Contents()), DocAt(server.history, current))
    ensures Keeps(true, DocAt(server.history, current), vault.Contents())
  {
    current := server.row.version;
    match Decode(server.row.blob, current) {
      case None =>
        assert false;
      case Some(remote) =>
        JoinedEntries(vault.Contents(), remote);
        MergeValue(vault, remote);
    }
  }

  /** The in-place merge of any listing of `remote`. */
  method MergeValue(vault: LocalVault, remote: Vault)
    requires WellFormed(vault.Contents()) && WellFormed(remote)
    modifies vault
    ensures vault.Contents() == Joined(old(vault.Contents()), remote)
  {
    var copy := new LocalVault();
    copy.items, copy.tombs := remote.items, remote.tombs;
    var doc := copy.ToDocument();
    MergedIsJoined(vault.Contents(), remote, doc);
    var _ := vault.Merge(doc);
  }
}
