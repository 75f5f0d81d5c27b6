/**
 Sessions of the sync server: devices, refresh tokens, their rotation and the replay rule (section
 10.4 of RFC 6749). Every handler is one step; the last part takes rotation apart into its two
 statements.

 Devices and tokens are rows in insertion order; a row's position stands for its identifier, and a
 token hash that matches no row is a position past the end.
 */
module RefreshTokens {
  import opened Basics
  import Lockout

  type Outcome = Lockout.Outcome

  datatype Status = Pending | Approved | Revoked

  datatype Device = Device(account: nat, status: Status)

  datatype Token = Token(account: nat, device: nat, parent: Option<nat>, revoked: bool, expires: int)

  datatype Db = Db(devices: seq<Device>, tokens: seq<Token>)

  datatype Step =
    | GoogleSignIn(account: nat)
    | TrustedSignIn(account: nat, now: int) // bootstrap token, password or enrolment code
    | TotpVerified(device: nat, now: int)
    | Refresh(token: nat, now: int)
    | Logout(device: nat)
    | Approve(caller: nat, device: nat)
    | Revoke(caller: nat, device: nat)

  const THIRTY_DAYS: int := 2_592_000

  // -- The handlers ------------------------------------------------------------------------

  function Mint(db: Db, device: nat, parent: Option<nat>, now: int): Db
    requires device < |db.devices|
  {
    db.(tokens := db.tokens + [Token(db.devices[device].account, device, parent, false, now + THIRTY_DAYS)])
  }

  function SetStatus(db: Db, device: nat, status: Status): Db
    requires device < |db.devices|
  {
    db.(devices := db.devices[device := db.devices[device].(status := status)])
  }

  /** Revokes every token of `device`; with an account, only those that belong to it. */
  function Kill(ts: seq<Token>, device: nat, account: Option<nat>): (r: seq<Token>)
    ensures |r| == |ts|
  {
    seq(|ts|, i requires 0 <= i < |ts| =>
      if ts[i].device == device && (account.None? || ts[i].account == account.value)
      then ts[i].(revoked := true) else ts[i])
  }

  /** A token is honoured when it is known, not revoked and not past its expiry. */
  predicate Accepts(db: Db, token: nat, now: int) {
    token < |db.tokens| && !db.tokens[token].revoked && now <= db.tokens[token].expires
  }

  function Rotate(db: Db, token: nat, now: int): Db
    requires token < |db.tokens| && db.tokens[token].device < |db.devices|
  {
    var t := db.tokens[token];
    Mint(db.(tokens := db.tokens[token := t.(revoked := true)]), t.device, Some(token), now)
  }

  predicate ApprovedCaller(db: Db, caller: nat) {
    caller < |db.devices| && db.devices[caller].status == Approved
  }

  predicate SameAccount(db: Db, caller: nat, device: nat)
    requires caller < |db.devices|
  {
    device < |db.devices| && db.devices[device].account == db.devices[caller].account
  }

  /** The handlers run only for requests that name existing devices where the source takes the device
      from a token it issued itself. */
  predicate Enabled(db: Db, s: Step) {
    match s
    case TotpVerified(d, _) => d < |db.devices|
    case Logout(d) => d < |db.devices|
    case Approve(c, _) => c < |db.devices|
    case Revoke(c, _) => c < |db.devices|
    case _ => true
  }

  function Apply(db: Db, s: Step): Db
    requires Inv(db) && Enabled(db, s)
  {
    match s
    case GoogleSignIn(a) => db.(devices := db.devices + [Device(a, Pending)])
    case TrustedSignIn(a, now) =>
      Mint(db.(devices := db.devices + [Device(a, Approved)]), |db.devices|, None, now)
    case TotpVerified(d, now) => Mint(SetStatus(db, d, Approved), d, None, now)
    case Refresh(i, now) =>
      if i >= |db.tokens| then db
      else if db.tokens[i].revoked then
        db.(tokens := Kill(db.tokens, db.tokens[i].device, Some(db.tokens[i].account)))
      else if db.tokens[i].expires < now then db
      else Rotate(db, i, now)
    case Logout(d) => db.(tokens := Kill(db.tokens, d, Some(db.devices[d].account)))
    case Approve(c, d) =>
      if ApprovedCaller(db, c) && SameAccount(db, c, d) then SetStatus(db, d, Approved) else db
    case Revoke(c, d) =>
      if !ApprovedCaller(db, c) then db
      else
        var marked := if SameAccount(db, c, d) then SetStatus(db, d, Revoked) else db;
        marked.(tokens := Kill(db.tokens, d, None))
  }

  // -- What every state keeps ----------------------------------------------------------------

  ghost predicate WellFormed(db: Db) {
    forall i :: 0 <= i < |db.tokens| ==>
      var t := db.tokens[i];
      && t.device < |db.devices| && t.account == db.devices[t.device].account
      && (t.parent.Some? ==> t.parent.value < i && db.tokens[t.parent.value].device == t.device)
  }

  predicate Live(db: Db, i: nat) {
    i < |db.tokens| && !db.tokens[i].revoked
  }

  ghost predicate OneChild(ts: seq<Token>) {
    forall i, j :: 0 <= i < j < |ts| && ts[i].parent.Some? ==> ts[i].parent != ts[j].parent
  }

  ghost predicate ParentsRevoked(ts: seq<Token>) {
    forall i :: 0 <= i < |ts| && ts[i].parent.Some? && ts[i].parent.value < |ts| ==> ts[ts[i].parent.value].revoked
  }

  ghost predicate LiveApproved(db: Db) {
    forall i :: 0 <= i < |db.tokens| && !db.tokens[i].revoked && db.tokens[i].device < |db.devices| ==>
      db.devices[db.tokens[i].device].status == Approved
  }

  ghost predicate Inv(db: Db) {
    WellFormed(db) && OneChild(db.tokens) && ParentsRevoked(db.tokens) && LiveApproved(db)
  }

  lemma KillKeeps(db: Db, device: nat, account: Option<nat>)
    requires Inv(db)
    ensures Inv(db.(tokens := Kill(db.tokens, device, account)))
  {
    var ts, ks := db.tokens, Kill(db.tokens, device, account);
    assert forall i :: 0 <= i < |ts| ==> ks[i] == ts[i] || ks[i] == ts[i].(revoked := true);
  }

  lemma MintKeeps(db: Db, device: nat, parent: Option<nat>, now: int)
    requires Inv(db) && device < |db.devices| && db.devices[device].status == Approved
    requires parent.Some? ==>
      && parent.value < |db.tokens| && db.tokens[parent.value].device == device
      && db.tokens[parent.value].revoked
    requires forall i :: 0 <= i < |db.tokens| && parent.Some? ==> db.tokens[i].parent != parent
    ensures Inv(Mint(db, device, parent, now))
  {
  }

  lemma StatusKeeps(db: Db, device: nat, status: Status)
    requires Inv(db) && device < |db.devices|
    requires status == Approved || forall i :: 0 <= i < |db.tokens| && db.tokens[i].device == device ==> db.tokens[i].revoked
    ensures Inv(SetStatus(db, device, status))
  {
  }

  lemma RevokeOneKeeps(db: Db, i: nat)
    requires Inv(db) && i < |db.tokens|
    ensures Inv(db.(tokens := db.tokens[i := db.tokens[i].(revoked := true)]))
  {
  }

  lemma MoreDevices(db: Db, d: Device)
    requires Inv(db)
    ensures Inv(db.(devices := db.devices + [d]))
  {
  }

  lemma RotateKeeps(db: Db, i: nat, now: int)
    requires Inv(db) && Live(db, i)
    ensures Inv(Rotate(db, i, now))
  {
    var t := db.tokens[i];
    RevokeOneKeeps(db, i);
    MintKeeps(db.(tokens := db.tokens[i := t.(revoked := true)]), t.device, Some(i), now);
  }

  /** Every handler keeps the invariant. */
  lemma StepKeepsInv(db: Db, s: Step)
    requires Inv(db) && Enabled(db, s)
    ensures Inv(Apply(db, s))
  {
    match s
    case GoogleSignIn(a) => MoreDevices(db, Device(a, Pending));
    case TrustedSignIn(a, now) =>
      MoreDevices(db, Device(a, Approved));
      MintKeeps(db.(devices := db.devices + [Device(a, Approved)]), |db.devices|, None, now);
    case TotpVerified(d, now) =>
      StatusKeeps(db, d, Approved);
      MintKeeps(SetStatus(db, d, Approved), d, None, now);
    case Refresh(i, now) =>
      if i < |db.tokens| {
        KillKeeps(db, db.tokens[i].device, Some(db.tokens[i].account));
        if Live(db, i) {
          RotateKeeps(db, i, now);
        }
      }
    case Logout(d) => KillKeeps(db, d, Some(db.devices[d].account));
    case Approve(c, d) =>
      if d < |db.devices| {
        StatusKeeps(db, d, Approved);
      }
    case Revoke(c, d) =>
      KillKeeps(db, d, None);
      var killed := db.(tokens := Kill(db.tokens, d, None));
      if d < |db.devices| {
        StatusKeeps(killed, d, Revoked);
      }
  }

  // -- What each handler touches ----------------------------------------------------------------

  /** The device whose tokens a step may change, if any: the one named, or that of the token shown. */
  function TokenTarget(db: Db, s: Step): Option<nat> {
    match s
    case Refresh(i, _) => if i < |db.tokens| then Some(db.tokens[i].device) else None
    case Logout(d) => Some(d)
    case Revoke(_, d) => Some(d)
    case _ => None
  }

  /** Nobody else's tokens change: a token of any other device is as it was, and of a token of that device
      nothing but `revoked` ever changes. */
  lemma OtherTokensUntouched(db: Db, s: Step, i: nat)
    requires Inv(db) && Enabled(db, s) && i < |db.tokens|
    ensures |db.tokens| <= |Apply(db, s).tokens|
    ensures TokenTarget(db, s) != Some(db.tokens[i].device) ==> Apply(db, s).tokens[i] == db.tokens[i]
    ensures Apply(db, s).tokens[i].(revoked := db.tokens[i].revoked) == db.tokens[i]
  {
  }

  /** The tokens a step revokes among those that existed, exactly. An accepted refresh revokes the token
      shown; a replay, a logout and a revocation by an approved device revoke the device's, all of them. */
  lemma RevokedExactly(db: Db, s: Step, i: nat)
    requires Inv(db) && Enabled(db, s) && i < |db.tokens|
    ensures Apply(db, s).tokens[i].revoked <==>
      || db.tokens[i].revoked
      || (s.Logout? && db.tokens[i].device == s.device)
      || (s.Revoke? && db.devices[s.caller].status == Approved && db.tokens[i].device == s.device)
      || (s.Refresh? && s.token < |db.tokens| && db.tokens[s.token].revoked && db.tokens[i].device == db.tokens[s.token].device)
      || (s.Refresh? && s.token == i && s.now <= db.tokens[i].expires)
  {
  }

  /** The statuses a step sets, exactly, and whose. */
  lemma StatusesExactly(db: Db, s: Step, d: nat)
    requires Inv(db) && Enabled(db, s) && d < |db.devices|
    ensures |db.devices| <= |Apply(db, s).devices|
    ensures
      var was, now := db.devices[d], Apply(db, s).devices[d];
      && now.account == was.account
      && now.status ==
        if s.TotpVerified? && s.device == d then Approved
        else if s.Approve? && s.device == d && db.devices[s.caller] == Device(was.account, Approved) then Approved
        else if s.Revoke? && s.device == d && db.devices[s.caller] == Device(was.account, Approved) then Revoked
        else was.status
  {
  }

  /** The rows a step adds: a device for a sign-in, pending or approved, and one live token for every
      sign-in that is trusted or verified and for every accepted refresh, good for thirty days. */
  lemma AddedExactly(db: Db, s: Step)
    requires Inv(db) && Enabled(db, s)
    ensures
      var e, n, m := Apply(db, s), |db.devices|, |db.tokens|;
      && |e.devices| == n + (if s.GoogleSignIn? || s.TrustedSignIn? then 1 else 0)
      && (s.GoogleSignIn? ==> e.devices[n] == Device(s.account, Pending))
      && (s.TrustedSignIn? ==> e.devices[n] == Device(s.account, Approved))
      && |e.tokens| == m + (if s.TrustedSignIn? || s.TotpVerified? || (s.Refresh? && Accepts(db, s.token, s.now)) then 1 else 0)
      && (s.TrustedSignIn? ==> e.tokens[m] == Token(s.account, n, None, false, s.now + 2_592_000))
      && (s.TotpVerified? ==>
        e.tokens[m] == Token(db.devices[s.device].account, s.device, None, false, s.now + 2_592_000))
      && (s.Refresh? && Accepts(db, s.token, s.now) ==>
        var t := db.tokens[s.token];
        e.tokens[m] == Token(t.account, t.device, Some(s.token), false, s.now + 2_592_000))
  {
  }

  /** A token is honoured up to its expiry and not after it, in every later state in which it was not
      revoked. */
  lemma HonouredUntilExpiry(db: Db, later: seq<Step>, token: nat, when: int)
    requires Inv(db) && CanRun(db, later) && token < |db.tokens|
    ensures Accepts(End(db, later), token, when) <==>
      Live(End(db, later), token) && when <= db.tokens[token].expires
    decreases |later|
  {
    RunKeepsTerms(db, later, token);
  }

  lemma {:induction false} RunKeepsTerms(db: Db, later: seq<Step>, token: nat)
    requires Inv(db) && CanRun(db, later) && token < |db.tokens|
    ensures token < |End(db, later).tokens| && End(db, later).tokens[token].expires == db.tokens[token].expires
    decreases |later|
  {
    if later != [] {
      StepKeepsInv(db, later[0]);
      OtherTokensUntouched(db, later[0], token);
      RunKeepsTerms(Apply(db, later[0]), later[1..], token);
    }
  }

  // -- Runs ------------------------------------------------------------------------------

  ghost predicate CanRun(db: Db, run: seq<Step>)
    requires Inv(db)
    decreases |run|
  {
    run == [] ||
    (Enabled(db, run[0]) && (StepKeepsInv(db, run[0]); CanRun(Apply(db, run[0]), run[1..])))
  }

  function End(db: Db, run: seq<Step>): Db
    requires Inv(db) && CanRun(db, run)
    decreases |run|
  {
    if run == [] then db
    else
      StepKeepsInv(db, run[0]);
      End(Apply(db, run[0]), run[1..])
  }

  lemma {:induction false} RunKeepsInv(db: Db, run: seq<Step>)
    requires Inv(db) && CanRun(db, run)
    ensures Inv(End(db, run))
    decreases |run|
  {
    if run != [] {
      StepKeepsInv(db, run[0]);
      RunKeepsInv(Apply(db, run[0]), run[1..]);
    }
  }

  // -- Chains ----------------------------------------------------------------------------

  ghost function Root(db: Db, i: nat): nat
    requires WellFormed(db) && i < |db.tokens|
  {
    var p := db.tokens[i].parent;
    if p.None? then i else Root(db, p.value)
  }

  ghost function Depth(db: Db, i: nat): nat
    requires WellFormed(db) && i < |db.tokens|
  {
    var p := db.tokens[i].parent;
    if p.None? then 0 else 1 + Depth(db, p.value)
  }

  lemma {:induction false} ChainHasNoFork(db: Db, i: nat, j: nat)
    requires Inv(db) && i < |db.tokens| && j < |db.tokens|
    requires Root(db, i) == Root(db, j) && Depth(db, i) == Depth(db, j)
    ensures i == j
  {
    var p, q := db.tokens[i].parent, db.tokens[j].parent;
    if p.Some? {
      ChainHasNoFork(db, p.value, q.value);
      assert p == q;
    }
  }

  lemma {:induction false} OlderIsRevoked(db: Db, i: nat, j: nat)
    requires Inv(db) && i < |db.tokens| && j < |db.tokens|
    requires Root(db, i) == Root(db, j) && Depth(db, i) < Depth(db, j)
    ensures db.tokens[i].revoked
    decreases j
  {
    var p := db.tokens[j].parent.value;
    if Depth(db, p) == Depth(db, i) {
      ChainHasNoFork(db, i, p);
    } else {
      OlderIsRevoked(db, i, p);
    }
  }

  /** In every reachable state a chain of rotations has at most one live token, its newest, and the
      device that holds a live token is approved. */
  lemma OneLiveTokenPerChain(db: Db, run: seq<Step>, i: nat, j: nat)
    requires db == Db([], []) && CanRun(db, run)
    ensures
      var end := End(db, run);
      && WellFormed(end)
      && (Live(end, i) && Live(end, j) && Root(end, i) == Root(end, j) ==> i == j)
      && (Live(end, i) ==> end.devices[end.tokens[i].device].status == Approved)
  {
    RunKeepsInv(db, run);
    var end := End(db, run);
    if Live(end, i) && Live(end, j) && Root(end, i) == Root(end, j) {
      if Depth(end, i) == Depth(end, j) {
        ChainHasNoFork(end, i, j);
      } else if Depth(end, i) < Depth(end, j) {
        OlderIsRevoked(end, i, j);
        assert false;
      } else {
        OlderIsRevoked(end, j, i);
        assert false;
      }
    }
  }

  // -- Revocation is final ------------------------------------------------------------------

  /** Every token of `older` is still there in `newer`, and revoked if it was. */
  ghost predicate Outlasts(older: Db, newer: Db) {
    && |older.tokens| <= |newer.tokens|
    && forall i :: 0 <= i < |older.tokens| ==>
      newer.tokens[i].device == older.tokens[i].device && (older.tokens[i].revoked ==> newer.tokens[i].revoked)
  }

  lemma StepOutlasts(db: Db, s: Step)
    requires Inv(db) && Enabled(db, s)
    ensures Outlasts(db, Apply(db, s))
  {
  }

  lemma {:induction false} RunOutlasts(db: Db, run: seq<Step>)
    requires Inv(db) && CanRun(db, run)
    ensures Outlasts(db, End(db, run))
    decreases |run|
  {
    if run != [] {
      StepOutlasts(db, run[0]);
      StepKeepsInv(db, run[0]);
      RunOutlasts(Apply(db, run[0]), run[1..]);
    }
  }

  /** Presenting a revoked token is refused and leaves its device without a live token; none of the
      tokens that exist then is ever honoured again, whatever happens later. */
  lemma ReplayEndsSession(db: Db, token: nat, now: int, later: seq<Step>, other: nat, when: int)
    requires Inv(db) && token < |db.tokens| && db.tokens[token].revoked
    requires Inv(Apply(db, Refresh(token, now))) && CanRun(Apply(db, Refresh(token, now)), later)
    requires other < |db.tokens| && db.tokens[other].device == db.tokens[token].device
    ensures !Accepts(db, token, now)
    ensures |Apply(db, Refresh(token, now)).tokens| == |db.tokens|
    ensures !Live(Apply(db, Refresh(token, now)), other)
    ensures !Accepts(End(Apply(db, Refresh(token, now)), later), other, when)
  {
    RunOutlasts(Apply(db, Refresh(token, now)), later);
  }

  /** A token works once: after it was honoured, presenting it again at any later point of any run
      is refused and ends every session of its device. */
  lemma TokenWorksOnce(db: Db, token: nat, now: int, between: seq<Step>, again: int)
    requires Inv(db) && Accepts(db, token, now)
    requires Inv(Apply(db, Refresh(token, now))) && CanRun(Apply(db, Refresh(token, now)), between)
    ensures
      var mid := End(Apply(db, Refresh(token, now)), between);
      && Inv(mid) && !Accepts(mid, token, again)
      && forall i :: 0 <= i < |mid.tokens| && mid.tokens[i].device == db.tokens[token].device ==>
        !Live(Apply(mid, Refresh(token, again)), i)
  {
    var first := Apply(db, Refresh(token, now));
    RunOutlasts(first, between);
    RunKeepsInv(first, between);
  }

  // -- The handlers as they change the tables ----------------------------------------------------

  class SessionStore {
    var db: Db

    constructor ()
      ensures db == Db([], []) && Inv(db)
    {
      db := Db([], []);
    }

    method AuthRefresh(token: nat, now: int) returns (ok: bool)
      requires Inv(db)
      modifies this
      ensures ok == Accepts(old(db), token, now)
      ensures db == Apply(old(db), Refresh(token, now)) && Inv(db)
    {
      StepKeepsInv(db, Refresh(token, now));
      if token >= |db.tokens| {
        return false;
      }
      var row := db.tokens[token];
      if row.revoked {
        db := db.(tokens := Kill(db.tokens, row.device, Some(row.account)));
        return false;
      }
      if row.expires < now {
        return false;
      }
      db := db.(tokens := db.tokens[token := row.(revoked := true)]);
      MintSession(row.device, Some(token), now);
      return true;
    }

    method MintSession(device: nat, parent: Option<nat>, now: int)
      requires device < |db.devices|
      modifies this
      ensures db == Mint(old(db), device, parent, now)
    {
      db := db.(tokens := db.tokens +
        [Token(db.devices[device].account, device, parent, false, now + THIRTY_DAYS)]);
    }

    /** A device signed in by bootstrap token, password or enrolment code starts approved. `granted` is
        what the handler's own checks of the request decided. */
    method TrustedSignIn(account: nat, granted: bool, now: int) returns (device: Option<nat>)
      requires Inv(db)
      modifies this
      ensures device.Some? <==> granted
      ensures db == (if granted then Apply(old(db), Step.TrustedSignIn(account, now)) else old(db)) && Inv(db)
      ensures granted ==> device == Some(|old(db).devices|) && Live(db, |old(db).tokens|)
    {
      StepKeepsInv(db, Step.TrustedSignIn(account, now));
      if !granted {
        return None;
      }
      device := Some(|db.devices|);
      db := db.(devices := db.devices + [Device(account, Approved)]);
      MintSession(device.value, None, now);
    }

    /** The second half of a Google sign-in; `outcome` is that of the code check. */
    method TotpVerify(device: nat, outcome: Outcome, now: int) returns (ok: bool)
      requires Inv(db) && device < |db.devices|
      modifies this
      ensures ok <==> outcome == Lockout.Accepted
      ensures db == (if ok then Apply(old(db), TotpVerified(device, now)) else old(db)) && Inv(db)
      ensures ok ==> db.devices[device].status == Approved && Live(db, |old(db).tokens|)
    {
      StepKeepsInv(db, TotpVerified(device, now));
      if outcome != Lockout.Accepted {
        return false;
      }
      db := SetStatus(db, device, Approved);
      MintSession(device, None, now);
      return true;
    }

    method AuthLogout(device: nat)
      requires Inv(db) && device < |db.devices|
      modifies this
      ensures db == Apply(old(db), Logout(device)) && Inv(db)
      ensures forall i :: 0 <= i < |db.tokens| && db.tokens[i].device == device ==> !Live(db, i)
    {
      StepKeepsInv(db, Logout(device));
      db := db.(tokens := Kill(db.tokens, device, Some(db.devices[device].account)));
    }

    method DeviceApprove(caller: nat, id: nat) returns (ok: bool)
      requires Inv(db) && caller < |db.devices|
      modifies this
      ensures db == Apply(old(db), Approve(caller, id)) && Inv(db) && db.tokens == old(db).tokens
      ensures ok <==> ApprovedCaller(old(db), caller) && SameAccount(old(db), caller, id)
    {
      StepKeepsInv(db, Approve(caller, id));
      if db.devices[caller].status != Approved {
        return false;
      }
      if id >= |db.devices| || db.devices[id].account != db.devices[caller].account {
        return false;
      }
      db := SetStatus(db, id, Approved);
      return true;
    }

    method DeviceRevoke(caller: nat, id: nat) returns (ok: bool)
      requires Inv(db) && caller < |db.devices|
      modifies this
      ensures ok == ApprovedCaller(old(db), caller)
      ensures db == Apply(old(db), Revoke(caller, id)) && Inv(db)
      ensures ok ==> forall i :: 0 <= i < |db.tokens| && db.tokens[i].device == id ==> !Live(db, i)
    {
      StepKeepsInv(db, Revoke(caller, id));
      if db.devices[caller].status != Approved {
        return false;
      }
      if id < |db.devices| && db.devices[id].account == db.devices[caller].account {
        db := SetStatus(db, id, Revoked);
      }
      db := db.(tokens := Kill(db.tokens, id, None));
      return true;
    }
  }

  // -- Rotation as two statements -----------------------------------------------------------------
  // The handler reads the token in one statement and writes in later ones. `Rotate` is the second
  // half: it runs on whatever state it finds, although the first half saw the token live.

  ghost predicate HasChild(db: Db, token: nat) {
    exists i :: 0 <= i < |db.tokens| && db.tokens[i].parent == Some(token)
  }

  /** Finishing a rotation late keeps the invariant exactly when no other rotation of the token came in
      between and the device is still approved. */
  lemma LateRotationIff(db: Db, token: nat, now: int)
    requires Inv(db) && token < |db.tokens|
    ensures Inv(Rotate(db, token, now)) <==>
      !HasChild(db, token) && db.devices[db.tokens[token].device].status == Approved
  {
    var end, n, d := Rotate(db, token, now), |db.tokens|, db.tokens[token].device;
    assert end.tokens[n].parent == Some(token) && end.tokens[n].device == d && !end.tokens[n].revoked;
    if HasChild(db, token) {
      var i :| 0 <= i < n && db.tokens[i].parent == Some(token);
      assert end.tokens[i].parent == end.tokens[n].parent;
    } else if db.devices[d].status == Approved {
      RevokeOneKeeps(db, token);
      MintKeeps(db.(tokens := db.tokens[token := db.tokens[token].(revoked := true)]), d, Some(token), now);
    }
  }

  /** That is not to say it is harmless: a rotation that finishes after a logout keeps the invariant and
      gives the logged-out device a live token again. */
  lemma LateRotationRevives(db: Db, token: nat, now: int)
    requires Inv(db) && Live(db, token)
    ensures
      var d := db.tokens[token].device;
      var out := Apply(db, Logout(d));
      var end := Rotate(out, token, now);
      && (forall i :: 0 <= i < |out.tokens| && out.tokens[i].device == d ==> !Live(out, i))
      && Inv(end) && Live(end, |db.tokens|) && end.tokens[|db.tokens|].device == d
  {
    var d := db.tokens[token].device;
    var out := Apply(db, Logout(d));
    StepKeepsInv(db, Logout(d));
    forall i | 0 <= i < |out.tokens| ensures out.tokens[i].parent != Some(token) {
      assert out.tokens[i].parent == db.tokens[i].parent;
    }
    LateRotationIff(out, token, now);
  }

  /** Two requests with one token, both read before either writes: the chain forks into two live
      tokens. */
  lemma RacingRefreshesFork(db: Db, token: nat, now: int)
    requires Inv(db) && Accepts(db, token, now)
    ensures
      var both := Rotate(Rotate(db, token, now), token, now);
      && !Inv(both)
      && Live(both, |db.tokens|) && Live(both, |db.tokens| + 1)
      && both.tokens[|db.tokens|].parent == Some(token) == both.tokens[|db.tokens| + 1].parent
  {
    var both, n := Rotate(Rotate(db, token, now), token, now), |db.tokens|;
    assert both.tokens[n].parent == both.tokens[n + 1].parent;
  }
}
