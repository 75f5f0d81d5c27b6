/**
 Which account a sign-in lands on. A personal server should have one: the bootstrap sign-in and the
 Google sign-in find each other's account instead of opening a second one.

 Accounts are rows in creation order; a row's position stands for its identifier. Each handler is
 one step.
 */
module Accounts {
  import opened Basics

  datatype Account = Account(sub: string, email: string, owner: bool)

  datatype SignIn =
    | Google(sub: string, email: string)
    | Bootstrap

  const LOCAL: string := "bootstrap:local"
  const LOCAL_EMAIL: string := "personal@sentinel.local"

  type Table = seq<Account>

  /** A subject the identity provider vouches for: never the reserved one. */
  predicate Genuine(s: SignIn) {
    s.Google? ==> s.sub != LOCAL
  }

  // -- The statements ----------------------------------------------------------------------

  /** The first row with this subject. */
  function FindSub(t: Table, sub: string): (r: Option<nat>)
    ensures r.Some? ==> r.value < |t| && t[r.value].sub == sub
    ensures r.None? ==> forall i :: 0 <= i < |t| ==> t[i].sub != sub
  {
    if t == [] then None
    else
      match FindSub(t[..|t| - 1], sub)
      case Some(i) => Some(i)
      case None => if t[|t| - 1].sub == sub then Some(|t| - 1) else None
  }

  function FindOwner(t: Table): (r: Option<nat>)
    ensures r.Some? ==> r.value < |t| && t[r.value].owner
    ensures r.None? ==> forall i :: 0 <= i < |t| ==> !t[i].owner
  {
    if t == [] then None
    else
      match FindOwner(t[..|t| - 1])
      case Some(i) => Some(i)
      case None => if t[|t| - 1].owner then Some(|t| - 1) else None
  }

  /** Insert, or refresh the email of the row that has the subject. */
  function Upsert(t: Table, sub: string, email: string, owner: bool): (Table, nat) {
    match FindSub(t, sub)
    case Some(i) => (t[i := t[i].(email := email)], i)
    case None => (t + [Account(sub, email, owner)], |t|)
  }

  predicate OnlyLocal(t: Table) {
    forall i :: 0 <= i < |t| ==> t[i].sub == LOCAL
  }

  /** The account resolution of the two sign-in handlers: the new table and the account returned. */
  function Resolve(t: Table, s: SignIn): (Table, nat) {
    match s
    case Google(sub, email) =>
      if t != [] && OnlyLocal(t) then (t[0 := t[0].(sub := sub, email := email)], 0)
      else Upsert(t, sub, email, false)
    case Bootstrap =>
      match FindOwner(t)
      case Some(i) => (t, i)
      case None =>
        if |t| == 1 then (t[0 := t[0].(owner := true)], 0)
        else Upsert(t, LOCAL, LOCAL_EMAIL, |t| == 0)
  }

  // -- What every table keeps ----------------------------------------------------------------

  ghost predicate Inv(t: Table) {
    && (forall i, j :: 0 <= i < j < |t| ==> t[i].sub != t[j].sub)
    && (forall i, j :: 0 <= i < j < |t| ==> !(t[i].owner && t[j].owner))
  }

  lemma TwoDiffer(t: Table)
    requires Inv(t)
    ensures |t| >= 2 ==> !OnlyLocal(t)
  {
    if |t| >= 2 {
      assert t[0].sub != t[1].sub;
    }
  }

  lemma ResolveKeepsInv(t: Table, s: SignIn)
    requires Inv(t) && Genuine(s)
    ensures Inv(Resolve(t, s).0) && Resolve(t, s).1 < |Resolve(t, s).0| && |t| <= |Resolve(t, s).0|
  {
    TwoDiffer(t);
  }

  /** A sign-in touches no account but the one it returns. A Google sign-in leaves that one with the subject
      and address it came with and its flag as it was; a bootstrap sign-in leaves its subject, and flags it
      exactly when it was the flagged one already, the only one, or the first. */
  lemma ResolveTouches(t: Table, s: SignIn, i: nat)
    requires Inv(t) && Genuine(s)
    ensures
      var (u, id) := Resolve(t, s);
      && id < |u| <= |t| + 1
      && (i < |t| && i != id ==> u[i] == t[i])
      && (s.Google? ==> u[id].sub == s.sub && u[id].email == s.email && u[id].owner == (id < |t| && t[id].owner))
      && (s.Bootstrap? && id < |t| ==> u[id].sub == t[id].sub)
      && (s.Bootstrap? ==> (u[id].owner <==> (id < |t| && t[id].owner) || |t| <= 1))
  {
    ResolveKeepsInv(t, s);
  }

  /** The account a bootstrap sign-in makes: the synthetic one, the owner exactly on an empty server. */
  lemma SyntheticAccount(t: Table)
    requires |Resolve(t, Bootstrap).0| > |t|
    ensures Resolve(t, Bootstrap).0 == t + [Account("bootstrap:local", "personal@sentinel.local", |t| == 0)]
  {
  }

  /** When a sign-in opens a new account, exactly: a Google one when its subject is unknown and the only
      account is not the synthetic one; a bootstrap one on an empty server, or on one with several accounts
      none of which is flagged or synthetic. */
  lemma NewAccountIff(t: Table, s: SignIn)
    requires Inv(t) && Genuine(s)
    ensures |Resolve(t, s).0| > |t| <==>
      if s.Google? then
        (forall i :: 0 <= i < |t| ==> t[i].sub != s.sub) && !(|t| == 1 && t[0].sub == LOCAL)
      else
        |t| != 1 && forall i :: 0 <= i < |t| ==> !t[i].owner && t[i].sub != LOCAL
    ensures |Resolve(t, s).0| > |t| ==> Resolve(t, s).1 == |t|
  {
    TwoDiffer(t);
  }

  function End(t: Table, run: seq<SignIn>): Table {
    if run == [] then t else Resolve(End(t, run[..|run| - 1]), run[|run| - 1]).0
  }

  ghost predicate AllGenuine(run: seq<SignIn>) {
    forall i :: 0 <= i < |run| ==> Genuine(run[i])
  }

  /** Every run keeps subjects unique and at most one account flagged as the bootstrap owner. */
  lemma {:induction false} RunKeepsInv(t: Table, run: seq<SignIn>)
    requires Inv(t) && AllGenuine(run)
    ensures Inv(End(t, run))
  {
    if run != [] {
      RunKeepsInv(t, run[..|run| - 1]);
      ResolveKeepsInv(End(t, run[..|run| - 1]), run[|run| - 1]);
    }
  }

  // -- The bootstrap account is stable ----------------------------------------------------------

  /** The account `id` is what a bootstrap sign-in finds: it is flagged, or it is the unflagged
      synthetic account kept beside several others. */
  ghost predicate Settled(t: Table, id: nat) {
    && Inv(t) && id < |t|
    && (t[id].owner || ((forall i :: 0 <= i < |t| ==> !t[i].owner) && t[id].sub == LOCAL && |t| >= 2))
  }

  lemma BootstrapSettles(t: Table)
    requires Inv(t)
    ensures Settled(Resolve(t, Bootstrap).0, Resolve(t, Bootstrap).1)
  {
    ResolveKeepsInv(t, Bootstrap);
  }

  lemma SettledStays(t: Table, id: nat, s: SignIn)
    requires Settled(t, id) && Genuine(s)
    ensures Settled(Resolve(t, s).0, id)
    ensures s == Bootstrap ==> Resolve(t, s).1 == id
  {
    ResolveKeepsInv(t, s);
    TwoDiffer(t);
  }

  lemma {:induction false} SettledOverRuns(t: Table, id: nat, run: seq<SignIn>)
    requires Settled(t, id) && AllGenuine(run)
    ensures Settled(End(t, run), id)
  {
    if run != [] {
      SettledOverRuns(t, id, run[..|run| - 1]);
      SettledStays(End(t, run[..|run| - 1]), id, run[|run| - 1]);
    }
  }

  /** Once a bootstrap sign-in has returned an account, every later one returns the same, under any
      mix of Google sign-ins before and between and whatever accounts the server began with. */
  lemma BootstrapAccountStable(start: Table, before: seq<SignIn>, between: seq<SignIn>)
    requires Inv(start) && AllGenuine(before) && AllGenuine(between)
    ensures
      var (t, id) := Resolve(End(start, before), Bootstrap);
      Resolve(End(t, between), Bootstrap).1 == id
  {
    RunKeepsInv(start, before);
    var (t, id) := Resolve(End(start, before), Bootstrap);
    BootstrapSettles(End(start, before));
    SettledOverRuns(t, id, between);
    SettledStays(End(t, between), id, Bootstrap);
  }

  // -- One identity, one account ----------------------------------------------------------------

  /** The Google subjects seen in a run. */
  function Subjects(run: seq<SignIn>): (subs: set<string>) {
    set i | 0 <= i < |run| && run[i].Google? :: run[i].sub
  }

  lemma SubjectsMore(run: seq<SignIn>, s: SignIn)
    ensures Subjects(run + [s]) == Subjects(run) + if s.Google? then {s.sub} else {}
  {
    var all := run + [s];
    assert forall i :: 0 <= i < |run| ==> all[i] == run[i];
    assert all[|run|] == s;
    forall sub | sub in Subjects(run) ensures sub in Subjects(all) {
      var i :| 0 <= i < |run| && run[i].Google? && run[i].sub == sub;
      assert all[i].sub == sub;
    }
  }

  /** The subjects in the table are those seen so far, and possibly the synthetic one; that one
      appears alone until a Google sign-in takes its row over, or beside at least two others. */
  ghost predicate Tracks(t: Table, subs: set<string>) {
    && Inv(t)
    && (forall i :: 0 <= i < |t| && t[i].sub != LOCAL ==> t[i].sub in subs)
    && (forall sub :: sub in subs ==> exists i :: 0 <= i < |t| && t[i].sub == sub)
    && (forall i :: 0 <= i < |t| && t[i].sub == LOCAL ==> |t| == 1 || |t| >= 3)
  }

  lemma GoogleTracks(t: Table, subs: set<string>, sub: string, email: string)
    requires Tracks(t, subs) && sub != LOCAL && LOCAL !in subs
    ensures Tracks(Resolve(t, Google(sub, email)).0, subs + {sub})
  {
    ResolveKeepsInv(t, Google(sub, email));
    TwoDiffer(t);
    var (u, id) := Resolve(t, Google(sub, email));
    assert u[id].sub == sub;
    forall x | x in subs ensures exists i :: 0 <= i < |u| && u[i].sub == x {
      var i :| 0 <= i < |t| && t[i].sub == x;
      assert u[i].sub == x;
    }
  }

  lemma BootstrapTracks(t: Table, subs: set<string>)
    requires Tracks(t, subs) && LOCAL !in subs
    ensures Tracks(Resolve(t, Bootstrap).0, subs)
  {
    ResolveKeepsInv(t, Bootstrap);
    var (u, id) := Resolve(t, Bootstrap);
    forall x | x in subs ensures exists i :: 0 <= i < |u| && u[i].sub == x {
      var i :| 0 <= i < |t| && t[i].sub == x;
      assert u[i].sub == x;
    }
  }

  lemma TracksStep(t: Table, subs: set<string>, s: SignIn)
    requires Tracks(t, subs) && Genuine(s) && LOCAL !in subs
    ensures Tracks(Resolve(t, s).0, subs + if s.Google? then {s.sub} else {})
  {
    match s
    case Google(sub, email) => GoogleTracks(t, subs, sub, email);
    case Bootstrap =>
      BootstrapTracks(t, subs);
      assert subs + {} == subs;
  }

  lemma {:induction false} RunTracks(run: seq<SignIn>)
    requires AllGenuine(run)
    ensures Tracks(End([], run), Subjects(run)) && LOCAL !in Subjects(run)
  {
    if run != [] {
      var front, s := run[..|run| - 1], run[|run| - 1];
      RunTracks(front);
      assert run == front + [s];
      SubjectsMore(front, s);
      TracksStep(End([], front), Subjects(front), s);
    }
  }

  /** A server has at most one account exactly as long as at most one Google identity signed in. */
  lemma OneAccountIff(run: seq<SignIn>)
    requires AllGenuine(run)
    ensures |End([], run)| <= 1 <==> forall a, b :: a in Subjects(run) && b in Subjects(run) ==> a == b
  {
    RunTracks(run);
    var t, subs := End([], run), Subjects(run);
    if |t| >= 2 {
      assert t[0].sub != t[1].sub;
      if t[0].sub == LOCAL || t[1].sub == LOCAL {
        var k := if t[0].sub == LOCAL then 1 else 0;
        assert t[2].sub in subs && t[k].sub in subs && t[2].sub != t[k].sub;
      } else {
        assert t[0].sub in subs && t[1].sub in subs;
      }
    } else {
      forall a, b | a in subs && b in subs ensures a == b {
        var i :| 0 <= i < |t| && t[i].sub == a;
        var j :| 0 <= j < |t| && t[j].sub == b;
      }
    }
  }

  // -- The handlers as they change the table ------------------------------------------------------

  class AccountStore {
    var rows: Table

    constructor ()
      ensures rows == [] && Inv(rows)
    {
      rows := [];
    }

    method UpsertRow(sub: string, email: string, owner: bool) returns (id: nat)
      modifies this
      ensures (rows, id) == Upsert(old(rows), sub, email, owner)
    {
      var found := FindSub(rows, sub);
      if found.Some? {
        id := found.value;
        rows := rows[id := rows[id].(email := email)];
      } else {
        id := |rows|;
        rows := rows + [Account(sub, email, owner)];
      }
    }

    method AuthGoogle(sub: string, email: string) returns (id: nat)
      requires Inv(rows) && sub != LOCAL
      modifies this
      ensures (rows, id) == Resolve(old(rows), Google(sub, email)) && Inv(rows)
      ensures id < |rows| && rows[id].sub == sub
    {
      ResolveKeepsInv(rows, Google(sub, email));
      if rows != [] && OnlyLocal(rows) {
        rows := rows[0 := rows[0].(sub := sub, email := email)];
        return 0;
      }
      id := UpsertRow(sub, email, false);
    }

    method AuthBootstrap() returns (id: nat)
      requires Inv(rows)
      modifies this
      ensures (rows, id) == Resolve(old(rows), Bootstrap) && Settled(rows, id)
    {
      BootstrapSettles(rows);
      var flagged := FindOwner(rows);
      if flagged.Some? {
        return flagged.value;
      }
      if |rows| == 1 {
        rows := rows[0 := rows[0].(owner := true)];
        return 0;
      }
      id := UpsertRow(LOCAL, LOCAL_EMAIL, |rows| == 0);
    }
  }
}
