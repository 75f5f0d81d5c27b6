/**
 The always-on node: what the device records about it against what runs, and bills, in the cloud.

 Each command is a list of effects and may be cut short by a crash after any of them. A record is
 written in place, so a failed write leaves the old file or an unreadable one.
 */
module AlwaysOn {
  import opened Basics

  type Id = string

  datatype WriteOutcome = Written | Refused | Torn

  /** The cloud's answer to a delete call. A transport failure says nothing about whether the call
      took effect. */
  datatype Reply =
    | Deleted
    | Status(code: string, reason: string)
    | Transport(text: string, took: bool)

  datatype World = World(cloud: set<Id>, made: set<Id>, record: Option<Id>, key: bool)

  datatype Effect =
    | StoreKey
    | DropKey
    | Create(id: Id)
    | Save(id: Id, outcome: WriteOutcome)
    | Delete(id: Id, reply: Reply)
    | ClearRecord(removed: bool)

  // -- Replies -----------------------------------------------------------------------------

  predicate MatchAt(s: string, p: string, i: nat) {
    i + |p| <= |s| && s[i..i + |p|] == p
  }

  predicate Contains(s: string, p: string) {
    exists i :: 0 <= i <= |s| && MatchAt(s, p, i)
  }

  function Text(r: Reply): string
    requires !r.Deleted?
  {
    "network error: " + if r.Transport? then r.text else "Linode API " + r.code + ": " + r.reason
  }

  /** What the client takes for a confirmed delete. */
  predicate ReadAsGone(r: Reply) {
    r.Deleted? || Contains(Text(r), "404")
  }

  /** After the call the node is not in the cloud: it was deleted, or a 404 says it is not there. */
  predicate IsGone(r: Reply) {
    r.Deleted? || (r.Status? && r.code == "404") || (r.Transport? && r.took)
  }

  /** The client forgets a node that still runs. */
  predicate Misread(r: Reply) {
    ReadAsGone(r) && !IsGone(r)
  }

  lemma ContainsInside(before: string, s: string, after: string, p: string)
    requires Contains(s, p)
    ensures Contains(before + s + after, p)
  {
    var i :| 0 <= i <= |s| && MatchAt(s, p, i);
    var t, j := before + s + after, |before| + i;
    assert t[j..j + |p|] == s[i..i + |p|];
    assert MatchAt(t, p, j);
  }

  lemma CodeShown(code: string, reason: string)
    ensures Contains(Text(Status(code, reason)), code)
  {
    var before := "network error: " + "Linode API ";
    assert MatchAt(code, code, 0);
    ContainsInside(before, code, ": " + reason, code);
    assert Text(Status(code, reason)) == before + code + (": " + reason);
  }

  /** A genuine 404 is always recognised. */
  lemma NotFoundRecognised(reason: string)
    ensures ReadAsGone(Status("404", reason)) && !Misread(Status("404", reason))
  {
    CodeShown("404", reason);
  }

  /** A transport failure whose message quotes the request path is misread for every node whose
      identifier happens to contain the digits 404. */
  lemma PathMisread(id: Id, before: string, after: string)
    requires Contains(id, "404")
    ensures Misread(Transport(before + id + after, false))
  {
    ContainsInside("network error: " + before, id, after, "404");
    assert Text(Transport(before + id + after, false)) == "network error: " + before + id + after;
  }

  // -- Effects -----------------------------------------------------------------------------

  function Do(w: World, e: Effect): World {
    match e
    case StoreKey => w.(key := true)
    case DropKey => w.(key := false)
    case Create(id) => w.(cloud := w.cloud + {id}, made := w.made + {id})
    case Save(id, Written) => w.(record := Some(id))
    case Save(id, Refused) => w
    case Save(id, Torn) => w.(record := None)
    case Delete(id, reply) => if IsGone(reply) then w.(cloud := w.cloud - {id}) else w
    case ClearRecord(removed) => if removed then w.(record := None) else w
  }

  function After(w: World, es: seq<Effect>): World
    decreases |es|
  {
    if es == [] then w else After(Do(w, es[0]), es[1..])
  }

  /** Nodes this device made that still run and that it has no record of. */
  function Hidden(w: World): set<Id> {
    set id | id in w.made && id in w.cloud && w.record != Some(id)
  }

  // -- The commands --------------------------------------------------------------------------

  /** How a delete call and the removal of the record file after it go. */
  datatype Teardown = Teardown(reply: Reply, removed: bool)

  /** The record goes although the node runs. */
  predicate Forgets(t: Teardown) {
    Misread(t.reply) && t.removed
  }

  /** How the create call goes. When its reply is lost or unreadable the client is told of an error although
      the node runs. */
  datatype CreateReply = Told | TookEffect | NothingMade

  /** What the environment does to a deployment. */
  datatype Deployment = Deployment(
    keyStored: bool, create: CreateReply, save: WriteOutcome, undo: Reply, ready: bool, cleanup: Teardown,
    secondSave: WriteOutcome)

  function CleanupPlan(id: Id, t: Teardown): seq<Effect> {
    [Delete(id, t.reply)] + if ReadAsGone(t.reply) then [ClearRecord(t.removed), DropKey] else []
  }

  function DeployPlan(id: Id, d: Deployment): seq<Effect> {
    if !d.keyStored then []
    else if d.create.NothingMade? then [StoreKey, DropKey]
    else if d.create.TookEffect? then [StoreKey, Create(id), DropKey]
    else
      [StoreKey, Create(id), Save(id, d.save)] +
      if d.save != Written then [Delete(id, d.undo), DropKey]
      else if !d.ready then CleanupPlan(id, d.cleanup)
      else [Save(id, d.secondSave)]
  }

  datatype Command =
    | Deploy(id: Id, deployment: Deployment)
    | Destroy(token: bool, teardown: Teardown)
    | Import(id: Id, outcome: WriteOutcome)
    | Vanish(id: Id) // somebody removes the node in the provider's dashboard

  function Plan(w: World, c: Command): seq<Effect> {
    match c
    case Deploy(id, d) => if w.record.Some? then [] else DeployPlan(id, d)
    case Destroy(token, teardown) =>
      if w.record.None? then [DropKey] else if !token then [] else CleanupPlan(w.record.value, teardown)
    case Import(id, outcome) => if w.record.Some? then [] else [Save(id, outcome)]
    case Vanish(id) => [Delete(id, Deleted)]
  }

  /** The cloud gives a new node an identifier nobody had before. */
  predicate Enabled(w: World, c: Command) {
    c.Deploy? ==> c.id !in w.cloud && c.id !in w.made
  }

  // -- When a node gets hidden -----------------------------------------------------------------

  /** The deployment, cut after `k` effects, leaves its node hidden: the create call took effect but its
      reply did not arrive; or a crash fell between creating and recording it; or the record could not be written and the node was not removed again; or the
      cleanup misread its reply; or filling in the address tore the record. */
  predicate DeployHides(d: Deployment, k: nat) {
    && d.keyStored && !d.create.NothingMade? && k >= 2
    && (|| k == 2 || d.create.TookEffect?
        || (d.save != Written && !(k >= 4 && IsGone(d.undo)))
        || (d.save == Written && !d.ready && k >= 5 && Forgets(d.cleanup))
        || (d.save == Written && d.ready && k >= 4 && d.secondSave == Torn))
  }

  lemma AfterMore(w: World, e: Effect, es: seq<Effect>)
    ensures After(w, [e] + es) == After(Do(w, e), es)
  {
    assert ([e] + es)[1..] == es;
  }

  lemma {:induction false} AfterAppend(w: World, a: seq<Effect>, b: seq<Effect>)
    ensures After(w, a + b) == After(After(w, a), b)
    decreases |a|
  {
    if a == [] {
      assert a + b == b;
    } else {
      AfterAppend(Do(w, a[0]), a[1..], b);
      assert (a + b)[1..] == a[1..] + b;
    }
  }

  lemma AfterOne(w: World, e: Effect)
    ensures After(w, [e]) == Do(w, e)
  {
    assert [e][1..] == [];
  }

  lemma AfterTwo(w: World, e: Effect, f: Effect)
    ensures After(w, [e, f]) == Do(Do(w, e), f)
  {
    assert [e, f] == [e] + [f];
    AfterMore(w, e, [f]);
    AfterOne(Do(w, e), f);
  }

  lemma AfterThree(w: World, e: Effect, f: Effect, g: Effect)
    ensures After(w, [e, f, g]) == Do(Do(Do(w, e), f), g)
  {
    assert [e, f, g] == [e] + [f, g];
    AfterMore(w, e, [f, g]);
    AfterTwo(Do(w, e), f, g);
  }

  /** A cleanup cut after `k` effects. */
  lemma CleanupCut(w: World, id: Id, t: Teardown, k: nat)
    requires k <= |CleanupPlan(id, t)|
    ensures
      var end := After(w, CleanupPlan(id, t)[..k]);
      && end.cloud == (if k >= 1 && IsGone(t.reply) then w.cloud - {id} else w.cloud)
      && end.made == w.made && end.key == (w.key && k < 3)
      && end.record == if k >= 2 && t.removed then None else w.record
  {
    var plan, first, second := CleanupPlan(id, t), Delete(id, t.reply), ClearRecord(t.removed);
    if k == 1 {
      assert plan[..1] == [first];
      AfterOne(w, first);
    } else if k == 2 {
      assert plan[..2] == [first, second];
      AfterTwo(w, first, second);
    } else if k == 3 {
      assert plan[..3] == [first, second, DropKey];
      AfterThree(w, first, second, DropKey);
    }
  }

  /** The first three effects of a deployment that got as far as creating its node. */
  lemma DeployStart(w: World, id: Id, save: WriteOutcome)
    ensures After(w, [StoreKey, Create(id), Save(id, save)]) ==
      Do(w.(key := true, cloud := w.cloud + {id}, made := w.made + {id}), Save(id, save))
  {
    AfterThree(w, StoreKey, Create(id), Save(id, save));
  }

  lemma DeployTail(w: World, id: Id, d: Deployment, k: nat)
    requires d.keyStored && d.create.Told? && 3 <= k <= |DeployPlan(id, d)|
    ensures
      var mid := After(w, [StoreKey, Create(id), Save(id, d.save)]);
      After(w, DeployPlan(id, d)[..k]) == After(mid, DeployPlan(id, d)[3..k])
  {
    var plan := DeployPlan(id, d);
    assert plan[..k] == [StoreKey, Create(id), Save(id, d.save)] + plan[3..k];
    AfterAppend(w, [StoreKey, Create(id), Save(id, d.save)], plan[3..k]);
  }

  lemma DeployCutEarly(w: World, id: Id, d: Deployment, k: nat)
    requires w.record.None? && id !in w.cloud && id !in w.made && Hidden(w) == {}
    requires k <= |DeployPlan(id, d)| && (k < 3 || !d.create.Told?)
    ensures Hidden(After(w, DeployPlan(id, d)[..k])) == if DeployHides(d, k) then {id} else {}
  {
    var plan := DeployPlan(id, d);
    assert Hidden(w.(key := true)) == Hidden(w) && Hidden(w.(key := false)) == Hidden(w);
    if k == 1 {
      assert plan[..1] == [StoreKey];
      AfterOne(w, StoreKey);
    } else if k == 2 {
      assert plan[..2] == [StoreKey, plan[1]];
      AfterTwo(w, StoreKey, plan[1]);
      if !d.create.NothingMade? {
        OnlyNewHidden(w, Do(Do(w, StoreKey), Create(id)), id);
      }
    } else if k == 3 {
      assert plan[..3] == [StoreKey, Create(id), DropKey];
      AfterThree(w, StoreKey, Create(id), DropKey);
      OnlyNewHidden(w, After(w, plan[..3]), id);
    }
  }

  lemma OnlyNewHidden(w: World, v: World, id: Id)
    requires Hidden(w) == {} && w.record.None? && v.made == w.made + {id}
    requires v.cloud == w.cloud + {id} || v.cloud == w.cloud + {id} - {id}
    requires v.record == None || v.record == Some(id)
    ensures Hidden(v) == if id in v.cloud && v.record == None then {id} else {}
  {
    assert Hidden(v) <= Hidden(w) + {id};
  }

  lemma DeployCutLate(w: World, id: Id, d: Deployment, k: nat)
    requires w.record.None? && id !in w.cloud && id !in w.made && Hidden(w) == {}
    requires d.keyStored && d.create.Told? && 3 <= k <= |DeployPlan(id, d)|
    ensures Hidden(After(w, DeployPlan(id, d)[..k])) == if DeployHides(d, k) then {id} else {}
  {
    var plan := DeployPlan(id, d);
    var mid := After(w, [StoreKey, Create(id), Save(id, d.save)]);
    DeployStart(w, id, d.save);
    DeployTail(w, id, d, k);
    var rest := plan[3..k];
    var end := After(mid, rest);
    if d.save != Written {
      UndoCut(mid, id, d.undo, rest, k - 3);
    } else if !d.ready {
      assert rest == CleanupPlan(id, d.cleanup)[..k - 3];
      CleanupCut(mid, id, d.cleanup, k - 3);
    } else {
      assert |plan| == 4;
      if k == 4 {
        assert rest == [plan[3]] && plan[3] == Save(id, d.secondSave);
        AfterOne(mid, Save(id, d.secondSave));
      }
    }
    OnlyNewHidden(w, end, id);
  }

  lemma UndoCut(mid: World, id: Id, undo: Reply, rest: seq<Effect>, k: nat)
    requires k <= 2 && rest == [Delete(id, undo), DropKey][..k]
    ensures
      var end := After(mid, rest);
      && end.cloud == (if k >= 1 && IsGone(undo) then mid.cloud - {id} else mid.cloud)
      && end.made == mid.made && end.record == mid.record && end.key == (mid.key && k < 2)
  {
    if k == 1 {
      assert rest == [Delete(id, undo)];
      AfterOne(mid, Delete(id, undo));
    } else if k == 2 {
      assert rest == [Delete(id, undo), DropKey];
      AfterTwo(mid, Delete(id, undo), DropKey);
    }
  }

  /** A command, cut after `k` effects, hides a node. */
  predicate Hides(w: World, c: Command, k: nat) {
    match c
    case Deploy(_, d) => w.record.None? && DeployHides(d, k)
    case Destroy(token, teardown) => w.record.Some? && w.record.value in w.made && w.record.value in w.cloud
      && token && k >= 2 && Forgets(teardown)
    case Import(_, _) => false
    case Vanish(_) => false
  }

  /** Exactly these cuts hide a node; every other one leaves all of the device's running nodes on
      record. */
  lemma HiddenIff(w: World, c: Command, k: nat)
    requires Hidden(w) == {} && Enabled(w, c) && k <= |Plan(w, c)|
    ensures Hidden(After(w, Plan(w, c)[..k])) != {} <==> Hides(w, c, k)
  {
    var plan := Plan(w, c);
    match c
    case Deploy(id, d) =>
      if w.record.None? {
        if k < 3 || !d.create.Told? {
          DeployCutEarly(w, id, d, k);
        } else {
          DeployCutLate(w, id, d, k);
        }
      }
    case Destroy(token, teardown) =>
      if w.record.None? {
        if k == 1 {
          AfterOne(w, DropKey);
          assert plan[..1] == [DropKey];
          assert Hidden(w.(key := false)) == Hidden(w);
        }
      } else if token {
        DestroyCut(w, teardown, k);
      }
    case Import(id, outcome) =>
      if k == 1 {
        assert plan[..1] == [Save(id, outcome)];
        AfterOne(w, Save(id, outcome));
        NothingNew(w, After(w, plan[..1]));
      }
    case Vanish(id) =>
      if k == 1 {
        assert plan[..1] == [Delete(id, Deleted)];
        AfterOne(w, Delete(id, Deleted));
        NothingNew(w, After(w, plan[..1]));
      }
  }

  lemma NothingNew(w: World, v: World)
    requires Hidden(w) == {} && v.made == w.made && v.cloud <= w.cloud
    requires v.record == w.record || w.record.None?
    ensures Hidden(v) == {}
  {
    assert Hidden(v) <= Hidden(w);
  }

  lemma DestroyCut(w: World, t: Teardown, k: nat)
    requires Hidden(w) == {} && w.record.Some? && k <= |CleanupPlan(w.record.value, t)|
    ensures
      var id := w.record.value;
      Hidden(After(w, CleanupPlan(id, t)[..k])) ==
      if id in w.made && id in w.cloud && k >= 2 && Forgets(t) then {id} else {}
  {
    var id := w.record.value;
    CleanupCut(w, id, t, k);
    var end := After(w, CleanupPlan(id, t)[..k]);
    assert Hidden(end) <= Hidden(w) + {id};
  }

  // -- The tunnel key ---------------------------------------------------------------------------

  /** What is left of the key when a deployment has run to its end: kept exactly when the node is, as far as
      the client knows, still there to be reached. */
  lemma KeyAfterDeploy(w: World, id: Id, d: Deployment)
    requires w.record.None?
    ensures After(w, Plan(w, Deploy(id, d))).key ==
      if !d.keyStored then w.key
      else d.create.Told? && d.save == Written && (d.ready || !ReadAsGone(d.cleanup.reply))
  {
    var plan := DeployPlan(id, d);
    if d.keyStored && d.create.NothingMade? {
      AfterTwo(w, StoreKey, DropKey);
    } else if d.keyStored && d.create.TookEffect? {
      AfterThree(w, StoreKey, Create(id), DropKey);
    } else if d.keyStored {
      var n := |plan|;
      assert plan[..n] == plan && plan[3..n] == plan[3..];
      DeployTail(w, id, d, n);
      DeployStart(w, id, d.save);
      KeyAfterTail(After(w, [StoreKey, Create(id), Save(id, d.save)]), id, d);
    }
  }

  lemma KeyAfterTail(mid: World, id: Id, d: Deployment)
    requires d.keyStored && d.create.Told? && mid.key
    ensures After(mid, DeployPlan(id, d)[3..]).key == (d.save == Written && (d.ready || !ReadAsGone(d.cleanup.reply)))
  {
    var rest := DeployPlan(id, d)[3..];
    if d.save != Written {
      assert rest == [Delete(id, d.undo), DropKey];
      AfterTwo(mid, Delete(id, d.undo), DropKey);
    } else if !d.ready {
      assert rest == CleanupPlan(id, d.cleanup);
      KeyAfterCleanup(mid, id, d.cleanup);
    } else {
      assert rest == [Save(id, d.secondSave)];
      AfterOne(mid, Save(id, d.secondSave));
    }
  }

  lemma KeyAfterCleanup(w: World, id: Id, t: Teardown)
    ensures After(w, CleanupPlan(id, t)).key == (w.key && !ReadAsGone(t.reply))
  {
    var first, second := Delete(id, t.reply), ClearRecord(t.removed);
    if ReadAsGone(t.reply) {
      assert CleanupPlan(id, t) == [first, second, DropKey];
      AfterThree(w, first, second, DropKey);
    } else {
      assert CleanupPlan(id, t) == [first];
      AfterOne(w, first);
    }
  }

  /** Destroying drops the key exactly when there is no record or the reply reads as gone. */
  lemma KeyAfterDestroy(w: World, token: bool, t: Teardown)
    ensures After(w, Plan(w, Destroy(token, t))).key ==
      (w.key && w.record.Some? && !(token && ReadAsGone(t.reply)))
  {
    if w.record.None? {
      AfterOne(w, DropKey);
    } else {
      KeyAfterCleanup(w, w.record.value, t);
    }
  }

  /** The key comes before the money and goes last: a deployment's node is in the cloud only after the key
      was stored, and the key is there at every cut before the last effect. */
  lemma KeyBeforeNode(w: World, id: Id, d: Deployment, k: nat)
    requires id !in w.cloud && k <= |DeployPlan(id, d)|
    ensures
      var end := After(w, DeployPlan(id, d)[..k]);
      (id in end.cloud ==> d.keyStored && k >= 2) && (0 < k < |DeployPlan(id, d)| ==> end.key)
  {
    var plan := DeployPlan(id, d);
    if k == 1 {
      assert plan[..1] == [StoreKey];
      AfterOne(w, StoreKey);
    } else if k == 2 {
      assert plan[..2] == [StoreKey, plan[1]];
      AfterTwo(w, StoreKey, plan[1]);
    } else if k == 3 {
      assert plan[..3] == [StoreKey, plan[1], plan[2]];
      AfterThree(w, StoreKey, plan[1], plan[2]);
    } else if k > 3 && k < |plan| {
      DeployTail(w, id, d, k);
      DeployStart(w, id, d.save);
      var mid := After(w, [StoreKey, Create(id), Save(id, d.save)]);
      if d.save != Written {
        UndoCut(mid, id, d.undo, plan[3..k], k - 3);
      } else {
        assert plan[3..k] == CleanupPlan(id, d.cleanup)[..k - 3];
        CleanupCut(mid, id, d.cleanup, k - 3);
      }
    }
  }

  // -- Runs ------------------------------------------------------------------------------

  /** A command that ran for `k` effects before it ended or the device crashed. */
  datatype Event = Event(command: Command, k: nat)

  ghost predicate Possible(w: World, run: seq<Event>)
    decreases |run|
  {
    run == [] ||
    (Enabled(w, run[0].command) && run[0].k <= |Plan(w, run[0].command)| && Possible(Next(w, run[0]), run[1..]))
  }

  function Next(w: World, e: Event): World {
    if e.k <= |Plan(w, e.command)| then After(w, Plan(w, e.command)[..e.k]) else w
  }

  ghost predicate NoneHides(w: World, run: seq<Event>)
    decreases |run|
  {
    run == [] || (!Hides(w, run[0].command, run[0].k) && NoneHides(Next(w, run[0]), run[1..]))
  }

  function End(w: World, run: seq<Event>): World
    decreases |run|
  {
    if run == [] then w else End(Next(w, run[0]), run[1..])
  }

  /** Over every run of commands and crashes in which none of the listed accidents happens, every node
      the device made is on record or gone. */
  lemma {:induction false} NeverHidden(w: World, run: seq<Event>)
    requires Hidden(w) == {} && Possible(w, run) && NoneHides(w, run)
    ensures Hidden(End(w, run)) == {}
    decreases |run|
  {
    if run != [] {
      HiddenIff(w, run[0].command, run[0].k);
      NeverHidden(Next(w, run[0]), run[1..]);
    }
  }

  /** The first accident of a run does hide a node. */
  lemma {:induction false} AccidentHides(w: World, run: seq<Event>)
    requires Hidden(w) == {} && Possible(w, run) && !NoneHides(w, run)
    ensures exists n :: 0 < n <= |run| && Hidden(End(w, run[..n])) != {}
    decreases |run|
  {
    HiddenIff(w, run[0].command, run[0].k);
    var next := Next(w, run[0]);
    if Hides(w, run[0].command, run[0].k) {
      assert run[..1][1..] == [];
      assert End(w, run[..1]) == next;
    } else {
      AccidentHides(next, run[1..]);
      var n :| 0 < n <= |run[1..]| && Hidden(End(next, run[1..][..n])) != {};
      assert run[..n + 1][1..] == run[1..][..n];
      assert End(w, run[..n + 1]) == End(next, run[1..][..n]);
    }
  }

  // -- The commands as they run ---------------------------------------------------------------------

  /** The connection that is up, if any: to the always-on node or to another. */
  datatype Connection = Offline | Ephemeral | Persistent

  class Controller {
    var connecting: bool
    var vpn: Connection
    var w: World

    /** Record and key go only after a reply that reads as gone; the removal itself may fail unnoticed. */
    method CleanupFailedPersistent(id: Id, t: Teardown)
      modifies this`w
      ensures w == After(old(w), CleanupPlan(id, t))
      ensures w.record == if ReadAsGone(t.reply) && t.removed then None else old(w).record
      ensures w.cloud == if IsGone(t.reply) then old(w).cloud - {id} else old(w).cloud
    {
      ghost var before := w;
      w := Do(w, Delete(id, t.reply));
      AfterMore(before, Delete(id, t.reply), if ReadAsGone(t.reply) then [ClearRecord(t.removed), DropKey] else []);
      if ReadAsGone(t.reply) {
        AfterTwo(w, ClearRecord(t.removed), DropKey);
        w := Do(w, ClearRecord(t.removed));
        w := Do(w, DropKey);
      }
    }

    /** `preflight` covers the local prerequisites and the provider token. */
    method PersistentDeploy(id: Id, preflight: bool, d: Deployment, tunnelUp: bool) returns (ok: bool)
      modifies this
      ensures connecting == old(connecting)
      ensures w == if old(connecting) || !old(vpn).Offline? || !preflight then old(w)
                   else After(old(w), Plan(old(w), Deploy(id, d)))
      ensures ok <==>
        && !old(connecting) && old(w).record.None? && old(vpn).Offline? && preflight && d.keyStored
        && d.create.Told? && d.save == Written && d.ready && tunnelUp
      ensures ok ==> w.record == if d.secondSave == Torn then None else Some(id)
      ensures vpn == if ok then Persistent else old(vpn)
    {
      ghost var start := w;
      if connecting || w.record.Some? || !vpn.Offline? || !preflight || !d.keyStored {
        return false;
      }
      w := Do(w, StoreKey);
      if d.create.NothingMade? {
        AfterTwo(start, StoreKey, DropKey);
        w := Do(w, DropKey);
        return false;
      }
      if d.create.TookEffect? {
        AfterThree(start, StoreKey, Create(id), DropKey);
        w := Do(w, Create(id));
        w := Do(w, DropKey);
        return false;
      }
      w := Do(w, Create(id));
      w := Do(w, Save(id, d.save));
      AfterThree(start, StoreKey, Create(id), Save(id, d.save));
      ghost var mid := w;
      ghost var rest := DeployPlan(id, d)[3..];
      assert DeployPlan(id, d) == [StoreKey, Create(id), Save(id, d.save)] + rest;
      AfterAppend(start, [StoreKey, Create(id), Save(id, d.save)], rest);
      if d.save != Written {
        assert rest == [Delete(id, d.undo), DropKey];
        AfterTwo(mid, Delete(id, d.undo), DropKey);
        w := Do(w, Delete(id, d.undo));
        w := Do(w, DropKey);
        return false;
      }
      if !d.ready {
        assert rest == CleanupPlan(id, d.cleanup);
        CleanupFailedPersistent(id, d.cleanup);
        return false;
      }
      assert rest == [Save(id, d.secondSave)];
      AfterOne(mid, Save(id, d.secondSave));
      w := Do(w, Save(id, d.secondSave));
      if !tunnelUp {
        return false;
      }
      vpn := Persistent;
      return true;
    }

    /** Success is reported exactly when nothing was recorded or the reply reads as gone, and the record
        goes only then. */
    method PersistentDestroy(token: bool, t: Teardown) returns (ok: bool)
      modifies this
      ensures connecting == old(connecting)
      ensures w == if old(connecting) then old(w) else After(old(w), Plan(old(w), Destroy(token, t)))
      ensures ok <==> !old(connecting) && (old(w).record.None? || (token && ReadAsGone(t.reply)))
      ensures w.record == if ok && t.removed then None else old(w).record
      ensures vpn == if !old(connecting) && old(vpn).Persistent? then Offline else old(vpn)
    {
      if connecting {
        return false;
      }
      if vpn.Persistent? {
        vpn := Offline;
      }
      if w.record.None? {
        AfterOne(w, DropKey);
        w := Do(w, DropKey);
        return true;
      }
      if !token {
        return false;
      }
      CleanupFailedPersistent(w.record.value, t);
      return ReadAsGone(t.reply);
    }
  }
}
