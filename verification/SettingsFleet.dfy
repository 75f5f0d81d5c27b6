/**
 Any number of devices taking turns at a conflict-free sync cycle: pull the settings item
 (newest stamp wins), run the settings step, push the result.
 */
module SettingsFleet {
  import opened Basics
  import opened SettingsSync

  /** `copy` is the settings item in the device's own vault. */
  datatype Device = Device(local: Local, copy: Option<Item>)

  datatype Fleet = Fleet(server: Option<Item>, devices: seq<Device>)

  datatype Turn = Turn(d: nat, now: int)

  function PullItem(copy: Option<Item>, server: Option<Item>): Option<Item> {
    if server.None? then copy
    else if copy.None? || server.value.stamp > copy.value.stamp then server
    else copy
  }

  function TakeTurn(f: Fleet, t: Turn): (g: Fleet)
    requires t.d < |f.devices|
    ensures |g.devices| == |f.devices|
  {
    var dev := f.devices[t.d];
    var (l, item) := SyncSettings(dev.local, PullItem(dev.copy, f.server), t.now, {});
    Fleet(item, f.devices[t.d := Device(l, item)])
  }

  predicate OnFleet(f: Fleet, turns: seq<Turn>) {
    forall k :: 0 <= k < |turns| ==> turns[k].d < |f.devices|
  }

  function RunFleet(f: Fleet, turns: seq<Turn>): (g: Fleet)
    requires OnFleet(f, turns)
    ensures |g.devices| == |f.devices|
    decreases |turns|
  {
    if turns == [] then f else RunFleet(TakeTurn(f, turns[0]), turns[1..])
  }

  /** Every device has at least one turn. */
  ghost predicate IsRound(f: Fleet, turns: seq<Turn>) {
    OnFleet(f, turns) && forall d :: 0 <= d < |f.devices| ==> HasTurn(turns, d)
  }

  ghost predicate HasTurn(turns: seq<Turn>, d: nat) {
    exists k :: 0 <= k < |turns| && turns[k].d == d
  }

  /** No device holds a copy the server has not seen or superseded, and the item is clean. */
  ghost predicate Coherent(f: Fleet) {
    && Clean(f.server)
    && forall d :: 0 <= d < |f.devices| ==>
      var c := f.devices[d].copy;
      c.None? || c == f.server || (f.server.Some? && c.value.stamp < f.server.value.stamp)
  }

  lemma {:induction false} RunAppend(f: Fleet, a: seq<Turn>, b: seq<Turn>)
    requires OnFleet(f, a) && OnFleet(f, b)
    ensures OnFleet(f, a + b) && RunFleet(f, a + b) == RunFleet(RunFleet(f, a), b)
    decreases |a|
  {
    assert OnFleet(f, a + b);
    if a == [] {
      assert a + b == b;
    } else {
      assert (a + b)[1..] == a[1..] + b;
      RunAppend(TakeTurn(f, a[0]), a[1..], b);
    }
  }

  /** A turn works on the server's item, and only ever replaces it by a newer one. */
  lemma TurnOnServerItem(f: Fleet, t: Turn)
    requires Coherent(f) && t.d < |f.devices|
    ensures var g := TakeTurn(f, t);
      && (g.devices[t.d].local, g.server) == SyncSettings(f.devices[t.d].local, f.server, t.now, {})
      && g.devices == f.devices[t.d := Device(g.devices[t.d].local, g.server)]
      && Coherent(g)
      && (g.server != f.server ==> PrevStamp(g.server) > PrevStamp(f.server))
  {
    var dev := f.devices[t.d];
    assert PullItem(dev.copy, f.server) == f.server;
    StepShares(dev.local, f.server, t.now);
    StepForm(dev.local, f.server, t.now);
  }

  lemma {:induction false} RunCoherent(f: Fleet, turns: seq<Turn>)
    requires Coherent(f) && OnFleet(f, turns)
    ensures var g := RunFleet(f, turns);
      Coherent(g) && (g.server == f.server || PrevStamp(g.server) > PrevStamp(f.server))
    decreases |turns|
  {
    if turns != [] {
      TurnOnServerItem(f, turns[0]);
      RunCoherent(TakeTurn(f, turns[0]), turns[1..]);
    }
  }

  // -- Overwrite and incoming-wins fields -----------------------------------------------

  ghost predicate SharedBelow(l: Local, h: Fields) {
    SubMap(l.tokens, h.tokens) && SubMap(l.netdata, h.netdata) && SubMap(Export(l).prefs, h.prefs)
  }

  predicate SharedAgree(l: Local, h: Fields) {
    l.tokens == h.tokens && l.netdata == h.netdata && Export(l).prefs == h.prefs
  }

  predicate SharedSame(h: Fields, k: Fields) {
    h.tokens == k.tokens && h.netdata == k.netdata && h.prefs == k.prefs
  }

  lemma SharedBelowLayers(l: Local, h: Fields)
    requires SharedBelow(l, h)
    ensures l.tokens + h.tokens == h.tokens && l.netdata + h.netdata == h.netdata && Export(l).prefs + h.prefs == h.prefs
  {
  }

  /** A device and the item agree after the device's turn, and the item only grew. */
  lemma TurnAgrees(f: Fleet, t: Turn)
    requires Coherent(f) && t.d < |f.devices|
    ensures SharedAgree(TakeTurn(f, t).devices[t.d].local, Held(TakeTurn(f, t).server))
  {
    TurnOnServerItem(f, t);
    StepShares(f.devices[t.d].local, f.server, t.now);
  }

  lemma TurnKeepsBelow(f: Fleet, t: Turn, l: Local)
    requires Coherent(f) && t.d < |f.devices| && SharedBelow(l, Held(f.server))
    ensures SharedBelow(l, Held(TakeTurn(f, t).server))
  {
    TurnOnServerItem(f, t);
    StepShares(f.devices[t.d].local, f.server, t.now);
  }

  lemma TurnBelowSame(f: Fleet, t: Turn)
    requires Coherent(f) && t.d < |f.devices| && SharedBelow(f.devices[t.d].local, Held(f.server))
    ensures SharedSame(Held(f.server), Held(TakeTurn(f, t).server))
  {
    TurnOnServerItem(f, t);
    StepShares(f.devices[t.d].local, f.server, t.now);
    SharedBelowLayers(f.devices[t.d].local, Held(f.server));
  }

  lemma SharedTurn(f: Fleet, t: Turn)
    requires Coherent(f) && t.d < |f.devices|
    ensures var (g, h) := (TakeTurn(f, t), Held(f.server));
      && SharedAgree(g.devices[t.d].local, Held(g.server))
      && (forall l :: SharedBelow(l, h) ==> SharedBelow(l, Held(g.server)))
      && (SharedBelow(f.devices[t.d].local, h) ==> SharedSame(h, Held(g.server)))
  {
    TurnAgrees(f, t);
    forall l | SharedBelow(l, Held(f.server)) ensures SharedBelow(l, Held(TakeTurn(f, t).server)) {
      TurnKeepsBelow(f, t, l);
    }
    if SharedBelow(f.devices[t.d].local, Held(f.server)) {
      TurnBelowSame(f, t);
    }
  }

  lemma {:induction false} SharedBelowStays(f: Fleet, turns: seq<Turn>, d: nat)
    requires Coherent(f) && OnFleet(f, turns) && d < |f.devices|
    requires SharedBelow(f.devices[d].local, Held(f.server))
    ensures var g := RunFleet(f, turns); SharedBelow(g.devices[d].local, Held(g.server))
    decreases |turns|
  {
    if turns != [] {
      TurnOnServerItem(f, turns[0]);
      SharedTurn(f, turns[0]);
      SharedBelowStays(TakeTurn(f, turns[0]), turns[1..], d);
    }
  }

  lemma {:induction false} TurnSaturates(f: Fleet, turns: seq<Turn>, d: nat)
    requires Coherent(f) && OnFleet(f, turns) && d < |f.devices| && HasTurn(turns, d)
    ensures var g := RunFleet(f, turns); SharedBelow(g.devices[d].local, Held(g.server))
    decreases |turns|
  {
    var g := TakeTurn(f, turns[0]);
    TurnOnServerItem(f, turns[0]);
    SharedTurn(f, turns[0]);
    if turns[0].d == d {
      SharedBelowStays(g, turns[1..], d);
    } else {
      var k :| 0 <= k < |turns| && turns[k].d == d;
      assert turns[1..][k - 1].d == d;
      TurnSaturates(g, turns[1..], d);
    }
  }

  ghost predicate AllSharedBelow(f: Fleet) {
    forall d :: 0 <= d < |f.devices| ==> SharedBelow(f.devices[d].local, Held(f.server))
  }

  lemma {:induction false} SaturatedRun(f: Fleet, turns: seq<Turn>, d: nat)
    requires Coherent(f) && OnFleet(f, turns) && AllSharedBelow(f) && d < |f.devices|
    ensures var g := RunFleet(f, turns);
      && SharedSame(Held(f.server), Held(g.server))
      && (HasTurn(turns, d) || SharedAgree(f.devices[d].local, Held(f.server)) ==> SharedAgree(g.devices[d].local, Held(g.server)))
    decreases |turns|
  {
    if turns != [] {
      var g := TakeTurn(f, turns[0]);
      TurnOnServerItem(f, turns[0]);
      SharedTurn(f, turns[0]);
      if HasTurn(turns, d) && turns[0].d != d {
        var k :| 0 <= k < |turns| && turns[k].d == d;
        assert turns[1..][k - 1].d == d;
      }
      SaturatedRun(g, turns[1..], d);
    }
  }

  /** Two rounds bring every device and the item to the same tokens, Netdata map and preferences,
      and no later turn changes them, whatever the pins do. */
  lemma SharedFieldsConverge(f: Fleet, round1: seq<Turn>, round2: seq<Turn>, later: seq<Turn>)
    requires Coherent(f) && IsRound(f, round1) && IsRound(f, round2) && OnFleet(f, later)
    ensures OnFleet(f, round1 + round2) && OnFleet(f, round1 + round2 + later)
    ensures var (g, z) := (RunFleet(f, round1 + round2), RunFleet(f, round1 + round2 + later));
      && (forall d :: 0 <= d < |f.devices| ==> SharedAgree(g.devices[d].local, Held(g.server)))
      && (forall d :: 0 <= d < |f.devices| ==> SharedAgree(z.devices[d].local, Held(g.server)))
      && SharedSame(Held(RunFleet(f, round1).server), Held(z.server))
  {
    RunAppend(f, round1, round2);
    RunAppend(f, round1 + round2, later);
    var e := RunFleet(f, round1);
    var g := RunFleet(e, round2);
    var z := RunFleet(g, later);
    RunCoherent(f, round1);
    RunCoherent(e, round2);
    forall d | 0 <= d < |f.devices| ensures SharedBelow(e.devices[d].local, Held(e.server)) {
      TurnSaturates(f, round1, d);
    }
    forall d | 0 <= d < |f.devices| ensures SharedAgree(g.devices[d].local, Held(g.server)) && SharedSame(Held(e.server), Held(g.server)) {
      SaturatedRun(e, round2, d);
    }
    forall d | 0 <= d < |f.devices| ensures SharedAgree(z.devices[d].local, Held(z.server)) && SharedSame(Held(g.server), Held(z.server)) {
      SaturatedRun(g, later, d);
    }
    if |f.devices| == 0 {
      NoDevicesNoTurns(f, round1);
      NoDevicesNoTurns(e, round2);
      NoDevicesNoTurns(g, later);
    } else {
      assert SharedAgree(z.devices[0].local, Held(z.server));
      assert SharedAgree(g.devices[0].local, Held(g.server));
    }
  }

  lemma NoDevicesNoTurns(f: Fleet, turns: seq<Turn>)
    requires OnFleet(f, turns) && |f.devices| == 0
    ensures turns == [] && RunFleet(f, turns) == f
  {
    assert turns == [] || turns[0].d < |f.devices|;
  }

  // -- From any fleet -----------------------------------------------------------------------
  // A device that changed a setting writes the item into its own vault and pushes best-effort, so a
  // copy may be ahead of the server's.

  ghost predicate AllClean(f: Fleet) {
    Clean(f.server) && forall d :: 0 <= d < |f.devices| ==> Clean(f.devices[d].copy)
  }

  /** Same stamp, different contents: the merge prefers neither. */
  predicate Tied(a: Option<Item>, b: Option<Item>) {
    a.Some? && b.Some? && a.value.stamp == b.value.stamp && a != b
  }

  predicate MeetsTie(f: Fleet, t: Turn)
    requires t.d < |f.devices|
  {
    Tied(f.devices[t.d].copy, f.server)
  }

  /** The device keeps its own copy at a tie; only a device with something to add to it breaks the tie. */
  ghost predicate QuietTie(f: Fleet, t: Turn)
    requires t.d < |f.devices|
  {
    MeetsTie(f, t) && QuietOn(f.devices[t.d].local, f.devices[t.d].copy)
  }

  /** No turn of the run meets a tie at which it has nothing to add. */
  ghost predicate NoQuietTie(f: Fleet, turns: seq<Turn>)
    requires OnFleet(f, turns)
    decreases |turns|
  {
    turns == [] || (!QuietTie(f, turns[0]) && NoQuietTie(TakeTurn(f, turns[0]), turns[1..]))
  }

  /** This copy is no news to the server. */
  predicate Known(copy: Option<Item>, server: Option<Item>) {
    copy.None? || copy == server || (server.Some? && copy.value.stamp < server.value.stamp)
  }

  /** The server's item stays, is the first, or gives way to a strictly newer one. */
  predicate Forward(before: Option<Item>, after: Option<Item>) {
    after == before || before.None? || (after.Some? && after.value.stamp > before.value.stamp)
  }

  /** A turn of any fleet moves the server's item forward if and only if it does not meet a tie with
      nothing to add. */
  lemma ForwardIff(f: Fleet, t: Turn)
    requires t.d < |f.devices|
    ensures Forward(f.server, TakeTurn(f, t).server) <==> !QuietTie(f, t)
  {
    var dev := f.devices[t.d];
    var pulled := PullItem(dev.copy, f.server);
    StepForm(dev.local, pulled, t.now);
    NothingToAddIff(dev.local, pulled);
  }

  /** Such a turn leaves the device's copy known, and every copy known that was. */
  lemma UntiedTurn(f: Fleet, t: Turn)
    requires AllClean(f) && t.d < |f.devices| && !QuietTie(f, t)
    ensures
      var g := TakeTurn(f, t);
      && AllClean(g) && Known(g.devices[t.d].copy, g.server) && Forward(f.server, g.server)
      && (forall c :: Known(c, f.server) ==> Known(c, g.server))
  {
    var dev := f.devices[t.d];
    ForwardIff(f, t);
    StepShares(dev.local, PullItem(dev.copy, f.server), t.now);
  }

  lemma {:induction false} KnownAfterTurn(f: Fleet, turns: seq<Turn>, d: nat)
    requires AllClean(f) && OnFleet(f, turns) && NoQuietTie(f, turns) && d < |f.devices|
    requires HasTurn(turns, d) || Known(f.devices[d].copy, f.server)
    ensures var g := RunFleet(f, turns); AllClean(g) && Known(g.devices[d].copy, g.server)
    decreases |turns|
  {
    if turns != [] {
      UntiedTurn(f, turns[0]);
      if turns[0].d != d && HasTurn(turns, d) {
        var k :| 0 <= k < |turns| && turns[k].d == d;
        assert turns[1..][k - 1].d == d;
      }
      KnownAfterTurn(TakeTurn(f, turns[0]), turns[1..], d);
    }
  }

  /** One round in which no quiet tie is met brings any fleet, however far ahead its copies are, to one whose
      copies are all known to the server. */
  lemma RoundReachesCoherent(f: Fleet, round: seq<Turn>)
    requires AllClean(f) && IsRound(f, round) && NoQuietTie(f, round)
    ensures Coherent(RunFleet(f, round))
  {
    var g := RunFleet(f, round);
    forall d | 0 <= d < |f.devices| ensures Known(g.devices[d].copy, g.server) {
      KnownAfterTurn(f, round, d);
    }
    if |f.devices| == 0 {
      NoDevicesNoTurns(f, round);
    } else {
      KnownAfterTurn(f, round, 0);
    }
  }

  /** From any fleet, three rounds converge if the first meets no quiet tie. */
  lemma ThreeRoundsConverge(f: Fleet, round0: seq<Turn>, round1: seq<Turn>, round2: seq<Turn>, later: seq<Turn>)
    requires AllClean(f) && IsRound(f, round0) && NoQuietTie(f, round0)
    requires IsRound(f, round1) && IsRound(f, round2) && OnFleet(f, later)
    ensures OnFleet(f, round0 + (round1 + round2)) && OnFleet(f, round0 + (round1 + round2 + later))
    ensures
      var g := RunFleet(f, round0 + (round1 + round2));
      var z := RunFleet(f, round0 + (round1 + round2 + later));
      && SharedSame(Held(g.server), Held(z.server))
      && forall d :: 0 <= d < |f.devices| ==>
        SharedAgree(g.devices[d].local, Held(g.server)) && SharedAgree(z.devices[d].local, Held(g.server))
  {
    var e := RunFleet(f, round0);
    RoundReachesCoherent(f, round0);
    SharedFieldsConverge(e, round1, round2, later);
    SharedFieldsConverge(e, round1, round2, []);
    assert round1 + round2 + [] == round1 + round2;
    RunAppend(f, round0, round1 + round2);
    RunAppend(f, round0, round1 + round2 + later);
  }

  /** A caller can rule ties out beforehand: the items in play have different stamps, or are the same
      item, and every clock of the run reads above all of them. */
  ghost predicate Untied(f: Fleet) {
    && (forall a :: 0 <= a < |f.devices| ==> !Tied(f.devices[a].copy, f.server))
    && (forall a, b :: 0 <= a < |f.devices| && 0 <= b < |f.devices| ==> !Tied(f.devices[a].copy, f.devices[b].copy))
  }

  predicate StampUpTo(item: Option<Item>, bound: int) {
    item.Some? ==> item.value.stamp <= bound
  }

  ghost predicate StampsUpTo(f: Fleet, bound: int) {
    StampUpTo(f.server, bound) && forall d :: 0 <= d < |f.devices| ==> StampUpTo(f.devices[d].copy, bound)
  }

  /** Along such a run every copy is known to the server or still the one the device began with, and the
      server's item is one of those or newer than all of them. */
  ghost predicate Fanning(f: Fleet, start: Fleet, bound: int) {
    && |f.devices| == |start.devices| && AllClean(f)
    && (forall d :: 0 <= d < |f.devices| ==> Known(f.devices[d].copy, f.server) || f.devices[d].copy == start.devices[d].copy)
    && (|| f.server == start.server
        || (exists d :: 0 <= d < |start.devices| && f.server == start.devices[d].copy)
        || (f.server.Some? && f.server.value.stamp > bound))
  }

  lemma FanningTurn(f: Fleet, start: Fleet, bound: int, t: Turn)
    requires Fanning(f, start, bound) && Untied(start) && StampsUpTo(start, bound)
    requires t.d < |f.devices| && t.now > bound
    ensures !MeetsTie(f, t) && Fanning(TakeTurn(f, t), start, bound)
  {
    FanningMeetsNoTie(f, start, bound, t);
    UntiedTurn(f, t);
    var dev, g := f.devices[t.d], TakeTurn(f, t);
    var pulled := PullItem(dev.copy, f.server);
    StepForm(dev.local, pulled, t.now);
    assert g.server == pulled || (g.server.Some? && g.server.value.stamp > bound);
    if pulled != f.server {
      assert pulled == dev.copy;
      assert dev.copy == start.devices[t.d].copy;
    }
  }

  lemma FanningMeetsNoTie(f: Fleet, start: Fleet, bound: int, t: Turn)
    requires Fanning(f, start, bound) && Untied(start) && StampsUpTo(start, bound) && t.d < |f.devices|
    ensures !MeetsTie(f, t)
  {
    var c := f.devices[t.d].copy;
    if !Known(c, f.server) {
      assert c == start.devices[t.d].copy;
      assert !Tied(c, start.server) && StampUpTo(c, bound);
      if f.server != start.server && !(f.server.Some? && f.server.value.stamp > bound) {
        var b :| 0 <= b < |start.devices| && f.server == start.devices[b].copy;
        assert !Tied(start.devices[t.d].copy, start.devices[b].copy);
      }
    }
  }

  lemma {:induction false} FanningRun(f: Fleet, start: Fleet, bound: int, turns: seq<Turn>)
    requires Fanning(f, start, bound) && Untied(start) && StampsUpTo(start, bound) && OnFleet(f, turns)
    requires forall k :: 0 <= k < |turns| ==> turns[k].now > bound
    ensures NoQuietTie(f, turns)
    decreases |turns|
  {
    if turns != [] {
      FanningTurn(f, start, bound, turns[0]);
      FanningRun(TakeTurn(f, turns[0]), start, bound, turns[1..]);
    }
  }

  lemma ClocksAheadMeetNoTie(f: Fleet, turns: seq<Turn>, bound: int)
    requires AllClean(f) && Untied(f) && StampsUpTo(f, bound) && OnFleet(f, turns)
    requires forall k :: 0 <= k < |turns| ==> turns[k].now > bound
    ensures NoQuietTie(f, turns)
  {
    FanningRun(f, f, bound, turns);
  }

  /** Two rounds are not enough when a copy is ahead: the first device seeds an item the second one's
      copy then replaces, and the second device still lacks the first one's token. */
  lemma TwoRoundsNotEnough(f: Fleet, x: string, y: string)
    requires |f.devices| == 2 && f.server == None
    requires f.devices[0] == Device(Local(map["linode" := x], map[], map[], map[], None), None)
    requires f.devices[1] == Device(Local(map["hetzner" := y], map[], map[], map[], None),
      Some(Item(NO_FIELDS.(tokens := map["hetzner" := y]), 10)))
    ensures
      var turns := [Turn(0, 1), Turn(1, 2)] + [Turn(1, 3), Turn(0, 4)];
      && IsRound(f, [Turn(0, 1), Turn(1, 2)]) && IsRound(f, [Turn(1, 3), Turn(0, 4)]) && OnFleet(f, turns)
      && "linode" in Held(RunFleet(f, turns).server).tokens
      && "linode" !in RunFleet(f, turns).devices[1].local.tokens
  {
    var r1, r2 := [Turn(0, 1), Turn(1, 2)], [Turn(1, 3), Turn(0, 4)];
    assert r1[0].d == 0 && r1[1].d == 1 && r2[0].d == 1 && r2[1].d == 0;
    RunAppend(f, r1, r2);
    var f1 := TakeTurn(f, Turn(0, 1));
    var f2 := TakeTurn(f1, Turn(1, 2));
    var f3 := TakeTurn(f2, Turn(1, 3));
    var f4 := TakeTurn(f3, Turn(0, 4));
    RunTwo(f, Turn(0, 1), Turn(1, 2));
    RunTwo(f2, Turn(1, 3), Turn(0, 4));
    var ahead := f.devices[1].copy;
    SeedTurn(f, x);
    QuietAhead(f1, y, 2);
    QuietAhead(f2, y, 3);
    assert f3.server == ahead && f3.devices[0] == f1.devices[0];
    StepShares(f3.devices[0].local, ahead, 4);
  }

  lemma RunTwo(f: Fleet, t: Turn, u: Turn)
    requires t.d < |f.devices| && u.d < |f.devices|
    ensures RunFleet(f, [t, u]) == TakeTurn(TakeTurn(f, t), u)
  {
    assert [t, u][1..] == [u];
    assert RunFleet(TakeTurn(f, t), [u]) == TakeTurn(TakeTurn(f, t), u);
  }

  lemma SeedTurn(f: Fleet, x: string)
    requires |f.devices| == 2 && f.server == None
    requires f.devices[0] == Device(Local(map["linode" := x], map[], map[], map[], None), None)
    ensures
      var g := TakeTurn(f, Turn(0, 1));
      && g.server.Some? && g.server.value.stamp == 1 && g.devices[1] == f.devices[1]
      && g.devices[0].copy == g.server && g.devices[0].local.tokens == map["linode" := x]
  {
    assert Export(f.devices[0].local) != NO_FIELDS by {
      assert "linode" in Export(f.devices[0].local).tokens;
    }
  }

  lemma QuietAhead(f: Fleet, y: string, now: int)
    requires |f.devices| == 2 && f.server.Some? && f.server.value.stamp <= 10
    requires f.devices[1] == Device(Local(map["hetzner" := y], map[], map[], map[], None),
      Some(Item(NO_FIELDS.(tokens := map["hetzner" := y]), 10)))
    ensures TakeTurn(f, Turn(1, now)) == Fleet(f.devices[1].copy, f.devices)
  {
    var l, item := f.devices[1].local, f.devices[1].copy;
    var tokens := map["hetzner" := y];
    assert Held(item).tokens == tokens;
    AgreedIsQuiet(l, Held(item));
    assert ApplyFields(l, Held(item), {}) == l;
    assert f.devices[1 := f.devices[1]] == f.devices;
  }

  // -- Ties ---------------------------------------------------------------------------------

  /** Nothing makes the device rewrite this item. */
  ghost predicate QuietOn(l: Local, item: Option<Item>) {
    forall now :: SyncSettings(l, item, now, {}).1 == item
  }

  /** After applying the item the device exports nothing the item lacks. */
  ghost predicate NothingToAdd(l: Local, item: Option<Item>) {
    !NeedsHeal(Export(ApplyFields(l, Held(item), {})), Held(item))
  }

  lemma NothingToAddIff(l: Local, item: Option<Item>)
    ensures NothingToAdd(l, item) <==> QuietOn(l, item)
  {
    forall now ensures SyncSettings(l, item, now, {}).1 == item <==> NothingToAdd(l, item) {
      StepForm(l, item, now);
    }
    assert QuietOn(l, item) ==> SyncSettings(l, item, 0, {}).1 == item;
  }

  lemma QuietStays(l: Local, item: Option<Item>, now: int)
    requires Clean(item) && QuietOn(l, item)
    ensures QuietOn(SyncSettings(l, item, now, {}).0, item)
  {
    var l' := SyncSettings(l, item, now, {}).0;
    forall later ensures SyncSettings(l', item, later, {}).1 == item {
      StepIdempotent(l, item, now, later);
    }
  }

  /** Two devices at rest on tied copies, and a server that holds nothing newer. */
  ghost predicate Deadlock(f: Fleet, a: nat, b: nat) {
    && a < |f.devices| && b < |f.devices| && a != b
    && Tied(f.devices[a].copy, f.devices[b].copy)
    && Clean(f.devices[a].copy) && Clean(f.devices[b].copy)
    && QuietOn(f.devices[a].local, f.devices[a].copy) && QuietOn(f.devices[b].local, f.devices[b].copy)
    && (f.server.None? || f.server.value.stamp <= f.devices[a].copy.value.stamp)
  }

  /** Whichever of the two takes a turn puts its own item on the server and learns nothing. */
  lemma DeadlockTurn(f: Fleet, a: nat, b: nat, t: Turn)
    requires Deadlock(f, a, b) && (t.d == a || t.d == b)
    ensures
      var g := TakeTurn(f, t);
      && Deadlock(g, a, b) && g.server == f.devices[t.d].copy
      && g.devices[a].copy == f.devices[a].copy && g.devices[b].copy == f.devices[b].copy
      && g.devices[t.d].local.tokens == Held(f.devices[t.d].copy).tokens
  {
    var dev := f.devices[t.d];
    assert PullItem(dev.copy, f.server) == dev.copy;
    QuietStays(dev.local, dev.copy, t.now);
    StepShares(dev.local, dev.copy, t.now);
    assert SyncSettings(dev.local, dev.copy, t.now, {}).1 == dev.copy;
  }

  /** Tied devices never converge: after any number of their turns, in any order and at any times, the
      server holds the item of whichever went last, each device has its own copy and, once it took a
      turn, its own tokens. */
  lemma {:induction false} TiesNeverConverge(f: Fleet, a: nat, b: nat, turns: seq<Turn>)
    requires Deadlock(f, a, b) && turns != []
    requires forall k :: 0 <= k < |turns| ==> turns[k].d == a || turns[k].d == b
    ensures OnFleet(f, turns)
    ensures
      var g := RunFleet(f, turns);
      && Deadlock(g, a, b) && g.server == f.devices[turns[|turns| - 1].d].copy
      && g.devices[a].copy == f.devices[a].copy && g.devices[b].copy == f.devices[b].copy
      && g.devices[turns[|turns| - 1].d].local.tokens == Held(f.devices[turns[|turns| - 1].d].copy).tokens
    decreases |turns|
  {
    var front, last := turns[..|turns| - 1], turns[|turns| - 1];
    assert OnFleet(f, turns) && turns == front + [last];
    RunAppend(f, front, [last]);
    var g := RunFleet(f, front);
    if front != [] {
      TiesNeverConverge(f, a, b, front);
    }
    DeadlockTurn(g, a, b, last);
    assert RunFleet(g, [last]) == TakeTurn(g, last);
  }

  /** How a tie arises: two devices without an item seed one in the same second. If they hold different
      settings, the first push and the other's conflict path leave them deadlocked. */
  lemma SeedsInOneSecondDeadlock(l: Local, m: Local, now: int)
    requires Export(l) != NO_FIELDS && Export(m) != NO_FIELDS && Export(l) != Export(m)
    ensures
      var (l', mine) := SyncSettings(l, None, now, {});
      var (m', theirs) := SyncSettings(m, None, now, {});
      Deadlock(Fleet(mine, [Device(l', mine), Device(m', theirs)]), 0, 1)
  {
    var (l', mine) := SyncSettings(l, None, now, {});
    var (m', theirs) := SyncSettings(m, None, now, {});
    SeedQuiet(l, now);
    SeedQuiet(m, now);
  }

  lemma SeedQuiet(l: Local, now: int)
    requires Export(l) != NO_FIELDS
    ensures
      var (l', item) := SyncSettings(l, None, now, {});
      && item == Some(Item(Export(l), Max(now, 1))) && Clean(item) && QuietOn(l', item)
  {
    var (l', item) := SyncSettings(l, None, now, {});
    assert Filled(Export(l), NO_FIELDS) == Export(l) by {
      assert map[] + Export(l).tokens == Export(l).tokens;
    }
    forall later ensures SyncSettings(l', item, later, {}).1 == item {
      StepIdempotent(l, None, now, later);
    }
  }
}
