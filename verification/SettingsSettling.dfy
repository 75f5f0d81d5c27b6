/**
 When the shared settings item stops changing: the exact condition for a whole fleet, and what it comes
 to for the fields a device never gives up, its server fingerprints and its always-on node.
 */
module SettingsSettling {
  import opened Basics
  import opened SettingsSync
  import opened SettingsFleet

  // -- Local-wins fields ---------------------------------------------------------------

  /** No server is pinned to two different fingerprints, and no two always-on nodes differ. */
  ghost predicate PinsAgree(p: Pins, q: Pins) {
    forall k :: k in p && k in q && p[k].fp != "" && q[k].fp != "" ==> p[k].fp == q[k].fp
  }

  ghost predicate RootsAgree(p: Pins, n: Option<Node>, q: Pins, m: Option<Node>) {
    PinsAgree(p, q) && (n.Some? && m.Some? ==> n == m)
  }

  ghost predicate DevicesAgree(f: Fleet) {
    forall a, b :: 0 <= a < |f.devices| && 0 <= b < |f.devices| ==>
      RootsAgree(f.devices[a].local.pins, f.devices[a].local.node, f.devices[b].local.pins, f.devices[b].local.node)
  }

  ghost predicate ItemAgrees(f: Fleet) {
    forall a :: 0 <= a < |f.devices| ==>
      RootsAgree(f.devices[a].local.pins, f.devices[a].local.node, Held(f.server).pins, Held(f.server).node)
  }

  ghost predicate NoBlankPins(f: Fleet) {
    NoBlank(Held(f.server).pins) && forall a :: 0 <= a < |f.devices| ==> NoBlank(f.devices[a].local.pins)
  }

  ghost predicate PinsBelow(p: Pins, q: Pins) {
    forall k :: k in p ==> k in q && (p[k].fp == "" || p[k].fp == q[k].fp) && (p[k].installed ==> q[k].installed)
  }

  ghost predicate Below(l: Local, h: Fields) {
    SharedBelow(l, h) && PinsBelow(l.pins, h.pins) && (l.node.None? || l.node == h.node)
  }

  ghost predicate Harmonious(f: Fleet) {
    Coherent(f) && NoBlankPins(f) && DevicesAgree(f) && ItemAgrees(f)
  }

  lemma PinsJoinAgree(p: Pins, q: Pins, r: Pins)
    requires PinsAgree(p, r) && PinsAgree(q, r)
    ensures PinsAgree(JoinPins(p, q), r) && PinsAgree(r, JoinPins(p, q))
  {
  }

  lemma PinsJoinAbove(p: Pins, q: Pins)
    ensures PinsBelow(p, q) ==> JoinPins(p, q) == q
    ensures PinsAgree(p, q) ==> PinsBelow(q, JoinPins(p, q))
    ensures PinsBelow(p, JoinPins(p, q))
  {
    if PinsBelow(p, q) {
      assert JoinPins(p, q).Keys == q.Keys;
    }
  }

  lemma HarmonyKept(f: Fleet, t: Turn)
    requires Harmonious(f) && t.d < |f.devices|
    ensures Harmonious(TakeTurn(f, t))
  {
    TurnOnServerItem(f, t);
    var l := f.devices[t.d].local;
    StepAgrees(l, f.server, t.now);
    var g := TakeTurn(f, t);
    forall a | 0 <= a < |f.devices|
      ensures RootsAgree(g.devices[t.d].local.pins, g.devices[t.d].local.node, f.devices[a].local.pins, f.devices[a].local.node)
      ensures RootsAgree(f.devices[a].local.pins, f.devices[a].local.node, g.devices[t.d].local.pins, g.devices[t.d].local.node)
    {
      assert RootsAgree(l.pins, l.node, f.devices[a].local.pins, f.devices[a].local.node);
      PinsJoinAgree(l.pins, Held(f.server).pins, f.devices[a].local.pins);
    }
  }

  lemma {:induction false} RunHarmonious(f: Fleet, turns: seq<Turn>)
    requires Harmonious(f) && OnFleet(f, turns)
    ensures Harmonious(RunFleet(f, turns))
    decreases |turns|
  {
    if turns != [] {
      HarmonyKept(f, turns[0]);
      RunHarmonious(TakeTurn(f, turns[0]), turns[1..]);
    }
  }

  // -- When the rewriting never stops -------------------------------------------------------

  ghost predicate Disagree(l: Local, m: Local) {
    !RootsAgree(l.pins, l.node, m.pins, m.node)
  }

  /** A device never gives up a fingerprint or a node it holds. */
  lemma {:induction false} RootsStay(f: Fleet, turns: seq<Turn>, d: nat)
    requires Coherent(f) && OnFleet(f, turns) && d < |f.devices|
    ensures var (l, l') := (f.devices[d].local, RunFleet(f, turns).devices[d].local);
      && (forall k :: k in l.pins && l.pins[k].fp != "" ==> k in l'.pins && l'.pins[k].fp == l.pins[k].fp)
      && (l.node.Some? ==> l'.node == l.node)
    decreases |turns|
  {
    if turns != [] {
      TurnOnServerItem(f, turns[0]);
      StepForm(f.devices[turns[0].d].local, f.server, turns[0].now);
      RootsStay(TakeTurn(f, turns[0]), turns[1..], d);
    }
  }

  /** After a turn the item carries that device's fingerprints and node. */
  lemma TurnPlantsRoots(f: Fleet, t: Turn, k: string)
    requires Coherent(f) && t.d < |f.devices|
    ensures var (l, h) := (f.devices[t.d].local, Held(TakeTurn(f, t).server));
      && (k in l.pins && l.pins[k].fp != "" ==> k in h.pins && h.pins[k].fp == l.pins[k].fp)
      && (l.node.Some? ==> h.node == l.node)
  {
    TurnOnServerItem(f, t);
    StepForm(f.devices[t.d].local, f.server, t.now);
    if k in f.devices[t.d].local.pins {
      assert k in TakeTurn(f, t).devices[t.d].local.pins;
    }
  }

  /** If two devices disagree, any stretch in which one takes a turn and later the other does
      contains a rewrite of the shared item. */
  lemma DisagreementRewrites(f: Fleet, a: Turn, mid: seq<Turn>, b: Turn)
    requires Coherent(f) && a.d < |f.devices| && b.d < |f.devices| && OnFleet(f, mid)
    requires Disagree(f.devices[a.d].local, f.devices[b.d].local)
    ensures OnFleet(f, [a] + mid + [b]) && RunFleet(f, [a] + mid + [b]).server != f.server
  {
    var g := TakeTurn(f, a);
    RunAppend(f, [a], mid);
    RunAppend(f, [a] + mid, [b]);
    assert RunFleet(f, [a]) == g;
    var m := RunFleet(g, mid);
    var z := TakeTurn(m, b);
    assert RunFleet(m, [b]) == z;
    TurnOnServerItem(f, a);
    RunCoherent(g, mid);
    TurnOnServerItem(m, b);
    if z.server == f.server {
      var l, q := f.devices[a.d].local, f.devices[b.d].local;
      RootsStay(f, [a] + mid, b.d);
      TurnPlantsRoots(f, a, "");
      TurnPlantsRoots(m, b, "");
      if !PinsAgree(l.pins, q.pins) {
        var k :| k in l.pins && k in q.pins && l.pins[k].fp != "" && q.pins[k].fp != "" && l.pins[k].fp != q.pins[k].fp;
        TurnPlantsRoots(f, a, k);
        TurnPlantsRoots(m, b, k);
      }
      assert false;
    }
  }

  // -- Exactly when sync settles --------------------------------------------------------------

  /** No later turn, by whatever device and at whatever time, changes the shared item. */
  ghost predicate Settled(f: Fleet) {
    forall later :: OnFleet(f, later) ==> RunFleet(f, later).server == f.server
  }

  ghost predicate AllQuiet(f: Fleet) {
    forall d :: 0 <= d < |f.devices| ==> NothingToAdd(f.devices[d].local, f.server)
  }

  lemma QuietTurn(f: Fleet, t: Turn)
    requires Coherent(f) && AllQuiet(f) && t.d < |f.devices|
    ensures TakeTurn(f, t).server == f.server && AllQuiet(TakeTurn(f, t))
  {
    TurnOnServerItem(f, t);
    var l := f.devices[t.d].local;
    NothingToAddIff(l, f.server);
    QuietStays(l, f.server, t.now);
    NothingToAddIff(TakeTurn(f, t).devices[t.d].local, f.server);
  }

  lemma {:induction false} AllQuietRun(f: Fleet, turns: seq<Turn>)
    requires Coherent(f) && AllQuiet(f) && OnFleet(f, turns)
    ensures RunFleet(f, turns).server == f.server
    decreases |turns|
  {
    if turns != [] {
      QuietTurn(f, turns[0]);
      TurnOnServerItem(f, turns[0]);
      AllQuietRun(TakeTurn(f, turns[0]), turns[1..]);
    }
  }

  lemma CoherentSettledIff(f: Fleet)
    requires Coherent(f)
    ensures Settled(f) <==> AllQuiet(f)
  {
    if AllQuiet(f) {
      forall later | OnFleet(f, later) ensures RunFleet(f, later).server == f.server {
        AllQuietRun(f, later);
      }
    }
    if Settled(f) {
      forall d | 0 <= d < |f.devices| ensures NothingToAdd(f.devices[d].local, f.server) {
        SettledTurn(f, d);
      }
    }
  }

  lemma SettledTurn(f: Fleet, d: nat)
    requires Settled(f) && d < |f.devices|
    ensures Known(f.devices[d].copy, f.server) && NothingToAdd(f.devices[d].local, f.server)
  {
    var t, dev := Turn(d, 0), f.devices[d];
    assert OnFleet(f, [t]);
    assert RunFleet(f, [t]) == TakeTurn(f, t);
    StepForm(dev.local, PullItem(dev.copy, f.server), 0);
  }

  ghost predicate AllKnown(f: Fleet) {
    forall d :: 0 <= d < |f.devices| ==> Known(f.devices[d].copy, f.server)
  }

  /** The item is settled for good if and only if no copy is ahead of it or tied with it and every device,
      on its own, has nothing to add to it. Nothing is asked of pins, nodes or copies. */
  lemma SettledIff(f: Fleet)
    requires Clean(f.server)
    ensures Settled(f) <==> AllKnown(f) && AllQuiet(f)
  {
    if Settled(f) {
      forall d | 0 <= d < |f.devices|
        ensures Known(f.devices[d].copy, f.server) && NothingToAdd(f.devices[d].local, f.server)
      {
        SettledTurn(f, d);
      }
    } else if AllKnown(f) {
      CoherentSettledIff(f);
    }
  }

  /** The blank-pin fleet of `BlankPinNeverSettles` is one that is not settled. */
  lemma BlankTugUnsettled(f: Fleet, a: nat, b: nat, k: string)
    requires BlankTug(f, a, b, k)
    ensures !Settled(f) && !AllQuiet(f)
  {
    var turns := [Turn(a, 0), Turn(b, 0)];
    BlankPinNeverSettles(f, a, b, k, 0, 0);
    assert OnFleet(f, turns);
    CoherentSettledIff(f);
  }

  /** A blank pin alone does no harm: with no pins on any other device the fleet is settled as soon as the
      item has what its holder exports and the others have nothing else to add. */
  lemma BlankPinSettles(f: Fleet, a: nat)
    requires Coherent(f) && a < |f.devices| && AllBlank(f.devices[a].local.pins) && f.devices[a].local.pins != map[]
    requires Export(f.devices[a].local) == Held(f.server)
    requires forall d :: 0 <= d < |f.devices| && d != a ==>
      && f.devices[d].local.pins == map[] && SharedBelow(f.devices[d].local, Held(f.server))
      && (f.devices[d].local.node.None? || f.devices[d].local.node == Held(f.server).node)
    ensures Settled(f)
  {
    forall d | 0 <= d < |f.devices| ensures NothingToAdd(f.devices[d].local, f.server) {
      if d == a {
        HolderQuiet(f.devices[d].local, f.server);
      } else {
        PinlessQuiet(f.devices[d].local, f.server);
      }
    }
    CoherentSettledIff(f);
  }

  lemma HolderQuiet(l: Local, item: Option<Item>)
    requires Clean(item) && Export(l) == Held(item)
    ensures NothingToAdd(l, item)
  {
    var h := Held(item);
    assert !PinsChange(l.pins, h.pins);
    AgreedIsQuiet(l, h);
  }

  lemma PinlessQuiet(l: Local, item: Option<Item>)
    requires Clean(item) && l.pins == map[] && AllBlank(Held(item).pins) && SharedBelow(l, Held(item))
    requires l.node.None? || l.node == Held(item).node
    ensures NothingToAdd(l, item)
  {
    var h := Held(item);
    assert !PinsChange(l.pins, h.pins);
    SharedBelowLayers(l, h);
    StepForm(l, item, 0);
    StepShares(l, item, 0);
  }

  // -- The condition on pins and nodes -----------------------------------------------------------

  /** After its turn a device is below the item, and stays there as long as no device disagrees with
      it: what the item holds of its pins and node can only be replaced by a disagreeing device. */
  lemma BelowUnlessDisagree(f: Fleet, t: Turn, d: nat)
    requires Coherent(f) && NoBlankPins(f) && t.d < |f.devices| && d < |f.devices|
    requires Below(f.devices[d].local, Held(f.server)) || t.d == d
    requires !Disagree(f.devices[d].local, f.devices[t.d].local)
    ensures var g := TakeTurn(f, t); NoBlankPins(g) && Below(g.devices[d].local, Held(g.server))
  {
    TurnOnServerItem(f, t);
    SharedTurn(f, t);
    var l, m, h := f.devices[d].local, f.devices[t.d].local, Held(f.server);
    StepAgrees(m, f.server, t.now);
    PinsJoinAbove(m.pins, h.pins);
    if t.d != d {
      PinsBelowJoin(l.pins, m.pins, h.pins);
    }
  }

  lemma PinsBelowJoin(p: Pins, q: Pins, h: Pins)
    requires PinsBelow(p, h) && PinsAgree(p, q)
    ensures PinsBelow(p, JoinPins(q, h))
  {
  }

  ghost predicate NeverDisagrees(f: Fleet, turns: seq<Turn>, d: nat)
    requires OnFleet(f, turns) && d < |f.devices|
  {
    forall e :: 0 <= e < |f.devices| ==>
      !Disagree(RunFleet(f, turns).devices[d].local, RunFleet(f, turns).devices[e].local)
  }

  lemma {:induction false} BelowAtEnd(f: Fleet, turns: seq<Turn>, d: nat)
    requires Coherent(f) && NoBlankPins(f) && OnFleet(f, turns) && d < |f.devices|
    requires HasTurn(turns, d) || Below(f.devices[d].local, Held(f.server))
    requires NeverDisagrees(f, turns, d)
    ensures
      var g := RunFleet(f, turns);
      Coherent(g) && NoBlankPins(g) && Below(g.devices[d].local, Held(g.server))
    decreases |turns|
  {
    if turns != [] {
      var t, g := turns[0], TakeTurn(f, turns[0]);
      TurnOnServerItem(f, t);
      AgreeingNow(f, turns, d, t.d);
      NoBlankKept(f, t);
      if t.d == d || Below(f.devices[d].local, Held(f.server)) {
        BelowUnlessDisagree(f, t, d);
      } else {
        var k :| 0 <= k < |turns| && turns[k].d == d;
        assert turns[1..][k - 1].d == d;
      }
      assert RunFleet(f, turns) == RunFleet(g, turns[1..]);
      BelowAtEnd(g, turns[1..], d);
    }
  }

  /** Roots never go away, so devices that agree at the end agree now. */
  lemma AgreeingNow(f: Fleet, turns: seq<Turn>, d: nat, e: nat)
    requires Coherent(f) && OnFleet(f, turns) && d < |f.devices| && e < |f.devices| && NeverDisagrees(f, turns, d)
    ensures !Disagree(f.devices[d].local, f.devices[e].local)
  {
    var g := RunFleet(f, turns);
    RootsStay(f, turns, d);
    RootsStay(f, turns, e);
    if Disagree(f.devices[d].local, f.devices[e].local) {
      DisagreementStays(f.devices[d].local, f.devices[e].local, g.devices[d].local, g.devices[e].local);
      assert false;
    }
  }

  lemma NoBlankKept(f: Fleet, t: Turn)
    requires Coherent(f) && NoBlankPins(f) && t.d < |f.devices|
    ensures NoBlankPins(TakeTurn(f, t))
  {
    TurnOnServerItem(f, t);
    StepAgrees(f.devices[t.d].local, f.server, t.now);
  }

  lemma {:induction false} NoBlankRun(f: Fleet, turns: seq<Turn>)
    requires Coherent(f) && NoBlankPins(f) && OnFleet(f, turns)
    ensures NoBlankPins(RunFleet(f, turns))
    decreases |turns|
  {
    if turns != [] {
      TurnOnServerItem(f, turns[0]);
      NoBlankKept(f, turns[0]);
      NoBlankRun(TakeTurn(f, turns[0]), turns[1..]);
    }
  }

  lemma BelowIsQuiet(l: Local, item: Option<Item>)
    requires Clean(item) && NoBlank(l.pins) && NoBlank(Held(item).pins) && Below(l, Held(item))
    ensures NothingToAdd(l, item)
  {
    StepShares(l, item, 0);
    StepAgrees(l, item, 0);
    StepForm(l, item, 0);
    SharedBelowLayers(l, Held(item));
    PinsJoinAbove(l.pins, Held(item).pins);
  }

  /** After any round of any coherent fleet without blank pins, whatever the item said before: the item is
      settled if and only if no two devices then hold different fingerprints for one server or different
      always-on nodes. */
  lemma SettlesIff(f: Fleet, round: seq<Turn>)
    requires Coherent(f) && NoBlankPins(f) && IsRound(f, round)
    ensures Settled(RunFleet(f, round)) <==> DevicesAgree(RunFleet(f, round))
  {
    var g := RunFleet(f, round);
    RunCoherent(f, round);
    NoBlankRun(f, round);
    if DevicesAgree(g) {
      forall d | 0 <= d < |g.devices| ensures NothingToAdd(g.devices[d].local, g.server) {
        BelowAtEnd(f, round, d);
        BelowIsQuiet(g.devices[d].local, g.server);
      }
      CoherentSettledIff(g);
    } else {
      var a, b :| 0 <= a < |g.devices| && 0 <= b < |g.devices| &&
        Disagree(g.devices[a].local, g.devices[b].local);
      DisagreementRewrites(g, Turn(a, 0), [], Turn(b, 0));
      assert OnFleet(g, [Turn(a, 0)] + [] + [Turn(b, 0)]);
    }
  }

  /** From any fleet: a first round that meets no quiet tie, then the same condition decides. */
  lemma AnyFleetSettlesIff(f: Fleet, round0: seq<Turn>, round: seq<Turn>)
    requires AllClean(f) && IsRound(f, round0) && NoQuietTie(f, round0) && IsRound(f, round)
    requires NoBlankPins(RunFleet(f, round0))
    ensures OnFleet(f, round0 + round)
    ensures Settled(RunFleet(f, round0 + round)) <==> DevicesAgree(RunFleet(f, round0 + round))
  {
    RoundReachesCoherent(f, round0);
    SettlesIff(RunFleet(f, round0), round);
    RunAppend(f, round0, round);
  }

  /** Read off the start: from an item that contradicts no device, agreement at the start decides. */
  lemma SettlesFromStartIff(f: Fleet, round: seq<Turn>)
    requires Coherent(f) && NoBlankPins(f) && ItemAgrees(f) && IsRound(f, round)
    ensures Settled(RunFleet(f, round)) <==> DevicesAgree(f)
  {
    SettlesIff(f, round);
    if DevicesAgree(f) {
      RunHarmonious(f, round);
    } else {
      var a, b :| 0 <= a < |f.devices| && 0 <= b < |f.devices| &&
        Disagree(f.devices[a].local, f.devices[b].local);
      var g := RunFleet(f, round);
      RootsStay(f, round, a);
      RootsStay(f, round, b);
      DisagreementStays(f.devices[a].local, f.devices[b].local, g.devices[a].local, g.devices[b].local);
    }
  }

  /** When the devices' pins and nodes agree, one round is enough: afterwards no turn writes. */
  lemma OneRoundSettles(f: Fleet, round: seq<Turn>, later: seq<Turn>)
    requires Coherent(f) && NoBlankPins(f) && IsRound(f, round) && DevicesAgree(RunFleet(f, round)) && OnFleet(f, later)
    ensures OnFleet(f, round + later) && RunFleet(f, round + later).server == RunFleet(f, round).server
  {
    RunAppend(f, round, later);
    SettlesIff(f, round);
  }

  lemma DisagreementStays(l: Local, m: Local, l': Local, m': Local)
    requires Disagree(l, m)
    requires forall k :: k in l.pins && l.pins[k].fp != "" ==> k in l'.pins && l'.pins[k].fp == l.pins[k].fp
    requires forall k :: k in m.pins && m.pins[k].fp != "" ==> k in m'.pins && m'.pins[k].fp == m.pins[k].fp
    requires (l.node.Some? ==> l'.node == l.node) && (m.node.Some? ==> m'.node == m.node)
    ensures Disagree(l', m')
  {
    if !PinsAgree(l.pins, m.pins) {
      var k :| k in l.pins && k in m.pins && l.pins[k].fp != "" && m.pins[k].fp != "" && l.pins[k].fp != m.pins[k].fp;
      assert l'.pins[k].fp != m'.pins[k].fp;
    }
  }

  /** A blank pin entry on `a` that `b` lacks and has no reason to save. */
  ghost predicate BlankTug(f: Fleet, a: nat, b: nat, k: string) {
    && Coherent(f) && a < |f.devices| && b < |f.devices| && a != b
    && var (p, q, h) := (f.devices[a].local.pins, f.devices[b].local.pins, Held(f.server).pins);
       && k in p && p[k] == Pin("", false) && PinAt(h, k) == Pin("", false)
       && k !in q && q != map[]
       && !PinsChange(q, ApplyPins(p, h))
  }

  /** Such an entry is written by one device and dropped by the other on every lap, for ever. */
  lemma BlankPinNeverSettles(f: Fleet, a: nat, b: nat, k: string, t: int, u: int)
    requires BlankTug(f, a, b, k)
    ensures var g := RunFleet(f, [Turn(a, t), Turn(b, u)]); BlankTug(g, a, b, k) && g.server != f.server
  {
    var m := TakeTurn(f, Turn(a, t));
    var g := TakeTurn(m, Turn(b, u));
    assert RunFleet(m, [Turn(b, u)]) == g;
    assert RunFleet(f, [Turn(a, t), Turn(b, u)]) == g by {
      assert [Turn(a, t), Turn(b, u)][1..] == [Turn(b, u)];
    }
    TurnOnServerItem(f, Turn(a, t));
    StepForm(f.devices[a].local, f.server, t);
    TurnOnServerItem(m, Turn(b, u));
    StepForm(m.devices[b].local, m.server, u);
    var p, q := m.devices[a].local.pins, f.devices[b].local.pins;
    assert k in p && p[k] == Pin("", false);
    assert Held(m.server).pins == p && Held(g.server).pins == q;
    assert g.server != m.server;
    TugPersists(p, q);
  }

  lemma TugPersists(p: Pins, q: Pins)
    requires !PinsChange(q, p)
    ensures !PinsChange(q, ApplyPins(p, q))
  {
    var r := ApplyPins(p, q);
    forall k | k in r ensures JoinPin(PinAt(q, k), r[k]) == PinAt(q, k) {
      if k in p {
        assert JoinPin(PinAt(q, k), p[k]) == PinAt(q, k);
      }
    }
  }
}
