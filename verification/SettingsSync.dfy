/**
 The device-settings item and what one settings step does on a device.

 Field values are modelled parsed and trimmed: a JSON map is a map, an unset field is an absent
 key, an empty map or `None`.
 */
module SettingsSync {
  import opened Basics

  type Dict = map<string, string>

  datatype Pin = Pin(fp: string, installed: bool)

  type Pins = map<string, Pin>

  /** The always-on node: its record and the tunnel key that goes with it, empty if there is none. */
  datatype Node = Node(record: string, key: string)

  /** The fields of the shared item, and what a device exports. */
  datatype Fields = Fields(tokens: Dict, netdata: Dict, prefs: Dict, pins: Pins, node: Option<Node>)

  const NO_FIELDS := Fields(map[], map[], map[], map[], None)

  datatype Item = Item(fields: Fields, stamp: int)

  const DEVICE_LOCAL: set<string> := {"requireHello", "applockTotpEnabled", "telemetry"}

  /** What a device holds: `prefs` is the whole settings file, device-local keys included. */
  datatype Local = Local(tokens: Dict, netdata: Dict, prefs: Dict, pins: Pins, node: Option<Node>)

  function Export(l: Local): Fields {
    Fields(l.tokens, l.netdata, l.prefs - DEVICE_LOCAL, l.pins, l.node)
  }

  // -- Appliers -------------------------------------------------------------------

  function ApplyPrefs(prefs: Dict, incoming: Dict): Dict {
    if incoming == map[] then prefs
    else (prefs + (incoming - DEVICE_LOCAL))["telemetry" := "false"]
  }

  function PinAt(m: Pins, k: string): Pin {
    if k in m then m[k] else Pin("", false)
  }

  /** A pinned fingerprint stays; the install hint is or-ed. */
  function JoinPin(mine: Pin, theirs: Pin): Pin {
    Pin(if mine.fp == "" then theirs.fp else mine.fp, mine.installed || theirs.installed)
  }

  function JoinPins(mine: Pins, theirs: Pins): Pins {
    map k | k in mine.Keys + theirs.Keys :: JoinPin(PinAt(mine, k), PinAt(theirs, k))
  }

  predicate PinsChange(mine: Pins, theirs: Pins) {
    exists k :: k in theirs && JoinPin(PinAt(mine, k), theirs[k]) != PinAt(mine, k)
  }

  /** The state of the pin loop while the keys in `rest` are still to come. */
  ghost predicate PinsMerged(mine: Pins, theirs: Pins, rest: set<string>, cfg: Pins, changed: bool) {
    && rest <= theirs.Keys
    && cfg.Keys == mine.Keys + (theirs.Keys - rest)
    && (forall k :: k in cfg ==>
      cfg[k] == if k in theirs.Keys - rest then JoinPin(PinAt(mine, k), theirs[k]) else mine[k])
    && (changed <==> exists k :: k in theirs.Keys - rest && JoinPin(PinAt(mine, k), theirs[k]) != PinAt(mine, k))
  }

  lemma PinStep(mine: Pins, theirs: Pins, rest: set<string>, cfg: Pins, changed: bool, k: string)
    requires PinsMerged(mine, theirs, rest, cfg, changed) && k in rest
    ensures PinAt(cfg, k) == PinAt(mine, k)
    ensures
      var joined := JoinPin(PinAt(mine, k), theirs[k]);
      PinsMerged(mine, theirs, rest - {k}, cfg[k := joined], changed || joined != PinAt(mine, k))
  {
  }

  lemma AllPinsMerged(mine: Pins, theirs: Pins, cfg: Pins, changed: bool)
    requires PinsMerged(mine, theirs, {}, cfg, changed)
    ensures ApplyPins(mine, theirs) == if changed then cfg else mine
  {
    assert theirs.Keys - {} == theirs.Keys;
    assert cfg == JoinPins(mine, theirs);
  }

  /** The joined map is saved only if some pin changed. */
  function ApplyPins(mine: Pins, theirs: Pins): Pins {
    if PinsChange(mine, theirs) then JoinPins(mine, theirs) else mine
  }

  /** Names, beside those of the tokens, of the two writes that seed the node. */
  const NODE_RECORD: string := "node record"
  const NODE_KEY: string := "node key"

  /** The record is written first; its key only after that, and a refused key is not reported. */
  function AdoptNode(incoming: Option<Node>, fails: set<string>): Option<Node> {
    if incoming.None? || NODE_RECORD in fails then None
    else if NODE_KEY in fails then Some(incoming.value.(key := ""))
    else incoming
  }

  /** Vault to device; `fails` are the token fields and node parts that do not reach the device, because the keychain
      refuses the write or the value fails its own check, as an SSH key that does not parse does. */
  function ApplyFields(l: Local, f: Fields, fails: set<string>): Local {
    Local(
      l.tokens + (f.tokens - fails),
      l.netdata + f.netdata,
      ApplyPrefs(l.prefs, f.prefs),
      ApplyPins(l.pins, f.pins),
      if l.node.Some? then l.node else AdoptNode(f.node, fails))
  }

  /** Some exported field is set and is not what the item holds. */
  predicate NeedsHeal(f: Fields, held: Fields) {
    || (exists k :: k in f.tokens && (k !in held.tokens || held.tokens[k] != f.tokens[k]))
    || (f.netdata != map[] && f.netdata != held.netdata)
    || (f.prefs != map[] && f.prefs != held.prefs)
    || (f.pins != map[] && f.pins != held.pins)
    || (f.node.Some? && f.node != held.node)
  }

  /** The rebuilt item: a field the device has no value for keeps the value already there. */
  function Filled(f: Fields, held: Fields): Fields {
    Fields(
      held.tokens + f.tokens,
      if f.netdata == map[] then held.netdata else f.netdata,
      if f.prefs == map[] then held.prefs else f.prefs,
      if f.pins == map[] then held.pins else f.pins,
      if f.node.None? then held.node else f.node)
  }

  function Held(item: Option<Item>): Fields {
    if item.Some? then item.value.fields else NO_FIELDS
  }

  function PrevStamp(item: Option<Item>): int {
    if item.Some? then item.value.stamp else 0
  }

  function Written(f: Fields, item: Option<Item>, now: int): Item {
    Item(Filled(f, Held(item)), Max(now, PrevStamp(item) + 1))
  }

  /** `sync_device_settings`: apply, then rewrite the item if the device knows more. */
  function SyncSettings(l: Local, item: Option<Item>, now: int, fails: set<string>): (Local, Option<Item>) {
    match item
    case Some(it) =>
      var l' := ApplyFields(l, it.fields, fails);
      if NeedsHeal(Export(l'), it.fields) then (l', Some(Written(Export(l'), item, now))) else (l', item)
    case None =>
      if Export(l) == NO_FIELDS then (l, None) else (l, Some(Written(Export(l), None, now)))
  }

  // -- The step, in place ------------------------------------------------------------

  class DeviceStore {
    var tokens: Dict
    var netdata: Dict
    var prefs: Dict
    var pins: Pins
    var node: Option<Node>
    var item: Option<Item>

    function Values(): Local
      reads this
    {
      Local(tokens, netdata, prefs, pins, node)
    }

    method AdoptTokens(incoming: Dict, fails: set<string>)
      modifies this`tokens
      ensures tokens == old(tokens) + (incoming - fails)
    {
      var rest := incoming.Keys;
      while rest != {}
        invariant rest <= incoming.Keys
        invariant tokens == old(tokens) + (incoming - fails - rest)
        decreases rest
      {
        var name :| name in rest;
        rest := rest - {name};
        if name !in fails && (name !in tokens || tokens[name] != incoming[name]) {
          tokens := tokens[name := incoming[name]];
        }
        assert tokens == old(tokens) + (incoming - fails - rest);
      }
    }

    method MergeNetdata(incoming: Dict)
      modifies this`netdata
      ensures netdata == old(netdata) + incoming
    {
      var rest := incoming.Keys;
      while rest != {}
        invariant rest <= incoming.Keys
        invariant netdata == old(netdata) + (incoming - rest)
        decreases rest
      {
        var k :| k in rest;
        rest := rest - {k};
        netdata := netdata[k := incoming[k]];
        assert netdata == old(netdata) + (incoming - rest);
      }
    }

    method MergePrefs(incoming: Dict)
      modifies this`prefs
      ensures prefs == ApplyPrefs(old(prefs), incoming)
    {
      if incoming == map[] {
        return;
      }
      var rest := incoming.Keys;
      while rest != {}
        invariant rest <= incoming.Keys
        invariant prefs == old(prefs) + (incoming - DEVICE_LOCAL - rest)
        decreases rest
      {
        var k :| k in rest;
        rest := rest - {k};
        if k !in DEVICE_LOCAL {
          prefs := prefs[k := incoming[k]];
        }
        assert prefs == old(prefs) + (incoming - DEVICE_LOCAL - rest);
      }
      prefs := prefs["telemetry" := "false"];
    }

    method MergePins(incoming: Pins)
      modifies this`pins
      ensures pins == ApplyPins(old(pins), incoming)
    {
      var cfg, changed, rest := pins, false, incoming.Keys;
      while rest != {}
        invariant pins == old(pins) && PinsMerged(pins, incoming, rest, cfg, changed)
        decreases rest
      {
        var k :| k in rest;
        PinStep(pins, incoming, rest, cfg, changed, k);
        var entry, v := PinAt(cfg, k), incoming[k];
        if entry.fp == "" && v.fp != "" {
          entry, changed := entry.(fp := v.fp), true;
        }
        if v.installed && !entry.installed {
          entry, changed := entry.(installed := true), true;
        }
        cfg, rest := cfg[k := entry], rest - {k};
      }
      AllPinsMerged(pins, incoming, cfg, changed);
      if changed {
        pins := cfg;
      }
    }

    method ImportNode(incoming: Option<Node>, fails: set<string>)
      modifies this`node
      ensures node == if old(node).Some? then old(node) else AdoptNode(incoming, fails)
    {
      if node.Some? || incoming.None? {
        return;
      }
      if NODE_RECORD !in fails {
        node := Some(Node(incoming.value.record, ""));
        if incoming.value.key != "" && NODE_KEY !in fails {
          node := Some(Node(incoming.value.record, incoming.value.key));
        }
      }
    }

    method WriteItem(values: Fields, now: int)
      modifies this`item
      ensures item == Some(Written(values, old(item), now))
    {
      var prev := if item.Some? then item.value.stamp else 0;
      item := Some(Item(Filled(values, Held(item)), Max(now, prev + 1)));
    }

    /** The apply loop, field by field. */
    method ApplyItem(f: Fields, fails: set<string>)
      modifies this
      ensures Values() == ApplyFields(old(Values()), f, fails) && item == old(item)
    {
      AdoptTokens(f.tokens, fails);
      MergeNetdata(f.netdata);
      MergePrefs(f.prefs);
      MergePins(f.pins);
      ImportNode(f.node, fails);
    }

    method SyncDeviceSettings(now: int, fails: set<string>) returns (changedVault: bool)
      modifies this
      ensures (Values(), item) == SyncSettings(old(Values()), old(item), now, fails)
      ensures changedVault <==> item != old(item)
    {
      if item.Some? {
        var f := item.value.fields;
        ApplyItem(f, fails);
        if NeedsHeal(Export(Values()), f) {
          WriteItem(Export(Values()), now);
          return true;
        }
        return false;
      }
      if Export(Values()) == NO_FIELDS {
        return false;
      }
      WriteItem(Export(Values()), now);
      return true;
    }
  }

  // -- One step -------------------------------------------------------------------------

  /** No pin entry is entirely blank. */
  ghost predicate NoBlank(p: Pins) {
    forall k :: k in p ==> p[k] != Pin("", false)
  }

  /** The item carries no device-local preference; every item this code writes is like that. */
  ghost predicate Clean(item: Option<Item>) {
    Held(item).prefs.Keys !! DEVICE_LOCAL
  }

  lemma ApplyPinsIsJoin(mine: Pins, theirs: Pins)
    requires NoBlank(theirs)
    ensures ApplyPins(mine, theirs) == JoinPins(mine, theirs)
  {
    if !PinsChange(mine, theirs) {
      forall k | k in theirs ensures k in mine && JoinPin(mine[k], theirs[k]) == mine[k] {
      }
      assert JoinPins(mine, theirs) == mine;
    }
  }

  /** Both branches of the step in one form: the device after applying, and the fields the item
      holds afterwards, written or not. */
  lemma StepForm(l: Local, item: Option<Item>, now: int)
    ensures var (l', it') := SyncSettings(l, item, now, {});
      && l' == ApplyFields(l, Held(item), {})
      && Held(it') == Filled(Export(l'), Held(item))
      && (it' != item <==> NeedsHeal(Export(l'), Held(item)))
      && (it' != item ==> it'.Some? && it'.value.stamp > PrevStamp(item))
  {
    var h := Held(item);
    var l' := ApplyFields(l, h, {});
    if item.None? {
      assert !PinsChange(l.pins, map[]);
      assert l' == l by {
        assert l.tokens + (map[] - {}) == l.tokens && l.netdata + map[] == l.netdata;
      }
      SeedMeansHeal(Export(l));
    }
    if !NeedsHeal(Export(l'), h) {
      assert h.tokens + Export(l').tokens == h.tokens;
      assert Filled(Export(l'), h) == h;
    }
  }

  lemma SeedMeansHeal(f: Fields)
    ensures NeedsHeal(f, NO_FIELDS) <==> f != NO_FIELDS
  {
    if f.tokens != map[] {
      var k :| k in f.tokens;
    }
  }

  /** The incoming-wins part of a step, with nothing asked of pins or node: device and item agree
      afterwards, on the old item laid over the device's own values. */
  lemma StepShares(l: Local, item: Option<Item>, now: int)
    requires Clean(item)
    ensures var (l', it') := SyncSettings(l, item, now, {});
      && Clean(it')
      && Held(it').tokens == l'.tokens == l.tokens + Held(item).tokens
      && Held(it').netdata == l'.netdata == l.netdata + Held(item).netdata
      && Held(it').prefs == Export(l').prefs == Export(l).prefs + Held(item).prefs
  {
    StepForm(l, item, now);
    var h := Held(item);
    var (l', it') := SyncSettings(l, item, now, {});
    assert h.tokens - {} == h.tokens;
    assert h.tokens + (l.tokens + h.tokens) == l.tokens + h.tokens;
    LayeredPrefs(l.prefs, h.prefs);
  }

  lemma LayeredPrefs(mine: Dict, incoming: Dict)
    requires incoming.Keys !! DEVICE_LOCAL
    ensures ApplyPrefs(mine, incoming) - DEVICE_LOCAL == (mine - DEVICE_LOCAL) + incoming
  {
  }

  ghost predicate AllBlank(p: Pins) {
    forall k :: k in p ==> p[k] == Pin("", false)
  }

  /** The local-wins part: after a step the item is exactly what the device exports, unless the device
      has no pins and the item has only blank ones, which neither side then gives up. */
  lemma StepAgreesIff(l: Local, item: Option<Item>, now: int)
    requires Clean(item)
    ensures
      var (l', it') := SyncSettings(l, item, now, {});
      && (Held(it') == Export(l') <==> !(l.pins == map[] && Held(item).pins != map[] && AllBlank(Held(item).pins)))
      && l'.pins == ApplyPins(l.pins, Held(item).pins)
      && l'.node == (if l.node.Some? then l.node else Held(item).node)
  {
    StepShares(l, item, now);
    StepForm(l, item, now);
    var h := Held(item);
    if l.pins == map[] && h.pins != map[] {
      if AllBlank(h.pins) {
        assert !PinsChange(l.pins, h.pins);
      } else {
        var k :| k in h.pins && h.pins[k] != Pin("", false);
        assert JoinPin(PinAt(l.pins, k), h.pins[k]) != PinAt(l.pins, k);
        assert k in JoinPins(l.pins, h.pins);
      }
    }
  }

  /** Without blank entries there is no exception. */
  lemma StepAgrees(l: Local, item: Option<Item>, now: int)
    requires Clean(item) && NoBlank(l.pins) && NoBlank(Held(item).pins)
    ensures var (l', it') := SyncSettings(l, item, now, {});
      && Held(it') == Export(l') && NoBlank(l'.pins)
      && l'.pins == JoinPins(l.pins, Held(item).pins)
      && l'.node == (if l.node.Some? then l.node else Held(item).node)
  {
    StepShares(l, item, now);
    StepForm(l, item, now);
    var h := Held(item);
    ApplyPinsIsJoin(l.pins, h.pins);
    if h.pins != map[] {
      var k :| k in h.pins;
      assert k in JoinPins(l.pins, h.pins);
    }
  }

  /** Applying fields a device already agrees with. */
  lemma AgreedIsQuiet(l: Local, h: Fields)
    requires h.tokens == l.tokens && h.netdata == l.netdata && h.prefs == Export(l).prefs && h.node == l.node
    requires ApplyPins(l.pins, h.pins) == l.pins && (l.pins == map[] || l.pins == h.pins)
    ensures var l' := ApplyFields(l, h, {});
      && l' == l.(prefs := if h.prefs == map[] then l.prefs else l.prefs["telemetry" := "false"])
      && !NeedsHeal(Export(l'), h)
  {
    assert l.tokens + (h.tokens - {}) == l.tokens && l.netdata + h.netdata == l.netdata;
    assert h.prefs - DEVICE_LOCAL == h.prefs && l.prefs + h.prefs == l.prefs;
    assert l.prefs["telemetry" := "false"] - DEVICE_LOCAL == l.prefs - DEVICE_LOCAL;
  }

  lemma PinsSettle(mine: Pins, theirs: Pins)
    ensures var p := ApplyPins(mine, theirs);
      ApplyPins(p, p) == p && (p == map[] ==> ApplyPins(p, theirs) == p)
  {
    var p := ApplyPins(mine, theirs);
    assert !PinsChange(p, p);
    if PinsChange(mine, theirs) {
      var k :| k in theirs && JoinPin(PinAt(mine, k), theirs[k]) != PinAt(mine, k);
      assert k in p;
    }
  }

  /** A second step on the same device leaves the item alone and changes nothing on the device,
      except that a settings file which never said so now has telemetry off. */
  lemma StepIdempotent(l: Local, item: Option<Item>, now: int, later: int)
    requires Clean(item)
    ensures var (l', it') := SyncSettings(l, item, now, {});
      SyncSettings(l', it', later, {}) ==
        (l'.(prefs := if Held(it').prefs == map[] then l'.prefs else l'.prefs["telemetry" := "false"]), it')
  {
    var (l', it') := SyncSettings(l, item, now, {});
    StepShares(l, item, now);
    StepForm(l, item, now);
    PinsSettle(l.pins, Held(item).pins);
    AgreedIsQuiet(l', Held(it'));
    StepForm(l', it', later);
  }

  /** Nothing set is ever cleared by a step, a token the item holds is never replaced, and every
      rewrite of the item carries a strictly newer stamp. */
  lemma StepNonDestructive(l: Local, item: Option<Item>, now: int)
    requires Clean(item)
    ensures var (l', it') := SyncSettings(l, item, now, {});
      && SubMap(Held(item).tokens, Held(it').tokens)
      && SubMap(Held(item).netdata, Held(it').netdata)
      && SubMap(Held(item).prefs, Held(it').prefs)
      && (Held(item).pins != map[] ==> Held(it').pins != map[])
      && (Held(item).node.Some? ==> Held(it').node.Some?)
      && l.tokens.Keys <= l'.tokens.Keys && l.pins.Keys <= l'.pins.Keys
      && (forall k :: k in l.pins && l.pins[k].fp != "" ==> l'.pins[k].fp == l.pins[k].fp)
      && (forall k :: k in l.prefs && k in DEVICE_LOCAL && k != "telemetry" ==> k in l'.prefs && l'.prefs[k] == l.prefs[k])
      && (it' != item ==> it'.Some? && it'.value.stamp > PrevStamp(item))
  {
    StepShares(l, item, now);
    StepForm(l, item, now);
  }

  /** Whatever an item carries, even one that names them, the device keeps its own device-local preferences:
      none of them is set, changed or removed by it, except that telemetry ends off. */
  lemma DeviceLocalPrefsStay(l: Local, item: Option<Item>, now: int, fails: set<string>, k: string)
    requires k == "requireHello" || k == "applockTotpEnabled"
    ensures
      var prefs := SyncSettings(l, item, now, fails).0.prefs;
      (k in prefs <==> k in l.prefs) && (k in prefs ==> prefs[k] == l.prefs[k])
  {
  }

  lemma TelemetryEndsOff(l: Local, it: Item, now: int, fails: set<string>)
    ensures
      var prefs := SyncSettings(l, Some(it), now, fails).0.prefs;
      if it.fields.prefs == map[] then prefs == l.prefs else "telemetry" in prefs && prefs["telemetry"] == "false"
  {
  }

  ghost predicate SubMap(a: Dict, b: Dict) {
    forall k :: k in a ==> k in b && b[k] == a[k]
  }

  /** A refused keychain write: the shared token survives the step exactly when the device had no
      other value for it. Otherwise the device's stale value is written over the shared one. */
  lemma TokenSurvivesIff(l: Local, it: Item, now: int, fails: set<string>, name: string)
    requires name in it.fields.tokens
    ensures var kept := Held(SyncSettings(l, Some(it), now, fails).1).tokens;
      name in kept &&
      (kept[name] == it.fields.tokens[name] <==>
        name !in fails || name !in l.tokens || l.tokens[name] == it.fields.tokens[name])
  {
    var l' := ApplyFields(l, it.fields, fails);
    if name in fails && name in l.tokens && l.tokens[name] != it.fields.tokens[name] {
      assert name in Export(l').tokens && Export(l').tokens[name] == l.tokens[name];
      assert NeedsHeal(Export(l'), it.fields);
    }
  }

  /** The always-on node's tunnel key: a device that seeds the node but cannot store its key exports the
      record without it and writes that over the shared item. The key survives exactly when the device
      did not get the record either, or got both. */
  lemma NodeKeySurvivesIff(l: Local, it: Item, now: int, fails: set<string>)
    requires l.node.None? && it.fields.node.Some? && it.fields.node.value.key != ""
    ensures Held(SyncSettings(l, Some(it), now, fails).1).node == it.fields.node <==>
      NODE_RECORD in fails || NODE_KEY !in fails
  {
    var l' := ApplyFields(l, it.fields, fails);
    assert l'.node == AdoptNode(it.fields.node, fails);
  }

  /** Clearing a token, or destroying the always-on node, on a device does not last: the next step
      brings back what the item holds. */
  lemma ClearedValueReturns(l: Local, it: Item, now: int, name: string)
    requires name in it.fields.tokens && name !in l.tokens
    ensures SyncSettings(l, Some(it), now, {}).0.tokens[name] == it.fields.tokens[name]
    ensures l.node.None? ==> SyncSettings(l, Some(it), now, {}).0.node == it.fields.node
  {
  }
}
