/**
 Where the vault key lives: the OS keychain, the password-wrapped file, or only memory. Commands
 move it between these places as a sequence of effects, and power may fail between any two.
 */
module KeyCustody {
  import opened Basics

  type Key = nat
  type Password = string

  /** The wrapper file: the key sealed under a password. */
  datatype Wrapped = Wrapped(key: Key, password: Password)

  /** `sealed` are the keys the stored envelopes are sealed under; `chosen` the passwords the user
      has set, here or on another device of the account. */
  datatype Device = Device(
    keychain: Option<Key>, wrapper: Option<Wrapped>, session: Option<Key>, sealed: set<Key>, chosen: set<Password>)

  datatype Effect =
    | StoreKey(k: Key)
    | DeleteKey
    | Choose(password: Password)
    | WriteWrap(w: Wrapped)
    | RemoveWrap
    | SetSession(k: Key)
    | Lock
    | StoreEnvelopes(k: Key)
    | DropEnvelopes

  function Do(d: Device, e: Effect): Device {
    match e
    case StoreKey(k) => d.(keychain := Some(k))
    case DeleteKey => d.(keychain := None)
    case Choose(p) => d.(chosen := d.chosen + {p})
    case WriteWrap(w) => d.(wrapper := Some(w))
    case RemoveWrap => d.(wrapper := None)
    case SetSession(k) => d.(session := Some(k))
    case Lock => d.(session := None)
    case StoreEnvelopes(k) => d.(sealed := d.sealed + {k})
    case DropEnvelopes => d.(sealed := {})
  }

  /** The device after the first `n` effects. */
  function After(d: Device, es: seq<Effect>, n: nat): Device
    requires n <= |es|
  {
    if n == 0 then d else Do(After(d, es, n - 1), es[n - 1])
  }

  /** Which of a command's effects the platform lets through. A keychain entry that does not decode to a
      key counts as one that cannot be read. */
  datatype Luck = Luck(read: bool, store: bool, delete: bool, wrap: bool, remove: bool)

  datatype Command =
    | Boot(gated: bool, minted: Key, luck: Luck)
    | LockVault
    | Reunlock(readable: bool)
    | SaveItem
    | DeleteLastItem
    | SetPassword(password: Password, minted: Key, luck: Luck)
    | Unlock(password: Password, codeOk: bool)
    | ChangePassword(previous: Password, password: Password, codeOk: bool, luck: Luck)
    | RemovePassword(password: Password, codeOk: bool, luck: Luck)
    | Restore(k: Key, luck: Luck)
    | UnlockFromEscrow(escrow: Wrapped, luck: Luck)
    | Pair(k: Key, offered: Option<Wrapped>, luck: Luck)

  /** At least four bytes besides the white space around it. */
  predicate LongEnough(p: Password) {
    |Utf8(Trim(p))| >= 4
  }

  /** `load_or_create_key`: the key in hand, if any, after these effects. */
  function LoadOrCreate(d: Device, minted: Key, luck: Luck): (seq<Effect>, Option<Key>) {
    if !luck.read then ([], None)
    else if d.keychain.Some? then ([], d.keychain)
    else if luck.store then ([StoreKey(minted)], Some(minted))
    else ([], None)
  }

  /** `make_password_protected`, on a device without a wrapper. */
  function Protect(escrow: Wrapped, k: Key, luck: Luck): seq<Effect> {
    if luck.wrap then [WriteWrap(escrow)] + (if luck.delete then [DeleteKey] else [])
    else if luck.store then [StoreKey(k)] else []
  }

  /** The effects of a command in order; a refused effect ends it where the code returns early. */
  function Plan(d: Device, c: Command): seq<Effect> {
    match c
    case Boot(gated, minted, luck) =>
      if d.wrapper.Some? || gated then [Lock]
      else
        var (es, key) := LoadOrCreate(d, minted, luck);
        [Lock] + es + (if key.Some? then [SetSession(key.value)] else [])
    case LockVault => [Lock]
    case Reunlock(readable) =>
      if d.wrapper.Some? || d.keychain.None? || !readable then [] else [SetSession(d.keychain.value)]
    case SaveItem =>
      if d.session.Some? then [StoreEnvelopes(d.session.value)] else []
    case DeleteLastItem => [DropEnvelopes]
    case SetPassword(p, minted, luck) =>
      if !LongEnough(p) || d.wrapper.Some? then []
      else
        var (es, key) := LoadOrCreate(d, minted, luck);
        if key.None? then es
        else if !luck.wrap then es
        else if !luck.delete then es + [Choose(p), WriteWrap(Wrapped(key.value, p))]
        else es + [Choose(p), WriteWrap(Wrapped(key.value, p)), DeleteKey, SetSession(key.value)]
    case Unlock(p, codeOk) =>
      if d.wrapper.None? || d.wrapper.value.password != p || !codeOk then []
      else [SetSession(d.wrapper.value.key)]
    case ChangePassword(o, p, codeOk, luck) =>
      if !LongEnough(p) || d.wrapper.None? || d.wrapper.value.password != o || !codeOk || !luck.wrap then []
      else [Choose(p), WriteWrap(Wrapped(d.wrapper.value.key, p)), SetSession(d.wrapper.value.key)]
    case RemovePassword(p, codeOk, luck) =>
      if d.wrapper.None? || d.wrapper.value.password != p || !codeOk || !luck.store then []
      else if !luck.remove then [StoreKey(d.wrapper.value.key)]
      else [StoreKey(d.wrapper.value.key), RemoveWrap, SetSession(d.wrapper.value.key)]
    case Restore(k, luck) =>
      if d.sealed != {} then []
      else if !luck.store then [SetSession(k)]
      else [SetSession(k), StoreKey(k), StoreEnvelopes(k)]
    case UnlockFromEscrow(escrow, luck) =>
      if d.sealed != {} then []
      else
        [Choose(escrow.password), SetSession(escrow.key)]
        + (if d.wrapper.Some? then [] else Protect(escrow, escrow.key, luck))
        + [StoreEnvelopes(escrow.key)]
    case Pair(k, escrow, luck) =>
      if d.sealed != {} then []
      else if !luck.store then [SetSession(k)]
      else
        var protect := if escrow.None? || d.wrapper.Some? then [] else Protect(escrow.value, k, luck);
        [SetSession(k), StoreKey(k), StoreEnvelopes(k)] + protect
  }

  // -- The invariant ------------------------------------------------------------------

  /** The key the next unlock will produce. */
  function Active(d: Device): Option<Key> {
    if d.wrapper.Some? then Some(d.wrapper.value.key) else d.keychain
  }

  /** Every stored envelope opens with the key the next unlock produces, and if that takes a
      password it is one the user has set. */
  ghost predicate Durable(d: Device) {
    && (forall k :: k in d.sealed ==> Active(d) == Some(k))
    && (d.wrapper.Some? ==> d.wrapper.value.password in d.chosen)
  }

  /** Between commands the session key, if any, is that same key. */
  ghost predicate Safe(d: Device) {
    Durable(d) && (d.session.Some? ==> Active(d) == d.session)
  }

  /** When a command keeps the key in custody; only an adoption can fail. What it adopts must be what the
      next unlock produces: the wrapper's key where there is one, and otherwise a key that reached the
      keychain, was there already, or went into a new wrapper under a password the user has set. */
  predicate Holds(d: Device, c: Command) {
    match c
    case Restore(k, luck) =>
      d.sealed == {} ==>
        if d.wrapper.Some? then d.wrapper.value.key == k else luck.store || d.keychain == Some(k)
    case UnlockFromEscrow(escrow, luck) =>
      d.sealed == {} ==>
        if d.wrapper.Some? then d.wrapper.value.key == escrow.key
        else luck.wrap || luck.store || d.keychain == Some(escrow.key)
    case Pair(k, offered, luck) =>
      d.sealed == {} ==>
        if d.wrapper.Some? then d.wrapper.value.key == k
        else if !luck.store then d.keychain == Some(k)
        else offered.None? || !luck.wrap || (offered.value.key == k && offered.value.password in d.chosen)
    case _ => true
  }

  /** One effect at a time; every plan has at most five. */
  lemma Unrolled(d: Device, es: seq<Effect>)
    ensures After(d, es, 0) == d
    ensures |es| >= 1 ==> After(d, es, 1) == Do(d, es[0])
    ensures |es| >= 2 ==> After(d, es, 2) == Do(Do(d, es[0]), es[1])
    ensures |es| >= 3 ==> After(d, es, 3) == Do(Do(Do(d, es[0]), es[1]), es[2])
    ensures |es| >= 4 ==> After(d, es, 4) == Do(Do(Do(Do(d, es[0]), es[1]), es[2]), es[3])
    ensures |es| >= 5 ==> After(d, es, 5) == Do(Do(Do(Do(Do(d, es[0]), es[1]), es[2]), es[3]), es[4])
  {
    if |es| >= 3 {
      assert After(d, es, 3) == Do(After(d, es, 2), es[2]);
    }
    if |es| >= 4 {
      assert After(d, es, 4) == Do(After(d, es, 3), es[3]);
    }
    if |es| >= 5 {
      assert After(d, es, 5) == Do(After(d, es, 4), es[4]);
    }
  }

  /** Whatever effect the command is cut at the device stays durable, and run to its end it is safe. */
  ghost predicate KeepsCustody(d: Device, c: Command) {
    && (forall cut :: 0 <= cut <= |Plan(d, c)| ==> Durable(After(d, Plan(d, c), cut)))
    && Safe(After(d, Plan(d, c), |Plan(d, c)|))
  }

  predicate PasswordCommand(c: Command) {
    c.SetPassword? || c.ChangePassword? || c.RemovePassword?
  }

  lemma SetPasswordKeepsCustody(d: Device, c: Command)
    requires Safe(d) && c.SetPassword?
    ensures KeepsCustody(d, c)
  {
    var es := Plan(d, c);
    assert |es| <= 5;
    Unrolled(d, es);
  }

  lemma OtherPasswordKeepsCustody(d: Device, c: Command)
    requires Safe(d) && (c.ChangePassword? || c.RemovePassword?)
    ensures KeepsCustody(d, c)
  {
    var es := Plan(d, c);
    assert |es| <= 3;
    Unrolled(d, es);
  }

  lemma SessionKeepsCustody(d: Device, c: Command)
    requires Safe(d) && !PasswordCommand(c) && !c.Restore? && !c.UnlockFromEscrow? && !c.Pair?
    ensures KeepsCustody(d, c)
  {
    var es := Plan(d, c);
    assert |es| <= 3;
    Unrolled(d, es);
  }

  lemma RestoreKeepsIff(d: Device, c: Command)
    requires Safe(d) && c.Restore?
    ensures KeepsCustody(d, c) <==> Holds(d, c)
  {
    var es := Plan(d, c);
    assert |es| <= 3;
    Unrolled(d, es);
    if es != [] {
      assert After(d, es, |es|).session == Some(c.k);
    }
  }

  lemma EscrowKeepsIff(d: Device, c: Command)
    requires Safe(d) && c.UnlockFromEscrow?
    ensures KeepsCustody(d, c) <==> Holds(d, c)
  {
    var es := Plan(d, c);
    assert |es| <= 5;
    Unrolled(d, es);
    if es != [] {
      assert c.escrow.key in After(d, es, |es|).sealed;
    }
  }

  lemma PairKeepsIff(d: Device, c: Command)
    requires Safe(d) && c.Pair?
    ensures KeepsCustody(d, c) <==> Holds(d, c)
  {
    var es := Plan(d, c);
    assert |es| <= 5;
    Unrolled(d, es);
    if es != [] {
      assert After(d, es, |es|).session == Some(c.k);
    }
  }

  /** From a safe device a command keeps custody at every cut and to its end if and only if `Holds`. */
  lemma CommandKeepsCustodyIff(d: Device, c: Command)
    requires Safe(d)
    ensures KeepsCustody(d, c) <==> Holds(d, c)
  {
    if c.Restore? {
      RestoreKeepsIff(d, c);
    } else if c.UnlockFromEscrow? {
      EscrowKeepsIff(d, c);
    } else if c.Pair? {
      PairKeepsIff(d, c);
    } else if c.SetPassword? {
      SetPasswordKeepsCustody(d, c);
    } else if PasswordCommand(c) {
      OtherPasswordKeepsCustody(d, c);
    } else {
      SessionKeepsCustody(d, c);
    }
  }

  // -- Whole runs, with crashes ---------------------------------------------------------

  /** A command that ran, or one cut short by a crash, which also loses the session. */
  datatype Event = Ran(c: Command) | Crashed(c: Command, cut: nat)

  predicate Possible(d: Device, e: Event) {
    e.Crashed? ==> e.cut <= |Plan(d, e.c)|
  }

  function Next(d: Device, e: Event): Device
    requires Possible(d, e)
  {
    match e
    case Ran(c) => After(d, Plan(d, c), |Plan(d, c)|)
    case Crashed(c, cut) => After(d, Plan(d, c), cut).(session := None)
  }

  ghost predicate IsRun(states: seq<Device>, events: seq<Event>) {
    && |states| == |events| + 1
    && forall i :: 0 <= i < |events| ==> Possible(states[i], events[i]) && states[i + 1] == Next(states[i], events[i])
  }

  /** A device that has never stored anything. */
  predicate Pristine(d: Device) {
    d.wrapper.None? && d.session.None? && d.sealed == {}
  }

  /** Custody: over every run of commands and crashes whose adoptions hold, the key sealing every stored
      envelope is in the wrapper file under a password that was set, or, without a wrapper, in the
      keychain. */
  lemma {:induction false} CustodyOverRuns(states: seq<Device>, events: seq<Event>, i: nat)
    requires IsRun(states, events) && Pristine(states[0]) && i < |states|
    requires forall j :: 0 <= j < i ==> Holds(states[j], events[j].c)
    ensures Safe(states[i])
    ensures forall k :: k in states[i].sealed ==>
      if states[i].wrapper.Some?
      then states[i].wrapper.value.key == k && states[i].wrapper.value.password in states[i].chosen
      else states[i].keychain == Some(k)
  {
    if i > 0 {
      CustodyOverRuns(states, events, i - 1);
      CommandKeepsCustodyIff(states[i - 1], events[i - 1].c);
    }
  }

  lemma SaveUnsafe(r: Device)
    requires Durable(r) && !Safe(r)
    ensures !Durable(After(r, Plan(r, SaveItem), |Plan(r, SaveItem)|))
  {
    Unrolled(r, Plan(r, SaveItem));
    var s := After(r, Plan(r, SaveItem), |Plan(r, SaveItem)|);
    assert Active(s) == Active(r) && r.session.value in s.sealed;
  }

  ghost predicate DurableAt(d: Device, c: Command, cut: nat) {
    cut <= |Plan(d, c)| && Durable(After(d, Plan(d, c), cut))
  }

  ghost predicate LosesAtSomeCut(d: Device, c: Command) {
    exists cut: nat :: cut <= |Plan(d, c)| && !DurableAt(d, c, cut)
  }

  /** And no adoption that does not hold is harmless: some crash during it, or the next item saved after
      it, leaves envelopes the next unlock cannot open. */
  lemma BadAdoptionLosesCustody(d: Device, c: Command)
    requires Safe(d) && !Holds(d, c)
    ensures
      var r := After(d, Plan(d, c), |Plan(d, c)|);
      LosesAtSomeCut(d, c) || !Durable(After(r, Plan(r, SaveItem), |Plan(r, SaveItem)|))
  {
    CommandKeepsCustodyIff(d, c);
    var n := |Plan(d, c)|;
    if !LosesAtSomeCut(d, c) {
      forall cut: nat | cut <= n ensures Durable(After(d, Plan(d, c), cut)) {
        assert DurableAt(d, c, cut);
      }
      SaveUnsafe(After(d, Plan(d, c), n));
    }
  }

  /** And the user always gets back in: with the wrapper's password, or by just starting up, if and only if
      the keychain can then be read. */
  lemma AlwaysReopensIff(d: Device, luck: Luck, minted: Key, k: Key)
    requires Safe(d) && k in d.sealed
    ensures
      var c := if d.wrapper.Some? then Unlock(d.wrapper.value.password, true) else Boot(false, minted, luck);
      && (d.wrapper.Some? ==> d.wrapper.value.password in d.chosen)
      && (After(d, Plan(d, c), |Plan(d, c)|).session == Some(k) <==> d.wrapper.Some? || luck.read)
  {
    var c := if d.wrapper.Some? then Unlock(d.wrapper.value.password, true) else Boot(false, minted, luck);
    Unrolled(d, Plan(d, c));
    assert Active(d) == Some(k);
  }

  // -- Who gets in --------------------------------------------------------------------------

  ghost function Final(d: Device, c: Command): Device {
    After(d, Plan(d, c), |Plan(d, c)|)
  }

  /** A locked device opens with the master password if and only if it is the wrapper's and the
      authenticator code is right; a refused attempt changes nothing. */
  lemma UnlockOpensIff(d: Device, p: Password, codeOk: bool)
    requires d.session.None?
    ensures
      var e := Final(d, Unlock(p, codeOk));
      && (e.session.Some? <==> d.wrapper.Some? && d.wrapper.value.password == p && codeOk)
      && (e.session.Some? ==> e.session == Some(d.wrapper.value.key))
      && e == d.(session := e.session)
  {
    Unrolled(d, Plan(d, Unlock(p, codeOk)));
  }

  /** A start opens the device if and only if nothing gates it and the keychain yields or takes a key; a
      key is minted only where the keychain can be read and has none. */
  lemma BootOpensIff(d: Device, gated: bool, minted: Key, luck: Luck)
    ensures
      var e := Final(d, Boot(gated, minted, luck));
      && (e.session.Some? <==> d.wrapper.None? && !gated && luck.read && (d.keychain.Some? || luck.store))
      && (e.session.Some? ==> e.session == e.keychain)
      && e.keychain == (if d.wrapper.None? && !gated && luck.read && d.keychain.None? && luck.store then Some(minted) else d.keychain)
      && e.wrapper == d.wrapper && e.sealed == d.sealed && e.chosen == d.chosen
  {
    Unrolled(d, Plan(d, Boot(gated, minted, luck)));
  }

  /** The platform unlock opens a locked device if and only if there is no master password and the keychain
      holds a readable key; it never mints one. */
  lemma ReunlockOpensIff(d: Device, readable: bool)
    requires d.session.None?
    ensures
      var e := Final(d, Reunlock(readable));
      && (e.session.Some? <==> d.wrapper.None? && d.keychain.Some? && readable)
      && (e.session.Some? ==> e.session == d.keychain)
      && e == d.(session := e.session)
  {
    Unrolled(d, Plan(d, Reunlock(readable)));
  }

  /** Locking closes the session and nothing else; a save seals under the session's key, if there is one,
      and deleting the last item leaves nothing sealed. */
  lemma SessionCommands(d: Device)
    ensures Final(d, LockVault) == d.(session := None)
    ensures Final(d, SaveItem) == if d.session.Some? then d.(sealed := d.sealed + {d.session.value}) else d
    ensures Final(d, DeleteLastItem) == d.(sealed := {})
  {
    Unrolled(d, Plan(d, LockVault));
    Unrolled(d, Plan(d, SaveItem));
    Unrolled(d, Plan(d, DeleteLastItem));
  }

  /** An adoption touches only a device without items, and then leaves it unlocked with the adopted key,
      whatever else is refused. */
  lemma AdoptionOpensIff(d: Device, c: Command)
    requires c.Restore? || c.UnlockFromEscrow? || c.Pair?
    ensures
      var k := if c.UnlockFromEscrow? then c.escrow.key else c.k;
      if d.sealed != {} then Final(d, c) == d else Final(d, c).session == Some(k)
  {
    Unrolled(d, Plan(d, c));
  }

  /** Where each adoption of an empty device leaves the key, and whether it gets as far as pulling the items:
      restoring and pairing stop when the keychain refuses the key, signing in never does. */
  lemma AdoptionLeaves(d: Device, c: Command)
    requires (c.Restore? || c.UnlockFromEscrow? || c.Pair?) && d.sealed == {}
    ensures
      var e, luck := Final(d, c), c.luck;
      var k := if c.UnlockFromEscrow? then c.escrow.key else c.k;
      var escrow := if c.UnlockFromEscrow? then Some(c.escrow) else if c.Pair? then c.offered else None;
      var done := c.UnlockFromEscrow? || luck.store;
      var installed := done && escrow.Some? && d.wrapper.None? && luck.wrap;
      && e.sealed == (if done then {k} else {})
      && e.wrapper == (if installed then escrow else d.wrapper)
      && e.keychain ==
        (if installed && luck.delete then None
         else if c.UnlockFromEscrow? then (if d.wrapper.None? && !luck.wrap && luck.store then Some(k) else d.keychain)
         else if luck.store then Some(k) else d.keychain)
  {
    Unrolled(d, Plan(d, c));
  }

  // -- Where custody is lost ---------------------------------------------------------------

  /** Restoring and then saving an item is durable exactly when the key reached the keychain of a
      device without a wrapper, or the wrapper already held it. The code puts the key in the
      session before it tries to store it. */
  lemma RestoreThenSaveIff(d: Device, k: Key, luck: Luck)
    requires Safe(d) && d.sealed == {}
    ensures var r := After(d, Plan(d, Restore(k, luck)), |Plan(d, Restore(k, luck))|);
      Durable(After(r, Plan(r, SaveItem), |Plan(r, SaveItem)|)) <==>
        if d.wrapper.Some? then d.wrapper.value.key == k else luck.store || d.keychain == Some(k)
  {
    var r := After(d, Plan(d, Restore(k, luck)), |Plan(d, Restore(k, luck))|);
    Unrolled(d, Plan(d, Restore(k, luck)));
    Unrolled(r, Plan(r, SaveItem));
    assert k in After(r, Plan(r, SaveItem), |Plan(r, SaveItem)|).sealed;
  }

  /** Signing in with the master password and then saving: durable exactly when a wrapper already there
      holds the same key, or the key reached a wrapper or the keychain. With both writes refused the
      device has neither, and what it saves is lost at the next start. */
  lemma EscrowThenSaveIff(d: Device, escrow: Wrapped, luck: Luck)
    requires Safe(d) && d.sealed == {}
    ensures
      var c := UnlockFromEscrow(escrow, luck);
      var r := After(d, Plan(d, c), |Plan(d, c)|);
      Durable(After(r, Plan(r, SaveItem), |Plan(r, SaveItem)|)) <==>
        if d.wrapper.Some? then d.wrapper.value.key == escrow.key
        else luck.wrap || luck.store || d.keychain == Some(escrow.key)
  {
    var c := UnlockFromEscrow(escrow, luck);
    var r := After(d, Plan(d, c), |Plan(d, c)|);
    Unrolled(d, Plan(d, c));
    Unrolled(r, Plan(r, SaveItem));
    assert escrow.key in After(r, Plan(r, SaveItem), |Plan(r, SaveItem)|).sealed;
  }

  /** Pairing installs the escrow without opening it, and does not look for a wrapper. Pairing and then
      saving is durable exactly when a wrapper already there holds the pairing code's key; or, without
      one, the key reached the keychain and no escrow that wraps another key, or sits under a password
      nobody set, was installed over it; or the keychain had the key before. */
  lemma PairThenSaveIff(d: Device, k: Key, offered: Option<Wrapped>, luck: Luck)
    requires Safe(d) && d.sealed == {}
    ensures
      var c := Pair(k, offered, luck);
      var r := After(d, Plan(d, c), |Plan(d, c)|);
      Durable(After(r, Plan(r, SaveItem), |Plan(r, SaveItem)|)) <==>
        if d.wrapper.Some? then d.wrapper.value.key == k
        else if !luck.store then d.keychain == Some(k)
        else offered.None? || !luck.wrap || (offered.value.key == k && offered.value.password in d.chosen)
  {
    var c := Pair(k, offered, luck);
    var r := After(d, Plan(d, c), |Plan(d, c)|);
    Unrolled(d, Plan(d, c));
    Unrolled(r, Plan(r, SaveItem));
    assert k in After(r, Plan(r, SaveItem), |Plan(r, SaveItem)|).sealed;
  }

  /** On Windows the wrapper is removed before the new one is renamed into place; if the rename then fails,
      the command ends there. */
  function WindowsPlan(d: Device, c: Command, renamed: bool): seq<Effect> {
    var es := Plan(d, c);
    if !(c.ChangePassword? && |es| == 3) then es
    else if renamed then [es[0], RemoveWrap, es[1], es[2]]
    else [es[0], RemoveWrap]
  }

  /** There a password change, whether or not its rename succeeds, survives every crash and its own end
      exactly when it is refused before it writes, or nothing is stored yet, or the keychain still holds
      the key. */
  lemma WindowsChangeDurableIff(d: Device, c: Command, renamed: bool)
    requires Safe(d) && c.ChangePassword?
    ensures
      var es := WindowsPlan(d, c, renamed);
      (forall cut :: 0 <= cut <= |es| ==> Durable(After(d, es, cut))) <==>
        Plan(d, c) == [] || d.sealed == {} || d.keychain == Some(d.wrapper.value.key)
  {
    var es := WindowsPlan(d, c, renamed);
    Unrolled(d, es);
    if Plan(d, c) != [] {
      assert |es| >= 2 && After(d, es, 2).wrapper == None;
      if d.sealed != {} {
        var k :| k in d.sealed;
        assert Durable(After(d, es, 2)) ==> d.keychain == Some(k);
      }
    }
    forall cut | 0 <= cut <= |es| && (Plan(d, c) == [] || d.sealed == {} || d.keychain == Some(d.wrapper.value.key))
      ensures Durable(After(d, es, cut))
    {
    }
  }

  /** The native-messaging host reads or mints the keychain key without looking for a wrapper; an
      item it saves stays reachable exactly when there is no wrapper or that key is the wrapper's. */
  lemma HostSaveDurableIff(d: Device, minted: Key, luck: Luck)
    requires Safe(d) && LoadOrCreate(d, minted, luck).1.Some?
    ensures var (es, key) := LoadOrCreate(d, minted, luck);
      Durable(Do(After(d, es, |es|), StoreEnvelopes(key.value))) <==>
        d.wrapper.None? || key == Some(d.wrapper.value.key)
  {
    var (es, key) := LoadOrCreate(d, minted, luck);
    Unrolled(d, es);
    assert key.value in Do(After(d, es, |es|), StoreEnvelopes(key.value)).sealed;
  }

  // -- The commands, in place ------------------------------------------------------------------

  class KeyStore {
    var keychain: Option<Key>
    var wrapper: Option<Wrapped>
    var session: Option<Key>
    var sealed: set<Key>
    ghost var chosen: set<Password>

    ghost function State(): Device
      reads this
    {
      Device(keychain, wrapper, session, sealed, chosen)
    }

    method LoadOrCreateKey(minted: Key, luck: Luck) returns (key: Option<Key>)
      modifies this`keychain
      ensures key == LoadOrCreate(old(State()), minted, luck).1
      ensures keychain == if luck.read && old(keychain).None? && luck.store then Some(minted) else old(keychain)
    {
      if !luck.read {
        return None;
      }
      if keychain.Some? {
        return keychain;
      }
      if luck.store {
        keychain := Some(minted);
        return Some(minted);
      }
      return None;
    }

    method BootUp(gated: bool, minted: Key, luck: Luck)
      modifies this
      ensures State() == Final(old(State()), Boot(gated, minted, luck))
    {
      Unrolled(State(), Plan(State(), Boot(gated, minted, luck)));
      session := None;
      if wrapper.None? && !gated {
        var key := LoadOrCreateKey(minted, luck);
        if key.Some? {
          session := key;
        }
      }
    }

    method AuthSetPassword(p: Password, minted: Key, luck: Luck) returns (ok: bool)
      modifies this
      ensures State() == Final(old(State()), SetPassword(p, minted, luck))
      ensures ok <==>
        && |Utf8(Trim(p))| >= 4 && old(wrapper).None? && luck.read && (old(keychain).Some? || luck.store)
        && luck.wrap && luck.delete
      ensures ok ==>
        && wrapper == Some(Wrapped(if old(keychain).Some? then old(keychain).value else minted, p))
        && keychain == None && session == Some(wrapper.value.key)
    {
      Unrolled(State(), Plan(State(), SetPassword(p, minted, luck)));
      if !LongEnough(p) || wrapper.Some? {
        return false;
      }
      var key := LoadOrCreateKey(minted, luck);
      if key.None? || !luck.wrap {
        return false;
      }
      chosen := chosen + {p};
      wrapper := Some(Wrapped(key.value, p));
      if !luck.delete {
        return false;
      }
      keychain := None;
      session := key;
      return true;
    }

    method AuthUnlockPassword(p: Password, codeOk: bool) returns (ok: bool)
      modifies this
      ensures State() == Final(old(State()), Unlock(p, codeOk))
      ensures ok <==> old(wrapper).Some? && old(wrapper).value.password == p && codeOk
      ensures ok ==> session == Some(old(wrapper).value.key)
      ensures !ok ==> State() == old(State())
    {
      Unrolled(State(), Plan(State(), Unlock(p, codeOk)));
      if wrapper.None? || wrapper.value.password != p || !codeOk {
        return false;
      }
      session := Some(wrapper.value.key);
      return true;
    }

    method AuthChangePassword(previous: Password, p: Password, codeOk: bool, luck: Luck) returns (ok: bool)
      modifies this
      ensures State() == Final(old(State()), ChangePassword(previous, p, codeOk, luck))
      ensures ok <==>
        |Utf8(Trim(p))| >= 4 && old(wrapper).Some? && old(wrapper).value.password == previous && codeOk && luck.wrap
      ensures ok ==> wrapper == Some(Wrapped(old(wrapper).value.key, p)) && session == Some(old(wrapper).value.key)
      ensures !ok ==> State() == old(State())
    {
      Unrolled(State(), Plan(State(), ChangePassword(previous, p, codeOk, luck)));
      if !LongEnough(p) || wrapper.None? || wrapper.value.password != previous || !codeOk || !luck.wrap {
        return false;
      }
      var vk := wrapper.value.key;
      chosen := chosen + {p};
      wrapper := Some(Wrapped(vk, p));
      session := Some(vk);
      return true;
    }

    method AuthRemovePassword(p: Password, codeOk: bool, luck: Luck) returns (ok: bool)
      modifies this
      ensures State() == Final(old(State()), RemovePassword(p, codeOk, luck))
      ensures ok <==> old(wrapper).Some? && old(wrapper).value.password == p && codeOk && luck.store && luck.remove
      ensures ok ==>
        wrapper.None? && keychain == Some(old(wrapper).value.key) && session == Some(old(wrapper).value.key)
      ensures old(wrapper).Some? && (old(wrapper).value.password != p || !codeOk) ==> State() == old(State())
    {
      Unrolled(State(), Plan(State(), RemovePassword(p, codeOk, luck)));
      if wrapper.None? || wrapper.value.password != p || !codeOk || !luck.store {
        return false;
      }
      var vk := wrapper.value.key;
      keychain := Some(vk);
      if !luck.remove {
        return false;
      }
      wrapper := None;
      session := Some(vk);
      return true;
    }

    /** `sync_unlock_with_password` with `make_password_protected` inlined. */
    method AdoptFromEscrow(escrow: Wrapped, luck: Luck) returns (ok: bool)
      modifies this
      ensures State() == Final(old(State()), UnlockFromEscrow(escrow, luck))
      ensures ok <==> old(sealed) == {}
    {
      Unrolled(State(), Plan(State(), UnlockFromEscrow(escrow, luck)));
      if sealed != {} {
        return false;
      }
      chosen := chosen + {escrow.password};
      session := Some(escrow.key);
      if wrapper.None? {
        if luck.wrap {
          wrapper := Some(escrow);
          if luck.delete {
            keychain := None;
          }
        } else if luck.store {
          keychain := Some(escrow.key);
        }
      }
      sealed := sealed + {escrow.key};
      return true;
    }
  }
}
