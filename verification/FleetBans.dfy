/**
 The fleet ban planner: the union of all servers' bans, what each server is missing from it, sorted
 and cut to a hundred entries per pass, and the passes that bring every server up to the union.
 */
module FleetBans {
  import opened Basics

  datatype Ban = Ban(ip: string, mins: nat, perm: bool)

  /** Minutes and permanence per address. */
  type Union = map<string, (nat, bool)>

  const PASS_LIMIT: nat := 100

  /** The minutes read back from the duration written for a permanent ban. */
  const PERM_MINS: nat := 876_000 * 60

  // -- The order of addresses -----------------------------------------------------------------

  /** Strings compare character by character, a proper prefix first. */
  predicate Less(a: string, b: string) {
    b != [] && (a == [] || a[0] < b[0] || (a[0] == b[0] && Less(a[1..], b[1..])))
  }

  lemma {:induction false} LessTransitive(a: string, b: string, c: string)
    requires Less(a, b) && Less(b, c)
    ensures Less(a, c)
  {
    if a != [] && a[0] == b[0] == c[0] {
      LessTransitive(a[1..], b[1..], c[1..]);
    }
  }

  lemma {:induction false} LessTotal(a: string, b: string)
    ensures a == b || Less(a, b) || Less(b, a)
  {
    if a != [] && b != [] && a[0] == b[0] {
      LessTotal(a[1..], b[1..]);
      assert a == [a[0]] + a[1..] && b == [b[0]] + b[1..];
    }
  }

  lemma {:induction false} LessIrreflexive(a: string)
    ensures !Less(a, a)
  {
    if a != [] {
      LessIrreflexive(a[1..]);
    }
  }

  /** The order is the dictionary's: the first difference decides, and a proper prefix comes first. */
  lemma {:induction false} LessIff(a: string, b: string, k: nat)
    requires k <= |a| && k <= |b| && a[..k] == b[..k]
    requires k == |a| || k == |b| || a[k] != b[k]
    ensures Less(a, b) <==> k < |b| && (k == |a| || a[k] < b[k])
  {
    if k > 0 {
      assert a[0] == a[..k][0] == b[..k][0] == b[0];
      assert a[1..][..k - 1] == a[..k][1..] && b[1..][..k - 1] == b[..k][1..];
      LessIff(a[1..], b[1..], k - 1);
    }
  }

  ghost predicate Ordered(xs: seq<string>) {
    forall i, j :: 0 <= i < j < |xs| ==> Less(xs[i], xs[j])
  }

  function Elems(xs: seq<string>): set<string> {
    set x | x in xs
  }

  /** A set has only one ordered listing. */
  lemma {:induction false} OrderedUnique(xs: seq<string>, ys: seq<string>)
    requires Ordered(xs) && Ordered(ys) && Elems(xs) == Elems(ys)
    ensures xs == ys
  {
    assert |xs| > 0 ==> xs[0] in Elems(xs);
    assert |ys| > 0 ==> ys[0] in Elems(ys);
    if |xs| > 0 {
      assert xs[0] in Elems(ys);
      var k :| 0 <= k < |ys| && ys[k] == xs[0];
      assert ys[0] in Elems(xs);
      var l :| 0 <= l < |xs| && xs[l] == ys[0];
      FirstsAgree(xs, ys, k, l);
      TailElems(xs);
      TailElems(ys);
      OrderedUnique(xs[1..], ys[1..]);
      assert xs == [xs[0]] + xs[1..] && ys == [ys[0]] + ys[1..];
    }
  }

  lemma FirstsAgree(xs: seq<string>, ys: seq<string>, k: nat, l: nat)
    requires Ordered(xs) && Ordered(ys) && k < |ys| && l < |xs| && ys[k] == xs[0] && xs[l] == ys[0]
    ensures xs[0] == ys[0]
  {
    if k > 0 && l > 0 {
      LessTransitive(xs[0], ys[0], xs[0]);
      LessIrreflexive(xs[0]);
    }
  }

  lemma TailElems(xs: seq<string>)
    requires Ordered(xs) && xs != []
    ensures Ordered(xs[1..]) && Elems(xs[1..]) == Elems(xs) - {xs[0]}
  {
    LessIrreflexive(xs[0]);
    forall x | x in Elems(xs) - {xs[0]} ensures x in xs[1..] {
      var i :| 0 <= i < |xs| && xs[i] == x;
      assert xs[1..][i - 1] == x;
    }
  }

  lemma {:induction false} OrderedSize(xs: seq<string>)
    requires Ordered(xs)
    ensures |Elems(xs)| == |xs|
  {
    if xs != [] {
      TailElems(xs);
      OrderedSize(xs[1..]);
      assert xs[0] in Elems(xs);
    }
  }

  // -- Sorting ----------------------------------------------------------------------------------

  function Insert(xs: seq<string>, x: string): seq<string> {
    if xs == [] then [x]
    else if Less(x, xs[0]) then [x] + xs
    else [xs[0]] + Insert(xs[1..], x)
  }

  lemma {:induction false} InsertOrdered(xs: seq<string>, x: string)
    requires Ordered(xs) && x !in xs
    ensures Ordered(Insert(xs, x)) && Elems(Insert(xs, x)) == Elems(xs) + {x}
  {
    if xs == [] {
    } else if Less(x, xs[0]) {
      forall j | 0 < j < |xs| ensures Less(x, xs[j]) {
        LessTransitive(x, xs[0], xs[j]);
      }
    } else {
      LessTotal(x, xs[0]);
      var rest := Insert(xs[1..], x);
      InsertOrdered(xs[1..], x);
      forall j | 0 <= j < |rest| ensures Less(xs[0], rest[j]) {
        assert rest[j] in Elems(rest);
      }
      assert Elems(xs) == {xs[0]} + Elems(xs[1..]);
      assert Elems([xs[0]] + rest) == {xs[0]} + Elems(rest);
    }
  }

  /** The ordered listing of a set. */
  ghost function Sorted(s: set<string>): (xs: seq<string>)
    ensures Ordered(xs) && Elems(xs) == s
  {
    if s == {} then []
    else
      var x :| x in s;
      var rest := Sorted(s - {x});
      assert x !in Elems(rest);
      InsertOrdered(rest, x);
      Insert(rest, x)
  }

  // -- The union -------------------------------------------------------------------------------

  function AddBan(u: Union, b: Ban): Union {
    var e := if b.ip in u then u[b.ip] else (0, false);
    u[b.ip := (Max(e.0, b.mins), e.1 || b.perm)]
  }

  function AddAll(u: Union, bans: seq<Ban>): Union {
    if bans == [] then u else AddBan(AddAll(u, bans[..|bans| - 1]), bans[|bans| - 1])
  }

  function UnionOf(fleet: seq<seq<Ban>>): Union {
    if fleet == [] then map[] else AddAll(UnionOf(fleet[..|fleet| - 1]), fleet[|fleet| - 1])
  }

  function BanSet(bans: seq<Ban>): set<Ban> {
    set b | b in bans
  }

  function BansOf(fleet: seq<seq<Ban>>): set<Ban> {
    if fleet == [] then {} else BansOf(fleet[..|fleet| - 1]) + BanSet(fleet[|fleet| - 1])
  }

  /** What the union means: an address is in it exactly when some server bans it, with the longest
      duration any server has and permanent when any server says so. */
  ghost predicate Covers(u: Union, bans: set<Ban>) {
    forall b :: b in bans ==> b.ip in u && b.mins <= u[b.ip].0 && (b.perm ==> u[b.ip].1)
  }

  ghost predicate Attained(u: Union, bans: set<Ban>) {
    forall ip :: ip in u ==>
      && (exists b :: b in bans && b.ip == ip && b.mins == u[ip].0)
      && (u[ip].1 ==> exists b :: b in bans && b.ip == ip && b.perm)
  }

  ghost predicate IsUnion(u: Union, bans: set<Ban>) {
    Covers(u, bans) && Attained(u, bans)
  }

  lemma AddBanUnion(u: Union, bans: set<Ban>, b: Ban)
    requires IsUnion(u, bans)
    ensures IsUnion(AddBan(u, b), bans + {b})
  {
    var v, more := AddBan(u, b), bans + {b};
    forall ip | ip in v
      ensures exists c :: c in more && c.ip == ip && c.mins == v[ip].0
      ensures v[ip].1 ==> exists c :: c in more && c.ip == ip && c.perm
    {
      if ip in u {
        var c :| c in bans && c.ip == ip && c.mins == u[ip].0;
        assert c in more && b in more;
        if u[ip].1 {
          var d :| d in bans && d.ip == ip && d.perm;
          assert d in more;
        }
      } else {
        assert b in more;
      }
    }
  }

  lemma BanSetMore(bs: seq<Ban>)
    requires bs != []
    ensures BanSet(bs) == BanSet(bs[..|bs| - 1]) + {bs[|bs| - 1]}
  {
    assert bs == bs[..|bs| - 1] + [bs[|bs| - 1]];
  }

  lemma {:induction false} AddAllUnion(u: Union, bans: set<Ban>, bs: seq<Ban>)
    requires IsUnion(u, bans)
    ensures IsUnion(AddAll(u, bs), bans + BanSet(bs))
  {
    if bs == [] {
      assert bans + BanSet(bs) == bans;
    } else {
      var front, b := bs[..|bs| - 1], bs[|bs| - 1];
      AddAllUnion(u, bans, front);
      AddBanUnion(AddAll(u, front), bans + BanSet(front), b);
      BanSetMore(bs);
      assert bans + BanSet(bs) == bans + BanSet(front) + {b};
    }
  }

  lemma {:induction false} UnionMeaning(fleet: seq<seq<Ban>>)
    ensures IsUnion(UnionOf(fleet), BansOf(fleet))
  {
    if fleet != [] {
      var front := fleet[..|fleet| - 1];
      UnionMeaning(front);
      AddAllUnion(UnionOf(front), BansOf(front), fleet[|fleet| - 1]);
    }
  }

  lemma UnionUnique(u: Union, v: Union, bans: set<Ban>)
    requires IsUnion(u, bans) && IsUnion(v, bans)
    ensures u == v
  {
    forall ip | ip in u ensures ip in v && u[ip] == v[ip] {
      var b :| b in bans && b.ip == ip && b.mins == u[ip].0;
      var c :| c in bans && c.ip == ip && c.mins == v[ip].0;
    }
    forall ip | ip in v ensures ip in u {
      var b :| b in bans && b.ip == ip && b.mins == v[ip].0;
    }
  }

  // -- The plan --------------------------------------------------------------------------------

  function IpsOf(bans: seq<Ban>): set<string> {
    set b | b in bans :: b.ip
  }

  function Missing(u: Union, bans: seq<Ban>): set<string> {
    u.Keys - IpsOf(bans)
  }

  function Taken(xs: seq<string>): seq<string> {
    if |xs| <= PASS_LIMIT then xs else xs[..PASS_LIMIT]
  }

  function WithDurations(u: Union, xs: seq<string>): (r: seq<Ban>)
    requires forall x :: x in xs ==> x in u
    ensures |r| == |xs|
  {
    seq(|xs|, i requires 0 <= i < |xs| => Ban(xs[i], u[xs[i]].0, u[xs[i]].1))
  }

  /** What one server is told to add. */
  ghost function PlanFor(u: Union, bans: seq<Ban>): seq<Ban> {
    var xs := Taken(Sorted(Missing(u, bans)));
    assert forall x :: x in xs ==> x in Elems(Sorted(Missing(u, bans)));
    WithDurations(u, xs)
  }

  /** What a server is told to add, without naming how it is found: addresses of the union it lacks, in
      order, the union's durations with them, as many as there are or a hundred, and none left out that
      comes before one taken. */
  lemma PlanMeaning(u: Union, bans: seq<Ban>, i: nat)
    ensures
      var plan := PlanFor(u, bans);
      && |plan| == Min(100, |u.Keys - IpsOf(bans)|)
      && (i < |plan| ==>
        && plan[i].ip in u && plan[i].ip !in IpsOf(bans)
        && plan[i].mins == u[plan[i].ip].0 && plan[i].perm == u[plan[i].ip].1
        && (i > 0 ==> Less(plan[i - 1].ip, plan[i].ip))
        && forall ip :: ip in u && ip !in IpsOf(bans) && Less(ip, plan[i].ip) ==> exists j :: 0 <= j < i && plan[j].ip == ip)
  {
    var xs := Sorted(Missing(u, bans));
    OrderedSize(xs);
    var plan := PlanFor(u, bans);
    assert |plan| == |Taken(xs)|;
    if i < |plan| {
      assert plan[i].ip == xs[i] && xs[i] in Elems(xs);
      forall ip | ip in u && ip !in IpsOf(bans) && Less(ip, plan[i].ip) ensures exists j :: 0 <= j < i && plan[j].ip == ip {
        assert ip in Elems(xs);
        var j :| 0 <= j < |xs| && xs[j] == ip;
        BeforeOnly(xs, i, j);
        assert plan[j].ip == xs[j];
      }
    }
  }

  lemma BeforeOnly(xs: seq<string>, i: nat, j: nat)
    requires Ordered(xs) && i < |xs| && j < |xs| && Less(xs[j], xs[i])
    ensures j < i
  {
    if j == i {
      LessIrreflexive(xs[i]);
    } else if i < j {
      LessTransitive(xs[i], xs[j], xs[i]);
      LessIrreflexive(xs[i]);
    }
  }

  /** The planner: the map is filled in a loop, each server's missing addresses are collected in
      whatever order the hash map yields them, then sorted and cut. */
  method PlanFleetAdditions(fleet: seq<seq<Ban>>) returns (plan: seq<seq<Ban>>)
    ensures |plan| == |fleet|
    ensures forall i :: 0 <= i < |fleet| ==> plan[i] == PlanFor(UnionOf(fleet), fleet[i])
  {
    var union := FillUnion(fleet);
    plan := [];
    for i := 0 to |fleet|
      invariant |plan| == i
      invariant forall j :: 0 <= j < i ==> plan[j] == PlanFor(union, fleet[j])
    {
      var missing := MissingFor(union, fleet[i]);
      plan := plan + [missing];
    }
  }

  method FillUnion(fleet: seq<seq<Ban>>) returns (union: Union)
    ensures union == UnionOf(fleet)
  {
    union := map[];
    for i := 0 to |fleet|
      invariant union == UnionOf(fleet[..i])
    {
      ghost var before := union;
      for j := 0 to |fleet[i]|
        invariant union == AddAll(before, fleet[i][..j])
      {
        assert fleet[i][..j + 1][..j] == fleet[i][..j];
        union := AddBan(union, fleet[i][j]);
      }
      assert fleet[i][..|fleet[i]|] == fleet[i];
      assert fleet[..i + 1][..i] == fleet[..i];
    }
    assert fleet[..|fleet|] == fleet;
  }

  method MissingFor(union: Union, bans: seq<Ban>) returns (missing: seq<Ban>)
    ensures missing == PlanFor(union, bans)
  {
    var have := IpsOf(bans);
    var rest, ips := union.Keys, [];
    while rest != {}
      invariant rest <= union.Keys && Ordered(ips)
      invariant Elems(ips) == Missing(union, bans) - rest
      decreases |rest|
    {
      var x :| x in rest;
      if x !in have {
        assert x !in Elems(ips);
        InsertOrdered(ips, x);
        ips := Insert(ips, x);
      }
      rest := rest - {x};
    }
    assert Elems(ips) == Missing(union, bans);
    OrderedUnique(ips, Sorted(Missing(union, bans)));
    assert forall x :: x in Taken(ips) ==> x in Elems(ips);
    missing := WithDurations(union, Taken(ips));
  }

  /** A plan depends on nothing but which bans exist and which addresses the server has: not on the
      order of servers, of bans, or of the hash map. */
  lemma PlanIgnoresOrder(a: seq<seq<Ban>>, b: seq<seq<Ban>>, i: nat, j: nat)
    requires i < |a| && j < |b| && BansOf(a) == BansOf(b) && IpsOf(a[i]) == IpsOf(b[j])
    ensures PlanFor(UnionOf(a), a[i]) == PlanFor(UnionOf(b), b[j])
  {
    UnionMeaning(a);
    UnionMeaning(b);
    UnionUnique(UnionOf(a), UnionOf(b), BansOf(a));
  }

  // -- Passes ------------------------------------------------------------------------------------

  /** A planned ban as the server lists it afterwards. */
  function Listed(b: Ban): Ban {
    if b.perm then b.(mins := PERM_MINS) else b
  }

  function ListedAll(bs: seq<Ban>): (r: seq<Ban>)
    ensures |r| == |bs|
  {
    seq(|bs|, i requires 0 <= i < |bs| => Listed(bs[i]))
  }

  /** One pass; `pushed[i]` says whether server `i` could be reached for its additions. */
  ghost function Pass(fleet: seq<seq<Ban>>, pushed: seq<bool>): (r: seq<seq<Ban>>)
    requires |pushed| == |fleet|
    ensures |r| == |fleet|
  {
    seq(|fleet|, i requires 0 <= i < |fleet| =>
      if pushed[i] then fleet[i] + ListedAll(PlanFor(UnionOf(fleet), fleet[i])) else fleet[i])
  }

  ghost function MissingAt(fleet: seq<seq<Ban>>, i: nat): set<string>
    requires i < |fleet|
  {
    Missing(UnionOf(fleet), fleet[i])
  }

  lemma {:induction false} BanOfServer(fleet: seq<seq<Ban>>, i: nat, b: Ban)
    requires i < |fleet| && b in fleet[i]
    ensures b in BansOf(fleet)
  {
    if i < |fleet| - 1 {
      BanOfServer(fleet[..|fleet| - 1], i, b);
    }
  }

  lemma {:induction false} ServerOfBan(fleet: seq<seq<Ban>>, b: Ban) returns (i: nat)
    requires b in BansOf(fleet)
    ensures i < |fleet| && b in fleet[i]
  {
    var n := |fleet| - 1;
    if b in fleet[n] {
      i := n;
    } else {
      i := ServerOfBan(fleet[..n], b);
    }
  }

  /** Each ban a pass adds is the union's own entry for an address the server lacked. */
  lemma AddedBan(u: Union, bans: seq<Ban>, b: Ban)
    requires b in ListedAll(PlanFor(u, bans))
    ensures b.ip in u && b.perm == u[b.ip].1 && (!b.perm ==> b.mins == u[b.ip].0)
  {
    var xs := Taken(Sorted(Missing(u, bans)));
    var k :| 0 <= k < |xs| && ListedAll(PlanFor(u, bans))[k] == b;
    assert xs[k] in Elems(Sorted(Missing(u, bans)));
  }

  /** Once pushed, a ban that is permanent in the union is listed with a hundred years, any other with the
      union's own minutes. */
  lemma ListedDurations(u: Union, bans: seq<Ban>, i: nat)
    requires i < |PlanFor(u, bans)|
    ensures
      var b := ListedAll(PlanFor(u, bans))[i];
      && b.ip == PlanFor(u, bans)[i].ip && b.ip in u && b.perm == u[b.ip].1
      && b.mins == if u[b.ip].1 then 52_560_000 else u[b.ip].0
  {
    PlanMeaning(u, bans, i);
  }

  lemma OldBanStays(fleet: seq<seq<Ban>>, pushed: seq<bool>, b: Ban)
    requires |pushed| == |fleet| && b in BansOf(fleet)
    ensures b in BansOf(Pass(fleet, pushed))
  {
    var i := ServerOfBan(fleet, b);
    BanOfServer(Pass(fleet, pushed), i, b);
  }

  lemma NewBan(fleet: seq<seq<Ban>>, pushed: seq<bool>, b: Ban)
    requires |pushed| == |fleet| && b in BansOf(Pass(fleet, pushed))
    ensures
      var u := UnionOf(fleet);
      b in BansOf(fleet) || (b.ip in u && b.perm == u[b.ip].1 && (!b.perm ==> b.mins == u[b.ip].0))
  {
    var i := ServerOfBan(Pass(fleet, pushed), b);
    if b in fleet[i] {
      BanOfServer(fleet, i, b);
    } else {
      AddedBan(UnionOf(fleet), fleet[i], b);
    }
  }

  /** A pass adds no address to the fleet and loses none, makes no ban permanent that was not, and
      changes no temporary ban's duration in the union, whichever pushes succeed. */
  lemma PassKeepsUnion(fleet: seq<seq<Ban>>, pushed: seq<bool>)
    requires |pushed| == |fleet|
    ensures
      var u, v := UnionOf(fleet), UnionOf(Pass(fleet, pushed));
      && u.Keys == v.Keys
      && forall ip :: ip in u ==> u[ip].1 == v[ip].1 && (!u[ip].1 ==> u[ip].0 == v[ip].0)
  {
    var u, v := UnionOf(fleet), UnionOf(Pass(fleet, pushed));
    UnionMeaning(fleet);
    UnionMeaning(Pass(fleet, pushed));
    forall ip | ip in u ensures ip in v && (u[ip].1 ==> v[ip].1) && u[ip].0 <= v[ip].0 {
      var b :| b in BansOf(fleet) && b.ip == ip && b.mins == u[ip].0;
      OldBanStays(fleet, pushed, b);
      if u[ip].1 {
        var c :| c in BansOf(fleet) && c.ip == ip && c.perm;
        OldBanStays(fleet, pushed, c);
      }
    }
    forall ip | ip in v ensures ip in u && (v[ip].1 ==> u[ip].1) && (!u[ip].1 ==> v[ip].0 <= u[ip].0) {
      var b :| b in BansOf(Pass(fleet, pushed)) && b.ip == ip && b.mins == v[ip].0;
      NewBan(fleet, pushed, b);
      if v[ip].1 {
        var c :| c in BansOf(Pass(fleet, pushed)) && c.ip == ip && c.perm;
        NewBan(fleet, pushed, c);
      }
    }
    assert u.Keys == v.Keys;
  }

  lemma IpsAfterPlan(u: Union, bans: seq<Ban>)
    ensures IpsOf(bans + ListedAll(PlanFor(u, bans))) == IpsOf(bans) + Elems(Taken(Sorted(Missing(u, bans))))
  {
    var plan, xs := ListedAll(PlanFor(u, bans)), Taken(Sorted(Missing(u, bans)));
    var all := bans + plan;
    forall ip | ip in IpsOf(all) ensures ip in IpsOf(bans) + Elems(xs) {
      var b :| b in all && b.ip == ip;
      if b !in bans {
        var k :| 0 <= k < |plan| && plan[k] == b;
        assert xs[k] == ip;
      }
    }
    forall ip | ip in IpsOf(bans) + Elems(xs) ensures ip in IpsOf(all) {
      if ip in IpsOf(bans) {
        var b :| b in bans && b.ip == ip;
        assert b in all;
      } else {
        var k :| 0 <= k < |xs| && xs[k] == ip;
        assert plan[k] in all && plan[k].ip == ip;
      }
    }
  }

  lemma OrderedPrefix(xs: seq<string>, n: nat)
    requires Ordered(xs) && n <= |xs|
    ensures Ordered(xs[..n]) && |Elems(xs[..n])| == n && Elems(xs[..n]) <= Elems(xs)
  {
    OrderedSize(xs[..n]);
  }

  /** A successful push shrinks what a server is missing by a hundred or to nothing; without one it
      stays. */
  lemma PassShrinks(fleet: seq<seq<Ban>>, pushed: seq<bool>, i: nat)
    requires |pushed| == |fleet| && i < |fleet|
    ensures |MissingAt(Pass(fleet, pushed), i)| ==
      |MissingAt(fleet, i)| - if pushed[i] then Min(PASS_LIMIT, |MissingAt(fleet, i)|) else 0
  {
    PassKeepsUnion(fleet, pushed);
    var u, m := UnionOf(fleet), MissingAt(fleet, i);
    if pushed[i] {
      IpsAfterPlan(u, fleet[i]);
      var xs := Sorted(m);
      OrderedSize(xs);
      OrderedPrefix(xs, Min(PASS_LIMIT, |xs|));
      assert Taken(xs) == xs[..Min(PASS_LIMIT, |xs|)];
      assert MissingAt(Pass(fleet, pushed), i) == m - Elems(Taken(xs));
    }
  }

  ghost predicate SameWidth(passes: seq<seq<bool>>, n: nat) {
    forall k :: 0 <= k < |passes| ==> |passes[k]| == n
  }

  ghost function Passes(fleet: seq<seq<Ban>>, passes: seq<seq<bool>>): (r: seq<seq<Ban>>)
    requires SameWidth(passes, |fleet|)
    ensures |r| == |fleet|
  {
    if passes == [] then fleet else Pass(Passes(fleet, passes[..|passes| - 1]), passes[|passes| - 1])
  }

  /** How many pushes to server `i` succeeded. */
  ghost function Successes(passes: seq<seq<bool>>, n: nat, i: nat): nat
    requires SameWidth(passes, n) && i < n
  {
    if passes == [] then 0
    else Successes(passes[..|passes| - 1], n, i) + if passes[|passes| - 1][i] then 1 else 0
  }

  function Left(missing: nat, successes: nat): nat {
    Max(0, missing - PASS_LIMIT * successes)
  }

  lemma LeftMore(missing: nat, successes: nat)
    ensures Left(missing, successes) - Min(PASS_LIMIT, Left(missing, successes)) == Left(missing, successes + 1)
    ensures Left(missing, successes) == 0 <==> successes >= (missing + PASS_LIMIT - 1) / PASS_LIMIT
  {
  }

  lemma PassesMore(fleet: seq<seq<Ban>>, passes: seq<seq<bool>>, i: nat)
    requires passes != [] && SameWidth(passes, |fleet|) && i < |fleet|
    ensures
      var front, last := passes[..|passes| - 1], passes[|passes| - 1];
      && Passes(fleet, passes) == Pass(Passes(fleet, front), last)
      && Successes(passes, |fleet|, i) == Successes(front, |fleet|, i) + if last[i] then 1 else 0
  {
  }

  /** After any run of passes a server is missing a hundred addresses less for each successful push,
      and the fleet bans exactly the addresses it banned at the start. */
  lemma {:induction false} MissingAfterPasses(fleet: seq<seq<Ban>>, passes: seq<seq<bool>>, i: nat)
    requires SameWidth(passes, |fleet|) && i < |fleet|
    ensures UnionOf(Passes(fleet, passes)).Keys == UnionOf(fleet).Keys
    ensures |MissingAt(Passes(fleet, passes), i)| == Left(|MissingAt(fleet, i)|, Successes(passes, |fleet|, i))
  {
    if passes != [] {
      var front, last := passes[..|passes| - 1], passes[|passes| - 1];
      MissingAfterPasses(fleet, front, i);
      PassesMore(fleet, passes, i);
      PassKeepsUnion(Passes(fleet, front), last);
      PassShrinks(Passes(fleet, front), last, i);
      LeftMore(|MissingAt(fleet, i)|, Successes(front, |fleet|, i));
    }
  }

  lemma PlanEmptyIff(fleet: seq<seq<Ban>>, i: nat)
    requires i < |fleet|
    ensures PlanFor(UnionOf(fleet), fleet[i]) == [] <==> MissingAt(fleet, i) == {}
  {
    OrderedSize(Sorted(MissingAt(fleet, i)));
  }

  /** A server's plan is empty exactly once enough pushes to it succeeded: its missing addresses
      divided by a hundred, rounded up. */
  lemma FleetConverges(fleet: seq<seq<Ban>>, passes: seq<seq<bool>>, i: nat)
    requires SameWidth(passes, |fleet|) && i < |fleet|
    ensures
      var end := Passes(fleet, passes);
      PlanFor(UnionOf(end), end[i]) == [] <==>
      Successes(passes, |fleet|, i) >= (|MissingAt(fleet, i)| + PASS_LIMIT - 1) / PASS_LIMIT
  {
    MissingAfterPasses(fleet, passes, i);
    PlanEmptyIff(Passes(fleet, passes), i);
    LeftMore(|MissingAt(fleet, i)|, Successes(passes, |fleet|, i));
  }
}
