/**
 The never-ban allowlist: the writer of the whitelist file and the line parser that reads the
 operator's entries back out of it.

 The parsing of addresses and of prefix lengths is a parameter. The file is what the shell stores
 between the two markers of the here-document.
 */
module Allowlist {
  import opened Basics

  // -- Trimming ----------------------------------------------------------------------------

  /** Neither end is white space. */
  predicate Tight(s: string) {
    s == [] || (!White(s[0]) && !White(s[|s| - 1]))
  }

  lemma {:induction false} RightKeepsStart(s: string)
    requires s == [] || !White(s[0])
    ensures TrimRight(s) == [] || TrimRight(s)[0] == s[0]
    ensures TrimRight(s) == [] ==> s == []
    ensures Tight(TrimRight(s))
  {
    if s != [] && White(s[|s| - 1]) {
      RightKeepsStart(s[..|s| - 1]);
    }
  }

  lemma {:induction false} LeftStops(s: string)
    ensures TrimLeft(s) == [] || !White(TrimLeft(s)[0])
  {
    if s != [] && White(s[0]) {
      LeftStops(s[1..]);
    }
  }

  /** Trimming gives a tight text and leaves exactly the tight ones alone. */
  lemma TrimTight(s: string)
    ensures Tight(Trim(s)) && (Trim(s) == s <==> Tight(s))
  {
    LeftStops(s);
    RightKeepsStart(TrimLeft(s));
  }

  lemma {:induction false} TrimIndent(n: nat, core: string)
    requires Tight(core) && core != []
    ensures TrimLeft(Spaces(n) + core) == core
  {
    if n > 0 {
      TrimIndent(n - 1, core);
      assert (Spaces(n) + core)[1..] == Spaces(n - 1) + core;
    } else {
      assert Spaces(0) + core == core;
    }
  }

  function Spaces(n: nat): (s: string)
    ensures |s| == n && forall i :: 0 <= i < n ==> s[i] == ' '
  {
    seq(n, i => ' ')
  }

  // -- Entries ------------------------------------------------------------------------------

  predicate AddressChar(c: char) {
    '0' <= c <= '9' || 'a' <= c <= 'f' || 'A' <= c <= 'F' || c == '.' || c == ':' || c == '/'
  }

  predicate Clean(s: string) {
    s != [] && forall i :: 0 <= i < |s| ==> AddressChar(s[i])
  }

  function SlashAt(s: string): (k: nat)
    ensures k <= |s| && (k < |s| ==> s[k] == '/')
  {
    if s == [] then 0 else if s[0] == '/' then 0 else 1 + SlashAt(s[1..])
  }

  /** What the parameters decide: whether a text is an address, and whether one is a prefix length. */
  datatype Syntax = Syntax(address: string -> bool, prefix: string -> bool)

  predicate ValidIpOrCidr(x: Syntax, s: string) {
    var t := Trim(s);
    && Clean(t) && |t| <= 43
    && var k := SlashAt(t);
       if k < |t| then x.address(t[..k]) && x.prefix(t[k + 1..]) else x.address(t)
  }

  /** The characters let through to the root shell of the server. */
  lemma AddressChars(c: char)
    ensures AddressChar(c) <==> c in "0123456789abcdefABCDEF.:/"
  {
    if AddressChar(c) {
      var s := "0123456789abcdefABCDEF.:/";
      var i := if '0' <= c <= '9' then c as int - 48
        else if 'a' <= c <= 'f' then c as int - 87
        else if 'A' <= c <= 'F' then c as int - 49
        else if c == '.' then 22 else if c == ':' then 23 else 24;
      assert 0 <= i < |s| && s[i] == c;
    }
  }

  lemma {:induction false} FirstSlash(a: string, p: string)
    requires '/' !in a
    ensures SlashAt(a + "/" + p) == |a|
  {
    var s := a + "/" + p;
    if a != [] {
      assert a[0] in a && s[0] == a[0];
      FirstSlash(a[1..], p);
      assert s[1..] == a[1..] + "/" + p;
    }
  }

  lemma {:induction false} NoSlash(s: string)
    requires '/' !in s
    ensures SlashAt(s) == |s|
  {
    if s != [] {
      assert s[0] in s;
      NoSlash(s[1..]);
    }
  }

  /** An entry, whatever white space is around it, is valid exactly when it has at most 43 characters of that
      kind and is an address, or an address and a prefix length with a slash between. */
  lemma ValidIff(x: Syntax, before: string, a: string, p: Option<string>, after: string)
    requires forall i :: 0 <= i < |before| ==> White(before[i])
    requires forall i :: 0 <= i < |after| ==> White(after[i])
    requires '/' !in a && var t := if p.Some? then a + "/" + p.value else a; t != [] && Tight(t)
    ensures
      var t := if p.Some? then a + "/" + p.value else a;
      ValidIpOrCidr(x, before + t + after) <==>
        && |t| <= 43 && (forall i :: 0 <= i < |t| ==> t[i] in "0123456789abcdefABCDEF.:/")
        && x.address(a) && (p.Some? ==> x.prefix(p.value))
  {
    var t := if p.Some? then a + "/" + p.value else a;
    TrimAround(before, t, after);
    CleanIff(t);
    if p.Some? {
      SplitAtSlash(a, p.value);
    } else {
      NoSlash(a);
    }
  }

  lemma SplitAtSlash(a: string, p: string)
    requires '/' !in a
    ensures
      var t := a + "/" + p;
      SlashAt(t) == |a| < |t| && t[..|a|] == a && t[|a| + 1..] == p
  {
    FirstSlash(a, p);
  }

  lemma CleanIff(t: string)
    requires t != []
    ensures Clean(t) <==> forall i :: 0 <= i < |t| ==> t[i] in "0123456789abcdefABCDEF.:/"
  {
    forall i | 0 <= i < |t| ensures AddressChar(t[i]) <==> t[i] in "0123456789abcdefABCDEF.:/" {
      AddressChars(t[i]);
    }
  }

  // -- The file -----------------------------------------------------------------------------

  const HEADER: seq<string> := [
    "name: northkey/whitelist",
    "description: \"NorthKey never-ban allowlist\"",
    "whitelist:",
    "  reason: \"NorthKey allowlist\"",
    "  ip:"
  ]

  const FOOTER: seq<string> := [
    "  cidr:",
    "    - \"127.0.0.0/8\"",
    "    - \"10.0.0.0/8\"",
    "    - \"172.16.0.0/12\"",
    "    - \"192.168.0.0/16\""
  ]

  function Unlines(ls: seq<string>): string {
    if ls == [] then [] else ls[0] + "\n" + Unlines(ls[1..])
  }

  function EntryLine(e: string): string {
    Spaces(4) + "- \"" + e + "\""
  }

  function EntryLines(es: seq<string>): (ls: seq<string>)
    ensures |ls| == |es|
  {
    seq(|es|, i requires 0 <= i < |es| => EntryLine(es[i]))
  }

  function Framed(head: seq<string>, es: seq<string>, foot: seq<string>): string {
    Unlines(head) + Unlines(EntryLines(es)) + Unlines(foot)
  }

  function File(es: seq<string>): string {
    Framed(HEADER, es, FOOTER)
  }

  lemma {:induction false} UnlinesAppend(a: seq<string>, b: seq<string>)
    ensures Unlines(a + b) == Unlines(a) + Unlines(b)
  {
    if a == [] {
      assert a + b == b;
    } else {
      UnlinesAppend(a[1..], b);
      assert (a + b)[1..] == a[1..] + b;
    }
  }

  lemma UnlinesOne(l: string)
    ensures Unlines([l]) == l + "\n"
  {
    assert Unlines([l][1..]) == [];
  }

  ghost predicate FirstInvalid(x: Syntax, entries: seq<string>, i: nat) {
    i < |entries| && !ValidIpOrCidr(x, entries[i]) && forall j :: 0 <= j < i ==> ValidIpOrCidr(x, entries[j])
  }

  /** The writer: every entry is checked before anything is written. */
  method WriteAllowlist(x: Syntax, entries: seq<string>) returns (r: Result<string, string>)
    ensures r.Ok? <==> forall i :: 0 <= i < |entries| ==> ValidIpOrCidr(x, entries[i])
    ensures r.Ok? ==> r.value == File(entries)
    ensures r.Err? ==> exists i: nat :: FirstInvalid(x, entries, i) && r.error == entries[i]
  {
    for i := 0 to |entries|
      invariant forall j :: 0 <= j < i ==> ValidIpOrCidr(x, entries[j])
    {
      if !ValidIpOrCidr(x, entries[i]) {
        assert FirstInvalid(x, entries, i);
        return Err(entries[i]);
      }
    }
    var ipLines := WriteEntries(entries);
    return Ok(Unlines(HEADER) + ipLines + Unlines(FOOTER));
  }

  method WriteEntries(entries: seq<string>) returns (ipLines: string)
    ensures ipLines == Unlines(EntryLines(entries))
  {
    ipLines := "";
    for i := 0 to |entries|
      invariant ipLines == Unlines(EntryLines(entries[..i]))
    {
      assert EntryLines(entries[..i + 1]) == EntryLines(entries[..i]) + [EntryLine(entries[i])];
      UnlinesAppend(EntryLines(entries[..i]), [EntryLine(entries[i])]);
      UnlinesOne(EntryLine(entries[i]));
      ipLines := ipLines + (EntryLine(entries[i]) + "\n");
    }
    assert entries[..|entries|] == entries;
  }

  // -- The parser ---------------------------------------------------------------------------

  function BreakAt(s: string): (k: nat)
    ensures k <= |s| && (k < |s| ==> s[k] == '\n') && forall i :: 0 <= i < k ==> s[i] != '\n'
  {
    if s == [] || s[0] == '\n' then 0 else 1 + BreakAt(s[1..])
  }

  function StripReturn(l: string): string {
    if l != [] && l[|l| - 1] == '\r' then l[..|l| - 1] else l
  }

  /** Lines end at a line feed, with or without a carriage return before it. */
  function Lines(s: string): seq<string>
    decreases |s|
  {
    var k := BreakAt(s);
    if s == [] then []
    else if k == |s| then [s]
    else [StripReturn(s[..k])] + Lines(s[k + 1..])
  }

  predicate StartsWith(s: string, p: string) {
    |p| <= |s| && s[..|p|] == p
  }

  predicate Dashed(s: string) {
    s != [] && s[0] == '-'
  }

  function DropDashes(s: string): string {
    if Dashed(s) then DropDashes(s[1..]) else s
  }

  function DropQuotesLeft(s: string): string {
    if s != [] && s[0] == '"' then DropQuotesLeft(s[1..]) else s
  }

  function DropQuotesRight(s: string): string {
    if s != [] && s[|s| - 1] == '"' then DropQuotesRight(s[..|s| - 1]) else s
  }

  /** The entry written on a list line. */
  function ValueOn(t: string): string {
    Trim(DropQuotesRight(DropQuotesLeft(Trim(DropDashes(t)))))
  }

  datatype Reading = Reading(out: seq<string>, inIp: bool)

  function Step(r: Reading, line: string): Reading {
    var t := Trim(line);
    if StartsWith(t, "ip:") then r.(inIp := true)
    else
      var leaves := StartsWith(t, "cidr:") || (r.inIp && !Dashed(t) && t != []);
      var inIp := r.inIp && !leaves;
      var more := if inIp && Dashed(t) && ValueOn(t) != [] then [ValueOn(t)] else [];
      Reading(r.out + more, inIp)
  }

  function Fold<S, T>(f: (S, T) -> S, s: S, xs: seq<T>): S {
    if xs == [] then s else f(Fold(f, s, xs[..|xs| - 1]), xs[|xs| - 1])
  }

  function Scan(r: Reading, lines: seq<string>): Reading {
    Fold(Step, r, lines)
  }

  function Parse(yaml: string): seq<string> {
    Scan(Reading([], false), Lines(yaml)).out
  }

  method ParseAllowlist(yaml: string) returns (out: seq<string>)
    ensures out == Parse(yaml)
  {
    out := [];
    var inIp, lines := false, Lines(yaml);
    for i := 0 to |lines|
      invariant Reading(out, inIp) == Scan(Reading([], false), lines[..i])
    {
      assert lines[..i + 1][..i] == lines[..i];
      var t := Trim(lines[i]);
      if StartsWith(t, "ip:") {
        inIp := true;
        continue;
      }
      if StartsWith(t, "cidr:") || (inIp && !Dashed(t) && t != []) {
        inIp := false;
      }
      if inIp && Dashed(t) {
        var val := ValueOn(t);
        if val != [] {
          out := out + [val];
        }
      }
    }
    assert lines[..|lines|] == lines;
  }

  // -- Lines of the file -----------------------------------------------------------------------

  predicate OneLine(l: string) {
    (forall i :: 0 <= i < |l| ==> l[i] != '\n') && (l != [] ==> l[|l| - 1] != '\r')
  }

  lemma FirstLine(l: string, rest: string)
    requires OneLine(l)
    ensures Lines(l + "\n" + rest) == [l] + Lines(rest)
  {
    var s := l + "\n" + rest;
    var k := BreakAt(s);
    assert s[|l|] == '\n';
    assert forall i :: 0 <= i < |l| ==> s[i] == l[i];
    assert k == |l|;
    assert s[..k] == l && s[k + 1..] == rest;
  }

  /** A carriage return before the line feed belongs to the line's end. */
  lemma CarriageReturn(l: string, rest: string)
    requires forall i :: 0 <= i < |l| ==> l[i] != '\n'
    ensures Lines(l + "\r\n" + rest) == [l] + Lines(rest)
  {
    var s := l + "\r\n" + rest;
    var k := BreakAt(s);
    assert s[|l|] == '\r' && s[|l| + 1] == '\n';
    assert forall i :: 0 <= i < |l| ==> s[i] == l[i];
    assert k == |l| + 1;
    assert s[..k] == l + "\r" && s[k + 1..] == rest;
  }

  lemma {:induction false} LinesOfUnlines(ls: seq<string>)
    requires forall i :: 0 <= i < |ls| ==> OneLine(ls[i])
    ensures Lines(Unlines(ls)) == ls
  {
    if ls != [] {
      LinesOfUnlines(ls[1..]);
      FirstLine(ls[0], Unlines(ls[1..]));
      assert ls == [ls[0]] + ls[1..];
    }
  }

  lemma FoldLast<S, T>(f: (S, T) -> S, s: S, xs: seq<T>, x: T)
    ensures Fold(f, s, xs + [x]) == f(Fold(f, s, xs), x)
  {
    assert (xs + [x])[..|xs|] == xs;
  }

  lemma {:induction false} FoldAppend<S, T>(f: (S, T) -> S, s: S, a: seq<T>, b: seq<T>)
    ensures Fold(f, s, a + b) == Fold(f, Fold(f, s, a), b)
    decreases |b|
  {
    if b == [] {
      assert a + b == a;
    } else {
      FoldAppend(f, s, a, b[..|b| - 1]);
      assert (a + b)[..|a + b| - 1] == a + b[..|b| - 1];
    }
  }

  lemma ScanAppend(r: Reading, a: seq<string>, b: seq<string>)
    ensures Scan(r, a + b) == Scan(Scan(r, a), b)
  {
    FoldAppend(Step, r, a, b);
  }

  lemma HeaderLines()
    ensures forall i :: 0 <= i < |HEADER| ==> OneLine(HEADER[i])
  {
  }

  lemma FooterLines()
    ensures forall i :: 0 <= i < |FOOTER| ==> OneLine(FOOTER[i])
  {
  }

  // -- One entry ------------------------------------------------------------------------------

  lemma {:induction false} CleanTight(e: string)
    requires Clean(e)
    ensures Tight(e) && OneLine(EntryLine(e)) && e[0] != '"' && e[|e| - 1] != '"'
  {
    assert AddressChar(e[0]) && AddressChar(e[|e| - 1]);
    var l := EntryLine(e);
    forall i | 0 <= i < |l| ensures l[i] != '\n' {
      if 7 <= i < 7 + |e| {
        assert l[i] == e[i - 7];
      }
    }
  }

  lemma TrimOfIndented(n: nat, core: string)
    requires Tight(core) && core != []
    ensures Trim(Spaces(n) + core) == core
  {
    TrimIndent(n, core);
  }

  lemma ValueOfItem(e: string)
    requires Clean(e)
    ensures ValueOn("- \"" + e + "\"") == e
  {
    CleanTight(e);
    var t, q := "- \"" + e + "\"", "\"" + e + "\"";
    assert t[1..] == Spaces(1) + q;
    TrimOfIndented(1, q);
    assert DropDashes(t) == Spaces(1) + q;
    assert q[1..] == e + "\"";
    assert DropQuotesLeft(q) == e + "\"";
    assert (e + "\"")[..|e|] == e;
    assert DropQuotesRight(e + "\"") == DropQuotesRight(e) == e;
    TrimTight(e);
  }

  lemma EntryStep(out: seq<string>, e: string)
    requires Clean(e)
    ensures Step(Reading(out, true), EntryLine(e)) == Reading(out + [e], true)
  {
    var t := "- \"" + e + "\"";
    assert EntryLine(e) == Spaces(4) + t;
    TrimOfIndented(4, t);
    ValueOfItem(e);
    NotOpening(t);
    assert "cidr:"[0] == 'c';
  }

  lemma ScanLast(r: Reading, ls: seq<string>, l: string)
    ensures Scan(r, ls + [l]) == Step(Scan(r, ls), l)
  {
    FoldLast(Step, r, ls, l);
  }

  lemma ScanOne(r: Reading, l: string)
    ensures Scan(r, [l]) == Step(r, l)
  {
    ScanLast(r, [], l);
    assert [] + [l] == [l];
  }

  lemma {:induction false} EntriesScan(es: seq<string>, out: seq<string>)
    requires forall i :: 0 <= i < |es| ==> Clean(es[i])
    ensures Scan(Reading(out, true), EntryLines(es)) == Reading(out + es, true)
  {
    if es == [] {
      assert out + es == out;
    } else {
      var front, e := es[..|es| - 1], es[|es| - 1];
      EntriesScan(front, out);
      EntryStep(out + front, e);
      ScanLast(Reading(out, true), EntryLines(front), EntryLine(e));
      assert EntryLines(es) == EntryLines(front) + [EntryLine(e)];
      assert out + front + [e] == out + es;
    }
  }

  // -- Other ways to write an item -------------------------------------------------------------

  function Repeat(c: char, n: nat): (s: string)
    ensures |s| == n && forall i :: 0 <= i < n ==> s[i] == c
  {
    seq(n, i => c)
  }

  lemma {:induction false} DashesOff(n: nat, rest: string)
    requires !Dashed(rest)
    ensures DropDashes(Repeat('-', n) + rest) == rest
  {
    if n == 0 {
      assert Repeat('-', 0) + rest == rest;
    } else {
      DashesOff(n - 1, rest);
      assert (Repeat('-', n) + rest)[1..] == Repeat('-', n - 1) + rest;
    }
  }

  lemma {:induction false} QuotesOffLeft(n: nat, rest: string)
    requires rest == [] || rest[0] != '"'
    ensures DropQuotesLeft(Repeat('"', n) + rest) == rest
  {
    if n == 0 {
      assert Repeat('"', 0) + rest == rest;
    } else {
      QuotesOffLeft(n - 1, rest);
      assert (Repeat('"', n) + rest)[1..] == Repeat('"', n - 1) + rest;
    }
  }

  lemma {:induction false} QuotesOffRight(rest: string, n: nat)
    requires rest != [] && rest[|rest| - 1] != '"'
    ensures DropQuotesRight(rest + Repeat('"', n)) == rest
  {
    if n == 0 {
      assert rest + Repeat('"', 0) == rest;
    } else {
      QuotesOffRight(rest, n - 1);
      var s := rest + Repeat('"', n);
      assert s[..|s| - 1] == rest + Repeat('"', n - 1);
    }
  }

  predicate AllWhite(s: string) {
    forall i :: 0 <= i < |s| ==> White(s[i])
  }

  lemma QuotedValue(q: nat, w: string, e: string, v: string, r: nat)
    requires Clean(e) && AllWhite(w) && AllWhite(v)
    ensures Trim(DropQuotesRight(DropQuotesLeft(Repeat('"', q) + (w + e + v + Repeat('"', r))))) == e
  {
    CleanTight(e);
    var core := w + e + v;
    assert core[0] == (if w == [] then e[0] else w[0]) && core[|core| - 1] == if v == [] then e[|e| - 1] else v[|v| - 1];
    var rest := core + Repeat('"', r);
    assert rest[0] == core[0];
    QuotesOffLeft(q, rest);
    QuotesOffRight(core, r);
    TrimAround(w, e, v);
  }

  /** An item reads as its entry however many dashes lead it, however many quotes are on either side and
      whatever white space is around and inside them. */
  lemma ItemTolerated(n: nat, w: string, q: nat, u: string, e: string, v: string, r: nat)
    requires n >= 1 && Clean(e) && AllWhite(w) && AllWhite(u) && AllWhite(v) && q >= 1 && r >= 1
    ensures ValueOn(Repeat('-', n) + (w + (Repeat('"', q) + (u + e + v + Repeat('"', r))))) == e
  {
    var quoted := Repeat('"', q) + (u + e + v + Repeat('"', r));
    var rest := w + quoted;
    assert quoted[0] == '"' && quoted[|quoted| - 1] == '"';
    assert rest[0] == if w == [] then '"' else w[0];
    DashesOff(n, rest);
    TrimAround(w, quoted, []);
    assert w + quoted + [] == rest;
    QuotedValue(q, u, e, v, r);
  }

  /** Inside the list a blank line changes nothing and any line that is neither an item nor another opening
      ends it; outside it an item is not read. */
  lemma LineEffects(out: seq<string>, l: string)
    ensures Trim(l) == [] ==> Step(Reading(out, true), l) == Reading(out, true)
    ensures Trim(l) != [] && Trim(l)[0] != '-' && !StartsWith(Trim(l), "ip:") ==>
      Step(Reading(out, true), l) == Reading(out, false)
    ensures !StartsWith(Trim(l), "ip:") ==> Step(Reading(out, false), l) == Reading(out, false)
    ensures StartsWith(Trim(l), "ip:") ==> forall b :: Step(Reading(out, b), l) == Reading(out, true)
  {
    assert out + [] == out;
  }

  // -- The fixed lines --------------------------------------------------------------------------

  /** A line that does not open the list. */
  predicate Quiet(l: string) {
    !StartsWith(Trim(l), "ip:")
  }

  lemma {:induction false} QuietScan(r: Reading, ls: seq<string>)
    requires !r.inIp && forall i :: 0 <= i < |ls| ==> Quiet(ls[i])
    ensures Scan(r, ls) == r
  {
    if ls != [] {
      QuietScan(r, ls[..|ls| - 1]);
    }
  }

  lemma NotOpening(t: string)
    requires t == [] || t[0] != 'i'
    ensures !StartsWith(t, "ip:")
  {
    assert "ip:"[0] == 'i';
  }

  lemma QuietStart(l: string, n: nat, core: string)
    requires core != [] && Tight(core) && core[0] != 'i' && l == Spaces(n) + core
    ensures Quiet(l)
  {
    TrimOfIndented(n, core);
    NotOpening(core);
  }

  /** The lines before the entries leave the reader inside the list. */
  ghost predicate Opens(head: seq<string>) {
    && (forall i :: 0 <= i < |head| ==> OneLine(head[i]))
    && forall r: Reading :: r.out == [] && !r.inIp ==> Scan(r, head) == Reading([], true)
  }

  /** The lines after the entries add none. */
  ghost predicate Closes(foot: seq<string>) {
    && (forall i :: 0 <= i < |foot| ==> OneLine(foot[i]))
    && forall r: Reading :: Scan(r, foot).out == r.out
  }

  lemma OpensWith(quiet: seq<string>, l: string, r: Reading)
    requires forall i :: 0 <= i < |quiet| ==> Quiet(quiet[i])
    requires StartsWith(Trim(l), "ip:") && !r.inIp
    ensures Scan(r, quiet + [l]) == r.(inIp := true)
  {
    QuietScan(r, quiet);
    assert (quiet + [l])[..|quiet|] == quiet;
  }

  lemma ClosesWith(l: string, quiet: seq<string>, r: Reading)
    requires forall i :: 0 <= i < |quiet| ==> Quiet(quiet[i])
    requires StartsWith(Trim(l), "cidr:") && Quiet(l)
    ensures Scan(r, [l] + quiet).out == r.out
  {
    ScanAppend(r, [l], quiet);
    ScanOne(r, l);
    QuietScan(Step(r, l), quiet);
  }

  lemma QuietPlain(l: string)
    requires l != [] && Tight(l) && l[0] != 'i'
    ensures Quiet(l)
  {
    assert l == Spaces(0) + l;
    QuietStart(l, 0, l);
  }

  lemma QuietIndented(l: string)
    requires |l| > 2 && l[0] == ' ' == l[1] && !White(l[2]) && !White(l[|l| - 1]) && l[2] != 'i'
    ensures Quiet(l)
  {
    assert l == Spaces(2) + l[2..];
    QuietStart(l, 2, l[2..]);
  }

  lemma QuietItem(l: string)
    requires |l| > 4 && l[0] == l[1] == l[2] == l[3] == ' ' && l[4] == '-' && !White(l[|l| - 1])
    ensures Quiet(l)
  {
    assert l == Spaces(4) + l[4..];
    QuietStart(l, 4, l[4..]);
  }

  lemma QuietHeader(i: nat)
    requires i < 4
    ensures Quiet(HEADER[i])
  {
    if i == 3 {
      QuietIndented(HEADER[3]);
    } else {
      QuietPlain(HEADER[i]);
    }
  }

  lemma QuietFooter(i: nat)
    requires i < 5
    ensures Quiet(FOOTER[i])
  {
    if i == 0 {
      QuietIndented(FOOTER[0]);
    } else {
      QuietItem(FOOTER[i]);
    }
  }

  lemma HeaderOpens()
    ensures Opens(HEADER)
  {
    HeaderLines();
    var quiet := HEADER[..4];
    forall i | 0 <= i < |quiet| ensures Quiet(quiet[i]) {
      QuietHeader(i);
    }
    assert HEADER == quiet + [HEADER[4]];
    assert HEADER[4] == Spaces(2) + "ip:";
    TrimOfIndented(2, "ip:");
    forall r: Reading | r.out == [] && !r.inIp ensures Scan(r, HEADER) == Reading([], true) {
      OpensWith(quiet, HEADER[4], r);
    }
  }

  lemma FooterCloses()
    ensures Closes(FOOTER)
  {
    FooterLines();
    var quiet := FOOTER[1..];
    forall i | 0 <= i < |quiet| ensures Quiet(quiet[i]) {
      QuietFooter(i + 1);
    }
    assert FOOTER == [FOOTER[0]] + quiet;
    assert FOOTER[0] == Spaces(2) + "cidr:";
    TrimOfIndented(2, "cidr:");
    QuietFooter(0);
    forall r: Reading ensures Scan(r, FOOTER).out == r.out {
      ClosesWith(FOOTER[0], quiet, r);
    }
  }

  // -- The round trip ----------------------------------------------------------------------------

  lemma FramedLines(head: seq<string>, es: seq<string>, mid: seq<string>, foot: seq<string>)
    requires Opens(head) && Closes(foot)
    requires Unlines(EntryLines(es)) == Unlines(mid) && forall i :: 0 <= i < |mid| ==> OneLine(mid[i])
    ensures Lines(Framed(head, es, foot)) == head + mid + foot
  {
    UnlinesAppend(head, mid);
    UnlinesAppend(head + mid, foot);
    LinesOfUnlines(head + mid + foot);
  }

  /** What the parser reads from a file is what its middle part holds. */
  lemma FramedParse(head: seq<string>, es: seq<string>, mid: seq<string>, foot: seq<string>)
    requires Opens(head) && Closes(foot)
    requires Unlines(EntryLines(es)) == Unlines(mid) && forall i :: 0 <= i < |mid| ==> OneLine(mid[i])
    ensures Parse(Framed(head, es, foot)) == Scan(Reading([], true), mid).out
  {
    var start := Reading([], false);
    FramedLines(head, es, mid, foot);
    ScanAppend(start, head, mid);
    ScanAppend(start, head + mid, foot);
  }

  lemma FileParse(es: seq<string>, mid: seq<string>)
    requires Unlines(EntryLines(es)) == Unlines(mid) && forall i :: 0 <= i < |mid| ==> OneLine(mid[i])
    ensures Parse(File(es)) == Scan(Reading([], true), mid).out
  {
    FramedParse(HEADER, es, mid, FOOTER) by {
      HeaderOpens();
      FooterCloses();
    }
  }

  lemma CleanRoundTrip(es: seq<string>)
    requires forall i :: 0 <= i < |es| ==> Clean(es[i])
    ensures Parse(File(es)) == es
  {
    forall i | 0 <= i < |es| ensures OneLine(EntryLines(es)[i]) {
      CleanTight(es[i]);
    }
    FileParse(es, EntryLines(es));
    EntriesScan(es, []);
  }

  lemma {:induction false} ScanTight(r: Reading, lines: seq<string>)
    requires forall i :: 0 <= i < |r.out| ==> Tight(r.out[i])
    ensures forall i :: 0 <= i < |Scan(r, lines).out| ==> Tight(Scan(r, lines).out[i])
  {
    if lines != [] {
      var front, last := lines[..|lines| - 1], lines[|lines| - 1];
      ScanTight(r, front);
      ScanLast(r, front, last);
      assert lines == front + [last];
      TrimTight(DropQuotesRight(DropQuotesLeft(Trim(DropDashes(Trim(lines[|lines| - 1]))))));
    }
  }

  /** Reading back what was written for accepted entries gives exactly those entries, in order and
      without the fixed private ranges, if and only if none of them carries white space around it. */
  lemma RoundTripIff(x: Syntax, es: seq<string>)
    requires forall i :: 0 <= i < |es| ==> ValidIpOrCidr(x, es[i])
    ensures Parse(File(es)) == es <==> forall i :: 0 <= i < |es| ==> Tight(es[i])
  {
    if forall i :: 0 <= i < |es| ==> Tight(es[i]) {
      forall i | 0 <= i < |es| ensures Clean(es[i]) {
        TrimTight(es[i]);
      }
      CleanRoundTrip(es);
    }
    ScanTight(Reading([], false), Lines(File(es)));
  }

  /** An accepted entry that ends in a line feed closes the list early: it is read back without it,
      and every entry after it is lost. */
  lemma LineFeedDropsRest(e: string, rest: seq<string>)
    requires Clean(e) && forall i :: 0 <= i < |rest| ==> Clean(rest[i])
    ensures Parse(File([e + "\n"] + rest)) == [e]
  {
    var first, second := Spaces(4) + ("- \"" + e), "\"";
    var mid := [first, second] + EntryLines(rest);
    BrokenLines(e, rest, first, second);
    BrokenOneLine(e, first, second);
    forall i | 0 <= i < |mid| ensures OneLine(mid[i]) {
      if i >= 2 {
        CleanTight(rest[i - 2]);
      }
    }
    FileParse([e + "\n"] + rest, mid);
    BrokenScan(e, rest, first, second);
  }

  lemma BrokenLines(e: string, rest: seq<string>, first: string, second: string)
    requires first == Spaces(4) + ("- \"" + e) && second == "\""
    ensures Unlines(EntryLines([e + "\n"] + rest)) == Unlines([first, second] + EntryLines(rest))
  {
    var line := EntryLine(e + "\n");
    assert EntryLines([e + "\n"] + rest) == [line] + EntryLines(rest);
    UnlinesAppend([line], EntryLines(rest));
    UnlinesAppend([first, second], EntryLines(rest));
    UnlinesOne(line);
    UnlinesAppend([first], [second]);
    UnlinesOne(first);
    UnlinesOne(second);
    assert [first] + [second] == [first, second];
    assert line + "\n" == first + "\n" + (second + "\n");
  }

  lemma BrokenOneLine(e: string, first: string, second: string)
    requires Clean(e) && first == Spaces(4) + ("- \"" + e) && second == "\""
    ensures OneLine(first) && OneLine(second)
  {
    forall i | 0 <= i < |first| ensures first[i] != '\n' {
      if 7 <= i {
        assert first[i] == e[i - 7] && AddressChar(e[i - 7]);
      }
    }
    assert first[|first| - 1] == e[|e| - 1];
    assert AddressChar(e[|e| - 1]);
  }

  /** An unclosed quote still reads as the entry. */
  lemma ValueOfOpenItem(e: string)
    requires Clean(e)
    ensures ValueOn("- \"" + e) == e
  {
    CleanTight(e);
    var t, q := "- \"" + e, "\"" + e;
    assert t[1..] == Spaces(1) + q;
    TrimOfIndented(1, q);
    assert DropDashes(t) == Spaces(1) + q;
    assert q[1..] == e;
    assert DropQuotesLeft(q) == DropQuotesLeft(e) == e;
    assert DropQuotesRight(e) == e;
    TrimTight(e);
  }

  lemma BrokenScan(e: string, rest: seq<string>, first: string, second: string)
    requires Clean(e) && forall i :: 0 <= i < |rest| ==> Clean(rest[i])
    requires first == Spaces(4) + ("- \"" + e) && second == "\""
    ensures Scan(Reading([], true), [first, second] + EntryLines(rest)).out == [e]
  {
    OpenItemStep(e, first);
    QuoteStep([e], second);
    var start, lines := Reading([], true), EntryLines(rest);
    ScanAppend(start, [first, second], lines);
    ScanAppend(start, [first], [second]);
    assert [first] + [second] == [first, second];
    ScanOne(start, first);
    ScanOne(Reading([e], true), second);
    forall i | 0 <= i < |rest| ensures Quiet(lines[i]) {
      var core := "- \"" + rest[i] + "\"";
      assert lines[i] == Spaces(4) + core;
      QuietStart(lines[i], 4, core);
    }
    QuietScan(Reading([e], false), lines);
  }

  lemma OpenItemStep(e: string, first: string)
    requires Clean(e) && first == Spaces(4) + ("- \"" + e)
    ensures Step(Reading([], true), first) == Reading([e], true)
  {
    var t := "- \"" + e;
    CleanTight(e);
    TrimOfIndented(4, t);
    ValueOfOpenItem(e);
    NotOpening(t);
    assert "cidr:"[0] == 'c';
  }

  lemma QuoteStep(out: seq<string>, second: string)
    requires second == "\""
    ensures Step(Reading(out, true), second) == Reading(out, false)
  {
    TrimTight(second);
    NotOpening(second);
  }
}
