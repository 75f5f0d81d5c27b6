/** Small value types shared by the other modules. */
module Basics {

  datatype Option<+T> = None | Some(value: T)

  datatype Result<+T, +E> = Ok(value: T) | Err(error: E)

  function Max(a: int, b: int): int {
    if a < b then b else a
  }

  function Min(a: int, b: int): int {
    if a < b then a else b
  }

  /** Unicode white space. */
  predicate White(c: char) {
    var u := c as int;
    || 0x9 <= u <= 0xD || u == 0x20 || u == 0x85 || u == 0xA0 || u == 0x1680
    || 0x2000 <= u <= 0x200A || u == 0x2028 || u == 0x2029 || u == 0x202F || u == 0x205F || u == 0x3000
  }

  function TrimLeft(s: string): string {
    if s != [] && White(s[0]) then TrimLeft(s[1..]) else s
  }

  function TrimRight(s: string): string {
    if s != [] && White(s[|s| - 1]) then TrimRight(s[..|s| - 1]) else s
  }

  function Trim(s: string): string {
    TrimRight(TrimLeft(s))
  }

  /** Trimming takes off white space at both ends and nothing else. */
  lemma TrimAround(before: string, core: string, after: string)
    requires core != [] && !White(core[0]) && !White(core[|core| - 1])
    requires forall i :: 0 <= i < |before| ==> White(before[i])
    requires forall i :: 0 <= i < |after| ==> White(after[i])
    ensures Trim(before + core + after) == core
  {
    assert before + core + after == before + (core + after);
    LeftOff(before, core + after);
    RightOff(core, after);
  }

  lemma {:induction false} LeftOff(before: string, rest: string)
    requires rest != [] && !White(rest[0])
    requires forall i :: 0 <= i < |before| ==> White(before[i])
    ensures TrimLeft(before + rest) == rest
  {
    if before == [] {
      assert before + rest == rest;
    } else {
      LeftOff(before[1..], rest);
      assert (before + rest)[1..] == before[1..] + rest;
    }
  }

  lemma {:induction false} RightOff(core: string, after: string)
    requires core != [] && !White(core[|core| - 1])
    requires forall i :: 0 <= i < |after| ==> White(after[i])
    ensures TrimRight(core + after) == core
    decreases |after|
  {
    if after == [] {
      assert core + after == core;
    } else {
      RightOff(core, after[..|after| - 1]);
      assert (core + after)[..|core + after| - 1] == core + after[..|after| - 1];
    }
  }

  /** UTF-8, section 3 of RFC 3629. */
  function Utf8Char(c: char): seq<bv8> {
    var u := c as int;
    if u < 0x80 then [u as bv8]
    else if u < 0x800 then [(0xC0 + u / 0x40) as bv8, (0x80 + u % 0x40) as bv8]
    else if u < 0x1_0000 then
      [(0xE0 + u / 0x1000) as bv8, (0x80 + u / 0x40 % 0x40) as bv8, (0x80 + u % 0x40) as bv8]
    else
      [(0xF0 + u / 0x4_0000) as bv8, (0x80 + u / 0x1000 % 0x40) as bv8, (0x80 + u / 0x40 % 0x40) as bv8,
       (0x80 + u % 0x40) as bv8]
  }

  function Utf8(s: string): seq<bv8> {
    if s == [] then [] else Utf8(s[..|s| - 1]) + Utf8Char(s[|s| - 1])
  }
}
