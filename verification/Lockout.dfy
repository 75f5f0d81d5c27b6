/**
 The one-time-code lockout of the server: five wrong codes lock an account for fifteen minutes. The
 failure count outlives the lock, so from the fifth on every wrong code locks it again.
 */
module Lockout {
  import opened Basics

  type Account = nat

  /** A row of the lockout table. */
  datatype Row = Row(failed: nat, lockedUntil: Option<int>)

  /** One request: `correct` is what comparing the code would give, `None` without an enrolled secret. */
  datatype Attempt = Attempt(account: Account, now: int, correct: Option<bool>)

  datatype Outcome = Accepted | Wrong | LockedOut | NotEnrolled

  const LOCK_SECONDS: int := 900

  type Table = map<Account, Row>

  predicate Locked(t: Table, account: Account, now: int) {
    account in t && t[account].lockedUntil.Some? && t[account].lockedUntil.value > now
  }

  function Verdict(t: Table, a: Attempt): Outcome {
    if Locked(t, a.account, a.now) then LockedOut
    else if a.correct.None? then NotEnrolled
    else if a.correct.value then Accepted
    else Wrong
  }

  function After(t: Table, a: Attempt): Table {
    match Verdict(t, a)
    case LockedOut => t
    case NotEnrolled => t
    case Accepted => t - {a.account}
    case Wrong =>
      if a.account !in t then t[a.account := Row(1, None)]
      else
        var n := t[a.account].failed + 1;
        t[a.account := Row(n, if n >= 5 then Some(a.now + LOCK_SECONDS) else None)]
  }

  class LockoutTable {
    var rows: Table

    constructor ()
      ensures rows == map[]
    {
      rows := map[];
    }

    method CheckTotpCode(account: Account, now: int, correct: Option<bool>) returns (r: Outcome)
      modifies this
      ensures r == Verdict(old(rows), Attempt(account, now, correct))
      ensures rows == After(old(rows), Attempt(account, now, correct))
    {
      if account in rows {
        var until := rows[account].lockedUntil;
        if until.Some? && until.value > now {
          return LockedOut;
        }
      }
      if correct.None? {
        return NotEnrolled;
      }
      if !correct.value {
        if account in rows {
          var failed := rows[account].failed + 1;
          rows := rows[account := Row(failed, if failed >= 5 then Some(now + LOCK_SECONDS) else None)];
        } else {
          rows := rows[account := Row(1, None)];
        }
        return Wrong;
      }
      rows := rows - {account};
      return Accepted;
    }
  }

  // -- Runs ------------------------------------------------------------------------------

  function State(run: seq<Attempt>): Table {
    if run == [] then map[] else After(State(run[..|run| - 1]), run[|run| - 1])
  }

  /** The times at which wrong codes of `account` were evaluated since its last success. */
  function Wrongs(run: seq<Attempt>, account: Account): (ts: seq<int>)
    ensures |ts| <= |run|
  {
    if run == [] then []
    else
      var front, a := run[..|run| - 1], run[|run| - 1];
      var before := Wrongs(front, account);
      if a.account != account then before
      else
        match Verdict(State(front), a)
        case Wrong => before + [a.now]
        case Accepted => []
        case _ => before
  }

  predicate Monotone(run: seq<Attempt>) {
    forall i, j :: 0 <= i < j < |run| ==> run[i].now <= run[j].now
  }

  /** The row of an account counts exactly the wrong codes since its last success, and is locked for
      fifteen minutes after the latest of them once there are five. */
  lemma {:induction false} RowCountsWrongs(run: seq<Attempt>, account: Account)
    ensures
      var ts, t := Wrongs(run, account), State(run);
      && (account in t <==> ts != [])
      && (ts != [] ==> t[account] == Row(|ts|, if |ts| >= 5 then Some(ts[|ts| - 1] + LOCK_SECONDS) else None))
  {
    if run != [] {
      RowCountsWrongs(run[..|run| - 1], account);
    }
  }

  /** From the fifth wrong code on, the next one waits at least fifteen minutes. */
  lemma {:induction false} WrongsSpaced(run: seq<Attempt>, account: Account, i: nat)
    requires 4 <= i && i + 1 < |Wrongs(run, account)|
    ensures Wrongs(run, account)[i + 1] - Wrongs(run, account)[i] >= LOCK_SECONDS
  {
    var front := run[..|run| - 1];
    RowCountsWrongs(front, account);
    if i + 1 < |Wrongs(front, account)| {
      WrongsSpaced(front, account, i);
    }
  }

  lemma {:induction false} WrongsOrdered(run: seq<Attempt>, account: Account, i: nat)
    requires Monotone(run) && i < |Wrongs(run, account)|
    ensures Wrongs(run, account)[0] <= Wrongs(run, account)[i] <= run[|run| - 1].now
  {
    var front := run[..|run| - 1];
    if i < |Wrongs(front, account)| {
      WrongsOrdered(front, account, i);
    } else if i > 0 {
      WrongsOrdered(front, account, i - 1);
    }
  }

  lemma {:induction false} SpreadOfWrongs(run: seq<Attempt>, account: Account, k: nat)
    requires Monotone(run) && 5 <= k <= |Wrongs(run, account)|
    ensures Wrongs(run, account)[k - 1] - Wrongs(run, account)[0] >= (k - 5) * LOCK_SECONDS
    decreases k
  {
    if k == 5 {
      WrongsOrdered(run, account, 4);
    } else {
      SpreadOfWrongs(run, account, k - 1);
      WrongsSpaced(run, account, k - 2);
    }
  }

  /** Between two successes of an account the number of codes tried is at most five and one more for
      every fifteen minutes passed, however requests for other accounts interleave. */
  lemma LockoutBound(run: seq<Attempt>, account: Account, k: nat)
    requires Monotone(run) && 1 <= k <= |Wrongs(run, account)|
    ensures Wrongs(run, account)[k - 1] >= Wrongs(run, account)[0]
    ensures k <= 5 + (Wrongs(run, account)[k - 1] - Wrongs(run, account)[0]) / LOCK_SECONDS
  {
    WrongsOrdered(run, account, k - 1);
    if k >= 5 {
      SpreadOfWrongs(run, account, k);
    }
  }

  /** Five wrong codes at time zero and then one every fifteen minutes. */
  function Guessing(account: Account, k: nat): (run: seq<Attempt>)
    ensures |run| == k
  {
    if k == 0 then []
    else Guessing(account, k - 1) + [Attempt(account, if k <= 5 then 0 else (k - 5) * LOCK_SECONDS, Some(false))]
  }

  /** The bound is reached for every number of tries. */
  lemma {:induction false} BoundIsTight(account: Account, k: nat)
    ensures var ts := Wrongs(Guessing(account, k), account);
      |ts| == k && (k > 0 ==> ts[0] == 0 && ts[k - 1] == if k <= 5 then 0 else (k - 5) * LOCK_SECONDS)
  {
    if k > 0 {
      BoundIsTight(account, k - 1);
      var front, run := Guessing(account, k - 1), Guessing(account, k);
      assert run[..|run| - 1] == front;
      RowCountsWrongs(front, account);
    }
  }

  /** While an account is locked even the right code is refused and nothing changes; it is locked
      exactly for the fifteen minutes after the latest of at least five wrong codes. */
  lemma LockedExactly(run: seq<Attempt>, a: Attempt)
    ensures
      var ts := Wrongs(run, a.account);
      Verdict(State(run), a) == LockedOut <==> |ts| >= 5 && a.now < ts[|ts| - 1] + LOCK_SECONDS
    ensures Verdict(State(run), a) == LockedOut ==> After(State(run), a) == State(run)
  {
    RowCountsWrongs(run, a.account);
  }

  /** Each of the four outcomes, exactly, over any run: locked out as above; otherwise not enrolled without a
      secret, accepted for the right code and wrong for any other. */
  lemma OutcomesExactly(run: seq<Attempt>, a: Attempt)
    ensures
      var ts, v := Wrongs(run, a.account), Verdict(State(run), a);
      var locked := |ts| >= 5 && a.now < ts[|ts| - 1] + 900;
      && (v == LockedOut <==> locked)
      && (v == NotEnrolled <==> !locked && a.correct == None)
      && (v == Accepted <==> !locked && a.correct == Some(true))
      && (v == Wrong <==> !locked && a.correct == Some(false))
  {
    RowCountsWrongs(run, a.account);
  }

  /** What an attempt does to the count of wrong codes of each account, exactly. */
  lemma CountsExactly(run: seq<Attempt>, a: Attempt, account: Account)
    ensures
      var before, after := Wrongs(run, account), Wrongs(run + [a], account);
      after ==
        if a.account != account then before
        else if Verdict(State(run), a) == Accepted then []
        else if Verdict(State(run), a) == Wrong then before + [a.now]
        else before
  {
    assert (run + [a])[..|run|] == run;
  }

  // -- Check and count apart -----------------------------------------------------------------

  /** The statement that counts a wrong code, run on whatever row it finds. */
  function Bump(t: Table, account: Account, now: int): Table {
    if account !in t then t[account := Row(1, None)]
    else
      var n := t[account].failed + 1;
      t[account := Row(n, if n >= 5 then Some(now + LOCK_SECONDS) else None)]
  }

  function BumpAll(t: Table, account: Account, now: int, n: nat): Table {
    if n == 0 then t else Bump(BumpAll(t, account, now, n - 1), account, now)
  }

  function Failed(t: Table, account: Account): nat {
    if account in t then t[account].failed else 0
  }

  /** Requests that all read the row before any of them counts are all evaluated, however many there are:
      the bound holds only for checks that run one after the other. The count still comes out right, and
      the account is locked afterwards exactly when it reached five. */
  lemma {:induction false} RacingCodes(t: Table, account: Account, now: int, n: nat)
    requires !Locked(t, account, now)
    ensures Verdict(t, Attempt(account, now, Some(false))) == Wrong
    ensures Failed(BumpAll(t, account, now, n), account) == Failed(t, account) + n
    ensures n >= 1 ==> (Locked(BumpAll(t, account, now, n), account, now) <==> Failed(t, account) + n >= 5)
    decreases n
  {
    if n > 0 {
      RacingCodes(t, account, now, n - 1);
    }
  }

  /** One after the other, of the same number of codes at one instant only five are evaluated. */
  lemma {:induction false} WrongRunEvaluates(account: Account, now: int, n: nat)
    ensures |Wrongs(SameTime(account, now, n), account)| == Min(n, 5)
  {
    if n > 0 {
      WrongRunEvaluates(account, now, n - 1);
      var front, run := SameTime(account, now, n - 1), SameTime(account, now, n);
      assert run[..|run| - 1] == front;
      RowCountsWrongs(front, account);
      AllAtOnce(account, now, n - 1);
    }
  }

  lemma {:induction false} AllAtOnce(account: Account, now: int, n: nat)
    ensures forall i :: 0 <= i < |Wrongs(SameTime(account, now, n), account)| ==>
      Wrongs(SameTime(account, now, n), account)[i] == now
  {
    if n > 0 {
      AllAtOnce(account, now, n - 1);
      assert SameTime(account, now, n)[..n - 1] == SameTime(account, now, n - 1);
    }
  }

  function SameTime(account: Account, now: int, n: nat): (run: seq<Attempt>)
    ensures |run| == n
  {
    if n == 0 then [] else SameTime(account, now, n - 1) + [Attempt(account, now, Some(false))]
  }
}
