/** Login lockout: a per-identifier failure counter with an expiry, over whole runs of attempts. */
module Lockout {
  import opened Prelude

  const MAX_ATTEMPTS := 5
  const LOCKOUT_MS := 900_000

  datatype Cell = Cell(count: int, expiresAt: int)
  type Store = map<string, Cell>

  /** What the rest of the login finds: no usable account, a wrong password, or a right one. */
  datatype Check = NoAccount | Mismatch | Match
  datatype Attempt = Attempt(id: string, now: int, check: Check)
  datatype Outcome = Locked | Failed | Passed

  /** An expired key reads as absent. */
  function Get(store: Store, id: string, now: int): Option<int> {
    if id in store && now < store[id].expiresAt then Some(store[id].count) else None
  }

  predicate LockedOut(store: Store, id: string, now: int) {
    Get(store, id, now).Some? && Get(store, id, now).value >= MAX_ATTEMPTS
  }

  function OutcomeOf(store: Store, a: Attempt): Outcome {
    if LockedOut(store, a.id, a.now) then Locked else if a.check == Match then Passed else Failed
  }

  function AfterLogin(store: Store, a: Attempt): Store {
    match OutcomeOf(store, a)
    case Locked => store
    case Passed => store - {a.id}
    case Failed =>
      var found := Get(store, a.id, a.now);
      store[a.id := Cell((if found.Some? then found.value else 0) + 1, a.now + LOCKOUT_MS)]
  }

  class AuthService {
    var attempts: Store

    constructor ()
      ensures attempts == map[]
    {
      attempts := map[];
    }

    method RecordFailedLogin(id: string, now: int)
      modifies this
      ensures attempts == old(attempts)[id := Cell(
                (if Get(old(attempts), id, now).Some? then Get(old(attempts), id, now).value else 0) + 1, now + LOCKOUT_MS)]
    {
      var current := 0;
      if id in attempts && now < attempts[id].expiresAt {
        current := attempts[id].count;
      }
      attempts := attempts[id := Cell(current + 1, now + LOCKOUT_MS)];
    }

    /** `compared` tells whether the password was looked at. */
    method Login(a: Attempt) returns (outcome: Outcome, compared: bool)
      modifies this
      ensures outcome == OutcomeOf(old(attempts), a)
      ensures attempts == AfterLogin(old(attempts), a)
      ensures compared <==> outcome != Locked && a.check != NoAccount
    {
      compared := false;
      if IsLockedOut(a.id, a.now) { return Locked, false; }
      if a.check == NoAccount {
        RecordFailedLogin(a.id, a.now);
        return Failed, false;
      }
      compared := true;
      if a.check == Mismatch {
        RecordFailedLogin(a.id, a.now);
        return Failed, compared;
      }
      attempts := attempts - {a.id};
      outcome := Passed;
    }

    predicate IsLockedOut(id: string, now: int)
      reads this
    {
      LockedOut(attempts, id, now)
    }
  }

  // ----- runs

  /** The counters after the first attempts of a run. */
  function End(run: seq<Attempt>): Store {
    if |run| == 0 then map[] else AfterLogin(End(run[..|run| - 1]), run[|run| - 1])
  }

  function OutcomeAt(run: seq<Attempt>, i: nat): Outcome
    requires i < |run|
  {
    OutcomeOf(End(run[..i]), run[i])
  }

  ghost predicate Timed(run: seq<Attempt>) {
    forall i, j :: 0 <= i < j < |run| ==> run[i].now <= run[j].now
  }

  /** Failures recorded for the identifier by attempts i up to (not including) j. */
  ghost function Failures(run: seq<Attempt>, id: string, i: nat, j: nat): nat
    requires i <= j <= |run|
  {
    if i == j then 0
    else Failures(run, id, i, j - 1) + (if run[j - 1].id == id && OutcomeAt(run, j - 1) == Failed then 1 else 0)
  }

  ghost predicate NoPass(run: seq<Attempt>, id: string, i: nat, j: nat) {
    i <= j <= |run| && forall k :: i <= k < j && run[k].id == id ==> OutcomeAt(run, k) != Passed
  }

  lemma EndStep(run: seq<Attempt>, j: nat)
    requires j < |run|
    ensures End(run[..j + 1]) == AfterLogin(End(run[..j]), run[j])
  {
    assert run[..j + 1][..j] == run[..j];
  }

  /** The stored count never exceeds five. */
  lemma {:induction false} CountBounded(run: seq<Attempt>, n: nat, id: string)
    requires n <= |run|
    ensures id in End(run[..n]) ==> 1 <= End(run[..n])[id].count <= MAX_ATTEMPTS
  {
    if n > 0 {
      CountBounded(run, n - 1, id);
      EndStep(run, n - 1);
    }
  }

  /** While a span shorter than the lockout has seen no pass, its failures are all still counted. */
  lemma {:induction false} SpanIsCounted(run: seq<Attempt>, id: string, i: nat, j: nat)
    requires Timed(run) && NoPass(run, id, i, j) && i < j && run[j - 1].now - run[i].now < LOCKOUT_MS
    requires Failures(run, id, i, j) >= 1
    ensures var s := End(run[..j]);
      id in s && Failures(run, id, i, j) <= s[id].count && run[i].now + LOCKOUT_MS <= s[id].expiresAt
    decreases j
  {
    var a, before := run[j - 1], End(run[..j - 1]);
    EndStep(run, j - 1);
    assert OutcomeAt(run, j - 1) == OutcomeOf(before, a);
    if i < j - 1 && Failures(run, id, i, j - 1) >= 1 {
      assert run[j - 2].now <= a.now;
      SpanIsCounted(run, id, i, j - 1);
      CountsOn(before, a, id, run[i].now, Failures(run, id, i, j - 1));
    } else {
      CountBounded(run, j - 1, id);
    }
  }

  /** One more attempt inside the span, not a pass: a failure is added to a counter still alive. */
  lemma CountsOn(store: Store, a: Attempt, id: string, since: int, n: nat)
    requires id in store && n <= store[id].count && since + LOCKOUT_MS <= store[id].expiresAt
    requires since <= a.now < since + LOCKOUT_MS && !(a.id == id && OutcomeOf(store, a) == Passed)
    ensures var s := AfterLogin(store, a);
      && id in s && since + LOCKOUT_MS <= s[id].expiresAt
      && n + (if a.id == id && OutcomeOf(store, a) == Failed then 1 else 0) <= s[id].count
  {
  }

  /** Any span shorter than 900 seconds without a right password records at most five failures. */
  lemma AtMostFiveFailures(run: seq<Attempt>, id: string, i: nat, j: nat)
    requires Timed(run) && NoPass(run, id, i, j) && i < j && run[j - 1].now - run[i].now < LOCKOUT_MS
    ensures Failures(run, id, i, j) <= MAX_ATTEMPTS
  {
    if Failures(run, id, i, j) >= 1 {
      SpanIsCounted(run, id, i, j);
      CountBounded(run, j, id);
    }
  }

  /** A locked counter stays as it is, and turns attempts away, until it runs out. */
  lemma LockStays(s: Store, a: Attempt, id: string, until: int)
    requires id in s && s[id] == Cell(MAX_ATTEMPTS, until) && a.now < until
    ensures id in AfterLogin(s, a) && AfterLogin(s, a)[id] == s[id]
    ensures a.id == id ==> OutcomeOf(s, a) == Locked
  {
  }

  lemma FailureSetsExpiry(s: Store, a: Attempt)
    requires OutcomeOf(s, a) == Failed
    ensures a.id in AfterLogin(s, a) && AfterLogin(s, a)[a.id].expiresAt == a.now + LOCKOUT_MS
  {
  }

  /** After the failure that brings the count to five, every attempt of the next 900 seconds is
      turned away before any password is compared. */
  lemma {:induction false} FifthFailureLocks(run: seq<Attempt>, i: nat, j: nat)
    requires Timed(run) && i < j < |run| && run[j].now < run[i].now + LOCKOUT_MS
    requires OutcomeAt(run, i) == Failed
    requires run[i].id in End(run[..i + 1]) && End(run[..i + 1])[run[i].id].count == MAX_ATTEMPTS
    ensures run[i].id in End(run[..j]) && End(run[..j])[run[i].id] == Cell(MAX_ATTEMPTS, run[i].now + LOCKOUT_MS)
    ensures run[j].id == run[i].id ==> OutcomeAt(run, j) == Locked
    decreases j
  {
    EndStep(run, j - 1);
    if j - 1 > i {
      assert run[j - 1].now <= run[j].now;
      FifthFailureLocks(run, i, j - 1);
      LockStays(End(run[..j - 1]), run[j - 1], run[i].id, run[i].now + LOCKOUT_MS);
    } else {
      FailureSetsExpiry(End(run[..i]), run[i]);
    }
    LockStays(End(run[..j]), run[j], run[i].id, run[i].now + LOCKOUT_MS);
  }

  // ----- the same, over the checks of the attempts

  /** Five failures are counted and still live when attempt `i` comes. */
  ghost predicate Barred(run: seq<Attempt>, i: nat)
    requires i < |run|
  {
    var s, a := End(run[..i]), run[i];
    a.id in s && a.now < s[a.id].expiresAt && s[a.id].count >= 5
  }

  /** An attempt passes exactly with a right password while it is not barred, and fails exactly without an
      account or with a wrong one. A pass leaves the identifier without a counter; a failure counts one
      more on a live counter and one on none, for 900 seconds; nobody else's counter moves. */
  lemma OutcomeIsExact(run: seq<Attempt>, i: nat, other: string)
    requires i < |run| && other != run[i].id
    ensures var a, s, t := run[i], End(run[..i]), End(run[..i + 1]);
      && (OutcomeAt(run, i) == Locked <==> Barred(run, i))
      && (OutcomeAt(run, i) == Passed <==> !Barred(run, i) && a.check == Match)
      && (OutcomeAt(run, i) == Failed <==> !Barred(run, i) && (a.check == NoAccount || a.check == Mismatch))
      && (OutcomeAt(run, i) == Locked ==> t == s)
      && (OutcomeAt(run, i) == Passed ==> a.id !in t)
      && (OutcomeAt(run, i) == Failed ==>
            && a.id in t && t[a.id].expiresAt == a.now + 900_000
            && t[a.id].count == if a.id in s && a.now < s[a.id].expiresAt then s[a.id].count + 1 else 1)
      && (other in t <==> other in s) && (other in s ==> t[other] == s[other])
      && End(run[..0]) == map[]
  {
    EndStep(run, i);
  }

  /** Attempts i up to (not including) j for the identifier without a right password, not barred. */
  ghost function Guesses(run: seq<Attempt>, id: string, i: nat, j: nat): nat
    requires i <= j <= |run|
  {
    if i == j then 0
    else Guesses(run, id, i, j - 1)
         + (if run[j - 1].id == id && run[j - 1].check != Match && !Barred(run, j - 1) then 1 else 0)
  }

  lemma {:induction false} GuessesAreFailures(run: seq<Attempt>, id: string, i: nat, j: nat)
    requires i <= j <= |run|
    ensures Guesses(run, id, i, j) == Failures(run, id, i, j)
  {
    if i < j {
      GuessesAreFailures(run, id, i, j - 1);
      OutcomeIsExact(run, j - 1, run[j - 1].id + "'");
    }
  }

  /** In any span shorter than 900 seconds in which the right password is not given to an identifier that
      is not barred, at most five wrong ones are looked at. */
  lemma AtMostFiveGuesses(run: seq<Attempt>, id: string, i: nat, j: nat)
    requires Timed(run) && i < j <= |run| && run[j - 1].now - run[i].now < 900_000
    requires forall k :: i <= k < j && run[k].id == id && run[k].check == Match ==> Barred(run, k)
    ensures Guesses(run, id, i, j) <= 5
  {
    forall k | i <= k < j && run[k].id == id ensures OutcomeAt(run, k) != Passed {
      OutcomeIsExact(run, k, run[k].id + "'");
    }
    GuessesAreFailures(run, id, i, j);
    AtMostFiveFailures(run, id, i, j);
  }
}
