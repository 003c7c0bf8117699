/** Limit on login attempts per address: five free failures, then locks of 30 s, doubled at
    each failure up to an hour, forgotten a day after the last one. Times are in seconds. */
module LoginLimit {
  import opened Powers

  const FREE_ATTEMPTS: nat := 5
  const LOCK_BASE: real := 30.0
  const LOCK_MAX: real := 3600.0
  const FORGET_AFTER: real := 86400.0
  const PURGE_ABOVE: nat := 10000

  datatype Failure = Failure(count: nat, until: real, last: real)

  type Table = map<string, Failure>

  /** Conversion to an integer, toward zero. */
  function Truncate(x: real): int {
    if x >= 0.0 then x.Floor else -(-x).Floor
  }

  /** Seconds to wait before an attempt is let through; 0: none. */
  function RetryAfter(t: Table, ip: string, now: real): int {
    if ip !in t then 0
    else
      var w := Truncate(t[ip].until - now + 0.999);
      if w < 0 then 0 else w
  }

  /** Lock that follows the n-th failure. */
  function Lock(n: nat): real
    requires n >= FREE_ATTEMPTS
  {
    var extra := if n - FREE_ATTEMPTS > 20 then 20 else n - FREE_ATTEMPTS;
    var lock := LOCK_BASE * (Pow2(extra) as real);
    if lock > LOCK_MAX then LOCK_MAX else lock
  }

  function Purged(t: Table, now: real): Table {
    map ip | ip in t && now - t[ip].last <= FORGET_AFTER :: t[ip]
  }

  function Counted(t: Table, ip: string, now: real): Table {
    var e := if ip in t && now - t[ip].last <= FORGET_AFTER then t[ip] else Failure(0, 0.0, now);
    var n := e.count + 1;
    t[ip := Failure(n, if n >= FREE_ATTEMPTS then now + Lock(n) else e.until, now)]
  }

  function Failed(t: Table, ip: string, now: real): Table {
    Counted(if |t| > PURGE_ABOVE then Purged(t, now) else t, ip, now)
  }

  class Limiter {
    var failures: Table

    constructor ()
      ensures failures == map[]
    {
      failures := map[];
    }

    method LoginRetryAfter(ip: string, now: real) returns (w: int)
      ensures w == RetryAfter(failures, ip, now)
    {
      if ip !in failures {
        return 0;
      }
      w := Truncate(failures[ip].until - now + 0.999);
      if w < 0 {
        return 0;
      }
    }

    /** Entries idle for a day leave. */
    method Purge(now: real)
      modifies this
      ensures failures == Purged(old(failures), now)
    {
      ghost var before := failures;
      var todo := failures.Keys;
      while todo != {}
        invariant todo <= failures.Keys <= before.Keys
        invariant forall k :: k in failures ==> failures[k] == before[k]
        invariant forall k :: k in before && k !in todo ==>
                    (k in failures <==> now - before[k].last <= FORGET_AFTER)
        decreases todo
      {
        var k :| k in todo;
        todo := todo - {k};
        if now - failures[k].last > FORGET_AFTER {
          failures := failures - {k};
        }
      }
      assert failures == Purged(before, now);
    }

    method LoginFailed(ip: string, now: real)
      modifies this
      ensures failures == Failed(old(failures), ip, now)
    {
      hide Purged;
      if |failures| > PURGE_ABOVE {
        Purge(now);
      }
      var e := if ip in failures then failures[ip] else Failure(0, 0.0, now);
      if ip !in failures || now - e.last > FORGET_AFTER {
        e := Failure(0, 0.0, now);
      }
      e := e.(count := e.count + 1, last := now);
      if e.count >= FREE_ATTEMPTS {
        var extra := e.count - FREE_ATTEMPTS;
        if extra > 20 {
          extra := 20;
        }
        var lock := LOCK_BASE * (Pow2(extra) as real);
        if lock > LOCK_MAX {
          lock := LOCK_MAX;
        }
        e := e.(until := now + lock);
      }
      failures := failures[ip := e];
    }

    /** No wait is left for the address, and its next failure counts as its first one; other addresses
        wait as before. */
    method LoginSucceeded(ip: string)
      modifies this
      ensures failures == old(failures) - {ip}
      ensures forall now :: RetryAfter(failures, ip, now) == 0 && Failed(failures, ip, now)[ip] == Failure(1, 0.0, now)
      ensures forall other, now :: other != ip ==> RetryAfter(failures, other, now) == RetryAfter(old(failures), other, now)
    {
      failures := failures - {ip};
    }
  }

  /** The lock doubles from 30 s and stops at an hour, however many failures there are. */
  lemma LockValue(n: nat)
    requires n >= FREE_ATTEMPTS
    ensures var lock := 30.0 * (Pow2(n - 5) as real); Lock(n) == if lock < 3600.0 then lock else 3600.0
    ensures Lock(n) >= 30.0
  {
    Pow2Eight();
    if n - 5 >= 8 {
      Pow2Monotone(8, n - 5);
      Pow2Monotone(8, if n - 5 > 20 then 20 else n - 5);
    }
  }

  // ---- Runs of attempts ----

  /** One login attempt from an address: let through or not, then accepted or counted. */
  datatype Attempt = Attempt(ip: string, now: real, correct: bool)

  predicate LetThrough(t: Table, a: Attempt) {
    RetryAfter(t, a.ip, a.now) <= 0
  }

  function Step(t: Table, a: Attempt): Table {
    if !LetThrough(t, a) then t
    else if a.correct then t - {a.ip}
    else Failed(t, a.ip, a.now)
  }

  ghost predicate InOrder(run: seq<Attempt>) {
    forall i, j :: 0 <= i < j < |run| ==> run[i].now <= run[j].now
  }

  function After(run: seq<Attempt>): Table {
    if run == [] then map[] else Step(After(run[..|run| - 1]), run[|run| - 1])
  }

  function NextStreak(t: Table, times: seq<real>, a: Attempt, ip: string): seq<real> {
    if a.ip != ip || !LetThrough(t, a) then times
    else if a.correct then []
    else if times == [] || a.now - times[|times| - 1] > FORGET_AFTER then [a.now]
    else times + [a.now]
  }

  /** Times of the failures that make up the current streak of the address. */
  function Streak(run: seq<Attempt>, ip: string): seq<real> {
    if run == [] then []
    else
      var before := run[..|run| - 1];
      NextStreak(After(before), Streak(before, ip), run[|run| - 1], ip)
  }

  /** An entry is its streak: how many failures, when the last one was, how long it locks. */
  ghost predicate Faithful(t: Table, ip: string, times: seq<real>, now: real) {
    && (ip in t ==> times != [] && t[ip] == EntryOf(times))
    && (ip !in t ==> times == [] || now - times[|times| - 1] > FORGET_AFTER)
    && (times != [] ==> times[|times| - 1] <= now)
  }

  function EntryOf(times: seq<real>): Failure
    requires times != []
  {
    var n, last := |times|, times[|times| - 1];
    Failure(n, if n >= FREE_ATTEMPTS then last + Lock(n) else 0.0, last)
  }

  /** Successive failures of a streak are apart by the lock of the first, less a millisecond. */
  ghost predicate Spaced(times: seq<real>) {
    && (forall j :: 1 <= j < |times| ==> times[j - 1] <= times[j])
    && forall j :: FREE_ATTEMPTS <= j < |times| ==> times[j] - times[j - 1] >= Lock(j) - 0.001
  }

  lemma FloorBelowOne(x: real)
    ensures x >= 1.0 ==> x.Floor >= 1
  {
  }

  lemma LetThroughMeansUnlocked(t: Table, a: Attempt)
    requires LetThrough(t, a) && a.ip in t
    ensures t[a.ip].until - a.now <= 0.001
  {
    FloorBelowOne(t[a.ip].until - a.now + 0.999);
  }

  lemma PurgeKeepsFaith(t: Table, ip: string, times: seq<real>, now: real)
    requires Faithful(t, ip, times, now)
    ensures ip in Purged(t, now) ==> ip in t
    ensures Faithful(Purged(t, now), ip, times, now)
  {
  }

  // The counted attempt, on a table that may have been purged.
  lemma CountedStep(t: Table, ip: string, times: seq<real>, now: real)
    requires Faithful(t, ip, times, now) && Spaced(times)
    requires ip in t && |times| >= FREE_ATTEMPTS ==> now - times[|times| - 1] >= Lock(|times|) - 0.001
    ensures var next := if times == [] || now - times[|times| - 1] > FORGET_AFTER then [now] else times + [now];
            Faithful(Counted(t, ip, now), ip, next, now) && Spaced(next)
  {
    hide Lock;
    if ip in t && now - times[|times| - 1] <= FORGET_AFTER {
      var next := times + [now];
      forall j | 1 <= j < |next| ensures next[j - 1] <= next[j] {
        assert j < |times| ==> times[j - 1] <= times[j];
      }
      forall j | FREE_ATTEMPTS <= j < |next| ensures next[j] - next[j - 1] >= Lock(j) - 0.001 {
        assert j < |times| ==> times[j] - times[j - 1] >= Lock(j) - 0.001;
      }
    }
  }

  lemma StreakStep(t: Table, times: seq<real>, a: Attempt, ip: string)
    requires Faithful(t, ip, times, a.now) && Spaced(times)
    ensures Faithful(Step(t, a), ip, NextStreak(t, times, a, ip), a.now) && Spaced(NextStreak(t, times, a, ip))
  {
    hide Lock, Truncate, Purged, Counted, Spaced, Faithful, EntryOf, LetThrough;
    if LetThrough(t, a) {
      if a.correct {
        ForgottenStep(t, ip, times, a);
      } else {
        PurgeKeepsFaith(t, ip, times, a.now);
        FailedStep(t, if |t| > PURGE_ABOVE then Purged(t, a.now) else t, ip, times, a);
      }
    }
  }

  lemma ForgottenStep(t: Table, ip: string, times: seq<real>, a: Attempt)
    requires Faithful(t, ip, times, a.now) && Spaced(times)
    ensures Faithful(t - {a.ip}, ip, if a.ip == ip then [] else times, a.now) && Spaced([])
  {
    hide Lock, EntryOf;
  }

  lemma FailedStep(t: Table, p: Table, ip: string, times: seq<real>, a: Attempt)
    requires Faithful(t, ip, times, a.now) && Faithful(p, ip, times, a.now) && Spaced(times) && LetThrough(t, a)
    requires ip in p ==> ip in t
    ensures var next := if a.ip != ip then times else if times == [] || a.now - times[|times| - 1] > FORGET_AFTER then [a.now] else times + [a.now];
            Faithful(Counted(p, a.ip, a.now), ip, next, a.now) && Spaced(next)
  {
    hide Lock, Truncate, Spaced;
    if a.ip == ip {
      if ip in t {
        LetThroughMeansUnlocked(t, a);
      }
      CountedStep(p, ip, times, a.now);
    }
  }

  lemma LaterFaithful(t: Table, ip: string, times: seq<real>, now: real, later: real)
    requires Faithful(t, ip, times, now) && now <= later
    ensures Faithful(t, ip, times, later)
  {
  }

  lemma {:induction false} StreaksAreSpaced(run: seq<Attempt>, ip: string)
    requires InOrder(run)
    ensures Spaced(Streak(run, ip))
    ensures run != [] ==> Faithful(After(run), ip, Streak(run, ip), run[|run| - 1].now)
    decreases run
  {
    if run != [] {
      var before, a := run[..|run| - 1], run[|run| - 1];
      StreaksAreSpaced(before, ip);
      if before != [] {
        LaterFaithful(After(before), ip, Streak(before, ip), before[|before| - 1].now, a.now);
      }
      StreakStep(After(before), Streak(before, ip), a, ip);
    }
  }

  /** The wait in seconds, rounded up to the next second but for a millisecond. */
  lemma WaitIsWhatIsLeft(t: Table, ip: string, now: real)
    requires ip in t
    ensures t[ip].until <= now ==> RetryAfter(t, ip, now) == 0
    ensures now < t[ip].until ==> t[ip].until - now - 0.001 <= RetryAfter(t, ip, now) as real < t[ip].until - now + 1.0
  {
    var x := t[ip].until - now + 0.999;
    assert x >= 0.0 ==> x.Floor as real <= x < x.Floor as real + 1.0;
  }

  /** The wait after every run, at every later time: none with fewer than five failures in the streak.
      From the fifth on, min(30 * 2^(n-5), 3600) seconds after the last of the n failures it is over, and
      before that it is what is left, up to a second more and to a millisecond less. */
  lemma WaitAfterRun(run: seq<Attempt>, ip: string, now: real)
    requires InOrder(run) && now >= 0.0
    requires run != [] ==> run[|run| - 1].now <= now
    ensures |Streak(run, ip)| < 5 ==> RetryAfter(After(run), ip, now) == 0
    ensures |Streak(run, ip)| >= 5 ==>
              var n, last := |Streak(run, ip)|, Streak(run, ip)[|Streak(run, ip)| - 1];
              var end := last + if 30.0 * (Pow2(n - 5) as real) < 3600.0 then 30.0 * (Pow2(n - 5) as real) else 3600.0;
              && (end <= now ==> RetryAfter(After(run), ip, now) == 0)
              && (now < end ==> end - now - 0.001 <= RetryAfter(After(run), ip, now) as real < end - now + 1.0)
  {
    hide RetryAfter, Lock, After, Streak, Pow2, InOrder, Spaced, Faithful, EntryOf;
    StreaksAreSpaced(run, ip);
    if run != [] {
      LaterFaithful(After(run), ip, Streak(run, ip), run[|run| - 1].now, now);
      WaitOfStreak(After(run), Streak(run, ip), ip, now);
    } else {
      NoRunNoWait(ip, now);
    }
    if |Streak(run, ip)| >= 5 {
      LockValue(|Streak(run, ip)|);
    }
  }

  lemma NoRunNoWait(ip: string, now: real)
    ensures Streak([], ip) == [] && RetryAfter(After([]), ip, now) == 0
  {
  }

  lemma WaitOfStreak(t: Table, times: seq<real>, ip: string, now: real)
    requires Faithful(t, ip, times, now) && now >= 0.0
    ensures |times| < 5 ==> RetryAfter(t, ip, now) == 0
    ensures |times| >= 5 ==>
              var end := times[|times| - 1] + Lock(|times|);
              && (end <= now ==> RetryAfter(t, ip, now) == 0)
              && (now < end ==> end - now - 0.001 <= RetryAfter(t, ip, now) as real < end - now + 1.0)
  {
    hide RetryAfter;
    if ip in t {
      WaitIsWhatIsLeft(t, ip, now);
    } else {
      NoEntryNoWait(t, ip, now);
    }
  }

  lemma NoEntryNoWait(t: Table, ip: string, now: real)
    requires ip !in t
    ensures RetryAfter(t, ip, now) == 0
  {
  }

  // ---- What a streak is ----

  /** The i-th attempt is one from the address that had no wait. */
  ghost predicate Tried(run: seq<Attempt>, ip: string, i: int) {
    0 <= i < |run| && run[i].ip == ip && RetryAfter(After(run[..i]), ip, run[i].now) == 0
  }

  /** The times of the streak at some places `ix` of the run: wrong passwords that were let through, each
      at most a day after the one before, with nothing else let through since the first of them. What was
      let through earlier was followed by an accepted attempt, or by more than a day without any. */
  ghost predicate IsStreak(run: seq<Attempt>, ip: string, times: seq<real>) {
    exists ix :: Failures(run, ip, times, ix) && NothingElse(run, ip, ix) && AllBehind(run, ip, ix)
  }

  ghost predicate Failures(run: seq<Attempt>, ip: string, times: seq<real>, ix: seq<int>) {
    && |ix| == |times|
    && (forall k :: 0 <= k < |ix| ==> Tried(run, ip, ix[k]) && !run[ix[k]].correct && times[k] == run[ix[k]].now)
    && (forall k, l :: 0 <= k < l < |ix| ==> ix[k] < ix[l])
    && (forall k :: 1 <= k < |ix| ==> times[k] - times[k - 1] <= 86400.0)
  }

  ghost predicate NothingElse(run: seq<Attempt>, ip: string, ix: seq<int>) {
    forall i :: Tried(run, ip, i) && ix != [] && ix[0] <= i ==> exists k :: 0 <= k < |ix| && ix[k] == i
  }

  ghost predicate AllBehind(run: seq<Attempt>, ip: string, ix: seq<int>) {
    forall i :: Tried(run, ip, i) && (ix != [] ==> i < ix[0]) ==> PutBehind(run, ip, ix, i)
  }

  /** An accepted attempt, or a day before the streak, follows the i-th one or is that one. */
  ghost predicate PutBehind(run: seq<Attempt>, ip: string, ix: seq<int>, i: int) {
    exists j :: i <= j && (ix != [] ==> j < ix[0]) && Tried(run, ip, j)
      && (run[j].correct || (ix != [] && 0 <= ix[0] < |run| && run[ix[0]].now - run[j].now > 86400.0))
  }

  lemma TriedBefore(run: seq<Attempt>, ip: string, i: int)
    requires run != []
    ensures i < |run| - 1 ==> (Tried(run, ip, i) <==> Tried(run[..|run| - 1], ip, i))
    ensures Tried(run, ip, |run| - 1) <==> run[|run| - 1].ip == ip && LetThrough(After(run[..|run| - 1]), run[|run| - 1])
    ensures Tried(run, ip, i) ==> i <= |run| - 1
  {
    hide After, RetryAfter;
    if 0 <= i < |run| - 1 {
      assert run[..|run| - 1][..i] == run[..i];
    }
    NeverNegative(After(run[..|run| - 1]), run[|run| - 1].ip, run[|run| - 1].now);
  }

  lemma NeverNegative(t: Table, ip: string, now: real)
    ensures RetryAfter(t, ip, now) >= 0
  {
  }

  ghost predicate SameTries(run: seq<Attempt>, before: seq<Attempt>, ip: string) {
    && |run| == |before| + 1
    && (forall i :: i < |before| ==> (Tried(run, ip, i) <==> Tried(before, ip, i)))
    && (forall i :: Tried(run, ip, i) ==> 0 <= i <= |before|)
    && (forall i :: Tried(before, ip, i) ==> 0 <= i < |before|)
  }

  lemma TriesAreSame(run: seq<Attempt>, ip: string)
    requires run != []
    ensures SameTries(run, run[..|run| - 1], ip)
  {
    forall i
      ensures i < |run| - 1 ==> (Tried(run, ip, i) <==> Tried(run[..|run| - 1], ip, i))
      ensures Tried(run, ip, i) ==> 0 <= i <= |run| - 1
      ensures Tried(run[..|run| - 1], ip, i) ==> 0 <= i < |run| - 1
    {
      hide After, RetryAfter;
      TriedBefore(run, ip, i);
    }
  }

  /** The streak of every run is such a list of failures. */
  lemma {:induction false} StreakMeans(run: seq<Attempt>, ip: string)
    ensures IsStreak(run, ip, Streak(run, ip))
    decreases run
  {
    hide After, Tried, LetThrough, IsStreak, SameTries;
    if run == [] {
      EmptyStreak(ip);
    } else {
      var n := |run| - 1;
      var before, a := run[..n], run[n];
      StreakMeans(before, ip);
      TriesAreSame(run, ip);
      TriedBefore(run, ip, n);
      StreakGoesOn(run, ip, Streak(before, ip), Streak(run, ip));
    }
  }

  lemma EmptyStreak(ip: string)
    ensures IsStreak([], ip, [])
  {
    var ix: seq<int> := [];
    assert forall i :: !Tried([], ip, i);
    assert Failures([], ip, [], ix) && NothingElse([], ip, ix) && AllBehind([], ip, ix);
  }

  lemma StreakGoesOn(run: seq<Attempt>, ip: string, times: seq<real>, next: seq<real>)
    requires run != [] && SameTries(run, run[..|run| - 1], ip)
    requires IsStreak(run[..|run| - 1], ip, times)
    requires var a := run[|run| - 1];
             next == if !Tried(run, ip, |run| - 1) then times
                     else if a.correct then []
                     else if times == [] || a.now - times[|times| - 1] > FORGET_AFTER then [a.now]
                     else times + [a.now]
    ensures IsStreak(run, ip, next)
  {
    hide Tried, Failures, NothingElse, AllBehind, SameTries;
    var n := |run| - 1;
    var ix :| Failures(run[..n], ip, times, ix) && NothingElse(run[..n], ip, ix) && AllBehind(run[..n], ip, ix);
    StreakKept(run, ip, times, ix);
    if !Tried(run, ip, n) {
      KeptWhole(run, ip, ix);
    } else if run[n].correct {
      StreakEnds(run, ip);
    } else if times == [] || run[n].now - times[|times| - 1] > FORGET_AFTER {
      StreakStarts(run, ip, times, ix);
    } else {
      StreakGrows(run, ip, times, ix);
    }
  }

  // What was known of the shorter run, in the longer one.
  lemma StreakKept(run: seq<Attempt>, ip: string, times: seq<real>, ix: seq<int>)
    requires run != [] && SameTries(run, run[..|run| - 1], ip)
    requires Failures(run[..|run| - 1], ip, times, ix)
    requires NothingElse(run[..|run| - 1], ip, ix) && AllBehind(run[..|run| - 1], ip, ix)
    ensures Failures(run, ip, times, ix)
    ensures forall k :: 0 <= k < |ix| ==> 0 <= ix[k] < |run| - 1
    ensures forall i :: i < |run| - 1 && Tried(run, ip, i) && ix != [] && ix[0] <= i ==> exists k :: 0 <= k < |ix| && ix[k] == i
    ensures forall i :: i < |run| - 1 && Tried(run, ip, i) && (ix != [] ==> i < ix[0]) ==> PutBehind(run, ip, ix, i)
  {
    hide Tried;
    var n := |run| - 1;
    forall i | i < n && Tried(run, ip, i) && (ix != [] ==> i < ix[0]) ensures PutBehind(run, ip, ix, i) {
      assert PutBehind(run[..n], ip, ix, i);
      var j :| i <= j && (ix != [] ==> j < ix[0]) && Tried(run[..n], ip, j)
        && (run[..n][j].correct || (ix != [] && 0 <= ix[0] < n && run[..n][ix[0]].now - run[..n][j].now > 86400.0));
      assert Tried(run, ip, j);
    }
  }

  lemma KeptWhole(run: seq<Attempt>, ip: string, ix: seq<int>)
    requires run != [] && SameTries(run, run[..|run| - 1], ip) && !Tried(run, ip, |run| - 1)
    requires forall i :: i < |run| - 1 && Tried(run, ip, i) && ix != [] && ix[0] <= i ==> exists k :: 0 <= k < |ix| && ix[k] == i
    requires forall i :: i < |run| - 1 && Tried(run, ip, i) && (ix != [] ==> i < ix[0]) ==> PutBehind(run, ip, ix, i)
    ensures NothingElse(run, ip, ix) && AllBehind(run, ip, ix)
  {
    hide Tried, PutBehind;
  }

  lemma StreakEnds(run: seq<Attempt>, ip: string)
    requires run != [] && SameTries(run, run[..|run| - 1], ip) && Tried(run, ip, |run| - 1) && run[|run| - 1].correct
    ensures IsStreak(run, ip, [])
  {
    hide Tried;
    var ix: seq<int> := [];
    forall i | Tried(run, ip, i) ensures PutBehind(run, ip, ix, i) {
      assert i <= |run| - 1 && Tried(run, ip, |run| - 1);
    }
    assert Failures(run, ip, [], ix) && NothingElse(run, ip, ix) && AllBehind(run, ip, ix);
  }

  lemma StreakStarts(run: seq<Attempt>, ip: string, times: seq<real>, ix: seq<int>)
    requires run != [] && SameTries(run, run[..|run| - 1], ip) && Tried(run, ip, |run| - 1) && !run[|run| - 1].correct
    requires Failures(run, ip, times, ix) && (times == [] || run[|run| - 1].now - times[|times| - 1] > FORGET_AFTER)
    requires forall k :: 0 <= k < |ix| ==> 0 <= ix[k] < |run| - 1
    requires forall i :: i < |run| - 1 && Tried(run, ip, i) && ix != [] && ix[0] <= i ==> exists k :: 0 <= k < |ix| && ix[k] == i
    requires forall i :: i < |run| - 1 && Tried(run, ip, i) && (ix != [] ==> i < ix[0]) ==> PutBehind(run, ip, ix, i)
    ensures IsStreak(run, ip, [run[|run| - 1].now])
  {
    hide Tried;
    var n := |run| - 1;
    var iy := [n];
    forall i | Tried(run, ip, i) && i < n ensures PutBehind(run, ip, iy, i) {
      if ix == [] {
        assert PutBehind(run, ip, ix, i);
        var j :| i <= j && Tried(run, ip, j) && run[j].correct;
        assert j < n;
      } else {
        var last := ix[|ix| - 1];
        assert ix[0] <= last;
        assert Tried(run, ip, last) && run[last].now == times[|times| - 1];
        assert i <= last;
      }
    }
    assert forall i :: Tried(run, ip, i) && n <= i ==> iy[0] == i;
    assert Failures(run, ip, [run[n].now], iy) && NothingElse(run, ip, iy) && AllBehind(run, ip, iy);
  }

  lemma StreakGrows(run: seq<Attempt>, ip: string, times: seq<real>, ix: seq<int>)
    requires run != [] && SameTries(run, run[..|run| - 1], ip) && Tried(run, ip, |run| - 1) && !run[|run| - 1].correct
    requires Failures(run, ip, times, ix) && times != [] && run[|run| - 1].now - times[|times| - 1] <= FORGET_AFTER
    requires forall k :: 0 <= k < |ix| ==> 0 <= ix[k] < |run| - 1
    requires forall i :: i < |run| - 1 && Tried(run, ip, i) && ix != [] && ix[0] <= i ==> exists k :: 0 <= k < |ix| && ix[k] == i
    requires forall i :: i < |run| - 1 && Tried(run, ip, i) && (ix != [] ==> i < ix[0]) ==> PutBehind(run, ip, ix, i)
    ensures IsStreak(run, ip, times + [run[|run| - 1].now])
  {
    hide Tried;
    var n := |run| - 1;
    var iy, next := ix + [n], times + [run[n].now];
    assert iy[0] == ix[0];
    forall i | Tried(run, ip, i) && iy[0] <= i ensures exists k :: 0 <= k < |iy| && iy[k] == i {
      if i < n {
        var k :| 0 <= k < |ix| && ix[k] == i;
        assert iy[k] == i;
      } else {
        assert iy[|ix|] == i;
      }
    }
    forall i | Tried(run, ip, i) && i < iy[0] ensures PutBehind(run, ip, iy, i) {
      assert PutBehind(run, ip, ix, i);
    }
    assert Failures(run, ip, next, iy);
    assert NothingElse(run, ip, iy) && AllBehind(run, ip, iy);
  }

  /** Sum of (min(30 * 2^(j-5), 3600) - 0.001) for j from 5 to n - 1. */
  function LockSum(n: nat): real {
    if n <= FREE_ATTEMPTS then 0.0 else LockSum(n - 1) + (Lock(n - 1) - 0.001)
  }

  lemma {:induction false} SpacedLasts(times: seq<real>)
    requires times != [] && Spaced(times)
    ensures times[|times| - 1] - times[0] >= LockSum(|times|)
    decreases times
  {
    if |times| > 1 {
      SpacedLasts(times[..|times| - 1]);
    }
  }

  /** A guesser who has failed n times in a row from one address has spent at least the locks. */
  lemma LockoutTakesTime(run: seq<Attempt>, ip: string)
    requires InOrder(run) && ip in After(run)
    ensures var times := Streak(run, ip);
            && |times| == After(run)[ip].count >= 1
            && times[|times| - 1] - times[0] >= LockSum(After(run)[ip].count)
  {
    StreaksAreSpaced(run, ip);
    SpacedLasts(Streak(run, ip));
  }

  // ---- The purge cannot be seen ----

  /** What still counts at a time: entries less than a day old. */
  function Live(t: Table, ip: string, now: real): (bool, Failure) {
    if ip in t && now - t[ip].last <= FORGET_AFTER then (true, t[ip]) else (false, Failure(0, 0.0, 0.0))
  }

  ghost predicate SameLive(t: Table, u: Table, now: real) {
    forall ip :: Live(t, ip, now) == Live(u, ip, now)
  }

  ghost predicate LocksEndInTime(t: Table) {
    forall ip :: ip in t ==> t[ip].until <= 0.0 || t[ip].until <= t[ip].last + LOCK_MAX
  }

  function StepKeepingAll(t: Table, a: Attempt): Table {
    if !LetThrough(t, a) then t
    else if a.correct then t - {a.ip}
    else Counted(t, a.ip, a.now)
  }

  function AfterKeepingAll(run: seq<Attempt>): Table {
    if run == [] then map[] else StepKeepingAll(AfterKeepingAll(run[..|run| - 1]), run[|run| - 1])
  }

  lemma LiveDecidesWait(t: Table, ip: string, now: real)
    requires LocksEndInTime(t) && now >= 0.0
    ensures RetryAfter(t, ip, now) == if Live(t, ip, now).0 then RetryAfter(t, ip, now) else 0
  {
    if ip in t && now - t[ip].last > FORGET_AFTER {
      var x := t[ip].until - now + 0.999;
      assert x < 1.0;
      assert x >= 0.0 ==> x.Floor == 0;
    }
  }

  lemma SameWait(t: Table, u: Table, ip: string, now: real)
    requires LocksEndInTime(t) && LocksEndInTime(u) && SameLive(t, u, now) && now >= 0.0
    ensures RetryAfter(t, ip, now) == RetryAfter(u, ip, now)
  {
    LiveDecidesWait(t, ip, now);
    LiveDecidesWait(u, ip, now);
    assert Live(t, ip, now) == Live(u, ip, now);
  }

  lemma LaterLive(t: Table, u: Table, now: real, later: real)
    requires SameLive(t, u, now) && now <= later
    ensures SameLive(t, u, later)
  {
    forall ip ensures Live(t, ip, later) == Live(u, ip, later) {
      assert Live(t, ip, now) == Live(u, ip, now);
    }
  }

  lemma CountedKeepsLive(t: Table, u: Table, ip: string, now: real)
    requires SameLive(t, u, now)
    ensures SameLive(Counted(t, ip, now), Counted(u, ip, now), now)
  {
    assert Live(t, ip, now) == Live(u, ip, now);
    forall k ensures Live(Counted(t, ip, now), k, now) == Live(Counted(u, ip, now), k, now) {
      assert Live(t, k, now) == Live(u, k, now);
    }
  }

  lemma CountedEndsInTime(t: Table, ip: string, now: real)
    requires LocksEndInTime(t) && (ip in t ==> t[ip].last <= now)
    ensures LocksEndInTime(Counted(t, ip, now))
  {
  }

  ghost predicate PastOnly(t: Table, now: real) {
    forall ip :: ip in t ==> t[ip].last <= now
  }

  /** Keeping every entry for ever would change no answer, at any time after the run. */
  lemma {:induction false} PurgeIsUnobservable(run: seq<Attempt>, ip: string, now: real)
    requires InOrder(run) && now >= 0.0
    requires run != [] ==> 0.0 <= run[0].now && run[|run| - 1].now <= now
    ensures RetryAfter(After(run), ip, now) == RetryAfter(AfterKeepingAll(run), ip, now)
  {
    PurgeSimulates(run, now);
    SameWait(After(run), AfterKeepingAll(run), ip, now);
  }

  lemma {:induction false} PurgeSimulates(run: seq<Attempt>, now: real)
    requires InOrder(run) && now >= 0.0
    requires run != [] ==> 0.0 <= run[0].now && run[|run| - 1].now <= now
    ensures SameLive(After(run), AfterKeepingAll(run), now)
    ensures LocksEndInTime(After(run)) && LocksEndInTime(AfterKeepingAll(run))
    ensures PastOnly(After(run), now) && PastOnly(AfterKeepingAll(run), now)
    decreases run
  {
    if run != [] {
      var before, a := run[..|run| - 1], run[|run| - 1];
      assert before != [] ==> before[0] == run[0];
      PurgeSimulates(before, a.now);
      SimulationStep(After(before), AfterKeepingAll(before), a);
      LaterLive(After(run), AfterKeepingAll(run), a.now, now);
    }
  }

  lemma SimulationStep(t: Table, u: Table, a: Attempt)
    requires SameLive(t, u, a.now) && LocksEndInTime(t) && LocksEndInTime(u) && a.now >= 0.0
    requires PastOnly(t, a.now) && PastOnly(u, a.now)
    ensures SameLive(Step(t, a), StepKeepingAll(u, a), a.now)
    ensures LocksEndInTime(Step(t, a)) && LocksEndInTime(StepKeepingAll(u, a))
    ensures PastOnly(Step(t, a), a.now) && PastOnly(StepKeepingAll(u, a), a.now)
  {
    SameWait(t, u, a.ip, a.now);
    if LetThrough(t, a) {
      if a.correct {
        forall k ensures Live(t - {a.ip}, k, a.now) == Live(u - {a.ip}, k, a.now) {
          assert Live(t, k, a.now) == Live(u, k, a.now);
        }
      } else {
        var p := if |t| > PURGE_ABOVE then Purged(t, a.now) else t;
        forall k ensures Live(p, k, a.now) == Live(u, k, a.now) {
          assert Live(t, k, a.now) == Live(u, k, a.now);
        }
        CountedKeepsLive(p, u, a.ip, a.now);
        CountedEndsInTime(p, a.ip, a.now);
        CountedEndsInTime(u, a.ip, a.now);
      }
    }
  }
}
