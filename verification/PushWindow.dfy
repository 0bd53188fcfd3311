/** The push-failure window of a tunnel: when repeated push failures make its send loop give up. */
module PushWindow {
  const WINDOW: nat := 10_000_000_000 // nanoseconds
  const LIMIT: nat := 10

  /** One push and the clock reading after it. */
  datatype Push = Push(now: nat, ok: bool)

  datatype Window = Window(startAt: nat, count: nat)

  /** The zero time lies far before every clock reading. */
  const FRESH := Window(0, 0)

  function Record(w: Window, p: Push): Window {
    if p.ok then
      w.(count := 0)
    else if p.now - w.startAt > WINDOW then
      Window(p.now, 1)
    else
      w.(count := w.count + 1)
  }

  /** Clock readings do not decrease, and the first is more than a window after the zero time. */
  ghost predicate Clocked(trace: seq<Push>) {
    && (forall i :: 0 <= i < |trace| ==> trace[i].now > WINDOW)
    && (forall i, j :: 0 <= i < j < |trace| ==> trace[i].now <= trace[j].now)
  }

  /** The window after the first n pushes. */
  ghost function After(trace: seq<Push>, n: nat): Window
    requires n <= |trace|
  {
    if n == 0 then FRESH else Record(After(trace, n - 1), trace[n - 1])
  }

  /** The push at index i makes recordPushErr report overload. */
  ghost predicate Overload(trace: seq<Push>, i: nat)
    requires i < |trace|
  {
    !trace[i].ok && After(trace, i + 1).count > LIMIT
  }

  ghost predicate Failures(trace: seq<Push>, from: nat, to: nat)
    requires to <= |trace|
  {
    forall i :: from <= i < to ==> !trace[i].ok
  }

  class Tunnel {
    var recordPushErrStartAt: nat
    var recordPushErrCount: nat

    constructor ()
      ensures View() == FRESH
    {
      recordPushErrStartAt, recordPushErrCount := 0, 0;
    }

    function View(): Window
      reads this
    {
      Window(recordPushErrStartAt, recordPushErrCount)
    }

    method RecordPushErr(now: nat) returns (overload: bool)
      modifies this
      ensures View() == Record(old(View()), Push(now, false))
      ensures overload <==> View().count > LIMIT
    {
      if now - recordPushErrStartAt > WINDOW {
        recordPushErrStartAt := now;
        recordPushErrCount := 0;
      }
      recordPushErrCount := recordPushErrCount + 1;
      overload := recordPushErrCount > LIMIT;
    }

    /** The send loop over the results of its pushes: it ends with the first push that reports overload. */
    method ScLoop(trace: seq<Push>) returns (pushed: nat)
      requires View() == FRESH
      modifies this
      ensures pushed <= |trace| && View() == After(trace, pushed)
      ensures forall i :: 0 <= i < pushed - 1 ==> !Overload(trace, i)
      ensures pushed < |trace| ==> pushed > 0 && Overload(trace, pushed - 1)
      ensures Clocked(trace) ==>
        && (forall i :: 0 <= i < pushed - 1 ==> !ElevenInWindow(trace, i))
        && (pushed < |trace| ==> ElevenInWindow(trace, pushed - 1))
    {
      if Clocked(trace) {
        forall i | 0 <= i < |trace| ensures Overload(trace, i) <==> ElevenInWindow(trace, i) {
          OverloadIff(trace, i);
        }
      }
      pushed := 0;
      while pushed < |trace|
        invariant pushed <= |trace| && View() == After(trace, pushed)
        invariant forall i :: 0 <= i < pushed ==> !Overload(trace, i)
      {
        var p := trace[pushed];
        pushed := pushed + 1;
        if p.ok {
          recordPushErrCount := 0;
        } else {
          var overload := RecordPushErr(p.now);
          if overload {
            return;
          }
        }
      }
    }
  }

  // ----- the exact law -----

  /** The last failure among the first n pushes that restarted the window, or -1: one that came more than 10 seconds
      after the restart before it, if any. Successes have no part in it. */
  ghost function LastRestart(trace: seq<Push>, n: nat): (k: int)
    requires n <= |trace|
    ensures -1 <= k < n && (k >= 0 ==> !trace[k].ok)
  {
    if n == 0 then -1 else
      var k := LastRestart(trace, n - 1);
      if !trace[n - 1].ok && (k == -1 || trace[n - 1].now - trace[k].now > WINDOW) then n - 1 else k
  }

  /** The length of the run of failures that ends the first n pushes. */
  ghost function Streak(trace: seq<Push>, n: nat): (k: nat)
    requires n <= |trace|
    ensures k <= n && Failures(trace, n - k, n) && (k < n ==> trace[n - k - 1].ok)
  {
    if n == 0 || trace[n - 1].ok then 0 else Streak(trace, n - 1) + 1
  }

  /** The window starts at the last restarting failure, and counts the failures since then and since the last
      success, the restarting one included. */
  lemma {:induction false} WindowIs(trace: seq<Push>, n: nat)
    requires Clocked(trace) && n <= |trace|
    ensures var k := LastRestart(trace, n);
      && After(trace, n).startAt == (if k == -1 then 0 else trace[k].now)
      && After(trace, n).count == (if k == -1 || Streak(trace, n) < n - k then Streak(trace, n) else n - k)
      && (k == -1 ==> Streak(trace, n) == 0)
  {
    if n > 0 {
      WindowIs(trace, n - 1);
    }
  }

  ghost predicate ElevenInWindow(trace: seq<Push>, i: nat)
    requires i < |trace|
  {
    i >= 10 && Failures(trace, i - 10, i + 1) && LastRestart(trace, i + 1) <= i - 10
  }

  /** Overload is reported exactly when the last eleven pushes failed and none of the last ten restarted the
      window. */
  lemma OverloadIff(trace: seq<Push>, i: nat)
    requires Clocked(trace) && i < |trace|
    ensures Overload(trace, i) <==> ElevenInWindow(trace, i)
  {
    WindowIs(trace, i + 1);
  }

  // ----- no false alarm -----

  /** A count of c stands for the last c pushes: all failed, all inside the current window. */
  lemma {:induction false} CountIsStreak(trace: seq<Push>, n: nat)
    requires Clocked(trace) && n <= |trace|
    ensures var w := After(trace, n);
      && w.count <= n
      && Failures(trace, n - w.count, n)
      && (forall i :: n - w.count <= i < n ==> w.startAt <= trace[i].now <= w.startAt + WINDOW)
      && (n > 0 ==> w.startAt <= trace[n - 1].now)
      && (n == 0 ==> w.startAt == 0)
  {
    if n > 0 {
      CountIsStreak(trace, n - 1);
    }
  }

  /** Overload is reported only after 11 consecutive failures within 10 seconds. */
  lemma OverloadNeedsElevenFailures(trace: seq<Push>, i: nat)
    requires Clocked(trace) && i < |trace| && Overload(trace, i)
    ensures i >= 10 && Failures(trace, i - 10, i + 1) && trace[i].now - trace[i - 10].now <= WINDOW
  {
    CountIsStreak(trace, i + 1);
  }

  // ----- no alarm missed -----

  /** While the window does not restart, every failure counts. */
  lemma {:induction false} CountGrows(trace: seq<Push>, from: nat, n: nat)
    requires from <= n <= |trace| && Failures(trace, from, n)
    requires forall i :: from <= i < n ==> trace[i].now - After(trace, from).startAt <= WINDOW
    ensures After(trace, n).startAt == After(trace, from).startAt
    ensures After(trace, n).count == After(trace, from).count + (n - from)
    decreases n
  {
    if from < n {
      CountGrows(trace, from, n - 1);
    }
  }

  /** Eleven failures in the 10 seconds after a restart are enough. */
  lemma ElevenAfterRestart(trace: seq<Push>, j: nat)
    requires Clocked(trace) && j + 11 <= |trace| && Failures(trace, j, j + 11)
    requires trace[j].now - After(trace, j).startAt > WINDOW
    requires trace[j + 10].now - trace[j].now <= WINDOW
    ensures Overload(trace, j + 10)
  {
    assert After(trace, j + 1) == Window(trace[j].now, 1);
    CountGrows(trace, j + 1, j + 11);
  }

  /** The first push, if any, among from .. to that restarts the window. */
  lemma FirstRestart(trace: seq<Push>, from: nat, to: nat) returns (k: nat)
    requires from <= to <= |trace| && Failures(trace, from, to)
    ensures from <= k <= to
    ensures forall i :: from <= i < k ==> trace[i].now - After(trace, from).startAt <= WINDOW
    ensures k < to ==> trace[k].now - After(trace, k).startAt > WINDOW
  {
    k := from;
    while k < to && trace[k].now - After(trace, k).startAt <= WINDOW
      invariant from <= k <= to && After(trace, k).startAt == After(trace, from).startAt
      invariant forall i :: from <= i < k ==> trace[i].now - After(trace, from).startAt <= WINDOW
    {
      k := k + 1;
    }
  }

  /** Any 21 consecutive failures spanning at most 10 seconds report overload by the 21st, wherever the
      current window happens to have started. */
  lemma TwentyOneFailuresSuffice(trace: seq<Push>, j: nat)
    requires Clocked(trace) && j + 21 <= |trace| && Failures(trace, j, j + 21)
    requires trace[j + 20].now - trace[j].now <= WINDOW
    ensures exists i :: j <= i < j + 21 && Overload(trace, i)
  {
    var k := FirstRestart(trace, j, j + 11);
    if k == j + 11 {
      CountGrows(trace, j, j + 11);
      assert Overload(trace, j + 10);
    } else {
      ElevenAfterRestart(trace, k);
      assert Overload(trace, k + 10);
    }
  }

  // ----- both bounds are tight -----

  function Fails(now: nat, n: nat): seq<Push> {
    seq(n, _ => Push(now, false))
  }

  /** One old failure, a success, then ten failures at the end of the window and ten just after it. */
  function TwentyFailures(): seq<Push> {
    var t := WINDOW + 1;
    [Push(t, false), Push(t, true)] + Fails(t + WINDOW, 10) + Fails(t + WINDOW + 1, 10)
  }

  /** Twenty failures within a nanosecond need not report anything. */
  lemma TwentyFailuresMayNot()
    ensures var trace := TwentyFailures();
      && Clocked(trace) && |trace| == 22 && Failures(trace, 2, 22)
      && trace[21].now - trace[2].now <= 1
      && forall i :: 0 <= i < 22 ==> !Overload(trace, i)
  {
    var trace := TwentyFailures();
    var t := WINDOW + 1;
    assert After(trace, 0) == FRESH;
    assert After(trace, 1) == Window(t, 1);
    assert After(trace, 2) == Window(t, 0);
    forall n | 2 <= n <= 12 ensures After(trace, n) == Window(t, n - 2) {
      CountGrows(trace, 2, n);
    }
    assert After(trace, 13) == Window(t + WINDOW + 1, 1);
    forall n | 13 <= n <= 22 ensures After(trace, n) == Window(t + WINDOW + 1, n - 12) {
      CountGrows(trace, 13, n);
    }
  }
}
