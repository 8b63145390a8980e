/** The restarting one-second window that bounds how many timed records are admitted. */
module RateWindows {
  import opened Wrappers

  /** One second, in the ticks of the monotonic clock. */
  const SECOND: nat := 1_000_000_000

  datatype Window = Window(started: nat, count: nat)

  function Rolled(w: Window, now: nat): Window {
    if now >= w.started + SECOND then Window(now, 0) else w
  }

  predicate Admits(w: Window, limit: nat, now: nat) {
    Rolled(w, now).count < limit
  }

  function Admit(w: Window, limit: nat, now: nat): Window {
    var rolled := Rolled(w, now);
    if Admits(w, limit, now) then rolled.(count := rolled.count + 1) else rolled
  }

  method AdmitRateWindow(started: nat, count: nat, limit: nat, now: nat) returns (started': nat, count': nat, ok: bool)
    ensures Window(started', count') == Admit(Window(started, count), limit, now)
    ensures ok == Admits(Window(started, count), limit, now)
  {
    started', count' := started, count;
    if now >= started + SECOND {
      started', count' := now, 0;
    }
    if count' >= limit { return started', count', false; }
    count' := count' + 1;
    ok := true;
  }

  // ---------------------------------------------------------------- runs

  /**
   The windows of a run of steps. A step that requests admission carries its time, and whether it was granted;
   any other step (a reconnect, an epoch change, a renewal, a request of the other kind) leaves the window alone.
   */
  datatype Run = Run(windows: seq<Window>, requests: seq<Option<nat>>, granted: seq<bool>)

  ghost predicate StepAt(r: Run, limit: nat, i: nat)
    requires i < |r.requests| == |r.granted| && |r.windows| == |r.requests| + 1
  {
    match r.requests[i]
    case Some(now) =>
      r.windows[i + 1] == Admit(r.windows[i], limit, now) && r.granted[i] == Admits(r.windows[i], limit, now)
    case None => r.windows[i + 1] == r.windows[i] && !r.granted[i]
  }

  ghost predicate IsRun(r: Run, limit: nat) {
    && |r.windows| == |r.requests| + 1 && |r.granted| == |r.requests|
    && r.windows[0].count == 0
    && (forall i :: 0 <= i < |r.requests| ==> StepAt(r, limit, i))
    && (forall i :: 0 <= i < |r.requests| && r.requests[i].Some? ==> r.windows[0].started <= r.requests[i].value)
    && (forall i, j :: 0 <= i < j < |r.requests| && r.requests[i].Some? && r.requests[j].Some? ==>
          r.requests[i].value <= r.requests[j].value)
  }

  /** How many of the first `n` steps were granted at a time in `[lo, hi)`. */
  function Admitted(r: Run, n: nat, lo: nat, hi: nat): nat
    requires n <= |r.requests| == |r.granted|
  {
    if n == 0 then 0
    else
      var request := r.requests[n - 1];
      Admitted(r, n - 1, lo, hi) +
      if request.Some? && lo <= request.value < hi && r.granted[n - 1] then 1 else 0
  }

  /** How many windows can have started at or after `lo` and before `hi`. */
  function Windows(lo: int, hi: int): nat
    decreases hi - lo
  {
    if lo >= hi then 0 else 1 + Windows(lo + SECOND, hi)
  }

  lemma {:induction false} WindowsGrow(lo: int, hi: int, later: int)
    requires hi + SECOND <= later && lo < hi + SECOND
    ensures 1 + Windows(lo, hi) <= Windows(lo, later)
    decreases hi - lo
  {
    if lo < hi {
      WindowsGrow(lo + SECOND, hi, later);
    }
  }

  lemma {:induction false} WindowsWithin(lo: int, seconds: nat, hi: int)
    requires hi <= lo + seconds * SECOND
    ensures Windows(lo, hi) <= seconds
    decreases seconds
  {
    if lo < hi {
      assert seconds > 0;
      WindowsWithin(lo + SECOND, seconds - 1, hi);
    }
  }

  /** The current window never starts after the last request, and counts no more than the limit. */
  lemma {:induction false} WindowBounds(r: Run, limit: nat, n: nat)
    requires IsRun(r, limit) && n <= |r.requests|
    ensures r.windows[n].count <= limit
    ensures forall j :: n <= j < |r.requests| && r.requests[j].Some? ==> r.windows[n].started <= r.requests[j].value
  {
    if n > 0 {
      WindowBounds(r, limit, n - 1);
      assert StepAt(r, limit, n - 1);
    }
  }

  /** What is admitted from `lo` on fits the full windows before the current one and its own count. */
  lemma {:induction false} AdmittedSoFar(r: Run, limit: nat, n: nat, lo: nat, hi: nat)
    requires IsRun(r, limit) && n <= |r.requests| && r.windows[n].started < hi
    ensures lo < r.windows[n].started + SECOND ==>
              Admitted(r, n, lo, hi) <= r.windows[n].count + limit * Windows(lo, r.windows[n].started)
    ensures r.windows[n].started + SECOND <= lo ==> Admitted(r, n, lo, hi) == 0
  {
    if n > 0 {
      var w, next := r.windows[n - 1], r.windows[n];
      assert StepAt(r, limit, n - 1);
      WindowBounds(r, limit, n - 1);
      AdmittedSoFar(r, limit, n - 1, lo, hi);
      if next.started != w.started && lo < w.started + SECOND {
        WindowsGrow(lo, w.started, next.started);
        OneMoreWindow(limit, Windows(lo, w.started), Windows(lo, next.started));
      }
    }
  }

  lemma OneMoreWindow(limit: nat, few: nat, many: nat)
    requires few < many
    ensures limit + limit * few <= limit * many
  {
    assert limit * many == limit * (few + 1) + limit * (many - few - 1);
  }

  /**
   Over any run, any half-open interval of `seconds` seconds admits at most `seconds + 1` times the
   limit; in particular any half-open second admits at most twice the limit.
   */
  lemma {:induction false} RateBound(r: Run, limit: nat, n: nat, lo: nat, seconds: nat)
    requires IsRun(r, limit) && n <= |r.requests|
    ensures Admitted(r, n, lo, lo + seconds * SECOND) <= (seconds + 1) * limit
  {
    if n > 0 {
      RateBound(r, limit, n - 1, lo, seconds);
      var request := r.requests[n - 1];
      if request.Some? && lo <= request.value < lo + seconds * SECOND {
        AdmittedByNow(r, limit, n, lo, seconds);
      }
    }
  }

  lemma AdmittedByNow(r: Run, limit: nat, n: nat, lo: nat, seconds: nat)
    requires IsRun(r, limit) && 0 < n <= |r.requests|
    requires r.requests[n - 1].Some? && lo <= r.requests[n - 1].value < lo + seconds * SECOND
    ensures Admitted(r, n, lo, lo + seconds * SECOND) <= (seconds + 1) * limit
  {
    WindowBounds(r, limit, n);
    WindowBounds(r, limit, n - 1);
    assert StepAt(r, limit, n - 1);
    var started := r.windows[n].started;
    AdmittedSoFar(r, limit, n, lo, lo + seconds * SECOND);
    WindowsWithin(lo, seconds, started);
    OneMoreWindow(limit, Windows(lo, started), seconds + 1);
    assert limit * (seconds + 1) == (seconds + 1) * limit;
  }

  // ---------------------------------------------------------------- room is granted

  /** The current window has been running for less than a second whenever it is asked. */
  lemma {:induction false} WindowIsShort(r: Run, limit: nat, n: nat)
    requires IsRun(r, limit) && n <= |r.requests|
    ensures forall i :: 0 <= i < n && r.requests[i].Some? ==> r.requests[i].value < r.windows[n].started + SECOND
  {
    if n > 0 {
      WindowIsShort(r, limit, n - 1);
      assert StepAt(r, limit, n - 1);
    }
  }

  lemma {:induction false} NoneFrom(r: Run, n: nat, lo: nat, hi: nat)
    requires n <= |r.requests| == |r.granted|
    requires forall i :: 0 <= i < n && r.requests[i].Some? ==> r.requests[i].value < lo
    ensures Admitted(r, n, lo, hi) == 0
  {
    if n > 0 { NoneFrom(r, n - 1, lo, hi); }
  }

  /** The window counts what was granted since it started. */
  lemma {:induction false} CountIsGranted(r: Run, limit: nat, n: nat, hi: nat)
    requires IsRun(r, limit) && n <= |r.requests|
    requires forall i :: 0 <= i < n && r.requests[i].Some? ==> r.requests[i].value < hi
    ensures r.windows[n].count == Admitted(r, n, r.windows[n].started, hi)
  {
    if n > 0 {
      CountIsGranted(r, limit, n - 1, hi);
      WindowBounds(r, limit, n - 1);
      WindowIsShort(r, limit, n - 1);
      assert StepAt(r, limit, n - 1);
      if r.windows[n].started != r.windows[n - 1].started {
        NoneFrom(r, n - 1, r.windows[n].started, hi);
      }
    }
  }

  /**
   A request is granted if and only if fewer than the limit were granted in its window, which is the current
   one for less than a second from its start, and a fresh one from then on.
   */
  lemma GrantedExactly(r: Run, limit: nat, n: nat, now: nat)
    requires IsRun(r, limit) && n < |r.requests| && r.requests[n] == Some(now)
    ensures
      var started := r.windows[n].started;
      && r.windows[n + 1].started == (if now >= started + 1_000_000_000 then now else started)
      && (r.granted[n] <==>
            if now >= started + 1_000_000_000 then 0 < limit else Admitted(r, n, started, now + 1) < limit)
  {
    assert StepAt(r, limit, n);
    forall i | 0 <= i < n && r.requests[i].Some? ensures r.requests[i].value < now + 1 {
      assert r.requests[i].value <= r.requests[n].value;
    }
    CountIsGranted(r, limit, n, now + 1);
  }

  lemma {:induction false} MoreTime(r: Run, n: nat, lo: nat, earlier: nat, hi: nat)
    requires n <= |r.requests| == |r.granted| && earlier <= lo
    ensures Admitted(r, n, lo, hi) <= Admitted(r, n, earlier, hi)
  {
    if n > 0 { MoreTime(r, n - 1, lo, earlier, hi); }
  }

  /** In particular a request is granted whenever fewer than the limit were granted in the second before it. */
  lemma RoomIsGranted(r: Run, limit: nat, n: nat, now: nat)
    requires IsRun(r, limit) && n < |r.requests| && r.requests[n] == Some(now)
    requires Admitted(r, n, if now < 1_000_000_000 then 0 else now - 999_999_999, now + 1) < limit
    ensures r.granted[n]
  {
    GrantedExactly(r, limit, n, now);
    var started, lo := r.windows[n].started, if now < 1_000_000_000 then 0 else now - 999_999_999;
    if now < started + 1_000_000_000 {
      MoreTime(r, n, started, lo, now + 1);
    }
  }
}
