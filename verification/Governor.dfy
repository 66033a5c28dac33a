/** The rate limit on live detection events. */
module Governor {
  import opened Bytes

  const MAX_DETECTIONS_PER_WINDOW: byte := 5
  const DETECTION_RATE_WINDOW_MS: u32 := 1000

  /** When the current window opened, and how many events it has let through. */
  datatype Gate = Gate(windowStart: u32, count: byte) {

    function Elapsed(now: u32): u32 {
      (now - windowStart) % U32_COUNT
    }

    function Reopened(now: u32): Gate {
      if Elapsed(now) > DETECTION_RATE_WINDOW_MS then Gate(now, 0) else this
    }

    predicate Admits(now: u32) {
      Reopened(now).count < MAX_DETECTIONS_PER_WINDOW
    }

    /** The gate after an event was offered at now. */
    function Offered(now: u32): Gate {
      if Admits(now) then Reopened(now).(count := Reopened(now).count + 1) else Reopened(now)
    }

    predicate Valid() {
      count <= MAX_DETECTIONS_PER_WINDOW
    }
  }

  // ---------- runs: offers at non-decreasing real times, seen through a 32-bit clock

  predicate Sorted(times: seq<nat>) {
    forall i, j :: 0 <= i < j < |times| ==> times[i] <= times[j]
  }

  predicate Inside(t: nat, a: nat) {
    a <= t <= a + DETECTION_RATE_WINDOW_MS
  }

  /** How many of the offered events pass the gate within the closed interval that starts at a. */
  function Passed(g: Gate, times: seq<nat>, a: nat): nat
    decreases times
  {
    if times == [] then 0 else
      var now := times[0] % U32_COUNT;
      (if g.Admits(now) && Inside(times[0], a) then 1 else 0) + Passed(g.Offered(now), times[1..], a)
  }

  /** Over any run, at most twice the limit passes in any closed interval of one window length. */
  lemma AtMostTwoWindowsPass(g: Gate, times: seq<nat>, a: nat)
    requires g.Valid() && Sorted(times)
    ensures Passed(g, times, a) <= 10
  {
    LimitKeptIff(g, times, a);
  }

  lemma ElapsedWithin(s: nat, t: nat)
    requires s <= t <= s + DETECTION_RATE_WINDOW_MS
    ensures (t % U32_COUNT - s % U32_COUNT) % U32_COUNT == t - s
  {
    var q, p := t / U32_COUNT, s / U32_COUNT;
    assert t % U32_COUNT - s % U32_COUNT == t - s - U32_COUNT * (q - p);
    assert q == p || q == p + 1;
  }

  lemma {:induction false} NonePass(g: Gate, times: seq<nat>, a: nat)
    requires forall t :: t in times ==> a + DETECTION_RATE_WINDOW_MS < t
    ensures Passed(g, times, a) == 0
    decreases times
  {
    if times != [] {
      assert times[0] in times;
      assert forall t :: t in times[1..] ==> t in times;
      NonePass(g.Offered(times[0] % U32_COUNT), times[1..], a);
    }
  }

  /** Twice the limit is reached: ten events of two consecutive milliseconds all pass, where the
      documentation promises at most five in any second. */
  lemma TwoWindowsMeet()
    ensures Passed(Gate(0, 0), Times(1000, 5) + Times(1001, 5), 1000) == 10
  {
    hide Passed, Times;
    var late := Times(1001, 5);
    PassedTogether(Gate(0, 0), 1000, 5, late, 1000);
    PassedFirst(Gate(0, 5), late, 1000);
    OneWindowKeepsLimit(Gate(1001, 1), late[1..], 1000);
  }

  lemma PassedFirst(g: Gate, times: seq<nat>, a: nat)
    requires times != []
    ensures var now := times[0] % U32_COUNT;
      Passed(g, times, a) == (if g.Admits(now) && Inside(times[0], a) then 1 else 0)
          + Passed(g.Offered(now), times[1..], a)
  {
  }

  function Times(t: nat, n: nat): (s: seq<nat>)
    ensures |s| == n && forall k :: 0 <= k < n ==> s[k] == t
  {
    seq(n, _ => t)
  }

  lemma {:induction false} PassedTogether(g: Gate, t: nat, n: nat, rest: seq<nat>, a: nat)
    requires g.Elapsed(t % U32_COUNT) <= DETECTION_RATE_WINDOW_MS && g.count + n <= MAX_DETECTIONS_PER_WINDOW
    requires Inside(t, a)
    ensures Passed(g, Times(t, n) + rest, a) == n + Passed(g.(count := g.count + n), rest, a)
    decreases n
  {
    if n == 0 {
      assert Times(t, 0) + rest == rest;
    } else {
      var all := Times(t, n) + rest;
      assert all[1..] == Times(t, n - 1) + rest;
      PassedTogether(g.(count := g.count + 1), t, n - 1, rest, a);
    }
  }

  /** An interval that no window opens in keeps the documented limit. */
  lemma {:induction false} OneWindowKeepsLimit(g: Gate, times: seq<nat>, a: nat)
    requires g.Valid()
    requires forall t :: t in times ==> Inside(t, a) && g.Elapsed(t % U32_COUNT) <= DETECTION_RATE_WINDOW_MS
    ensures Passed(g, times, a) == if |times| <= MAX_DETECTIONS_PER_WINDOW - g.count then |times|
                                   else MAX_DETECTIONS_PER_WINDOW - g.count
    decreases times
  {
    if times != [] {
      assert times[0] in times;
      OneWindowKeepsLimit(g.Offered(times[0] % U32_COUNT), times[1..], a);
    }
  }

  // ---------- exactly how many pass

  function Least(a: nat, b: nat): nat {
    if a < b then a else b
  }

  /** The gate after a run of offers. */
  function After(g: Gate, times: seq<nat>): Gate
    decreases times
  {
    if times == [] then g else After(g.Offered(times[0] % U32_COUNT), times[1..])
  }

  /** How many offers come before the interval. */
  function Early(times: seq<nat>, a: nat): (n: nat)
    ensures n <= |times|
    decreases times
  {
    if times == [] || times[0] >= a then 0 else 1 + Early(times[1..], a)
  }

  /** How many of the first offers lie inside the interval. */
  function Inner(times: seq<nat>, a: nat): (n: nat)
    ensures n <= |times|
    decreases times
  {
    if times == [] || !Inside(times[0], a) then 0 else 1 + Inner(times[1..], a)
  }

  predicate Opens(windowStart: u32, t: nat) {
    (t % U32_COUNT - windowStart) % U32_COUNT > DETECTION_RATE_WINDOW_MS
  }

  /** How many of the first offers lie inside the interval and still in the window of the given start. */
  function Still(windowStart: u32, times: seq<nat>, a: nat): (n: nat)
    ensures n <= |times|
    decreases times
  {
    if times == [] || !Inside(times[0], a) || Opens(windowStart, times[0]) then 0
    else 1 + Still(windowStart, times[1..], a)
  }

  /** What passes inside the interval: offers of the window it starts in, as far as that window has
      room, and offers from the first one that opens a window inside it, up to the limit. */
  function Room(g: Gate, times: seq<nat>, a: nat): nat
    requires g.Valid()
  {
    var before := Still(g.windowStart, times, a);
    var after := Inner(times[before..], a);
    Least(before, MAX_DETECTIONS_PER_WINDOW - g.count) + Least(after, MAX_DETECTIONS_PER_WINDOW)
  }

  lemma {:induction false} AfterValid(g: Gate, times: seq<nat>)
    requires g.Valid()
    ensures After(g, times).Valid()
    decreases times
  {
    if times != [] {
      AfterValid(g.Offered(times[0] % U32_COUNT), times[1..]);
    }
  }

  lemma {:induction false} EarlyOnesDoNotCount(g: Gate, times: seq<nat>, a: nat)
    ensures var n := Early(times, a); Passed(g, times, a) == Passed(After(g, times[..n]), times[n..], a)
    decreases times
  {
    var n := Early(times, a);
    if n == 0 {
      assert times[0..] == times;
    } else {
      EarlyOnesDoNotCount(g.Offered(times[0] % U32_COUNT), times[1..], a);
      assert times[..n][1..] == times[1..][..n - 1];
      assert times[n..] == times[1..][n - 1..];
    }
  }

  /** From a window opened at s inside the interval, its room is all that counts. */
  lemma {:induction false} FromOpened(g: Gate, times: seq<nat>, a: nat, s: nat)
    requires g.Valid() && Sorted(times) && a <= s && g.windowStart == s % U32_COUNT
    requires forall t :: t in times ==> s <= t
    ensures Passed(g, times, a) == Least(Inner(times, a), MAX_DETECTIONS_PER_WINDOW - g.count)
    decreases times
  {
    if times != [] {
      var t := times[0];
      assert t in times;
      if Inside(t, a) {
        ElapsedWithin(s, t);
        FromOpened(g.Offered(t % U32_COUNT), times[1..], a, s);
      } else {
        NonePass(g, times, a);
      }
    }
  }

  lemma {:induction false} FromStart(g: Gate, times: seq<nat>, a: nat)
    requires g.Valid() && Sorted(times)
    requires forall t :: t in times ==> a <= t
    ensures Passed(g, times, a) == Room(g, times, a)
    decreases times
  {
    if times != [] {
      var t, rest := times[0], times[1..];
      assert t in times;
      if !Inside(t, a) {
        NonePass(g, times, a);
      } else if Opens(g.windowStart, t) {
        FromOpened(g.Offered(t % U32_COUNT), rest, a, t);
        assert times[0..] == times;
      } else {
        FromStart(g.Offered(t % U32_COUNT), rest, a);
        QuietOffer(g, t);
        RoomStep(g, times, a);
        hide Room, Still, Opens, Gate.Offered, Gate.Admits, Gate.Valid;
        PassedFirst(g, times, a);
      }
    }
  }

  /** An offer in the current window is counted if there is room, and opens nothing. */
  lemma QuietOffer(g: Gate, t: nat)
    requires g.Valid() && !Opens(g.windowStart, t)
    ensures
      var now := t % U32_COUNT;
      && g.Offered(now).Valid() && g.Offered(now).windowStart == g.windowStart
      && (if g.Admits(now) then g.count < MAX_DETECTIONS_PER_WINDOW && g.Offered(now).count == g.count + 1
          else g.count == MAX_DETECTIONS_PER_WINDOW && g.Offered(now) == g)
  {
  }

  lemma RoomStep(g: Gate, times: seq<nat>, a: nat)
    requires g.Valid() && times != [] && Inside(times[0], a) && !Opens(g.windowStart, times[0])
    ensures
      var now := times[0] % U32_COUNT;
      g.Offered(now).Valid()
          && Room(g, times, a) == (if g.Admits(now) then 1 else 0) + Room(g.Offered(now), times[1..], a)
  {
    QuietOffer(g, times[0]);
    hide Opens, Gate.Offered, Gate.Admits;
    var k := Still(g.windowStart, times[1..], a);
    assert times[k + 1..] == times[1..][k..];
  }

  /** Over any run and for any interval: exactly how many offers pass, and so exactly when the
      documented limit is kept, from the gate at the start of the interval and the offers inside it. */
  lemma LimitKeptIff(g: Gate, times: seq<nat>, a: nat)
    requires g.Valid() && Sorted(times)
    ensures
      var n := Early(times, a);
      var atStart := After(g, times[..n]);
      && atStart.Valid()
      && Passed(g, times, a) == Room(atStart, times[n..], a)
      && (Passed(g, times, a) <= MAX_DETECTIONS_PER_WINDOW
          <==> Room(atStart, times[n..], a) <= MAX_DETECTIONS_PER_WINDOW)
  {
    var n := Early(times, a);
    AfterValid(g, times[..n]);
    EarlyOnesDoNotCount(g, times, a);
    LateFrom(times, a);
    FromStart(After(g, times[..n]), times[n..], a);
  }

  lemma {:induction false} LateFrom(times: seq<nat>, a: nat)
    requires Sorted(times)
    ensures forall t :: t in times[Early(times, a)..] ==> a <= t
    decreases times
  {
    if times != [] && times[0] < a {
      LateFrom(times[1..], a);
      assert times[Early(times, a)..] == times[1..][Early(times[1..], a)..];
    }
  }
}
