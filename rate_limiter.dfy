/**
 Sliding-window admission gate of wordflux (wordflux/utils/rate_limiter.py).

 Time is an integer number of milliseconds read from a clock the caller
 supplies; the window length is in the same unit (60000 for the default
 60 seconds) and the safety margin added to every wait is 500 ms.
 One call of `Evaluate` is one pass through the body of the `while True`
 loop of `acquire`; `Acquire` drives it over a sequence of clock readings,
 with a `Wait(d)` answer standing for the sleep of `d` milliseconds.
 */
module RateLimiting {

  /** The half-second buffer added to both wait computations. */
  const BufferMs: int := 500

  /** The default window, 60 seconds. */
  const DefaultWindowMs: int := 60000

  /** A token event: (admission time, estimated tokens). */
  type Event = (int, int)

  /** The answer of one evaluation: sleep for `delay` ms and re-evaluate, or go. */
  datatype Outcome = Wait(delay: int) | Admitted

  datatype Option<T> = None | Some(value: T)

  /** The last `n` elements of `s` (all of `s` when `n` is out of range). */
  function Kept<T>(s: seq<T>, n: int): seq<T> {
    if 0 <= n <= |s| then s[|s| - n..] else s
  }

  /**
   `s` is the tail end of `g`, stated entry by entry; `SuffixIsKept` shows it is
   the same as `s` being the last `|s|` entries of `g`.
   */
  predicate IsSuffix<T(==)>(s: seq<T>, g: seq<T>) {
    |s| <= |g| && forall i :: 0 <= i < |s| ==> s[i] == g[|g| - |s| + i]
  }

  lemma SuffixIsKept<T>(s: seq<T>, g: seq<T>)
    ensures IsSuffix(s, g) <==> |s| <= |g| && s == Kept(g, |s|)
  {
    if IsSuffix(s, g) {
      forall i | 0 <= i < |s| ensures s[i] == Kept(g, |s|)[i] {
      }
    }
  }

  lemma SuffixAppend<T>(s: seq<T>, g: seq<T>, e: T)
    requires IsSuffix(s, g)
    ensures IsSuffix(s + [e], g + [e])
  {
    forall i | 0 <= i < |s| + 1 ensures (s + [e])[i] == (g + [e])[|g| + 1 - (|s| + 1) + i] {
      if i < |s| {
        assert (s + [e])[i] == s[i] == g[|g| - |s| + i];
      }
    }
  }

  /** Time order of a sequence of timestamps. */
  predicate SortedTimes(s: seq<int>) {
    forall i, j :: 0 <= i <= j < |s| ==> s[i] <= s[j]
  }

  /** Time order of a sequence of token events. */
  predicate SortedEvents(g: seq<Event>) {
    forall i, j :: 0 <= i <= j < |g| ==> g[i].0 <= g[j].0
  }

  /** An event stamped `ts` has left the window at time `now`: the source compares strictly. */
  predicate Expired(ts: int, now: int, window: int) {
    now - ts > window
  }

  /**
   The front-popping purge of a deque of timestamps: drop leading entries while
   they are expired. What remains is a suffix, its front (if any) is still live,
   and everything dropped was expired.
   */
  function Purge(s: seq<int>, now: int, window: int): (r: seq<int>)
    ensures |r| <= |s| && r == Kept(s, |r|)
    ensures r != [] ==> !Expired(r[0], now, window)
    ensures forall i :: 0 <= i < |s| - |r| ==> Expired(s[i], now, window)
    decreases |s|
  {
    if s != [] && Expired(s[0], now, window) then Purge(s[1..], now, window) else s
  }

  /** A sorted deque, once purged, holds only entries at most `window` old. */
  lemma {:induction false} PurgeKeepsOnlyLive(s: seq<int>, now: int, window: int)
    requires SortedTimes(s)
    ensures forall x :: x in Purge(s, now, window) ==> now - x <= window
    decreases |s|
  {
    if s != [] && Expired(s[0], now, window) {
      PurgeKeepsOnlyLive(s[1..], now, window);
    } else {
      forall x | x in s ensures now - x <= window {
        var i :| 0 <= i < |s| && s[i] == x;
        assert s[0] <= s[i];
      }
    }
  }

  /** Sum of the estimated tokens of a sequence of events (`sum(t[1] for t in ...)`). */
  function TokenSum(g: seq<Event>): int
  {
    if g == [] then 0 else g[0].1 + TokenSum(g[1..])
  }

  lemma {:induction false} TokenSumAppend(g: seq<Event>, e: Event)
    ensures TokenSum(g + [e]) == TokenSum(g) + e.1
    decreases |g|
  {
    if g != [] {
      assert (g + [e])[1..] == g[1..] + [e];
      TokenSumAppend(g[1..], e);
    }
  }

  /** Number of events stamped within the closed interval [lo, hi]. */
  function CountIn(g: seq<Event>, lo: int, hi: int): nat
  {
    if g == [] then 0 else (if lo <= g[0].0 <= hi then 1 else 0) + CountIn(g[1..], lo, hi)
  }

  /** Sum of the tokens of the events stamped within [lo, hi]. */
  function SumIn(g: seq<Event>, lo: int, hi: int): int
  {
    if g == [] then 0 else (if lo <= g[0].0 <= hi then g[0].1 else 0) + SumIn(g[1..], lo, hi)
  }

  /**
   When the first `k` events lie before `lo` and the rest inside [lo, hi], the
   events inside the interval are exactly the suffix from `k`: its length is the
   count and its token sum is the sum.
   */
  lemma {:induction false} WindowIsSuffix(g: seq<Event>, k: nat, lo: int, hi: int)
    requires k <= |g|
    requires forall i :: 0 <= i < k ==> g[i].0 < lo
    requires forall i :: k <= i < |g| ==> lo <= g[i].0 <= hi
    ensures CountIn(g, lo, hi) == |g| - k
    ensures SumIn(g, lo, hi) == TokenSum(g[k..])
    decreases |g|
  {
    if g != [] {
      if k > 0 {
        WindowIsSuffix(g[1..], k - 1, lo, hi);
        assert g[1..][k - 1..] == g[k..];
      } else {
        WindowIsSuffix(g[1..], 0, lo, hi);
        assert g[0..] == g;
      }
    }
  }

  /** Counting over a concatenation adds up. */
  lemma {:induction false} CountInSplit(a: seq<Event>, b: seq<Event>, lo: int, hi: int)
    ensures CountIn(a + b, lo, hi) == CountIn(a, lo, hi) + CountIn(b, lo, hi)
    decreases |a|
  {
    if a != [] {
      var ab := a + b;
      assert ab != [] && ab[0] == a[0] && ab[1..] == a[1..] + b;
      CountInSplit(a[1..], b, lo, hi);
      assert CountIn(ab, lo, hi) == (if lo <= a[0].0 <= hi then 1 else 0) + CountIn(a[1..] + b, lo, hi);
    } else {
      assert a + b == b;
    }
  }

  /** No event at or before `hi`, nothing counted. */
  lemma {:induction false} CountInNone(g: seq<Event>, lo: int, hi: int)
    requires forall i :: 0 <= i < |g| ==> g[i].0 > hi
    ensures CountIn(g, lo, hi) == 0
    decreases |g|
  {
    if g != [] {
      assert forall i :: 0 <= i < |g| - 1 ==> g[1..][i] == g[i + 1];
      CountInNone(g[1..], lo, hi);
    }
  }

  /** A wider interval (with respect to the events present) counts at least as many. */
  lemma {:induction false} CountInMono(g: seq<Event>, lo: int, hi: int, lo': int, hi': int)
    requires forall i :: 0 <= i < |g| && lo <= g[i].0 <= hi ==> lo' <= g[i].0 <= hi'
    ensures CountIn(g, lo, hi) <= CountIn(g, lo', hi')
    decreases |g|
  {
    if g != [] {
      assert forall i :: 0 <= i < |g| - 1 ==> g[1..][i] == g[i + 1];
      CountInMono(g[1..], lo, hi, lo', hi');
    }
  }

  /**
   The request cap held at every admission: for each granted event, the events
   granted up to and including it within the window ending at its time number
   at most `cap`.
   */
  ghost predicate PeakBounded(g: seq<Event>, cap: int, window: int)
    decreases |g|
  {
    g == [] ||
    (&& PeakBounded(g[..|g| - 1], cap, window)
     && CountIn(g, g[|g| - 1].0 - window, g[|g| - 1].0) <= cap)
  }

  /**
   The token cap held at every admission, except that an event alone in its
   window may exceed it (a single request larger than the cap is admitted once
   the token deque is empty).
   */
  ghost predicate TokenPeakBounded(g: seq<Event>, cap: int, window: int)
    decreases |g|
  {
    g == [] ||
    (&& TokenPeakBounded(g[..|g| - 1], cap, window)
     && (|| SumIn(g, g[|g| - 1].0 - window, g[|g| - 1].0) <= cap
         || CountIn(g, g[|g| - 1].0 - window, g[|g| - 1].0) == 1))
  }

  /** The request cap held at the admission of the `k`-th event. */
  lemma {:induction false} PeakAt(g: seq<Event>, cap: int, window: int, k: nat)
    requires PeakBounded(g, cap, window) && 0 < k <= |g|
    ensures CountIn(g[..k], g[k - 1].0 - window, g[k - 1].0) <= cap
    decreases |g|
  {
    if k < |g| {
      var h := g[..|g| - 1];
      PeakAt(h, cap, window, k);
      assert h[..k] == g[..k] && h[k - 1] == g[k - 1];
    } else {
      assert g[..k] == g;
    }
  }

  /** Number of leading events stamped at or before `t` in a time-ordered history. */
  function Cut(g: seq<Event>, t: int): (k: nat)
    requires SortedEvents(g)
    ensures k <= |g|
    ensures forall i :: 0 <= i < k ==> g[i].0 <= t
    ensures forall i :: k <= i < |g| ==> g[i].0 > t
    decreases |g|
  {
    if g == [] then 0
    else if g[|g| - 1].0 <= t then |g|
    else Cut(g[..|g| - 1], t)
  }

  /**
   The sliding-window request bound: if the cap held at each admission and the
   history is time-ordered, then ANY closed window [t - window, t] contains at
   most `cap` granted events, whatever `t` is.
   */
  lemma {:induction false} AnyWindowBounded(g: seq<Event>, cap: int, window: int, t: int)
    requires cap >= 0
    requires SortedEvents(g) && PeakBounded(g, cap, window)
    ensures CountIn(g, t - window, t) <= cap
  {
    var k := Cut(g, t);
    var lo := t - window;
    WindowBeforeCut(g, lo, t);
    if k > 0 {
      var pre := g[..k];
      var last := g[k - 1].0;
      forall i | 0 <= i < |pre| && lo <= pre[i].0 <= t
        ensures last - window <= pre[i].0 <= last
      {
        assert pre[i] == g[i];
        assert g[i].0 <= g[k - 1].0;
      }
      CountInMono(pre, lo, t, last - window, last);
      PeakAt(g, cap, window, k);
    }
  }

  /** Summing over a concatenation adds up. */
  lemma {:induction false} SumInSplit(a: seq<Event>, b: seq<Event>, lo: int, hi: int)
    ensures SumIn(a + b, lo, hi) == SumIn(a, lo, hi) + SumIn(b, lo, hi)
    decreases |a|
  {
    if a != [] {
      var ab := a + b;
      assert ab != [] && ab[0] == a[0] && ab[1..] == a[1..] + b;
      SumInSplit(a[1..], b, lo, hi);
      assert SumIn(ab, lo, hi) == (if lo <= a[0].0 <= hi then a[0].1 else 0) + SumIn(a[1..] + b, lo, hi);
    } else {
      assert a + b == b;
    }
  }

  /** No event inside [lo, hi] (none counted), nothing summed. */
  lemma {:induction false} SumInNoneCounted(g: seq<Event>, lo: int, hi: int)
    requires CountIn(g, lo, hi) == 0
    ensures SumIn(g, lo, hi) == 0
    decreases |g|
  {
    if g != [] {
      SumInNoneCounted(g[1..], lo, hi);
    }
  }

  /** With no negative token counts, a wider interval (with respect to the events present) sums at least as much. */
  lemma {:induction false} SumInMono(g: seq<Event>, lo: int, hi: int, lo': int, hi': int)
    requires forall i :: 0 <= i < |g| ==> g[i].1 >= 0
    requires forall i :: 0 <= i < |g| && lo <= g[i].0 <= hi ==> lo' <= g[i].0 <= hi'
    ensures SumIn(g, lo, hi) <= SumIn(g, lo', hi')
    decreases |g|
  {
    if g != [] {
      assert forall i :: 0 <= i < |g| - 1 ==> g[1..][i] == g[i + 1];
      SumInMono(g[1..], lo, hi, lo', hi');
    }
  }

  /** The token cap (or its single-event exception) held at the admission of the `k`-th event. */
  lemma {:induction false} TokenPeakAt(g: seq<Event>, cap: int, window: int, k: nat)
    requires TokenPeakBounded(g, cap, window) && 0 < k <= |g|
    ensures || SumIn(g[..k], g[k - 1].0 - window, g[k - 1].0) <= cap
            || CountIn(g[..k], g[k - 1].0 - window, g[k - 1].0) == 1
    decreases |g|
  {
    if k < |g| {
      var h := g[..|g| - 1];
      TokenPeakAt(h, cap, window, k);
      assert h[..k] == g[..k] && h[k - 1] == g[k - 1];
    } else {
      assert g[..k] == g;
    }
  }

  /**
   The sliding-window token bound: if the token cap held at each admission (up to
   the single-event exception), the history is time-ordered and no request
   declared a negative token count, then ANY closed window [t - window, t] sums
   to at most `cap`, or holds a single event.
   */
  lemma {:induction false} AnyWindowTokenBounded(g: seq<Event>, cap: int, window: int, t: int)
    requires cap >= 0
    requires SortedEvents(g) && TokenPeakBounded(g, cap, window)
    requires forall i :: 0 <= i < |g| ==> g[i].1 >= 0
    ensures SumIn(g, t - window, t) <= cap || CountIn(g, t - window, t) == 1
  {
    var k := Cut(g, t);
    var lo := t - window;
    WindowBeforeCut(g, lo, t);
    if k > 0 {
      var pre := g[..k];
      var last := g[k - 1].0;
      LastWindowCovers(g, k, lo, t, window);
      TokenPeakAt(g, cap, window, k);
      if CountIn(pre, lo, t) == 0 {
        SumInNoneCounted(pre, lo, t);
      }
    }
  }

  /** Events after `t` lie outside any window ending at `t`: only the prefix up to `Cut(g, t)` counts. */
  lemma WindowBeforeCut(g: seq<Event>, lo: int, t: int)
    requires SortedEvents(g)
    ensures var k := Cut(g, t);
            && CountIn(g, lo, t) == CountIn(g[..k], lo, t)
            && SumIn(g, lo, t) == SumIn(g[..k], lo, t)
  {
    var k := Cut(g, t);
    var pre, post := g[..k], g[k..];
    assert g == pre + post;
    CountInSplit(pre, post, lo, t);
    SumInSplit(pre, post, lo, t);
    forall i | 0 <= i < |post| ensures post[i].0 > t {
      assert post[i] == g[k + i];
    }
    CountInNone(post, lo, t);
    SumInNoneCounted(post, lo, t);
  }

  /**
   In a time-ordered history, the events of the first `k` that lie in [lo, t],
   where the `k`-th is the last at or before `t`, all lie in the window ending
   at the `k`-th: it counts (and, with no negative token counts, sums) at least
   as much.
   */
  lemma LastWindowCovers(g: seq<Event>, k: nat, lo: int, t: int, window: int)
    requires SortedEvents(g) && 0 < k <= |g| && g[k - 1].0 <= t && lo == t - window
    requires forall i :: 0 <= i < |g| ==> g[i].1 >= 0
    ensures CountIn(g[..k], lo, t) <= CountIn(g[..k], g[k - 1].0 - window, g[k - 1].0)
    ensures SumIn(g[..k], lo, t) <= SumIn(g[..k], g[k - 1].0 - window, g[k - 1].0)
  {
    var pre := g[..k];
    var last := g[k - 1].0;
    forall i | 0 <= i < |pre| && lo <= pre[i].0 <= t
      ensures last - window <= pre[i].0 <= last
    {
      assert pre[i] == g[i];
      assert g[i].0 <= g[k - 1].0;
    }
    forall i | 0 <= i < |pre| ensures pre[i].1 >= 0 {
      assert pre[i] == g[i];
    }
    CountInMono(pre, lo, t, last - window, last);
    SumInMono(pre, lo, t, last - window, last);
  }

  /**
   The decision of one pass over the purged deques `times` and `events`: the RPM
   check first, then the TPM check, each asking for a sleep until the oldest
   entry leaves the window plus the buffer, when that sleep is positive. This is
   the specification `CheckAndRecord` is proved to follow.
   */
  ghost function Decide(times: seq<int>, events: seq<Event>, now: int, est: int, rpm: int, tpm: int, window: int): Outcome
  {
    if rpm > 0 && |times| >= rpm && window - (now - times[0]) + BufferMs > 0 then
      Wait(window - (now - times[0]) + BufferMs)
    else if tpm > 0 && TokenSum(events) + est > tpm && events != [] && window - (now - events[0].0) + BufferMs > 0 then
      Wait(window - (now - events[0].0) + BufferMs)
    else
      Admitted
  }

  /**
   Over purged deques (fronts still inside the window) every wait is at least the
   buffer, so a saturated check never falls through, and admission happens
   exactly when the request deque is under `rpm` and the token total stays within
   `tpm` or the token deque is empty. A cap of zero or less never blocks.
   */
  lemma DecideOnPurged(times: seq<int>, events: seq<Event>, now: int, est: int, rpm: int, tpm: int, window: int)
    requires times != [] ==> now - times[0] <= window
    requires events != [] ==> now - events[0].0 <= window
    ensures var o := Decide(times, events, now, est, rpm, tpm, window);
            && (o.Wait? ==> o.delay >= BufferMs)
            && (o.Admitted? <==> (rpm <= 0 || |times| < rpm) && (tpm <= 0 || TokenSum(events) + est <= tpm || events == []))
  {
  }

  /** With both caps switched off (zero), the first evaluation admits whatever the deques hold. */
  lemma DisabledCapsAdmit(times: seq<int>, events: seq<Event>, now: int, est: int, window: int)
    ensures Decide(times, events, now, est, 0, 0, window) == Admitted
  {
  }

  /**
   What the history of admissions satisfies while the clock has never gone back
   behind `now`: it is time-ordered and not in the future, all but its last `live`
   events have expired by `now`, and both caps held at every admission.
   */
  ghost predicate History(g: seq<Event>, live: nat, now: int, window: int, rpm: int, tpm: int) {
    && 0 <= window
    && live <= |g|
    && SortedEvents(g)
    && (forall i :: 0 <= i < |g| ==> g[i].0 <= now)
    && (forall i :: 0 <= i < |g| - live ==> Expired(g[i].0, now, window))
    && (rpm > 0 ==> PeakBounded(g, rpm, window))
    && (tpm > 0 ==> TokenPeakBounded(g, tpm, window))
  }

  /**
   A new event whose own window respects the request cap extends a history in
   which the cap held at every admission.
   */
  lemma PeakExtend(g: seq<Event>, e: Event, cap: int, window: int)
    requires PeakBounded(g, cap, window)
    requires CountIn(g + [e], e.0 - window, e.0) <= cap
    ensures PeakBounded(g + [e], cap, window)
  {
    assert (g + [e])[..|g|] == g;
  }

  /** Same as PeakExtend for the token cap and its single-event exception. */
  lemma TokenPeakExtend(g: seq<Event>, e: Event, cap: int, window: int)
    requires TokenPeakBounded(g, cap, window)
    requires SumIn(g + [e], e.0 - window, e.0) <= cap || CountIn(g + [e], e.0 - window, e.0) == 1
    ensures TokenPeakBounded(g + [e], cap, window)
  {
    assert (g + [e])[..|g|] == g;
  }

  /**
   When the history is time-ordered up to `now` and everything before its last
   `live` events has expired, the window ending at `now` after an admission at
   `now` holds exactly those live events and the new one.
   */
  lemma {:induction false} WindowAtAdmission(g: seq<Event>, live: nat, now: int, est: int, window: int)
    requires 0 <= window && live <= |g| && SortedEvents(g)
    requires forall i :: 0 <= i < |g| ==> g[i].0 <= now
    requires forall i :: 0 <= i < |g| - live ==> Expired(g[i].0, now, window)
    requires live > 0 ==> !Expired(g[|g| - live].0, now, window)
    ensures CountIn(g + [(now, est)], now - window, now) == live + 1
    ensures SumIn(g + [(now, est)], now - window, now) == TokenSum(g[|g| - live..]) + est
  {
    var g' := g + [(now, est)];
    var k := |g| - live;
    forall i | 0 <= i < k ensures g'[i].0 < now - window {
      assert g'[i] == g[i];
    }
    forall i | k <= i < |g'| ensures now - window <= g'[i].0 <= now {
      if i < |g| {
        assert g'[i] == g[i] && g[k].0 <= g[i].0;
      } else {
        assert g'[i] == (now, est);
      }
    }
    WindowIsSuffix(g', k, now - window, now);
    assert g'[k..] == g[k..] + [(now, est)];
    TokenSumAppend(g[k..], (now, est));
  }

  /**
   An admission at `now` that passed both checks against the live part of the
   history keeps `History`.
   */
  lemma HistoryAfterAdmission(g: seq<Event>, live: nat, now: int, est: int, window: int, rpm: int, tpm: int)
    requires History(g, live, now, window, rpm, tpm)
    requires live > 0 ==> !Expired(g[|g| - live].0, now, window)
    requires rpm > 0 ==> live < rpm
    requires tpm > 0 ==> TokenSum(g[|g| - live..]) + est <= tpm || live == 0
    ensures History(g + [(now, est)], live + 1, now, window, rpm, tpm)
    ensures CountIn(g + [(now, est)], now - window, now) == live + 1
    ensures SumIn(g + [(now, est)], now - window, now) == TokenSum(g[|g| - live..]) + est
  {
    var e := (now, est);
    WindowAtAdmission(g, live, now, est, window);
    if rpm > 0 {
      PeakExtend(g, e, rpm, window);
    }
    if tpm > 0 {
      TokenPeakExtend(g, e, tpm, window);
    }
    var g' := g + [e];
    assert SortedEvents(g');
  }

  /** Dropping expired events from the front of the live part keeps `History`. */
  lemma HistoryAfterPurge(g: seq<Event>, kept: seq<Event>, kept': seq<Event>, now: int, window: int, rpm: int, tpm: int)
    requires History(g, |kept|, now, window, rpm, tpm)
    requires IsSuffix(kept, g) && IsSuffix(kept', kept)
    requires forall i :: 0 <= i < |kept| - |kept'| ==> Expired(kept[i].0, now, window)
    ensures History(g, |kept'|, now, window, rpm, tpm)
  {
    forall i | |g| - |kept| <= i < |g| - |kept'| ensures Expired(g[i].0, now, window) {
      assert g[i] == kept[i - (|g| - |kept|)];
    }
  }

  /** `HistoryAfterAdmission` stated over the token deque that is the live part of the history. */
  lemma AdmissionKeepsHistory(g: seq<Event>, kept: seq<Event>, now: int, est: int, window: int, rpm: int, tpm: int)
    requires History(g, |kept|, now, window, rpm, tpm) && IsSuffix(kept, g)
    requires kept != [] ==> !Expired(kept[0].0, now, window)
    requires rpm > 0 ==> |kept| < rpm
    requires tpm > 0 ==> TokenSum(kept) + est <= tpm || kept == []
    ensures History(g + [(now, est)], |kept| + 1, now, window, rpm, tpm)
    ensures CountIn(g + [(now, est)], now - window, now) == |kept| + 1
    ensures SumIn(g + [(now, est)], now - window, now) == TokenSum(kept) + est
  {
    SuffixIsKept(kept, g);
    HistoryAfterAdmission(g, |kept|, now, est, window, rpm, tpm);
  }

  /**
   Purge is determined by where the first live entry is: dropping exactly the
   expired entries before it gives the purged deque.
   */
  lemma {:induction false} PurgeStopsAtFirstLive(s: seq<int>, k: nat, now: int, window: int)
    requires k <= |s|
    requires forall i :: 0 <= i < k ==> Expired(s[i], now, window)
    requires k < |s| ==> !Expired(s[k], now, window)
    ensures Purge(s, now, window) == s[k..]
    decreases k
  {
    if k > 0 {
      assert forall i :: 0 <= i < k - 1 ==> s[1..][i] == s[i + 1];
      PurgeStopsAtFirstLive(s[1..], k - 1, now, window);
      assert s[1..][k - 1..] == s[k..];
    }
  }

  /**
   Purging at `now` what was already purged at an earlier time `before` gives the
   purge at `now`: whatever had expired by `before` has expired by `now` too.
   */
  lemma PurgeLater(s: seq<int>, before: int, now: int, window: int)
    requires before <= now
    ensures Purge(Purge(s, before, window), now, window) == Purge(s, now, window)
  {
    var p := Purge(s, before, window);
    var q := Purge(p, now, window);
    var k := |s| - |q|;
    forall i | 0 <= i < k ensures Expired(s[i], now, window) {
      if i >= |s| - |p| {
        assert s[i] == p[i - (|s| - |p|)];
      }
    }
    if k < |s| {
      assert s[k] == q[0];
    }
    PurgeStopsAtFirstLive(s, k, now, window);
    assert q == s[k..];
  }

  /** Keeping the last `b` of the last `a` elements keeps the last `b`. */
  lemma KeptTwice<T>(s: seq<T>, a: int, b: int)
    requires 0 <= b <= a <= |s|
    ensures Kept(Kept(s, a), b) == Kept(s, b)
  {
    assert s[|s| - a..][a - b..] == s[|s| - b..];
  }

  /**
   Deques in lockstep purged at `before` and then again at a later `now` are the
   deques purged at `now` once.
   */
  lemma PurgeAfterPurge(times: seq<int>, events: seq<Event>, before: int, now: int, window: int)
    requires |times| == |events| && before <= now
    ensures var purged := Purge(times, before, window);
            var live := Purge(purged, now, window);
            live == Purge(times, now, window) && Kept(Kept(events, |purged|), |live|) == Kept(events, |live|)
  {
    var purged := Purge(times, before, window);
    PurgeLater(times, before, now, window);
    KeptTwice(events, |purged|, |Purge(purged, now, window)|);
  }

  /** Dropping the same number of entries from the front of both deques keeps them in lockstep and a suffix of the history. */
  lemma LockstepTail(times: seq<int>, events: seq<Event>, g: seq<Event>, rt: seq<int>, re: seq<Event>)
    requires |times| == |events|
    requires forall i :: 0 <= i < |times| ==> times[i] == events[i].0
    requires IsSuffix(events, g)
    requires |rt| == |re| <= |times| && rt == Kept(times, |rt|) && re == Kept(events, |re|)
    ensures forall i :: 0 <= i < |rt| ==> rt[i] == re[i].0
    ensures IsSuffix(re, g)
  {
    var d := |times| - |rt|;
    forall i | 0 <= i < |rt| ensures rt[i] == re[i].0 {
      assert rt[i] == times[d + i] && re[i] == events[d + i];
    }
    forall i | 0 <= i < |re| ensures re[i] == g[|g| - |re| + i] {
      assert re[i] == events[d + i];
    }
  }

  /** Appending one event to the token deque and its stamp to the request deque keeps them in lockstep. */
  lemma LockstepAppend(times: seq<int>, events: seq<Event>, e: Event)
    requires |times| == |events|
    requires forall i :: 0 <= i < |times| ==> times[i] == events[i].0
    ensures forall i :: 0 <= i < |times| + 1 ==> (times + [e.0])[i] == (events + [e])[i].0
  {
    forall i | 0 <= i < |times| + 1 ensures (times + [e.0])[i] == (events + [e])[i].0 {
      if i < |times| {
        assert (times + [e.0])[i] == times[i] && (events + [e])[i] == events[i];
      }
    }
  }

  /** The first loop of a pass: pop expired timestamps off the front of the request deque. */
  method PopExpiredRequests(s: seq<int>, now: int, window: int) returns (r: seq<int>)
    ensures r == Purge(s, now, window)
  {
    r := s;
    ghost var d: nat := 0;
    while r != [] && now - r[0] > window
      invariant d <= |s| && r == s[d..]
      invariant forall i :: 0 <= i < d ==> Expired(s[i], now, window)
      decreases |r|
    {
      r := r[1..];
      d := d + 1;
    }
    PurgeStopsAtFirstLive(s, d, now, window);
  }

  /**
   The second loop of a pass: pop expired entries off the front of the token
   deque. What is left is a suffix whose front is live, and everything popped
   had expired.
   */
  method PopExpiredTokens(g: seq<Event>, now: int, window: int) returns (r: seq<Event>)
    ensures |r| <= |g| && r == Kept(g, |r|)
    ensures r != [] ==> !Expired(r[0].0, now, window)
    ensures forall i :: 0 <= i < |g| - |r| ==> Expired(g[i].0, now, window)
  {
    r := g;
    ghost var d: nat := 0;
    while r != [] && now - r[0].0 > window
      invariant d <= |g| && r == g[d..]
      invariant forall i :: 0 <= i < d ==> Expired(g[i].0, now, window)
      decreases |r|
    {
      r := r[1..];
      d := d + 1;
    }
  }

  /**
   Two deques in lockstep lose the same number of entries to the two loops: an
   entry expires in one exactly when it expires in the other.
   */
  lemma PurgesAgree(times: seq<int>, events: seq<Event>, rt: seq<int>, re: seq<Event>, now: int, window: int)
    requires |times| == |events|
    requires forall i :: 0 <= i < |times| ==> times[i] == events[i].0
    requires |rt| <= |times| && rt == Kept(times, |rt|)
    requires rt != [] ==> !Expired(rt[0], now, window)
    requires forall i :: 0 <= i < |times| - |rt| ==> Expired(times[i], now, window)
    requires |re| <= |events| && re == Kept(events, |re|)
    requires re != [] ==> !Expired(re[0].0, now, window)
    requires forall i :: 0 <= i < |events| - |re| ==> Expired(events[i].0, now, window)
    ensures |rt| == |re|
  {
    var a, b := |times| - |rt|, |events| - |re|;
    if a < |times| {
      assert rt[0] == times[a] == events[a].0;
    }
    if b < |events| {
      assert re[0] == events[b] && events[b].0 == times[b];
    }
  }

  /**
   The first reading at or after index `from` that is not before `until`: where a
   sleep that lasts until `until` wakes up (`|readings|` when it never does).
   */
  function Wake(readings: seq<int>, from: nat, until: int): (j: nat)
    requires from <= |readings|
    ensures from <= j <= |readings|
    ensures j < |readings| ==> readings[j] >= until
    ensures forall k :: from <= k < j ==> readings[k] < until
    decreases |readings| - from
  {
    if from == |readings| || readings[from] >= until then from else Wake(readings, from + 1, until)
  }

  /**
   The reading indices of successive passes of `acquire`: the first at reading
   0, every pass but the last was asked to sleep, and the next runs at the first
   reading at or after its wake-up time.
   */
  ghost predicate Chained(readings: seq<int>, passes: seq<(nat, Outcome)>) {
    && (passes != [] ==> passes[0].0 == 0)
    && (forall k :: 0 <= k < |passes| ==> passes[k].0 < |readings|)
    && (forall k :: 0 <= k < |passes| - 1 ==> passes[k].1.Wait?)
    && (forall k :: 0 <= k < |passes| - 1 ==>
          passes[k + 1].0 == Wake(readings, passes[k].0 + 1, readings[passes[k].0] + passes[k].1.delay))
  }

  /** A pass at the reading where the previous pass's sleep ends extends the chain. */
  lemma {:induction false} ChainedExtend(readings: seq<int>, passes: seq<(nat, Outcome)>, i: nat, o: Outcome)
    requires Chained(readings, passes) && i < |readings|
    requires passes == [] ==> i == 0
    requires passes != [] ==> && passes[|passes| - 1].1.Wait?
                              && i == Wake(readings, passes[|passes| - 1].0 + 1,
                                           readings[passes[|passes| - 1].0] + passes[|passes| - 1].1.delay)
    ensures Chained(readings, passes + [(i, o)])
  {
    var ps := passes + [(i, o)];
    forall k | 0 <= k < |ps| ensures ps[k].0 < |readings| {
      if k < |passes| {
        assert ps[k] == passes[k];
      }
    }
    forall k | 0 <= k < |ps| - 1 ensures ps[k].1.Wait? {
      assert ps[k] == passes[k];
    }
    forall k | 0 <= k < |ps| - 1
      ensures ps[k + 1].0 == Wake(readings, ps[k].0 + 1, readings[ps[k].0] + ps[k].1.delay)
    {
      assert ps[k] == passes[k];
      if k + 1 < |passes| {
        assert ps[k + 1] == passes[k + 1];
      }
    }
  }

  /**
   The rate limiter: caps (a cap of zero or less disables its check), the window,
   and the two deques. `granted` is the proof's record of every admission.
   */
  class RateLimiter {
    const rpm: int
    const tpm: int
    const window: int
    var requestTimes: seq<int>
    var tokenEvents: seq<Event>
    ghost var granted: seq<Event>

    /** The two deques move in lockstep, the token deque is the latest part of the history, and the request cap holds. */
    ghost predicate Valid()
      reads this
    {
      && |requestTimes| == |tokenEvents| <= |granted|
      && (forall i :: 0 <= i < |requestTimes| ==> requestTimes[i] == tokenEvents[i].0)
      && IsSuffix(tokenEvents, granted)
      && (rpm > 0 ==> |requestTimes| <= rpm)
    }

    /** The invariant kept while the clock never goes back behind `now`. */
    ghost predicate Ordered(now: int)
      reads this
    {
      Valid() && History(granted, |tokenEvents|, now, window, rpm, tpm)
    }

    constructor (rpm: int, tpm: int, window: int := DefaultWindowMs)
      ensures this.rpm == rpm && this.tpm == tpm && this.window == window
      ensures requestTimes == [] && tokenEvents == [] && granted == []
      ensures Valid()
    {
      this.rpm := rpm;
      this.tpm := tpm;
      this.window := window;
      requestTimes := [];
      tokenEvents := [];
      granted := [];
    }

    /** A limiter that has admitted nothing is `Ordered` at any time, given a window of no negative length. */
    lemma EmptyOrdered(now: int)
      requires Valid() && granted == [] && window >= 0
      ensures Ordered(now)
    {
    }

    /** A later clock reading keeps `Ordered`. */
    lemma OrderedLater(now: int, later: int)
      requires Ordered(now) && now <= later
      ensures Ordered(later)
    {
    }

    /** Under a clock that never goes back both deques are in time order. */
    lemma DequesSorted(now: int)
      requires Ordered(now)
      ensures SortedTimes(requestTimes) && SortedEvents(tokenEvents)
    {
      var off := |granted| - |tokenEvents|;
      forall i, j | 0 <= i <= j < |tokenEvents|
        ensures tokenEvents[i].0 <= tokenEvents[j].0
      {
        assert tokenEvents[i] == granted[off + i] && tokenEvents[j] == granted[off + j];
      }
    }

    /** Under a clock that never goes back, no window of the history ever held more than `rpm` admissions. */
    lemma RequestCapHolds(now: int, t: int)
      requires Ordered(now) && rpm > 0
      ensures CountIn(granted, t - window, t) <= rpm
    {
      AnyWindowBounded(granted, rpm, window, t);
    }

    /**
     Under a clock that never goes back and with no negative token estimates, no
     window of the history ever summed to more than `tpm` tokens, unless it held
     a single admission.
     */
    lemma TokenCapHolds(now: int, t: int)
      requires Ordered(now) && tpm > 0
      requires forall i :: 0 <= i < |granted| ==> granted[i].1 >= 0
      ensures SumIn(granted, t - window, t) <= tpm || CountIn(granted, t - window, t) == 1
    {
      AnyWindowTokenBounded(granted, tpm, window, t);
    }

    /**
     Under a clock that never goes back, once the deques are purged at `now` they
     hold exactly the admissions of the window ending at `now`: as many requests
     and as many tokens.
     */
    lemma DequesAreWindow(now: int)
      requires Ordered(now)
      requires tokenEvents != [] ==> !Expired(tokenEvents[0].0, now, window)
      ensures CountIn(granted, now - window, now) == |requestTimes|
      ensures SumIn(granted, now - window, now) == TokenSum(tokenEvents)
    {
      var k := |granted| - |tokenEvents|;
      SuffixIsKept(tokenEvents, granted);
      forall i | k <= i < |granted| ensures now - window <= granted[i].0 <= now {
        assert granted[k] == tokenEvents[0] && granted[k].0 <= granted[i].0;
      }
      WindowIsSuffix(granted, k, now - window, now);
    }

    /**
     The two front-popping loops at the head of each pass: drop expired entries
     from the request deque, then from the token deque. Both drop the same number
     of entries, and the history is untouched.
     */
    method DropExpired(now: int)
      requires Valid()
      modifies this
      ensures Valid()
      ensures requestTimes == Purge(old(requestTimes), now, window)
      ensures tokenEvents == Kept(old(tokenEvents), |requestTimes|)
      ensures requestTimes != [] ==> now - requestTimes[0] <= window && now - tokenEvents[0].0 <= window
      ensures forall i :: 0 <= i < |old(tokenEvents)| - |tokenEvents| ==> Expired(old(tokenEvents)[i].0, now, window)
      ensures granted == old(granted)
    {
      var times := PopExpiredRequests(requestTimes, now, window);
      var events := PopExpiredTokens(tokenEvents, now, window);
      PurgesAgree(requestTimes, tokenEvents, times, events, now, window);
      LockstepTail(requestTimes, tokenEvents, granted, times, events);
      requestTimes, tokenEvents := times, events;
    }

    /**
     The append at the end of a pass that passed both checks: one entry at the
     back of each deque, stamped `now`.
     */
    method Record(now: int, estimatedTokens: int)
      requires Valid()
      requires rpm > 0 ==> |requestTimes| < rpm
      modifies this
      ensures Valid()
      ensures requestTimes == old(requestTimes) + [now]
      ensures tokenEvents == old(tokenEvents) + [(now, estimatedTokens)]
      ensures granted == old(granted) + [(now, estimatedTokens)]
      ensures TokenSum(tokenEvents) == old(TokenSum(tokenEvents)) + estimatedTokens
      ensures && old(Ordered(now))
              && (old(requestTimes) != [] ==> !Expired(old(requestTimes)[0], now, window))
              && (tpm > 0 ==> old(TokenSum(tokenEvents)) + estimatedTokens <= tpm || old(tokenEvents) == [])
              ==> Ordered(now)
    {
      ghost var before, kept := granted, tokenEvents;
      if Ordered(now) && (requestTimes != [] ==> !Expired(requestTimes[0], now, window)) &&
         (tpm > 0 ==> TokenSum(tokenEvents) + estimatedTokens <= tpm || tokenEvents == []) {
        AdmissionKeepsHistory(before, kept, now, estimatedTokens, window, rpm, tpm);
      }
      SuffixAppend(kept, before, (now, estimatedTokens));
      LockstepAppend(requestTimes, tokenEvents, (now, estimatedTokens));
      TokenSumAppend(kept, (now, estimatedTokens));
      requestTimes := requestTimes + [now];
      tokenEvents := tokenEvents + [(now, estimatedTokens)];
      granted := granted + [(now, estimatedTokens)];
    }

    /**
     The rest of a pass once the deques are purged: the RPM check, the TPM check,
     and on admission the append.
     */
    method CheckAndRecord(now: int, estimatedTokens: int) returns (o: Outcome)
      requires Valid()
      requires requestTimes != [] ==> now - requestTimes[0] <= window && now - tokenEvents[0].0 <= window
      modifies this
      ensures Valid()
      ensures o == Decide(old(requestTimes), old(tokenEvents), now, estimatedTokens, rpm, tpm, window)
      ensures requestTimes == if o.Admitted? then old(requestTimes) + [now] else old(requestTimes)
      ensures tokenEvents == if o.Admitted? then old(tokenEvents) + [(now, estimatedTokens)] else old(tokenEvents)
      ensures granted == if o.Admitted? then old(granted) + [(now, estimatedTokens)] else old(granted)
      ensures old(Ordered(now)) ==> Ordered(now)
    {
      // RPM check
      var currentRpm := |requestTimes|;
      if rpm > 0 && currentRpm >= rpm {
        var waitTime := window - (now - requestTimes[0]) + BufferMs;
        if waitTime > 0 {
          o := Wait(waitTime);
          return;
        }
      }

      // TPM check
      var currentTpm := TokenSum(tokenEvents);
      if tpm > 0 && currentTpm + estimatedTokens > tpm {
        if tokenEvents != [] {
          var waitTime := window - (now - tokenEvents[0].0) + BufferMs;
          if waitTime > 0 {
            o := Wait(waitTime);
            return;
          }
        }
      }

      // record this request
      Record(now, estimatedTokens);
      o := Admitted;
    }

    /**
     One pass of the body of `acquire`'s loop at clock reading `now`: purge both
     deques, then the RPM check, then the TPM check, and on admission append to
     both deques.
     */
    method Evaluate(now: int, estimatedTokens: int) returns (o: Outcome)
      requires Valid()
      modifies this
      ensures Valid()
      ensures var live := Purge(old(requestTimes), now, window);
              o == Decide(live, Kept(old(tokenEvents), |live|), now, estimatedTokens, rpm, tpm, window)
      ensures var live := Purge(old(requestTimes), now, window);
              requestTimes == if o.Admitted? then live + [now] else live
      ensures var kept := Kept(old(tokenEvents), |Purge(old(requestTimes), now, window)|);
              tokenEvents == if o.Admitted? then kept + [(now, estimatedTokens)] else kept
      ensures granted == if o.Admitted? then old(granted) + [(now, estimatedTokens)] else old(granted)
      ensures o.Wait? ==> o.delay >= BufferMs
      ensures o.Admitted? && rpm > 0 ==> |requestTimes| <= rpm
      ensures o.Admitted? && tpm > 0 ==> TokenSum(tokenEvents) <= tpm || tokenEvents == [(now, estimatedTokens)]
      ensures 0 <= window && tokenEvents != [] ==> !Expired(tokenEvents[0].0, now, window)
      ensures old(Ordered(now)) ==> Ordered(now)
    {
      ghost var wasOrdered := Ordered(now);
      DropExpired(now);
      assert tokenEvents == Kept(old(tokenEvents), |requestTimes|);
      if wasOrdered {
        HistoryAfterPurge(granted, old(tokenEvents), tokenEvents, now, window, rpm, tpm);
      }
      DecideOnPurged(requestTimes, tokenEvents, now, estimatedTokens, rpm, tpm, window);
      TokenSumAppend(tokenEvents, (now, estimatedTokens));
      o := CheckAndRecord(now, estimatedTokens);
    }

    /**
     The answer of a pass at `now` when the deques held `times` and `events`
     before the pass: the decision over both deques purged at `now`. This is the
     specification every pass of `Acquire` is proved to answer by.
     */
    ghost function Answer(now: int, times: seq<int>, events: seq<Event>, est: int): Outcome {
      var live := Purge(times, now, window);
      Decide(live, Kept(events, |live|), now, est, rpm, tpm, window)
    }

    /** Every pass in `passes` is at a reading and answers as `Answer` says from the starting deques. */
    ghost predicate Answered(readings: seq<int>, times: seq<int>, events: seq<Event>, est: int, passes: seq<(nat, Outcome)>) {
      forall k :: 0 <= k < |passes| ==>
        passes[k].0 < |readings| && passes[k].1 == Answer(readings[passes[k].0], times, events, est)
    }

    /**
     `passes` is the run of `acquire` over `readings` from deques `times` and
     `events`, as (reading index, answer) pairs: each pass answers as `Answer`
     says from the starting deques, the first pass is at reading 0, every pass
     but the last was asked to sleep, and the next pass runs at the first reading
     at or after the wake-up time.
     */
    ghost predicate Schedule(readings: seq<int>, times: seq<int>, events: seq<Event>, est: int, passes: seq<(nat, Outcome)>) {
      Answered(readings, times, events, est, passes) && Chained(readings, passes)
    }

    /** A pass at the reading where the previous pass's sleep ends continues a schedule. */
    lemma ScheduleExtend(readings: seq<int>, times: seq<int>, events: seq<Event>, est: int,
                         passes: seq<(nat, Outcome)>, i: nat, o: Outcome)
      requires Schedule(readings, times, events, est, passes)
      requires i < |readings| && o == Answer(readings[i], times, events, est)
      requires passes == [] ==> i == 0
      requires passes != [] ==> && passes[|passes| - 1].1.Wait?
                                && i == Wake(readings, passes[|passes| - 1].0 + 1,
                                             readings[passes[|passes| - 1].0] + passes[|passes| - 1].1.delay)
      ensures Schedule(readings, times, events, est, passes + [(i, o)])
    {
      var ps := passes + [(i, o)];
      forall k | 0 <= k < |ps|
        ensures ps[k].0 < |readings| && ps[k].1 == Answer(readings[ps[k].0], times, events, est)
      {
        if k < |passes| {
          assert ps[k] == passes[k];
        }
      }
      ChainedExtend(readings, passes, i, o);
    }

    /**
     The state of `acquire` before its pass at reading `i`, having started from
     deques `times` and `events` and made `passes` so far: with no pass yet,
     nothing has changed and `i` is 0; otherwise the last pass asked to sleep,
     `i` is where that sleep ends, and the deques are the starting ones purged at
     the last pass's reading.
     */
    ghost predicate Pending(readings: seq<int>, times: seq<int>, events: seq<Event>, est: int,
                            passes: seq<(nat, Outcome)>, i: nat)
      reads this
    {
      && i < |readings|
      && Schedule(readings, times, events, est, passes)
      && (passes == [] ==> i == 0 && requestTimes == times && tokenEvents == events)
      && (passes != [] ==>
            && passes[|passes| - 1].0 < |readings|
            && passes[|passes| - 1].1.Wait?
            && i == Wake(readings, passes[|passes| - 1].0 + 1,
                         readings[passes[|passes| - 1].0] + passes[|passes| - 1].1.delay)
            && readings[passes[|passes| - 1].0] <= readings[i]
            && requestTimes == Purge(times, readings[passes[|passes| - 1].0], window)
            && tokenEvents == Kept(events, |requestTimes|))
    }

    /**
     The deques after a pass at `now` from starting deques `times` and `events`:
     both purged at `now`, plus the request when it was admitted.
     */
    ghost predicate DequesAfter(times: seq<int>, events: seq<Event>, est: int, now: int, admitted: bool)
      reads this
    {
      var live := Purge(times, now, window);
      && requestTimes == (if admitted then live + [now] else live)
      && tokenEvents == (if admitted then Kept(events, |live|) + [(now, est)] else Kept(events, |live|))
    }

    /**
     How a run of `acquire` over `readings` ended: `passes` is its schedule, there
     is a pass exactly when there is a reading, `Some(j)` means the last pass was
     at reading `j` and admitted, and `None` means the last pass asked to sleep
     past the last reading.
     */
    ghost predicate Run(readings: seq<int>, times: seq<int>, events: seq<Event>, est: int,
                        passes: seq<(nat, Outcome)>, r: Option<nat>) {
      && Schedule(readings, times, events, est, passes)
      && (passes == [] <==> readings == [])
      && (r.Some? ==> passes != [] && passes[|passes| - 1] == (r.value, Admitted))
      && (r.None? && passes != [] ==>
            && passes[|passes| - 1].0 < |readings|
            && passes[|passes| - 1].1.Wait?
            && Wake(readings, passes[|passes| - 1].0 + 1,
                    readings[passes[|passes| - 1].0] + passes[|passes| - 1].1.delay) == |readings|)
    }

    /** A run that made a pass at reading `i`, answered `o`, ends as `o` and the wake-up index say. */
    lemma RunEnds(readings: seq<int>, times: seq<int>, events: seq<Event>, est: int,
                  passes: seq<(nat, Outcome)>, i: nat, o: Outcome)
      requires Schedule(readings, times, events, est, passes)
      requires i < |readings| && passes != [] && passes[|passes| - 1] == (i, o)
      ensures o.Admitted? ==> Run(readings, times, events, est, passes, Some(i))
      ensures o.Wait? && Wake(readings, i + 1, readings[i] + o.delay) == |readings| ==>
                Run(readings, times, events, est, passes, None)
    {
    }

    /** After a pass at reading `i` that asked to sleep, the next pass is pending where the sleep ends. */
    lemma PendingAfterWait(readings: seq<int>, times: seq<int>, events: seq<Event>, est: int,
                           passes: seq<(nat, Outcome)>, i: nat, o: Outcome, next: nat)
      requires Schedule(readings, times, events, est, passes)
      requires i < |readings| && passes != [] && passes[|passes| - 1] == (i, o)
      requires o.Wait? && o.delay >= BufferMs
      requires next == Wake(readings, i + 1, readings[i] + o.delay) && next < |readings|
      requires requestTimes == Purge(times, readings[i], window) && tokenEvents == Kept(events, |requestTimes|)
      ensures Pending(readings, times, events, est, passes, next)
    {
    }

    /**
     One pass of `acquire` at reading `i`: its answer is the one `Answer` gives
     from the starting deques, it extends the schedule, and the deques become the
     starting ones purged at this reading, plus the request when admitted.
     */
    method TakePass(readings: seq<int>, i: nat, estimatedTokens: int, ghost times: seq<int>, ghost events: seq<Event>,
                    ghost passes: seq<(nat, Outcome)>) returns (o: Outcome, ghost passes': seq<(nat, Outcome)>)
      requires Valid() && |times| == |events|
      requires Pending(readings, times, events, estimatedTokens, passes, i)
      modifies this
      ensures Valid()
      ensures o == Answer(readings[i], times, events, estimatedTokens)
      ensures passes' == passes + [(i, o)]
      ensures Schedule(readings, times, events, estimatedTokens, passes')
      ensures o.Wait? ==> o.delay >= BufferMs
      ensures DequesAfter(times, events, estimatedTokens, readings[i], o.Admitted?)
      ensures granted == if o.Admitted? then old(granted) + [(readings[i], estimatedTokens)] else old(granted)
      ensures old(Ordered(readings[i])) ==> Ordered(readings[i])
    {
      var now := readings[i];
      if passes != [] {
        PurgeAfterPurge(times, events, readings[passes[|passes| - 1].0], now, window);
      }
      o := Evaluate(now, estimatedTokens);
      ScheduleExtend(readings, times, events, estimatedTokens, passes, i, o);
      passes' := passes + [(i, o)];
    }

    /** Two schedules over the same readings from the same deques agree on the passes both have made. */
    lemma {:induction false} SchedulesAgree(readings: seq<int>, times: seq<int>, events: seq<Event>, est: int,
                                            p: seq<(nat, Outcome)>, q: seq<(nat, Outcome)>, k: nat)
      requires Schedule(readings, times, events, est, p) && Schedule(readings, times, events, est, q)
      requires k < |p| && k < |q|
      ensures p[k] == q[k]
    {
      if k > 0 {
        SchedulesAgree(readings, times, events, est, p, q, k - 1);
        assert Chained(readings, p) && Chained(readings, q);
        assert p[k].0 == q[k].0;
      } else {
        assert Chained(readings, p) && Chained(readings, q);
      }
      assert Answered(readings, times, events, est, p) && Answered(readings, times, events, est, q);
    }

    /** A schedule goes on after pass `m` only from a pass that asked to sleep, to a pass at a reading. */
    lemma ScheduleGoesOn(readings: seq<int>, times: seq<int>, events: seq<Event>, est: int,
                         q: seq<(nat, Outcome)>, m: nat)
      requires Schedule(readings, times, events, est, q)
      ensures m + 1 < |q| ==> && q[m].1.Wait?
                              && q[m + 1].0 < |readings|
                              && q[m + 1].0 == Wake(readings, q[m].0 + 1, readings[q[m].0] + q[m].1.delay)
      ensures q != [] ==> q[0].0 < |readings|
    {
    }

    /** A finished run is at least as long as any schedule from the same inputs. */
    lemma RunIsLongest(readings: seq<int>, times: seq<int>, events: seq<Event>, est: int,
                       p: seq<(nat, Outcome)>, r: Option<nat>, q: seq<(nat, Outcome)>)
      requires Run(readings, times, events, est, p, r) && Schedule(readings, times, events, est, q)
      ensures |q| <= |p|
    {
      if p == [] {
        ScheduleGoesOn(readings, times, events, est, q, 0);
      } else {
        var m := |p| - 1;
        ScheduleGoesOn(readings, times, events, est, q, m);
        if m < |q| {
          SchedulesAgree(readings, times, events, est, p, q, m);
        }
      }
    }

    /**
     The run of `acquire` is determined by the readings and the starting deques:
     two runs from the same inputs made the same passes and gave the same answer.
     */
    lemma RunDeterministic(readings: seq<int>, times: seq<int>, events: seq<Event>, est: int,
                           p: seq<(nat, Outcome)>, r: Option<nat>, q: seq<(nat, Outcome)>, r': Option<nat>)
      requires Run(readings, times, events, est, p, r) && Run(readings, times, events, est, q, r')
      ensures p == q && r == r'
    {
      RunsMakeSamePasses(readings, times, events, est, p, r, q, r');
      RunAnswer(readings, times, events, est, p, r);
      RunAnswer(readings, times, events, est, p, r');
    }

    /** Two runs from the same inputs made the same passes: neither can stop before the other. */
    lemma RunsMakeSamePasses(readings: seq<int>, times: seq<int>, events: seq<Event>, est: int,
                             p: seq<(nat, Outcome)>, r: Option<nat>, q: seq<(nat, Outcome)>, r': Option<nat>)
      requires Run(readings, times, events, est, p, r) && Run(readings, times, events, est, q, r')
      ensures p == q
    {
      RunIsLongest(readings, times, events, est, p, r, q);
      RunIsLongest(readings, times, events, est, q, r', p);
      SchedulesEqual(readings, times, events, est, p, q);
    }

    /** Two schedules of the same length from the same inputs are the same schedule. */
    lemma SchedulesEqual(readings: seq<int>, times: seq<int>, events: seq<Event>, est: int,
                         p: seq<(nat, Outcome)>, q: seq<(nat, Outcome)>)
      requires Schedule(readings, times, events, est, p) && Schedule(readings, times, events, est, q)
      requires |p| == |q|
      ensures p == q
    {
      forall k | 0 <= k < |p| ensures p[k] == q[k] {
        SchedulesAgree(readings, times, events, est, p, q, k);
      }
    }

    /** The answer of a run is read off its last pass: `Some` of its reading when it admitted. */
    lemma RunAnswer(readings: seq<int>, times: seq<int>, events: seq<Event>, est: int,
                    p: seq<(nat, Outcome)>, r: Option<nat>)
      requires Run(readings, times, events, est, p, r)
      ensures r == if p != [] && p[|p| - 1].1.Admitted? then Some(p[|p| - 1].0) else None
    {
    }

    /**
     With `rpm = 2` and the token cap off, deques holding two requests made at
     time 0 make a pass at 0 sleep 60.5 s (window plus buffer), and a pass at
     60.5 s admit, both old entries having left the window.
     */
    lemma TwoRequestsAtZero()
      requires rpm == 2 && tpm == 0 && window == DefaultWindowMs
      ensures Answer(0, [0, 0], [(0, 0), (0, 0)], 0) == Wait(60500)
      ensures Answer(60500, [0, 0], [(0, 0), (0, 0)], 0) == Admitted
    {
      TwoPerMinuteScenario();
      assert Kept([(0, 0), (0, 0)], 0) == [];
    }

    /** With the same caps, a pass at 0 admits over empty deques and over one entry of time 0. */
    lemma FirstTwoAdmitted()
      requires rpm == 2 && tpm == 0 && window == DefaultWindowMs
      ensures Purge([], 0, window) == [] && Answer(0, [], [], 0) == Admitted
      ensures Purge([0], 0, window) == [0] && Answer(0, [0], [(0, 0)], 0) == Admitted
    {
      TwoPerMinuteScenario();
      assert Purge([0], 0, DefaultWindowMs) == [0];
      assert Kept([(0, 0)], 1) == [(0, 0)];
    }

    /** The first pass of that run: the reading at 0 is told to sleep 60.5 s. */
    lemma ThirdRequestFirstPass()
      requires rpm == 2 && tpm == 0 && window == DefaultWindowMs
      ensures Schedule([0, 30000, 60500], [0, 0], [(0, 0), (0, 0)], 0, [(0, Wait(60500))])
    {
      var readings := [0, 30000, 60500];
      var times := [0, 0];
      var events := [(0, 0), (0, 0)];
      var none: seq<(nat, Outcome)> := [];
      var first: seq<(nat, Outcome)> := [(0, Wait(60500))];
      assert none + [(0, Wait(60500))] == first;
      TwoRequestsAtZero();
      ScheduleExtend(readings, times, events, 0, none, 0, Wait(60500));
    }

    /** From those deques, readings 0, 30 s and 60.5 s give a run that sleeps once and admits at the third. */
    lemma ThirdRequestRun()
      requires rpm == 2 && tpm == 0 && window == DefaultWindowMs
      ensures Run([0, 30000, 60500], [0, 0], [(0, 0), (0, 0)], 0, [(0, Wait(60500)), (2, Admitted)], Some(2))
    {
      var readings := [0, 30000, 60500];
      var times := [0, 0];
      var events := [(0, 0), (0, 0)];
      var first: seq<(nat, Outcome)> := [(0, Wait(60500))];
      var both: seq<(nat, Outcome)> := [(0, Wait(60500)), (2, Admitted)];
      assert first + [(2, Admitted)] == both;
      assert Wake(readings, 1, 60500) == 2;
      TwoRequestsAtZero();
      ThirdRequestFirstPass();
      ScheduleExtend(readings, times, events, 0, first, 2, Admitted);
      RunEnds(readings, times, events, 0, both, 2, Admitted);
    }

    /**
     With `rpm = 2`, the token cap off and two requests admitted at time 0, a
     third request arriving at 0 is told to sleep 60.5 s: `acquire` skips the
     reading at 30 s and admits at the reading at 60.5 s, and no other run is
     possible.
     */
    lemma ThirdRequestWaitsAMinute(passes: seq<(nat, Outcome)>, r: Option<nat>)
      requires rpm == 2 && tpm == 0 && window == DefaultWindowMs
      requires Run([0, 30000, 60500], [0, 0], [(0, 0), (0, 0)], 0, passes, r)
      ensures passes == [(0, Wait(60500)), (2, Admitted)] && r == Some(2)
    {
      ThirdRequestRun();
      RunDeterministic([0, 30000, 60500], [0, 0], [(0, 0), (0, 0)], 0,
                       passes, r, [(0, Wait(60500)), (2, Admitted)], Some(2));
    }

    /**
     When the first pass admits (for instance on a fresh limiter under its caps),
     the run ends there: one pass, at reading 0, answered `Some(0)`.
     */
    lemma AdmittingFirstPassEndsRun(readings: seq<int>, times: seq<int>, events: seq<Event>, est: int,
                                    p: seq<(nat, Outcome)>, r: Option<nat>)
      requires Run(readings, times, events, est, p, r)
      requires readings != [] && Answer(readings[0], times, events, est) == Admitted
      ensures r == Some(0) && p == [(0, Admitted)]
    {
      ScheduleGoesOn(readings, times, events, est, p, 0);
    }

    /** A run whose first pass admits leaves the starting deques purged at reading 0, plus the request. */
    lemma AdmittedAtFirstPass(readings: seq<int>, times: seq<int>, events: seq<Event>, est: int,
                              p: seq<(nat, Outcome)>, r: Option<nat>)
      requires Ended(readings, times, events, est, p, r)
      requires readings != [] && Answer(readings[0], times, events, est) == Admitted
      ensures r == Some(0)
      ensures requestTimes == Purge(times, readings[0], window) + [readings[0]]
      ensures tokenEvents == Kept(events, |Purge(times, readings[0], window)|) + [(readings[0], est)]
    {
      AdmittingFirstPassEndsRun(readings, times, events, est, p, r);
    }

    /**
     How a run of `acquire` ended, deques included: the run is as `Run` says; with
     no pass the deques are unchanged; otherwise they are the starting deques
     purged at the last pass's reading, plus the request when it was admitted.
     */
    ghost predicate Ended(readings: seq<int>, times: seq<int>, events: seq<Event>, est: int,
                          passes: seq<(nat, Outcome)>, r: Option<nat>)
      reads this
    {
      && Run(readings, times, events, est, passes, r)
      && (passes == [] ==> requestTimes == times && tokenEvents == events)
      && (passes != [] ==>
            && passes[|passes| - 1].0 < |readings|
            && DequesAfter(times, events, est, readings[passes[|passes| - 1].0], r.Some?))
    }

    /**
     One turn of the `while True` loop of `acquire` at reading `i`: the pass, and
     on `Wait(d)` the sleep, which ends at reading `next`. The turn either ends the
     run (admitted, or asleep past the last reading) or leaves the next pass
     pending at `next`, a strictly later clock reading.
     */
    method Step(readings: seq<int>, i: nat, estimatedTokens: int, ghost times: seq<int>, ghost events: seq<Event>,
                ghost passes: seq<(nat, Outcome)>) returns (o: Outcome, next: nat, ghost passes': seq<(nat, Outcome)>)
      requires Valid() && |times| == |events|
      requires Pending(readings, times, events, estimatedTokens, passes, i)
      modifies this
      ensures Valid()
      ensures o == Answer(readings[i], times, events, estimatedTokens)
      ensures passes' == passes + [(i, o)]
      ensures o.Admitted? ==> Ended(readings, times, events, estimatedTokens, passes', Some(i))
      ensures o.Wait? ==> i < next <= |readings|
      ensures o.Wait? && next == |readings| ==> Ended(readings, times, events, estimatedTokens, passes', None)
      ensures o.Wait? && next < |readings| ==>
                readings[i] < readings[next] && Pending(readings, times, events, estimatedTokens, passes', next)
      ensures granted == if o.Admitted? then old(granted) + [(readings[i], estimatedTokens)] else old(granted)
      ensures old(Ordered(readings[i])) ==> Ordered(readings[i])
    {
      o, passes' := TakePass(readings, i, estimatedTokens, times, events, passes);
      RunEnds(readings, times, events, estimatedTokens, passes', i, o);
      assert passes'[|passes'| - 1] == (i, o);
      if o.Admitted? {
        next := i + 1;
        return;
      }
      // sleep for o.delay: the readings taken meanwhile are never seen
      next := Wake(readings, i + 1, readings[i] + o.delay);
      if next < |readings| {
        PendingAfterWait(readings, times, events, estimatedTokens, passes', i, o, next);
      }
    }

    /**
     `acquire`: evaluate at successive clock readings until admitted. After a
     `Wait(d)` at reading `now`, the readings taken while asleep are skipped and
     the next pass runs at the first reading at or after `now + d`. The answer is
     the index of the admitting reading, or `None` when the readings run out
     first; `passes` records every pass and its answer.
     */
    method Acquire(readings: seq<int>, estimatedTokens: int := 0) returns (r: Option<nat>, ghost passes: seq<(nat, Outcome)>)
      requires Valid()
      modifies this
      ensures Valid()
      ensures Ended(readings, old(requestTimes), old(tokenEvents), estimatedTokens, passes, r)
      ensures r.Some? ==> r.value < |readings| && granted == old(granted) + [(readings[r.value], estimatedTokens)]
      ensures r.None? ==> granted == old(granted)
      ensures rpm <= 0 && tpm <= 0 && readings != [] ==> r == Some(0)
      ensures SortedTimes(readings) && readings != [] && old(Ordered(readings[0])) ==> Ordered(readings[|readings| - 1])
    {
      passes := [];
      if readings == [] {
        return None, passes;
      }
      ghost var times, events := requestTimes, tokenEvents;
      ghost var mono := SortedTimes(readings) && Ordered(readings[0]);
      var i := 0;
      while true
        invariant Valid()
        invariant Pending(readings, times, events, estimatedTokens, passes, i)
        invariant granted == old(granted)
        invariant rpm <= 0 && tpm <= 0 ==> i == 0
        invariant mono ==> Ordered(readings[i])
        decreases |readings| - i
      {
        var o, next;
        o, next, passes := Step(readings, i, estimatedTokens, times, events, passes);
        if o.Admitted? {
          if mono {
            OrderedLater(readings[i], readings[|readings| - 1]);
          }
          return Some(i), passes;
        }
        if next == |readings| {
          if mono {
            OrderedLater(readings[i], readings[|readings| - 1]);
          }
          return None, passes;
        }
        if mono {
          OrderedLater(readings[i], readings[next]);
        }
        i := next;
      }
    }
  }

  /**
   Three evaluations for requests of zero tokens with `rpm = 2` and the token
   cap off, all at time 0, as `Evaluate` answers them from the deques it holds:
   the first two are admitted, the third has to sleep 60.5 s (window plus
   buffer), and at 60500 ms both old entries have left the window and the retry
   is admitted.
   */
  lemma TwoPerMinuteScenario()
    ensures Decide(Purge([], 0, DefaultWindowMs), [], 0, 0, 2, 0, DefaultWindowMs) == Admitted
    ensures Decide(Purge([0], 0, DefaultWindowMs), Kept([(0, 0)], 1), 0, 0, 2, 0, DefaultWindowMs) == Admitted
    ensures Decide(Purge([0, 0], 0, DefaultWindowMs), Kept([(0, 0), (0, 0)], 2), 0, 0, 2, 0, DefaultWindowMs) == Wait(60500)
    ensures Purge([0, 0], 60500, DefaultWindowMs) == []
    ensures Decide([], [], 60500, 0, 2, 0, DefaultWindowMs) == Admitted
  {
    assert Purge([0], 0, DefaultWindowMs) == [0];
    assert Purge([0, 0], 0, DefaultWindowMs) == [0, 0];
  }

  /**
   One request of zero tokens whose clock reads 0, on a limiter whose deques
   hold only entries of time 0 that a pass at 0 admits over: it is admitted at
   once and both deques grow by one entry of time 0.
   */
  method AcquireAtZero(limiter: RateLimiter, ghost times: seq<int>, ghost events: seq<Event>) returns (r: Option<nat>)
    requires limiter.Valid() && limiter.requestTimes == times && limiter.tokenEvents == events
    requires Purge(times, 0, limiter.window) == times
    requires limiter.Answer(0, times, events, 0) == Admitted
    modifies limiter
    ensures r == Some(0) && limiter.Valid()
    ensures limiter.requestTimes == times + [0] && limiter.tokenEvents == events + [(0, 0)]
  {
    var atZero: seq<int> := [0];
    ghost var passes;
    assert Kept(events, |times|) == events;
    r, passes := limiter.Acquire(atZero);
    limiter.AdmittedAtFirstPass(atZero, times, events, 0, passes, r);
  }

  /**
   The scenario above driven through a limiter object: a fresh limiter with
   `rpm = 2` and the token cap off admits two requests made at time 0 at once,
   and a third, whose clock reads 0, 30 s and 60.5 s, sleeps through the reading
   at 30 s and is admitted at the one at 60.5 s.
   */
  method ThreeRequestsAtZero() returns (first: Option<nat>, second: Option<nat>, third: Option<nat>)
    ensures first == Some(0) && second == Some(0) && third == Some(2)
  {
    var limiter := new RateLimiter(2, 0);
    var none: seq<int> := [];
    var noEvents: seq<Event> := [];
    var once: seq<int> := [0];
    var onceEvents: seq<Event> := [(0, 0)];
    var readings: seq<int> := [0, 30000, 60500];
    limiter.FirstTwoAdmitted();
    first := AcquireAtZero(limiter, none, noEvents);
    assert none + [0] == once && noEvents + [(0, 0)] == onceEvents;
    second := AcquireAtZero(limiter, once, onceEvents);
    assert once + [0] == [0, 0] && onceEvents + [(0, 0)] == [(0, 0), (0, 0)];
    ghost var passes;
    third, passes := limiter.Acquire(readings);
    limiter.ThirdRequestWaitsAMinute(passes, third);
  }
}
