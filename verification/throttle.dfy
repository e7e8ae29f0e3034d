/**
 * A leading-edge throttle with trailing coalescing, as a timed state machine.
 *
 * The closure's two variables become the state: `timer` is the deadline of
 * the pending timeout (`None` when no timeout is set) and `cached` holds the
 * arguments of the latest call made while the timeout was pending. Calls to
 * the throttled function and to the clear callback are returned as effects.
 * Time is an integer number of milliseconds; a timer callback runs exactly at
 * its deadline, and timers due at or before an event's time run first.
 */
module Throttle {
  import opened Optional

  /** The default cooldown, in milliseconds. */
  const DefaultWait: nat := 100

  /** The closure's parameters: the cooldown and whether an `onClear` callback was given. */
  datatype Config = Config(wait: nat, hasOnClear: bool)

  function DefaultConfig(hasOnClear: bool): Config {
    Config(DefaultWait, hasOnClear)
  }

  datatype State<T> = State(timer: Option<int>, cached: Option<T>)

  /** What the environment observes: a call of `func`, or a call of `onClear`. */
  datatype Effect<T> = Invoke(at: int, args: T) | Cleared(at: int)

  datatype Outcome<T> = Outcome(state: State<T>, effects: seq<Effect<T>>)

  /** Inputs of the closure: `send(args)` and `clear()`. */
  datatype Event<T> = Send(args: T) | Clear

  /** An input at a point in time. */
  datatype Timed<T> = At(time: int, event: Event<T>)

  /** A fresh throttle: no timeout, no cached arguments. */
  function Init<T>(): State<T> {
    State(None, None)
  }

  predicate Pending<T>(s: State<T>) {
    s.timer.Some?
  }

  /** Fuel for the timer loop: cached arguments allow one more call, a timer one more firing. */
  function Weight<T>(s: State<T>): nat {
    (if s.cached.Some? then 2 else 0) + (if s.timer.Some? then 1 else 0)
  }

  /** `callAndTimeout`: call `func` now and set a timeout `wait` ms ahead. */
  function CallAndTimeout<T>(cfg: Config, s: State<T>, now: int, args: T): (o: Outcome<T>)
    ensures o.effects == [Invoke(now, args)]
    ensures o.state.timer == Some(now + cfg.wait) && o.state.cached == s.cached
  {
    Outcome(s.(timer := Some(now + cfg.wait)), [Invoke(now, args)])
  }

  /** `send(...args)` at time `now`. */
  function SendStep<T>(cfg: Config, s: State<T>, now: int, args: T): (o: Outcome<T>)
    ensures !Pending(s) ==> o.effects == [Invoke(now, args)] && o.state == State(Some(now + cfg.wait), s.cached)
    ensures Pending(s) ==> o.effects == [] && o.state == State(s.timer, Some(args))
  {
    if s.timer.None? then CallAndTimeout(cfg, s, now, args)
    else Outcome(s.(cached := Some(args)), [])
  }

  /** The timeout callback, run at the pending deadline. */
  function TimerStep<T>(cfg: Config, s: State<T>): (o: Outcome<T>)
    requires Pending(s)
    ensures s.cached.Some? ==>
              o.effects == [Invoke(s.timer.value, s.cached.value)] && o.state == State(Some(s.timer.value + cfg.wait), None)
    ensures s.cached.None? ==> o.effects == [] && o.state == State(None, None)
    ensures Weight(o.state) < Weight(s)
  {
    var now := s.timer.value;
    match s.cached
    case Some(args) =>
      var o := CallAndTimeout(cfg, s, now, args);
      Outcome(o.state.(cached := None), o.effects)
    case None => Outcome(s.(timer := None), [])
  }

  /** `clear()` at time `now`: drop the timeout and the cached arguments, then notify. */
  function ClearStep<T>(cfg: Config, s: State<T>, now: int): (o: Outcome<T>)
    ensures o.state == Init()
    ensures o.effects == if cfg.hasOnClear then [Cleared(now)] else []
  {
    Outcome(State(None, None), if cfg.hasOnClear then [Cleared(now)] else [])
  }

  /** Run every timer callback due at or before `t`. */
  function Advance<T>(cfg: Config, s: State<T>, t: int): (o: Outcome<T>)
    ensures Pending(o.state) ==> o.state.timer.value > t
    ensures !Pending(s) || s.timer.value > t ==> o == Outcome(s, [])
    decreases Weight(s)
  {
    if s.timer.Some? && s.timer.value <= t then
      var f := TimerStep(cfg, s);
      var rest := Advance(cfg, f.state, t);
      Outcome(rest.state, f.effects + rest.effects)
    else Outcome(s, [])
  }

  /** Run every remaining timer callback: what happens once the inputs stop. */
  function Drain<T>(cfg: Config, s: State<T>): (o: Outcome<T>)
    ensures o.state == Init()
    decreases Weight(s)
  {
    if s.timer.Some? then
      var f := TimerStep(cfg, s);
      var rest := Drain(cfg, f.state);
      Outcome(rest.state, f.effects + rest.effects)
    else Outcome(State(None, None), [])
  }

  /** An input applied at time `now`, with no timer running first. */
  function Apply<T>(cfg: Config, s: State<T>, now: int, event: Event<T>): (o: Outcome<T>)
  {
    match event
    case Send(args) => SendStep(cfg, s, now, args)
    case Clear => ClearStep(cfg, s, now)
  }

  /** One timed input: first the timers due by then, then the input itself. */
  function Step<T>(cfg: Config, s: State<T>, input: Timed<T>): (o: Outcome<T>)
  {
    var a := Advance(cfg, s, input.time);
    var e := Apply(cfg, a.state, input.time, input.event);
    Outcome(e.state, a.effects + e.effects)
  }

  /** A trace of timed inputs, in order. */
  function Run<T>(cfg: Config, s: State<T>, trace: seq<Timed<T>>): (o: Outcome<T>)
    decreases |trace|
  {
    if |trace| == 0 then Outcome(s, [])
    else
      var first := Step(cfg, s, trace[0]);
      var rest := Run(cfg, first.state, trace[1..]);
      Outcome(rest.state, first.effects + rest.effects)
  }

  /** The whole life of a throttle: the trace from a fresh state, then every remaining timer. */
  function Life<T>(cfg: Config, trace: seq<Timed<T>>): seq<Effect<T>> {
    var r := Run(cfg, Init(), trace);
    r.effects + Drain(cfg, r.state).effects
  }

  // ---------------------------------------------------------------------------
  // Observations on traces and effects
  // ---------------------------------------------------------------------------

  /** Arguments passed by one input: one for `send`, none for `clear`. */
  function SentBy<T>(event: Event<T>): seq<T> {
    if event.Send? then [event.args] else []
  }

  /** Arguments of the `send` calls of a trace, in order. */
  function Sent<T>(trace: seq<Timed<T>>): (r: seq<T>)
    ensures |r| <= |trace|
    decreases |trace|
  {
    if |trace| == 0 then []
    else SentBy(trace[0].event) + Sent(trace[1..])
  }

  /** Arguments `func` was called with, in order. */
  function Delivered<T>(effects: seq<Effect<T>>): (r: seq<T>)
    ensures |r| <= |effects|
    decreases |effects|
  {
    if |effects| == 0 then []
    else (if effects[0].Invoke? then [effects[0].args] else []) + Delivered(effects[1..])
  }

  /** Times at which `func` was called, in order. */
  function InvokeTimes<T>(effects: seq<Effect<T>>): (r: seq<int>)
    ensures |r| <= |effects|
    decreases |effects|
  {
    if |effects| == 0 then []
    else (if effects[0].Invoke? then [effects[0].at] else []) + InvokeTimes(effects[1..])
  }

  predicate ClearFree<T>(trace: seq<Timed<T>>) {
    forall i :: 0 <= i < |trace| ==> trace[i].event.Send?
  }

  predicate TimesNonDecreasing<T>(trace: seq<Timed<T>>) {
    forall i :: 0 < i < |trace| ==> trace[i - 1].time <= trace[i].time
  }

  /** Consecutive times are at least `wait` apart. */
  predicate Spaced(times: seq<int>, wait: nat) {
    forall i :: 0 < i < |times| ==> times[i - 1] + wait <= times[i]
  }

  /** `xs` can be obtained from `ys` by deleting elements. */
  ghost predicate IsSubsequence<T>(xs: seq<T>, ys: seq<T>)
    decreases |ys|
  {
    if |xs| == 0 then true
    else if |ys| == 0 then false
    else if xs[|xs| - 1] == ys[|ys| - 1] && IsSubsequence(xs[..|xs| - 1], ys[..|ys| - 1]) then true
    else IsSubsequence(xs, ys[..|ys| - 1])
  }

  function Last<T>(xs: seq<T>): T
    requires |xs| > 0
  {
    xs[|xs| - 1]
  }

  function CachedSeq<T>(s: State<T>): seq<T> {
    if s.cached.Some? then [s.cached.value] else []
  }

  lemma {:induction false} DeliveredAppend<T>(a: seq<Effect<T>>, b: seq<Effect<T>>)
    ensures Delivered(a + b) == Delivered(a) + Delivered(b)
    ensures InvokeTimes(a + b) == InvokeTimes(a) + InvokeTimes(b)
    decreases |a|
  {
    if |a| > 0 {
      DeliveredAppend(a[1..], b);
      assert (a + b)[0] == a[0];
      assert (a + b)[1..] == a[1..] + b;
    } else {
      assert a + b == b;
    }
  }

  lemma SentCons<T>(sent: seq<T>, trace: seq<Timed<T>>)
    requires |trace| > 0
    ensures sent + SentBy(trace[0].event) + Sent(trace[1..]) == sent + Sent(trace)
  {
  }

  lemma {:induction false} SentAppend<T>(a: seq<Timed<T>>, b: seq<Timed<T>>)
    ensures Sent(a + b) == Sent(a) + Sent(b)
    decreases |a|
  {
    if |a| > 0 {
      SentAppend(a[1..], b);
      assert (a + b)[0] == a[0];
      assert (a + b)[1..] == a[1..] + b;
    } else {
      assert a + b == b;
    }
  }

  // ---------------------------------------------------------------------------
  // Subsequence facts
  // ---------------------------------------------------------------------------

  lemma {:induction false} SubsequenceExtend<T>(xs: seq<T>, ys: seq<T>, y: T)
    requires IsSubsequence(xs, ys)
    ensures IsSubsequence(xs, ys + [y])
  {
    if |xs| > 0 {
      assert (ys + [y])[..|ys + [y]| - 1] == ys;
    }
  }

  lemma {:induction false} SubsequenceAppendBoth<T>(xs: seq<T>, ys: seq<T>, a: T)
    requires IsSubsequence(xs, ys)
    ensures IsSubsequence(xs + [a], ys + [a])
  {
    assert (xs + [a])[..|xs + [a]| - 1] == xs;
    assert (ys + [a])[..|ys + [a]| - 1] == ys;
  }

  lemma {:induction false} SubsequenceDropLast<T>(xs: seq<T>, ys: seq<T>)
    requires |xs| > 0
    requires IsSubsequence(xs, ys)
    ensures IsSubsequence(xs[..|xs| - 1], ys)
    decreases |ys|
  {
    var xs' := xs[..|xs| - 1];
    var ys' := ys[..|ys| - 1];
    if xs[|xs| - 1] == ys[|ys| - 1] && IsSubsequence(xs', ys') {
      SubsequenceExtend(xs', ys', ys[|ys| - 1]);
      assert ys' + [ys[|ys| - 1]] == ys;
    } else {
      SubsequenceDropLast(xs, ys');
      SubsequenceExtend(xs', ys', ys[|ys| - 1]);
      assert ys' + [ys[|ys| - 1]] == ys;
    }
  }

  // ---------------------------------------------------------------------------
  // Single-step guarantees
  // ---------------------------------------------------------------------------

  /** The first call of a fresh (or cleared) throttle goes through immediately. */
  lemma FirstCallImmediate<T>(cfg: Config, t: int, args: T, rest: seq<Timed<T>>)
    ensures var effects := Run(cfg, Init(), [At(t, Send(args))] + rest).effects;
            |effects| > 0 && effects[0] == Invoke(t, args)
  {
    var trace := [At(t, Send(args))] + rest;
    assert trace[0] == At(t, Send(args));
  }

  /** After `clear`, nothing sent before it is ever delivered, and the next call is immediate. */
  lemma ClearDiscards<T>(cfg: Config, s: State<T>, now: int, t: int, args: T)
    ensures Drain(cfg, ClearStep(cfg, s, now).state).effects == []
    ensures SendStep(cfg, ClearStep(cfg, s, now).state, t, args).effects == [Invoke(t, args)]
    ensures Run(cfg, s, [At(now, Clear)]).effects
              == Advance(cfg, s, now).effects + (if cfg.hasOnClear then [Cleared(now)] else [])
  {
  }

  // ---------------------------------------------------------------------------
  // Ordering: nothing superseded is delivered after something newer
  // ---------------------------------------------------------------------------

  /**
   * What has been delivered, followed by the cached arguments, is a
   * subsequence of what has been sent; an idle throttle caches nothing.
   */
  ghost predicate OrderInv<T>(s: State<T>, sent: seq<T>, delivered: seq<T>) {
    && (!Pending(s) ==> s.cached.None?)
    && IsSubsequence(delivered + CachedSeq(s), sent)
  }

  lemma DeliveredIsSubsequence<T>(s: State<T>, sent: seq<T>, delivered: seq<T>)
    requires OrderInv(s, sent, delivered)
    ensures IsSubsequence(delivered, sent)
  {
    if s.cached.Some? {
      SubsequenceDropLast(delivered + CachedSeq(s), sent);
      assert (delivered + CachedSeq(s))[..|delivered|] == delivered;
    } else {
      assert delivered + CachedSeq(s) == delivered;
    }
  }

  lemma SendKeepsOrder<T>(cfg: Config, s: State<T>, now: int, args: T, sent: seq<T>, delivered: seq<T>)
    requires OrderInv(s, sent, delivered)
    ensures var o := SendStep(cfg, s, now, args);
            OrderInv(o.state, sent + [args], delivered + Delivered(o.effects))
  {
    var o := SendStep(cfg, s, now, args);
    DeliveredIsSubsequence(s, sent, delivered);
    SubsequenceAppendBoth(delivered, sent, args);
    if Pending(s) {
      assert Delivered(o.effects) == [];
      assert delivered + Delivered(o.effects) + CachedSeq(o.state) == delivered + [args];
    } else {
      assert Delivered(o.effects) == [args];
      assert delivered + Delivered(o.effects) + CachedSeq(o.state) == delivered + [args];
    }
  }

  lemma TimerKeepsOrder<T>(cfg: Config, s: State<T>, sent: seq<T>, delivered: seq<T>)
    requires Pending(s)
    requires OrderInv(s, sent, delivered)
    ensures var o := TimerStep(cfg, s);
            OrderInv(o.state, sent, delivered + Delivered(o.effects))
  {
    var o := TimerStep(cfg, s);
    if s.cached.Some? {
      assert Delivered(o.effects) == [s.cached.value];
    } else {
      assert Delivered(o.effects) == [];
    }
    assert delivered + Delivered(o.effects) + CachedSeq(o.state) == delivered + CachedSeq(s);
  }

  lemma ClearKeepsOrder<T>(cfg: Config, s: State<T>, now: int, sent: seq<T>, delivered: seq<T>)
    requires OrderInv(s, sent, delivered)
    ensures var o := ClearStep(cfg, s, now);
            OrderInv(o.state, sent, delivered + Delivered(o.effects))
  {
    var o := ClearStep(cfg, s, now);
    DeliveredIsSubsequence(s, sent, delivered);
    if cfg.hasOnClear {
      assert Delivered(o.effects) == [];
    }
    assert delivered + Delivered(o.effects) + CachedSeq(o.state) == delivered;
  }

  lemma {:induction false} AdvanceKeepsOrder<T>(cfg: Config, s: State<T>, t: int, sent: seq<T>, delivered: seq<T>)
    requires OrderInv(s, sent, delivered)
    ensures var o := Advance(cfg, s, t);
            OrderInv(o.state, sent, delivered + Delivered(o.effects))
    decreases Weight(s)
  {
    if s.timer.Some? && s.timer.value <= t {
      var f := TimerStep(cfg, s);
      TimerKeepsOrder(cfg, s, sent, delivered);
      var d1 := delivered + Delivered(f.effects);
      AdvanceKeepsOrder(cfg, f.state, t, sent, d1);
      var rest := Advance(cfg, f.state, t);
      DeliveredAppend(f.effects, rest.effects);
      assert d1 + Delivered(rest.effects) == delivered + Delivered(f.effects + rest.effects);
    } else {
      assert delivered + Delivered([]) == delivered;
    }
  }

  lemma {:induction false} DrainKeepsOrder<T>(cfg: Config, s: State<T>, sent: seq<T>, delivered: seq<T>)
    requires OrderInv(s, sent, delivered)
    ensures IsSubsequence(delivered + Delivered(Drain(cfg, s).effects), sent)
    decreases Weight(s)
  {
    if s.timer.Some? {
      var f := TimerStep(cfg, s);
      TimerKeepsOrder(cfg, s, sent, delivered);
      var d1 := delivered + Delivered(f.effects);
      DrainKeepsOrder(cfg, f.state, sent, d1);
      var rest := Drain(cfg, f.state);
      DeliveredAppend(f.effects, rest.effects);
      assert d1 + Delivered(rest.effects) == delivered + Delivered(f.effects + rest.effects);
    } else {
      DeliveredIsSubsequence(s, sent, delivered);
      assert delivered + Delivered([]) == delivered;
    }
  }

  /** Chaining: the invariant after two stretches of effects, in terms of their concatenation. */
  lemma ComposeOrder<T>(e1: seq<Effect<T>>, o2: Outcome<T>, sent: seq<T>, delivered: seq<T>)
    requires OrderInv(o2.state, sent, delivered + Delivered(e1) + Delivered(o2.effects))
    ensures OrderInv(o2.state, sent, delivered + Delivered(e1 + o2.effects))
  {
    DeliveredAppend(e1, o2.effects);
    assert delivered + Delivered(e1) + Delivered(o2.effects) == delivered + Delivered(e1 + o2.effects);
  }

  lemma ApplyKeepsOrder<T>(cfg: Config, s: State<T>, now: int, event: Event<T>, sent: seq<T>, delivered: seq<T>)
    requires OrderInv(s, sent, delivered)
    ensures var o := Apply(cfg, s, now, event);
            OrderInv(o.state, sent + SentBy(event), delivered + Delivered(o.effects))
  {
    match event
    case Send(args) =>
      SendKeepsOrder(cfg, s, now, args, sent, delivered);
    case Clear =>
      ClearKeepsOrder(cfg, s, now, sent, delivered);
      assert sent + SentBy(event) == sent;
  }

  lemma StepKeepsOrder<T>(cfg: Config, s: State<T>, input: Timed<T>, sent: seq<T>, delivered: seq<T>)
    requires OrderInv(s, sent, delivered)
    ensures var o := Step(cfg, s, input);
            OrderInv(o.state, sent + SentBy(input.event), delivered + Delivered(o.effects))
  {
    var a := Advance(cfg, s, input.time);
    AdvanceKeepsOrder(cfg, s, input.time, sent, delivered);
    var d1 := delivered + Delivered(a.effects);
    ApplyKeepsOrder(cfg, a.state, input.time, input.event, sent, d1);
    var e := Apply(cfg, a.state, input.time, input.event);
    DeliveredAppend(a.effects, e.effects);
    assert d1 + Delivered(e.effects) == delivered + Delivered(a.effects + e.effects);
  }

  lemma {:induction false} RunKeepsOrder<T>(cfg: Config, s: State<T>, trace: seq<Timed<T>>, sent: seq<T>, delivered: seq<T>)
    requires OrderInv(s, sent, delivered)
    ensures var o := Run(cfg, s, trace);
            OrderInv(o.state, sent + Sent(trace), delivered + Delivered(o.effects))
    decreases |trace|
  {
    if |trace| == 0 {
      assert sent + Sent(trace) == sent;
      assert delivered + Delivered([]) == delivered;
    } else {
      var first := Step(cfg, s, trace[0]);
      StepKeepsOrder(cfg, s, trace[0], sent, delivered);
      var sent1 := sent + SentBy(trace[0].event);
      var d1 := delivered + Delivered(first.effects);
      RunKeepsOrder(cfg, first.state, trace[1..], sent1, d1);
      var rest := Run(cfg, first.state, trace[1..]);
      SentCons(sent, trace);
      ComposeOrder(first.effects, rest, sent + Sent(trace), delivered);
    }
  }

  /**
   * Over the whole life of a throttle, with or without `clear`, `func` sees
   * arguments only in the order they were sent, each at most once per send.
   */
  lemma DeliveredInSendOrder<T>(cfg: Config, trace: seq<Timed<T>>)
    ensures IsSubsequence(Delivered(Life(cfg, trace)), Sent(trace))
  {
    var r := Run(cfg, Init(), trace);
    RunKeepsOrder(cfg, Init(), trace, [], []);
    assert [] + Sent(trace) == Sent(trace);
    assert [] + Delivered(r.effects) == Delivered(r.effects);
    DrainKeepsOrder(cfg, r.state, Sent(trace), Delivered(r.effects));
    DeliveredAppend(r.effects, Drain(cfg, r.state).effects);
  }

  // ---------------------------------------------------------------------------
  // Latest arguments win (when nothing is cleared)
  // ---------------------------------------------------------------------------

  /** The cache holds the last arguments sent; with nothing cached, the last sent was delivered last. */
  ghost predicate LatestInv<T>(s: State<T>, sent: seq<T>, delivered: seq<T>) {
    && (!Pending(s) ==> s.cached.None?)
    && (s.cached.Some? ==> |sent| > 0 && s.cached.value == Last(sent))
    && (s.cached.None? && |sent| > 0 ==> |delivered| > 0 && Last(delivered) == Last(sent))
  }

  lemma {:induction false} AdvanceKeepsLatest<T>(cfg: Config, s: State<T>, t: int, sent: seq<T>, delivered: seq<T>)
    requires LatestInv(s, sent, delivered)
    ensures var o := Advance(cfg, s, t);
            LatestInv(o.state, sent, delivered + Delivered(o.effects))
    decreases Weight(s)
  {
    if s.timer.Some? && s.timer.value <= t {
      var f := TimerStep(cfg, s);
      var d1 := delivered + Delivered(f.effects);
      if s.cached.Some? {
        assert Delivered(f.effects) == [s.cached.value];
      } else {
        assert d1 == delivered;
      }
      assert LatestInv(f.state, sent, d1);
      AdvanceKeepsLatest(cfg, f.state, t, sent, d1);
      var rest := Advance(cfg, f.state, t);
      DeliveredAppend(f.effects, rest.effects);
      assert d1 + Delivered(rest.effects) == delivered + Delivered(f.effects + rest.effects);
    } else {
      assert delivered + Delivered([]) == delivered;
    }
  }

  lemma {:induction false} DrainKeepsLatest<T>(cfg: Config, s: State<T>, sent: seq<T>, delivered: seq<T>)
    requires LatestInv(s, sent, delivered)
    requires |sent| > 0
    ensures var all := delivered + Delivered(Drain(cfg, s).effects);
            |all| > 0 && Last(all) == Last(sent)
    decreases Weight(s)
  {
    if s.timer.Some? {
      var f := TimerStep(cfg, s);
      var d1 := delivered + Delivered(f.effects);
      if s.cached.Some? {
        assert Delivered(f.effects) == [s.cached.value];
      } else {
        assert d1 == delivered;
      }
      DrainKeepsLatest(cfg, f.state, sent, d1);
      var rest := Drain(cfg, f.state);
      DeliveredAppend(f.effects, rest.effects);
      assert d1 + Delivered(rest.effects) == delivered + Delivered(f.effects + rest.effects);
    } else {
      assert delivered + Delivered([]) == delivered;
    }
  }

  lemma ComposeLatest<T>(e1: seq<Effect<T>>, o2: Outcome<T>, sent: seq<T>, delivered: seq<T>)
    requires LatestInv(o2.state, sent, delivered + Delivered(e1) + Delivered(o2.effects))
    ensures LatestInv(o2.state, sent, delivered + Delivered(e1 + o2.effects))
  {
    DeliveredAppend(e1, o2.effects);
    assert delivered + Delivered(e1) + Delivered(o2.effects) == delivered + Delivered(e1 + o2.effects);
  }

  lemma SendKeepsLatest<T>(cfg: Config, s: State<T>, now: int, args: T, sent: seq<T>, delivered: seq<T>)
    requires LatestInv(s, sent, delivered)
    ensures var o := SendStep(cfg, s, now, args);
            LatestInv(o.state, sent + [args], delivered + Delivered(o.effects))
  {
    var o := SendStep(cfg, s, now, args);
    if Pending(s) {
      assert Delivered(o.effects) == [];
      assert delivered + Delivered(o.effects) == delivered;
    } else {
      assert Delivered(o.effects) == [args];
    }
  }

  lemma StepKeepsLatest<T>(cfg: Config, s: State<T>, input: Timed<T>, sent: seq<T>, delivered: seq<T>)
    requires input.event.Send?
    requires LatestInv(s, sent, delivered)
    ensures var o := Step(cfg, s, input);
            LatestInv(o.state, sent + SentBy(input.event), delivered + Delivered(o.effects))
  {
    var a := Advance(cfg, s, input.time);
    AdvanceKeepsLatest(cfg, s, input.time, sent, delivered);
    var d1 := delivered + Delivered(a.effects);
    SendKeepsLatest(cfg, a.state, input.time, input.event.args, sent, d1);
    var e := Apply(cfg, a.state, input.time, input.event);
    DeliveredAppend(a.effects, e.effects);
    assert d1 + Delivered(e.effects) == delivered + Delivered(a.effects + e.effects);
  }

  lemma {:induction false} RunKeepsLatest<T>(cfg: Config, s: State<T>, trace: seq<Timed<T>>, sent: seq<T>, delivered: seq<T>)
    requires ClearFree(trace)
    requires LatestInv(s, sent, delivered)
    ensures var o := Run(cfg, s, trace);
            LatestInv(o.state, sent + Sent(trace), delivered + Delivered(o.effects))
    decreases |trace|
  {
    if |trace| == 0 {
      assert sent + Sent(trace) == sent;
      assert delivered + Delivered([]) == delivered;
    } else {
      assert trace[0].event.Send?;
      var first := Step(cfg, s, trace[0]);
      StepKeepsLatest(cfg, s, trace[0], sent, delivered);
      ClearFreeTail(trace);
      var sent1 := sent + SentBy(trace[0].event);
      var d1 := delivered + Delivered(first.effects);
      RunKeepsLatest(cfg, first.state, trace[1..], sent1, d1);
      var rest := Run(cfg, first.state, trace[1..]);
      SentCons(sent, trace);
      ComposeLatest(first.effects, rest, sent + Sent(trace), delivered);
    }
  }

  lemma ClearFreeTail<T>(trace: seq<Timed<T>>)
    requires ClearFree(trace)
    requires |trace| > 0
    ensures ClearFree(trace[1..])
  {
    forall i | 0 <= i < |trace| - 1
      ensures trace[1..][i].event.Send?
    {
      assert trace[1..][i] == trace[i + 1];
    }
  }

  lemma {:induction false} ClearFreeSent<T>(trace: seq<Timed<T>>)
    requires ClearFree(trace)
    ensures |Sent(trace)| == |trace|
    decreases |trace|
  {
    if |trace| > 0 {
      assert trace[0].event.Send?;
      ClearFreeSent(trace[1..]);
    }
  }

  /** Without `clear`, the last arguments sent are always the last ones delivered. */
  lemma LatestArgsWin<T>(cfg: Config, trace: seq<Timed<T>>)
    requires ClearFree(trace)
    requires |trace| > 0
    ensures var delivered := Delivered(Life(cfg, trace));
            |delivered| > 0 && Last(delivered) == trace[|trace| - 1].event.args
  {
    var r := Run(cfg, Init(), trace);
    RunKeepsLatest(cfg, Init(), trace, [], []);
    assert [] + Sent(trace) == Sent(trace);
    assert [] + Delivered(r.effects) == Delivered(r.effects);
    ClearFreeSent(trace);
    LastSent(trace);
    DrainKeepsLatest(cfg, r.state, Sent(trace), Delivered(r.effects));
    DeliveredAppend(r.effects, Drain(cfg, r.state).effects);
  }

  lemma {:induction false} LastSent<T>(trace: seq<Timed<T>>)
    requires ClearFree(trace)
    requires |trace| > 0
    ensures |Sent(trace)| > 0 && Last(Sent(trace)) == trace[|trace| - 1].event.args
    decreases |trace|
  {
    assert trace[0].event.Send?;
    if |trace| > 1 {
      LastSent(trace[1..]);
    }
  }

  // ---------------------------------------------------------------------------
  // At most one call per cooldown (when nothing is cleared)
  // ---------------------------------------------------------------------------

  /**
   * Timing invariant at time `now`, given the times `ts` of the calls so far:
   * a pending deadline is `wait` after the last call and not yet passed, and
   * an idle throttle has been idle since at least `wait` after the last call.
   */
  ghost predicate TimeInv<T>(cfg: Config, s: State<T>, now: int, ts: seq<int>) {
    && DeadlineInv(cfg, s, now, ts)
    && (!Pending(s) && |ts| > 0 ==> Last(ts) + cfg.wait <= now)
    && Spaced(ts, cfg.wait)
  }

  lemma SpacedAppend(ts: seq<int>, t: int, wait: nat)
    requires Spaced(ts, wait)
    requires |ts| > 0 ==> Last(ts) + wait <= t
    ensures Spaced(ts + [t], wait)
  {
  }

  lemma ComposeTime<T>(cfg: Config, e1: seq<Effect<T>>, o2: Outcome<T>, now: int, ts: seq<int>)
    requires TimeInv(cfg, o2.state, now, ts + InvokeTimes(e1) + InvokeTimes(o2.effects))
    ensures TimeInv(cfg, o2.state, now, ts + InvokeTimes(e1 + o2.effects))
  {
    DeliveredAppend(e1, o2.effects);
    assert ts + InvokeTimes(e1) + InvokeTimes(o2.effects) == ts + InvokeTimes(e1 + o2.effects);
  }

  lemma TimerKeepsTime<T>(cfg: Config, s: State<T>, now: int, ts: seq<int>)
    requires Pending(s)
    requires TimeInv(cfg, s, now, ts)
    ensures var o := TimerStep(cfg, s);
            TimeInv(cfg, o.state, s.timer.value, ts + InvokeTimes(o.effects))
  {
    var o := TimerStep(cfg, s);
    if s.cached.Some? {
      assert InvokeTimes(o.effects) == [s.timer.value];
      SpacedAppend(ts, s.timer.value, cfg.wait);
    } else {
      assert InvokeTimes(o.effects) == [];
      assert ts + InvokeTimes(o.effects) == ts;
    }
  }

  lemma {:induction false} AdvanceKeepsTime<T>(cfg: Config, s: State<T>, now: int, t: int, ts: seq<int>)
    requires TimeInv(cfg, s, now, ts)
    requires now <= t
    ensures var o := Advance(cfg, s, t);
            TimeInv(cfg, o.state, t, ts + InvokeTimes(o.effects))
    decreases Weight(s)
  {
    if s.timer.Some? && s.timer.value <= t {
      var f := TimerStep(cfg, s);
      TimerKeepsTime(cfg, s, now, ts);
      var ts1 := ts + InvokeTimes(f.effects);
      AdvanceKeepsTime(cfg, f.state, s.timer.value, t, ts1);
      ComposeTime(cfg, f.effects, Advance(cfg, f.state, t), t, ts);
    } else {
      assert ts + InvokeTimes<T>([]) == ts;
    }
  }

  lemma {:induction false} DrainKeepsTime<T>(cfg: Config, s: State<T>, now: int, ts: seq<int>)
    requires TimeInv(cfg, s, now, ts)
    ensures Spaced(ts + InvokeTimes(Drain(cfg, s).effects), cfg.wait)
    decreases Weight(s)
  {
    if s.timer.Some? {
      var f := TimerStep(cfg, s);
      TimerKeepsTime(cfg, s, now, ts);
      var ts1 := ts + InvokeTimes(f.effects);
      DrainKeepsTime(cfg, f.state, s.timer.value, ts1);
      var rest := Drain(cfg, f.state);
      DeliveredAppend(f.effects, rest.effects);
      assert ts1 + InvokeTimes(rest.effects) == ts + InvokeTimes(f.effects + rest.effects);
    } else {
      assert ts + InvokeTimes<T>([]) == ts;
    }
  }

  lemma SendKeepsTime<T>(cfg: Config, s: State<T>, t: int, args: T, ts: seq<int>)
    requires TimeInv(cfg, s, t, ts)
    ensures var o := SendStep(cfg, s, t, args);
            TimeInv(cfg, o.state, t, ts + InvokeTimes(o.effects))
  {
    var o := SendStep(cfg, s, t, args);
    if Pending(s) {
      assert InvokeTimes(o.effects) == [];
      assert ts + InvokeTimes(o.effects) == ts;
    } else {
      assert InvokeTimes(o.effects) == [t];
      SpacedAppend(ts, t, cfg.wait);
    }
  }

  lemma StepKeepsTime<T>(cfg: Config, s: State<T>, now: int, input: Timed<T>, ts: seq<int>)
    requires input.event.Send?
    requires TimeInv(cfg, s, now, ts)
    requires now <= input.time
    ensures var o := Step(cfg, s, input);
            TimeInv(cfg, o.state, input.time, ts + InvokeTimes(o.effects))
  {
    var a := Advance(cfg, s, input.time);
    AdvanceKeepsTime(cfg, s, now, input.time, ts);
    var ts1 := ts + InvokeTimes(a.effects);
    SendKeepsTime(cfg, a.state, input.time, input.event.args, ts1);
    ComposeTime(cfg, a.effects, Apply(cfg, a.state, input.time, input.event), input.time, ts);
  }

  lemma TimesNonDecreasingTail<T>(trace: seq<Timed<T>>)
    requires TimesNonDecreasing(trace)
    requires |trace| > 0
    ensures TimesNonDecreasing(trace[1..])
    ensures |trace| > 1 ==> trace[0].time <= trace[1..][0].time
  {
    forall i | 0 < i < |trace| - 1
      ensures trace[1..][i - 1].time <= trace[1..][i].time
    {
      assert trace[1..][i - 1] == trace[i] && trace[1..][i] == trace[i + 1];
    }
  }

  /** The time of the last input of a trace, or `now` if there is none. */
  function EndTime<T>(now: int, trace: seq<Timed<T>>): int {
    if |trace| == 0 then now else trace[|trace| - 1].time
  }

  lemma {:induction false} RunKeepsTime<T>(cfg: Config, s: State<T>, now: int, trace: seq<Timed<T>>, ts: seq<int>)
    requires ClearFree(trace)
    requires TimesNonDecreasing(trace)
    requires |trace| > 0 ==> now <= trace[0].time
    requires TimeInv(cfg, s, now, ts)
    ensures var o := Run(cfg, s, trace);
            TimeInv(cfg, o.state, EndTime(now, trace), ts + InvokeTimes(o.effects))
    decreases |trace|
  {
    if |trace| == 0 {
      assert ts + InvokeTimes<T>([]) == ts;
    } else {
      assert trace[0].event.Send?;
      var first := Step(cfg, s, trace[0]);
      StepKeepsTime(cfg, s, now, trace[0], ts);
      ClearFreeTail(trace);
      TimesNonDecreasingTail(trace);
      var ts1 := ts + InvokeTimes(first.effects);
      RunKeepsTime(cfg, first.state, trace[0].time, trace[1..], ts1);
      assert EndTime(trace[0].time, trace[1..]) == EndTime(now, trace);
      ComposeTime(cfg, first.effects, Run(cfg, first.state, trace[1..]), EndTime(now, trace), ts);
    }
  }

  /**
   * After any clear-free, time-ordered history, a send at time `t` calls
   * `func` at once exactly when `func` has not been called in the last `wait`
   * ms: never called before, or last called at least `wait` ms before `t`.
   */
  lemma ImmediateIffQuiet<T>(cfg: Config, trace: seq<Timed<T>>, t: int, args: T)
    requires ClearFree(trace)
    requires TimesNonDecreasing(trace)
    requires |trace| > 0 ==> trace[|trace| - 1].time <= t
    ensures var r := Run(cfg, Init(), trace);
            var a := Advance(cfg, r.state, t);
            var ts := InvokeTimes(r.effects + a.effects);
            SendStep(cfg, a.state, t, args).effects == [Invoke(t, args)] <==> (|ts| == 0 || Last(ts) + cfg.wait <= t)
  {
    var now := if |trace| == 0 then t else trace[0].time;
    var r := Run(cfg, Init(), trace);
    RunKeepsTime(cfg, Init(), now, trace, []);
    assert [] + InvokeTimes(r.effects) == InvokeTimes(r.effects);
    AdvanceKeepsTime(cfg, r.state, EndTime(now, trace), t, InvokeTimes(r.effects));
    var a := Advance(cfg, r.state, t);
    DeliveredAppend(r.effects, a.effects);
  }

  // ---------------------------------------------------------------------------
  // Immediate calls after a quiet period, clears included
  // ---------------------------------------------------------------------------

  /**
   * The pending deadline, if any, is `wait` after the last call and has not
   * passed at time `now`. Unlike the full timing invariant this survives
   * `clear`, which only ever leaves the throttle idle.
   */
  ghost predicate DeadlineInv<T>(cfg: Config, s: State<T>, now: int, ts: seq<int>) {
    Pending(s) ==> |ts| > 0 && Last(ts) + cfg.wait == s.timer.value && now <= s.timer.value
  }

  lemma ComposeDeadline<T>(cfg: Config, e1: seq<Effect<T>>, o2: Outcome<T>, now: int, ts: seq<int>)
    requires DeadlineInv(cfg, o2.state, now, ts + InvokeTimes(e1) + InvokeTimes(o2.effects))
    ensures DeadlineInv(cfg, o2.state, now, ts + InvokeTimes(e1 + o2.effects))
  {
    DeliveredAppend(e1, o2.effects);
    assert ts + InvokeTimes(e1) + InvokeTimes(o2.effects) == ts + InvokeTimes(e1 + o2.effects);
  }

  lemma TimerKeepsDeadline<T>(cfg: Config, s: State<T>, now: int, ts: seq<int>)
    requires Pending(s)
    requires DeadlineInv(cfg, s, now, ts)
    ensures var o := TimerStep(cfg, s);
            DeadlineInv(cfg, o.state, s.timer.value, ts + InvokeTimes(o.effects))
  {
    var o := TimerStep(cfg, s);
    if s.cached.Some? {
      assert InvokeTimes(o.effects) == [s.timer.value];
    }
  }

  lemma {:induction false} AdvanceKeepsDeadline<T>(cfg: Config, s: State<T>, now: int, t: int, ts: seq<int>)
    requires DeadlineInv(cfg, s, now, ts)
    requires now <= t
    ensures var o := Advance(cfg, s, t);
            DeadlineInv(cfg, o.state, t, ts + InvokeTimes(o.effects))
    decreases Weight(s)
  {
    if s.timer.Some? && s.timer.value <= t {
      var f := TimerStep(cfg, s);
      TimerKeepsDeadline(cfg, s, now, ts);
      AdvanceKeepsDeadline(cfg, f.state, s.timer.value, t, ts + InvokeTimes(f.effects));
      ComposeDeadline(cfg, f.effects, Advance(cfg, f.state, t), t, ts);
    } else {
      assert ts + InvokeTimes<T>([]) == ts;
    }
  }

  lemma ApplyKeepsDeadline<T>(cfg: Config, s: State<T>, t: int, event: Event<T>, ts: seq<int>)
    requires DeadlineInv(cfg, s, t, ts)
    ensures var o := Apply(cfg, s, t, event);
            DeadlineInv(cfg, o.state, t, ts + InvokeTimes(o.effects))
  {
    var o := Apply(cfg, s, t, event);
    if event.Send? && !Pending(s) {
      assert InvokeTimes(o.effects) == [t];
    }
  }

  lemma StepKeepsDeadline<T>(cfg: Config, s: State<T>, now: int, input: Timed<T>, ts: seq<int>)
    requires DeadlineInv(cfg, s, now, ts)
    requires now <= input.time
    ensures var o := Step(cfg, s, input);
            DeadlineInv(cfg, o.state, input.time, ts + InvokeTimes(o.effects))
  {
    var a := Advance(cfg, s, input.time);
    AdvanceKeepsDeadline(cfg, s, now, input.time, ts);
    ApplyKeepsDeadline(cfg, a.state, input.time, input.event, ts + InvokeTimes(a.effects));
    ComposeDeadline(cfg, a.effects, Apply(cfg, a.state, input.time, input.event), input.time, ts);
  }

  lemma {:induction false} RunKeepsDeadline<T>(cfg: Config, s: State<T>, now: int, trace: seq<Timed<T>>, ts: seq<int>)
    requires TimesNonDecreasing(trace)
    requires |trace| > 0 ==> now <= trace[0].time
    requires DeadlineInv(cfg, s, now, ts)
    ensures var o := Run(cfg, s, trace);
            DeadlineInv(cfg, o.state, EndTime(now, trace), ts + InvokeTimes(o.effects))
    decreases |trace|
  {
    if |trace| == 0 {
      assert ts + InvokeTimes<T>([]) == ts;
    } else {
      var first := Step(cfg, s, trace[0]);
      StepKeepsDeadline(cfg, s, now, trace[0], ts);
      TimesNonDecreasingTail(trace);
      RunKeepsDeadline(cfg, first.state, trace[0].time, trace[1..], ts + InvokeTimes(first.effects));
      assert EndTime(trace[0].time, trace[1..]) == EndTime(now, trace);
      ComposeDeadline(cfg, first.effects, Run(cfg, first.state, trace[1..]), EndTime(now, trace), ts);
    }
  }

  /**
   * After any time-ordered history, `clear` included, a send at time `t`
   * calls `func` at once when `func` has not been called in the last `wait`
   * ms: never called before, or last called at least `wait` ms before `t`.
   */
  lemma QuietMeansImmediate<T>(cfg: Config, trace: seq<Timed<T>>, t: int, args: T)
    requires TimesNonDecreasing(trace)
    requires |trace| > 0 ==> trace[|trace| - 1].time <= t
    ensures var r := Run(cfg, Init(), trace);
            var a := Advance(cfg, r.state, t);
            var ts := InvokeTimes(r.effects + a.effects);
            (|ts| == 0 || Last(ts) + cfg.wait <= t) ==> SendStep(cfg, a.state, t, args).effects == [Invoke(t, args)]
  {
    var now := if |trace| == 0 then t else trace[0].time;
    var r := Run(cfg, Init(), trace);
    RunKeepsDeadline(cfg, Init(), now, trace, []);
    assert [] + InvokeTimes(r.effects) == InvokeTimes(r.effects);
    AdvanceKeepsDeadline(cfg, r.state, EndTime(now, trace), t, InvokeTimes(r.effects));
    var a := Advance(cfg, r.state, t);
    DeliveredAppend(r.effects, a.effects);
  }

  /**
   * The converse needs the trace to be free of `clear`: with the default
   * cooldown, a send 10 ms after a clear that followed a call is immediate,
   * only 20 ms after that call.
   */
  lemma ClearEndsCooldown()
    ensures Life(DefaultConfig(false), [At(0, Send(1)), At(10, Clear), At(20, Send(2))])
            == [Invoke(0, 1), Invoke(20, 2)]
  {
    var cfg := DefaultConfig(false);
    var trace := [At(0, Send(1)), At(10, Clear), At(20, Send(2))];
    var s1 := State(Some(100), None);
    var s3 := State(Some(120), None);
    assert Step(cfg, Init(), trace[0]) == Outcome(s1, [Invoke(0, 1)]);
    assert Step(cfg, s1, trace[1]) == Outcome(Init(), []);
    assert Step(cfg, Init(), trace[2]) == Outcome(s3, [Invoke(20, 2)]);
    assert Run(cfg, s3, trace[3..]) == Outcome(s3, []);
    assert Run(cfg, Init(), trace[2..]) == Outcome(s3, [Invoke(20, 2)]);
    assert Run(cfg, s1, trace[1..]) == Outcome(s3, [Invoke(20, 2)]);
    assert Run(cfg, Init(), trace) == Outcome(s3, [Invoke(0, 1), Invoke(20, 2)]);
    assert Drain<int>(cfg, s3).effects == [];
  }

  /**
   * Without `clear`, and with inputs in time order, any two calls of `func`
   * are at least `wait` apart: at most one call per cooldown.
   */
  lemma CallsAtLeastWaitApart<T>(cfg: Config, trace: seq<Timed<T>>)
    requires ClearFree(trace)
    requires TimesNonDecreasing(trace)
    ensures Spaced(InvokeTimes(Life(cfg, trace)), cfg.wait)
  {
    var now := if |trace| == 0 then 0 else trace[0].time;
    var r := Run(cfg, Init(), trace);
    RunKeepsTime(cfg, Init(), now, trace, []);
    assert [] + InvokeTimes(r.effects) == InvokeTimes(r.effects);
    DrainKeepsTime(cfg, r.state, EndTime(now, trace), InvokeTimes(r.effects));
    DeliveredAppend(r.effects, Drain(cfg, r.state).effects);
  }

  /**
   * Sends at 0, 10, 10 and 10 ms with the default cooldown: `func` runs at
   * once with the first arguments and at 100 ms with the last ones.
   */
  lemma BurstExample()
    ensures Life(DefaultConfig(false), [At(0, Send(1)), At(10, Send(2)), At(10, Send(3)), At(10, Send(4))])
            == [Invoke(0, 1), Invoke(100, 4)]
  {
    var cfg := DefaultConfig(false);
    var trace := [At(0, Send(1)), At(10, Send(2)), At(10, Send(3)), At(10, Send(4))];
    var s1 := State(Some(100), None);
    var s4 := State(Some(100), Some(4));
    assert Step(cfg, Init(), trace[0]) == Outcome(s1, [Invoke(0, 1)]);
    assert Step(cfg, s1, trace[1]) == Outcome(State(Some(100), Some(2)), []);
    assert Step(cfg, State(Some(100), Some(2)), trace[2]) == Outcome(State(Some(100), Some(3)), []);
    assert Step(cfg, State(Some(100), Some(3)), trace[3]) == Outcome(s4, []);
    assert Run(cfg, s4, trace[4..]) == Outcome(s4, []);
    assert Run(cfg, State(Some(100), Some(3)), trace[3..]) == Outcome(s4, []);
    assert Run(cfg, State(Some(100), Some(2)), trace[2..]) == Outcome(s4, []);
    assert Run(cfg, s1, trace[1..]) == Outcome(s4, []);
    assert Run(cfg, Init(), trace) == Outcome(s4, [Invoke(0, 1)]);
    assert Drain<int>(cfg, State(Some(200), None)).effects == [];
    assert Drain(cfg, s4).effects == [Invoke(100, 4)];
  }
}
