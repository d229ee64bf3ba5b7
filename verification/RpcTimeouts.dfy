/** Adaptive RPC timeouts: a table of timeouts per method, shared by all calls. A call that
    times out doubles its method's timeout up to a cap; the cap can be lowered and everything
    reset, while other calls are under way. */
module RpcTimeouts {
  import opened Common

  datatype Method = Method(scopedName: string)
  datatype Context = Context(id: nat)

  /** The class-level state and the timeouts stored in the contexts of calls. `table` has the
      entries made so far, `fallback` is what its default factory yields, and `configured` is
      the response timeout of the transport. */
  datatype State = State(
    configured: int, table: map<Method, int>, fallback: int, maxTimeout: Option<int>, contexts: map<Context, int>)

  datatype Event =
    | Start(ctx: Context, m: Method)
    | Timeout(ctx: Context, m: Method)
    | SetMax(max: int)
    | Reset

  /** `get_max_timeout`: an unset or zero maximum counts as ten times the configured timeout. */
  function Cap(s: State): int {
    if s.maxTimeout.Some? && s.maxTimeout.value != 0 then s.maxTimeout.value else s.configured * 10
  }

  /** Reading the table makes the entry if it is missing. */
  function Of(s: State, m: Method): int { if m in s.table then s.table[m] else s.fallback }

  function Touch(s: State, m: Method): State { s.(table := s.table[m := Of(s, m)]) }

  function Step(s: State, e: Event): State {
    match e
    case Start(ctx, m) => Touch(s, m).(contexts := s.contexts[ctx := Of(s, m)])
    case Timeout(ctx, m) =>
      if ctx !in s.contexts then s
      else
        var new_ := Min(s.contexts[ctx] * 2, Cap(s));
        var t := Touch(s, m);
        if new_ > Of(s, m) then t.(table := t.table[m := new_]) else t
    case SetMax(max) =>
      if max < Cap(s) then
        s.(table := map m | m in s.table :: Min(s.table[m], max), fallback := max, maxTimeout := Some(max))
      else s
    case Reset => s.(table := map[], fallback := s.configured, maxTimeout := None)
  }

  function Run(s: State, events: seq<Event>): State
    decreases |events|
  {
    if events == [] then s else Run(Step(s, events[0]), events[1..])
  }

  /** The state when the module is loaded. */
  function Fresh(configured: int): State { State(configured, map[], configured, None, map[]) }

  // ---------------------------------------------------------------- invariant

  /** Every timeout is positive and no method's exceeds the current cap. */
  ghost predicate Capped(s: State) {
    && s.configured > 0 && Cap(s) > 0
    && 0 < s.fallback <= Cap(s)
    && (forall m :: m in s.table ==> 0 < s.table[m] <= Cap(s))
    && (forall c :: c in s.contexts ==> 0 < s.contexts[c])
  }

  /** Cap reductions are to positive values. */
  ghost predicate Sensible(e: Event) { e.SetMax? ==> e.max > 0 }

  /** The module starts out capped iff the configured timeout is positive. */
  lemma FreshCappedIff(configured: int)
    ensures Capped(Fresh(configured)) <==> configured > 0
  {
  }

  lemma StepCapped(s: State, e: Event)
    requires Capped(s) && Sensible(e)
    ensures Capped(Step(s, e))
  {
  }

  /** In every interleaving of starts, timeouts, cap reductions and resets each method's timeout
      stays at or below the current cap. */
  lemma {:induction false} RunCapped(s: State, events: seq<Event>)
    requires Capped(s) && forall i :: 0 <= i < |events| ==> Sensible(events[i])
    ensures Capped(Run(s, events))
    ensures forall m :: 0 < Of(Run(s, events), m) <= Cap(Run(s, events))
    decreases |events|
  {
    if events != [] {
      StepCapped(s, events[0]);
      RunCapped(Step(s, events[0]), events[1..]);
    }
  }

  /** Starts and timeouts never lower a timeout and never move the cap. */
  lemma {:induction false} CallsOnlyRaise(s: State, events: seq<Event>, m: Method)
    requires Capped(s) && forall i :: 0 <= i < |events| ==> events[i].Start? || events[i].Timeout?
    ensures Of(Run(s, events), m) >= Of(s, m) && Cap(Run(s, events)) == Cap(s)
    decreases |events|
  {
    if events != [] {
      StepCapped(s, events[0]);
      CallsOnlyRaise(Step(s, events[0]), events[1..], m);
    }
  }

  /** A positive maximum below the cap becomes the cap, and every timeout above it is cut. But the
      default factory now yields the cap itself, so that a method without an entry is raised to it
      exactly if the old default was lower. */
  lemma SetMaxCuts(s: State, max: int, m: Method)
    requires Capped(s) && 0 < max < Cap(s)
    ensures Cap(Step(s, SetMax(max))) == max
    ensures Of(Step(s, SetMax(max)), m) == if m in s.table then Min(s.table[m], max) else max
    ensures Of(Step(s, SetMax(max)), m) < Of(s, m) <==> max < Of(s, m)
    ensures Of(Step(s, SetMax(max)), m) > Of(s, m) <==> m !in s.table && s.fallback < max
  {
  }

  /** A maximum below the cap becomes the cap unless it is zero: zero is stored, but the old default
      stays in force, and every entry is cut to nothing. */
  lemma ZeroIsNoCap(s: State, max: int)
    requires s.configured > 0 && max < Cap(s)
    ensures Cap(Step(s, SetMax(max))) == max <==> max != 0
    ensures max == 0 ==> Cap(Step(s, SetMax(0))) == s.configured * 10
    ensures max == 0 ==> forall m :: Of(Step(s, SetMax(0)), m) <= 0
  {
  }

  /** A reset puts every method back to the configured timeout and the cap to ten times that, whatever
      happened before; calls under way keep their own timeouts. */
  lemma ResetRestores(s: State, m: Method)
    ensures Of(Step(s, Reset), m) == s.configured && Cap(Step(s, Reset)) == s.configured * 10
    ensures Step(s, Reset).contexts == s.contexts
  {
  }

  /** A timeout of a call that was never started changes nothing; any other leaves its method with an
      entry of its own, which a later cap reduction can only cut. */
  lemma TimeoutMakesEntry(s: State, ctx: Context, m: Method)
    ensures ctx !in s.contexts ==> Step(s, Timeout(ctx, m)) == s
    ensures ctx in s.contexts ==> m in Step(s, Timeout(ctx, m)).table
    ensures m in Step(s, Start(ctx, m)).table
  {
  }

  // ---------------------------------------------------------------- back-off

  function Pow2(k: nat): (p: nat)
    ensures p >= 1
  {
    if k == 0 then 1 else 2 * Pow2(k - 1)
  }

  /** The k calls of a client that retries: start, time out, start again. */
  function Retries(ctx: Context, m: Method, k: nat): seq<Event> {
    if k == 0 then [] else [Start(ctx, m), Timeout(ctx, m)] + Retries(ctx, m, k - 1)
  }

  lemma RetryOnce(s: State, ctx: Context, m: Method)
    requires Capped(s)
    ensures var t := Step(Step(s, Start(ctx, m)), Timeout(ctx, m));
            Of(t, m) == Min(Of(s, m) * 2, Cap(s)) && Cap(t) == Cap(s) && Capped(t)
  {
    var t := Step(s, Start(ctx, m));
    StepCapped(s, Start(ctx, m));
    StepCapped(t, Timeout(ctx, m));
  }

  /** k timeouts in a row multiply the timeout by 2^k, up to the cap. */
  lemma {:induction false} RetriesDouble(s: State, ctx: Context, m: Method, k: nat)
    requires Capped(s)
    ensures Of(Run(s, Retries(ctx, m, k)), m) == Min(Of(s, m) * Pow2(k), Cap(s))
    decreases k
  {
    if k > 0 {
      var a, b := Start(ctx, m), Timeout(ctx, m);
      var events, rest := Retries(ctx, m, k), Retries(ctx, m, k - 1);
      var t := Step(Step(s, a), b);
      assert events[0] == a && events[1..] == [b] + rest;
      assert ([b] + rest)[0] == b && ([b] + rest)[1..] == rest;
      assert Run(s, events) == Run(t, rest);
      RetryOnce(s, ctx, m);
      RetriesDouble(t, ctx, m, k - 1);
      DoubleThenPower(Of(s, m), Cap(s), Pow2(k - 1));
    }
  }

  lemma DoubleThenPower(x: int, cap: int, p: nat)
    requires 0 < x <= cap && p >= 1
    ensures Min(Min(x * 2, cap) * p, cap) == Min(x * (2 * p), cap)
  {
    assert x * (2 * p) == x * 2 * p;
    if x * 2 > cap {
      assert x * 2 * p >= x * 2;
      assert cap * p >= cap;
    }
  }

  /** The event is a timeout of a call of `m`. */
  predicate TimesOut(s: State, e: Event, m: Method) { e.Timeout? && e.m == m && e.ctx in s.contexts }

  /** The highest timeout that calls of `m` ask for in the course of a run. */
  ghost function Highest(s: State, events: seq<Event>, m: Method, floor: int): int
    decreases |events|
  {
    if events == [] then floor
    else
      var e := events[0];
      Highest(Step(s, e), events[1..], m,
              if TimesOut(s, e, m) then Max(floor, Min(s.contexts[e.ctx] * 2, Cap(s))) else floor)
  }

  /** Calls of all kinds in any interleaving: the timeout of a method ends at the highest value
      that one of its own calls asked for. */
  lemma {:induction false} TimeoutsTakeHighest(s: State, events: seq<Event>, m: Method)
    requires forall i :: 0 <= i < |events| ==> events[i].Start? || events[i].Timeout?
    ensures Of(Run(s, events), m) == Highest(s, events, m, Of(s, m))
    decreases |events|
  {
    if events != [] {
      TimeoutsTakeHighest(Step(s, events[0]), events[1..], m);
    }
  }

  /** Every call of `m` that times out in the run was started at `t0`. */
  ghost predicate AllStartedAt(s: State, events: seq<Event>, m: Method, t0: int)
    decreases |events|
  {
    events == []
    || ((TimesOut(s, events[0], m) ==> s.contexts[events[0].ctx] == t0)
        && AllStartedAt(Step(s, events[0]), events[1..], m, t0))
  }

  ghost predicate SomeTimesOut(s: State, events: seq<Event>, m: Method)
    decreases |events|
  {
    events != [] && (TimesOut(s, events[0], m) || SomeTimesOut(Step(s, events[0]), events[1..], m))
  }

  lemma {:induction false} HighestOfEqual(s: State, events: seq<Event>, m: Method, t0: int, floor: int)
    requires forall i :: 0 <= i < |events| ==> events[i].Start? || events[i].Timeout?
    requires AllStartedAt(s, events, m, t0)
    ensures Highest(s, events, m, floor)
            == if SomeTimesOut(s, events, m) then Max(floor, Min(t0 * 2, Cap(s))) else floor
    decreases |events|
  {
    if events != [] {
      var e := events[0];
      HighestOfEqual(Step(s, e), events[1..], m, t0,
                     if TimesOut(s, e, m) then Max(floor, Min(t0 * 2, Cap(s))) else floor);
    }
  }

  /** Any number of calls of `m` that started at its current timeout raise it only once, however
      they interleave with each other and with calls of other methods. */
  lemma {:induction false} ConcurrentTimeoutsRaiseOnce(s: State, events: seq<Event>, m: Method)
    requires Capped(s) && forall i :: 0 <= i < |events| ==> events[i].Start? || events[i].Timeout?
    requires AllStartedAt(s, events, m, Of(s, m)) && SomeTimesOut(s, events, m)
    ensures Of(Run(s, events), m) == Min(Of(s, m) * 2, Cap(s))
  {
    TimeoutsTakeHighest(s, events, m);
    HighestOfEqual(s, events, m, Of(s, m), Of(s, m));
  }

  // ---------------------------------------------------------------- the class

  /** `_ContextWrapper` with its class-level variables; each method is one step. */
  class ContextWrapper {
    const configured: int
    var table: map<Method, int>
    var fallback: int
    var maxTimeout: Option<int>
    var contexts: map<Context, int>

    constructor (configured: int)
      ensures St() == Fresh(configured)
    {
      this.configured := configured;
      table, fallback, maxTimeout, contexts := map[], configured, None, map[];
    }

    ghost function St(): State
      reads this
    {
      State(configured, table, fallback, maxTimeout, contexts)
    }

    /** An access to the defaultdict. */
    method Get(m: Method) returns (t: int)
      modifies this`table
      ensures St() == Touch(old(St()), m) && t == Of(old(St()), m)
    {
      if m !in table {
        table := table[m := fallback];
      }
      t := table[m];
      assert table == old(table)[m := t];
    }

    method GetMaxTimeout() returns (t: int)
      ensures t == Cap(St())
    {
      if maxTimeout.Some? && maxTimeout.value != 0 {
        return maxTimeout.value;
      }
      return configured * 10;
    }

    method SetMaxTimeout(max: int)
      modifies this
      ensures St() == Step(old(St()), SetMax(max))
    {
      var cap := GetMaxTimeout();
      if max < cap {
        table := map m | m in table :: if table[m] < max then table[m] else max;
        fallback := max;
        maxTimeout := Some(max);
      }
    }

    method ResetTimeouts()
      modifies this
      ensures St() == Step(old(St()), Reset)
    {
      table, fallback, maxTimeout := map[], configured, None;
    }

    /** `call` up to the request: the context is given the method's timeout. */
    method StartCall(ctx: Context, m: Method)
      modifies this
      ensures St() == Step(old(St()), Start(ctx, m))
    {
      var t := Get(m);
      contexts := contexts[ctx := t];
    }

    /** `call` once the request has timed out. */
    method TimeOut(ctx: Context, m: Method)
      requires ctx in contexts
      modifies this
      ensures St() == Step(old(St()), Timeout(ctx, m))
    {
      var current := Get(m);
      var cap := GetMaxTimeout();
      var new_ := if contexts[ctx] * 2 < cap then contexts[ctx] * 2 else cap;
      if new_ > current {
        table := table[m := new_];
      }
    }
  }
}
