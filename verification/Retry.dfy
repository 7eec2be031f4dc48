/**
 * Retrying a task on an interval (connect/src/tasks.ts, `retry`), as a concurrent system: interval ticks start
 * attempts whether or not earlier ones have come back, attempts complete in any order, and the promise settles once.
 */
module Retry {
  import opened Prelude

  /** How an attempt ends: a temporary failure, a value, or an exception. */
  datatype Completion<+T> = Null | Value(value: T) | Error

  datatype Settlement<+T> = Resolved(value: Option<T>) | Rejected

  /** The attempts are numbered in the order they start; number 0 is the one made before the interval is set. */
  datatype Event<+T> = Tick | Complete(attempt: nat, completion: Completion<T>)

  datatype State<+T> = State(
    started: nat,
    inFlight: set<nat>,
    retries: nat,
    ticking: bool,
    settled: Option<Settlement<T>>)

  function Initial<T>(): State<T> {
    State(1, {0}, 0, false, None)
  }

  /** A promise keeps its first settlement. */
  function Settle<T>(s: State<T>, o: Settlement<T>): State<T> {
    if s.settled.Some? then s else s.(settled := Some(o))
  }

  predicate Enabled<T>(s: State<T>, e: Event<T>) {
    match e
    case Tick => s.ticking
    case Complete(attempt, _) => attempt in s.inFlight
  }

  function Step<T>(maxRetries: nat, s: State<T>, e: Event<T>): State<T> {
    match e
    case Tick =>
      if s.retries >= maxRetries then Settle(s.(ticking := false), Resolved(None))
      else s.(started := s.started + 1, inFlight := s.inFlight + {s.started})
    case Complete(attempt, completion) =>
      var t := s.(inFlight := s.inFlight - {attempt});
      match completion
      case Null => if attempt == 0 then t.(ticking := true) else t.(retries := t.retries + 1)
      case Value(value) =>
        var retries := if attempt == 0 then t.retries else t.retries + 1;
        Settle(t.(ticking := false, retries := retries), Resolved(Some(value)))
      case Error => Settle(t.(ticking := false), Rejected)
  }

  function After<T>(maxRetries: nat, events: seq<Event<T>>): State<T> {
    if events == [] then Initial()
    else Step(maxRetries, After(maxRetries, events[..|events| - 1]), events[|events| - 1])
  }

  /** An interleaving: every event is enabled where it happens. */
  predicate IsRun<T>(maxRetries: nat, events: seq<Event<T>>) {
    events == [] ||
    (IsRun(maxRetries, events[..|events| - 1])
     && Enabled(After(maxRetries, events[..|events| - 1]), events[|events| - 1]))
  }

  /** The promise under construction: the counter and the interval that its callbacks share. */
  class Retrying<T> {
    const maxRetries: nat
    var retries: nat
    var ticking: bool
    var settled: Option<Settlement<T>>
    ghost var started: nat
    ghost var inFlight: set<nat>

    ghost function View(): State<T>
      reads this
    {
      State(started, inFlight, retries, ticking, settled)
    }

    constructor (interval: nat, timeout: nat)
      requires interval > 0
      ensures View() == Initial() && maxRetries == timeout / interval
    {
      maxRetries := timeout / interval;
      retries, ticking, settled := 0, false, None;
      started, inFlight := 1, {0};
    }

    method Settles(o: Settlement<T>)
      modifies this`settled
      ensures View() == Settle(old(View()), o)
    {
      if settled.None? { settled := Some(o); }
    }

    /** The first attempt comes back: only a temporary failure sets the interval. */
    method OnFirst(completion: Completion<T>)
      requires 0 in inFlight && !ticking
      modifies this
      ensures View() == Step(maxRetries, old(View()), Complete(0, completion))
    {
      inFlight := inFlight - {0};
      match completion
      case Value(value) => Settles(Resolved(Some(value)));
      case Error => Settles(Rejected);
      case Null => ticking := true;
    }

    method OnTick()
      requires ticking
      modifies this
      ensures View() == Step(maxRetries, old(View()), Tick)
    {
      if retries >= maxRetries {
        ticking := false;
        Settles(Resolved(None));
        return;
      }
      inFlight := inFlight + {started};
      started := started + 1;
    }

    /** A later attempt comes back; the counter moves unless it threw. */
    method OnComplete(attempt: nat, completion: Completion<T>)
      requires attempt in inFlight && attempt != 0
      modifies this
      ensures View() == Step(maxRetries, old(View()), Complete(attempt, completion))
    {
      inFlight := inFlight - {attempt};
      match completion {
        case Value(value) =>
          ticking := false;
          Settles(Resolved(Some(value)));
        case Error =>
          ticking := false;
          Settles(Rejected);
          return;
        case Null =>
      }
      retries := retries + 1;
    }
  }

  function Nulls<T>(events: seq<Event<T>>): nat {
    if events == [] then 0
    else
      var e := events[|events| - 1];
      Nulls(events[..|events| - 1]) + if e.Complete? && e.completion.Null? then 1 else 0
  }

  function Ticks<T>(events: seq<Event<T>>): nat {
    if events == [] then 0
    else Ticks(events[..|events| - 1]) + if events[|events| - 1].Tick? then 1 else 0
  }

  /** The ticks that find an attempt still in flight. */
  function Overlaps<T>(maxRetries: nat, events: seq<Event<T>>): nat {
    if events == [] then 0
    else
      var before := events[..|events| - 1];
      Overlaps(maxRetries, before)
      + if events[|events| - 1].Tick? && After(maxRetries, before).inFlight != {} then 1 else 0
  }

  /** The first completion with a value or an error, in completion order. */
  function FirstDecisive<T>(events: seq<Event<T>>): Option<Settlement<T>> {
    if events == [] then None
    else
      var before := FirstDecisive(events[..|events| - 1]);
      var e := events[|events| - 1];
      if before.Some? || e.Tick? || e.completion.Null? then before else Some(Decided(e.completion))
  }

  function Decided<T>(c: Completion<T>): Settlement<T>
    requires !c.Null?
  {
    match c
    case Value(value) => Resolved(Some(value))
    case Error => Rejected
  }

  /**
   * The promise told from the list of events alone: the first decisive completion settles it, unless a tick comes
   * first that has more than `maxRetries` temporary failures behind it.
   */
  function Verdict<T>(maxRetries: nat, events: seq<Event<T>>): Option<Settlement<T>> {
    if events == [] then None
    else
      var before := events[..|events| - 1];
      var e := events[|events| - 1];
      if Verdict(maxRetries, before).Some? then Verdict(maxRetries, before)
      else if e.Tick? then if Nulls(before) > maxRetries then Some(Resolved(None)) else None
      else if e.completion.Null? then None
      else Some(Decided(e.completion))
  }

  /** What every event keeps; attempt 0 is in flight until the interval is set or the promise is settled. */
  ghost predicate Inv<T>(maxRetries: nat, events: seq<Event<T>>, s: State<T>) {
    && (forall i | i in s.inFlight :: i < s.started)
    && (0 in s.inFlight ==> s.inFlight == {0} && s.started == 1 && !s.ticking && s.settled.None?)
    && (0 !in s.inFlight ==> (s.settled.None? <==> s.ticking))
    && (s.settled.None? ==> Nulls(events) == s.retries + if s.ticking then 1 else 0)
    && (s.settled.None? ==> s.started == Nulls(events) + |s.inFlight| == Ticks(events) + 1)
    && s.started <= maxRetries + 1 + Overlaps(maxRetries, events)
  }

  lemma TickKeeps<T>(maxRetries: nat, before: seq<Event<T>>, s: State<T>)
    requires s == After(maxRetries, before) && s.ticking && Inv(maxRetries, before, s)
    ensures Inv(maxRetries, before + [Tick], Step(maxRetries, s, Tick))
  {
    assert (before + [Tick])[..|before|] == before;
    assert s.inFlight == {} ==> |s.inFlight| == 0;
    assert |s.inFlight + {s.started}| == |s.inFlight| + 1;
  }

  lemma CompletionKeeps<T>(maxRetries: nat, before: seq<Event<T>>, s: State<T>, attempt: nat, c: Completion<T>)
    requires attempt in s.inFlight && Inv(maxRetries, before, s)
    ensures Inv(maxRetries, before + [Complete(attempt, c)], Step(maxRetries, s, Complete(attempt, c)))
  {
    assert (before + [Complete(attempt, c)])[..|before|] == before;
    assert |s.inFlight - {attempt}| == |s.inFlight| - 1;
  }

  lemma VerdictNext<T>(maxRetries: nat, before: seq<Event<T>>, s: State<T>, e: Event<T>)
    requires Inv(maxRetries, before, s) && Enabled(s, e) && s.settled == Verdict(maxRetries, before)
    ensures Step(maxRetries, s, e).settled == Verdict(maxRetries, before + [e])
  {
    assert (before + [e])[..|before|] == before;
  }

  lemma {:induction false} RunInv<T>(maxRetries: nat, events: seq<Event<T>>)
    requires IsRun(maxRetries, events)
    ensures Inv(maxRetries, events, After(maxRetries, events))
    ensures After(maxRetries, events).settled == Verdict(maxRetries, events)
    decreases |events|
  {
    if events != [] {
      var before := events[..|events| - 1];
      var e := events[|events| - 1];
      assert events == before + [e];
      RunInv(maxRetries, before);
      VerdictNext(maxRetries, before, After(maxRetries, before), e);
      match e
      case Tick => TickKeeps(maxRetries, before, After(maxRetries, before));
      case Complete(attempt, c) => CompletionKeeps(maxRetries, before, After(maxRetries, before), attempt, c);
    }
  }

  /** The completions of attempts after the first that did not throw. */
  function Counted<T>(events: seq<Event<T>>): nat {
    if events == [] then 0
    else
      var e := events[|events| - 1];
      Counted(events[..|events| - 1])
      + if e.Complete? && e.attempt != 0 && !e.completion.Error? then 1 else 0
  }

  /** The counter of retries moves with each of these, settled or not. */
  lemma {:induction false} RetriesAreCounted<T>(maxRetries: nat, events: seq<Event<T>>)
    requires IsRun(maxRetries, events)
    ensures After(maxRetries, events).retries == Counted(events)
    decreases |events|
  {
    if events != [] {
      RetriesAreCounted(maxRetries, events[..|events| - 1]);
    }
  }

  /** In every interleaving the promise settles as its events say: on the first decisive completion, or by giving up. */
  lemma SettlesByVerdict<T>(maxRetries: nat, events: seq<Event<T>>)
    requires IsRun(maxRetries, events)
    ensures After(maxRetries, events).settled == Verdict(maxRetries, events)
    ensures Verdict(maxRetries, events) != Some(Resolved(None)) ==>
              After(maxRetries, events).settled == FirstDecisive(events)
    ensures Verdict(maxRetries, events) == Some(Resolved(None)) ==> Nulls(events) >= maxRetries + 1
  {
    RunInv(maxRetries, events);
    VerdictIsFirst(maxRetries, events);
  }

  lemma {:induction false} VerdictIsFirst<T>(maxRetries: nat, events: seq<Event<T>>)
    ensures Verdict(maxRetries, events) != Some(Resolved(None)) ==> Verdict(maxRetries, events) == FirstDecisive(events)
    ensures Verdict(maxRetries, events) == Some(Resolved(None)) ==> Nulls(events) >= maxRetries + 1
    decreases |events|
  {
    if events != [] {
      VerdictIsFirst(maxRetries, events[..|events| - 1]);
    }
  }

  /** Once settled, the settlement stays as it is and no further attempt starts, whatever else happens. */
  lemma {:induction false} SettledForGood<T>(maxRetries: nat, events: seq<Event<T>>, i: nat)
    requires IsRun(maxRetries, events) && i <= |events|
    requires After(maxRetries, events[..i]).settled.Some?
    ensures After(maxRetries, events).settled == After(maxRetries, events[..i]).settled
    ensures After(maxRetries, events).started == After(maxRetries, events[..i]).started
    decreases |events|
  {
    if i == |events| {
      assert events[..i] == events;
    } else {
      var before := events[..|events| - 1];
      assert before[..i] == events[..i];
      SettledForGood(maxRetries, before, i);
      RunInv(maxRetries, before);
    }
  }

  /** The tick that decides: the one with `maxRetries` ticks before it. */
  predicate IsDecisiveTick<T>(maxRetries: nat, events: seq<Event<T>>, i: nat) {
    i < |events| && events[i].Tick? && Ticks(events[..i]) == maxRetries
  }

  /** An attempt is still in flight when the deciding tick comes. */
  ghost predicate OverlapsAtLimit<T>(maxRetries: nat, events: seq<Event<T>>) {
    exists i: nat :: IsDecisiveTick(maxRetries, events, i) && After(maxRetries, events[..i]).inFlight != {}
  }

  lemma {:induction false} PrefixIsRun<T>(maxRetries: nat, events: seq<Event<T>>, i: nat)
    requires IsRun(maxRetries, events) && i <= |events|
    ensures IsRun(maxRetries, events[..i])
    ensures i < |events| ==> Enabled(After(maxRetries, events[..i]), events[i])
    decreases |events|
  {
    if i == |events| {
      assert events[..i] == events;
    } else {
      assert events[..|events| - 1][..i] == events[..i];
      PrefixIsRun(maxRetries, events[..|events| - 1], i);
    }
  }

  /**
   * The deciding tick gives up exactly when nothing is in flight; otherwise it starts one attempt more than it should.
   */
  lemma DecisiveTick<T>(maxRetries: nat, events: seq<Event<T>>, i: nat)
    requires IsRun(maxRetries, events) && IsDecisiveTick(maxRetries, events, i)
    ensures var before, after := After(maxRetries, events[..i]), After(maxRetries, events[..i + 1]);
            && before.settled.None?
            && after.settled == (if before.inFlight == {} then Some(Resolved(None)) else None)
            && after.started == maxRetries + (if before.inFlight == {} then 1 else 2)
  {
    PrefixIsRun(maxRetries, events, i);
    RunInv(maxRetries, events[..i]);
    assert events[..i + 1][..i] == events[..i];
    var before := After(maxRetries, events[..i]);
    assert before.inFlight != {} <==> |before.inFlight| > 0;
  }

  lemma {:induction false} StartedGrows<T>(maxRetries: nat, events: seq<Event<T>>, i: nat)
    requires i <= |events|
    ensures After(maxRetries, events[..i]).started <= After(maxRetries, events).started
    ensures Ticks(events[..i]) <= Ticks(events)
    decreases |events|
  {
    if i == |events| {
      assert events[..i] == events;
    } else {
      assert events[..|events| - 1][..i] == events[..i];
      StartedGrows(maxRetries, events[..|events| - 1], i);
    }
  }

  /** The event that starts one attempt too many is the deciding tick, and it found an attempt in flight. */
  lemma ExceedsNow<T>(maxRetries: nat, before: seq<Event<T>>, s: State<T>, e: Event<T>)
    requires Inv(maxRetries, before, s) && Enabled(s, e)
    requires s.started <= maxRetries + 1 < Step(maxRetries, s, e).started
    ensures e.Tick? && Ticks(before) == maxRetries && s.inFlight != {}
  {
  }

  /** More calls than that have the deciding tick among them, and it found an attempt in flight. */
  lemma {:induction false} ExceedsOnlyByOverlap<T>(maxRetries: nat, events: seq<Event<T>>) returns (i: nat)
    requires IsRun(maxRetries, events) && After(maxRetries, events).started > maxRetries + 1
    ensures IsDecisiveTick(maxRetries, events, i) && After(maxRetries, events[..i]).inFlight != {}
    decreases |events|
  {
    i := |events| - 1;
    var before := events[..i];
    if After(maxRetries, before).started > maxRetries + 1 {
      i := ExceedsOnlyByOverlap(maxRetries, before);
      assert before[..i] == events[..i];
    } else {
      RunInv(maxRetries, before);
      ExceedsNow(maxRetries, before, After(maxRetries, before), events[i]);
    }
  }

  /**
   * The task is called more than `maxRetries + 1` times exactly in the runs in which an attempt is still in flight at
   * the tick that has `maxRetries` ticks before it.
   */
  lemma ExceedsMaxRetriesIff<T>(maxRetries: nat, events: seq<Event<T>>)
    requires IsRun(maxRetries, events)
    ensures After(maxRetries, events).started > maxRetries + 1 <==> OverlapsAtLimit(maxRetries, events)
  {
    if After(maxRetries, events).started > maxRetries + 1 {
      var i := ExceedsOnlyByOverlap(maxRetries, events);
    }
    if OverlapsAtLimit(maxRetries, events) {
      var i: nat :| IsDecisiveTick(maxRetries, events, i) && After(maxRetries, events[..i]).inFlight != {};
      DecisiveTick(maxRetries, events, i);
      StartedGrows(maxRetries, events, i + 1);
    }
  }

  /**
   * In every run the calls are bounded, each overlap adding one at most; without overlaps `maxRetries + 1` bounds them.
   */
  lemma CallsAreBounded<T>(maxRetries: nat, events: seq<Event<T>>)
    requires IsRun(maxRetries, events)
    ensures After(maxRetries, events).started <= maxRetries + 1 + Overlaps(maxRetries, events)
    ensures !OverlapsAtLimit(maxRetries, events) ==> After(maxRetries, events).started <= maxRetries + 1
    ensures Overlaps(maxRetries, events) == 0 ==> !OverlapsAtLimit(maxRetries, events)
  {
    RunInv(maxRetries, events);
    ExceedsMaxRetriesIff(maxRetries, events);
  }

  /** The first attempt fails for now, and then there are ticks and no completions. */
  function OnlyTicks<T>(n: nat): seq<Event<T>> {
    if n == 0 then [Complete(0, Null)] else OnlyTicks(n - 1) + [Tick]
  }

  function Numbers(n: nat): set<nat> {
    if n == 0 then {} else Numbers(n - 1) + {n}
  }

  lemma {:induction false} AfterOnlyTicks<T>(maxRetries: nat, n: nat)
    requires maxRetries >= 1
    ensures var events: seq<Event<T>> := OnlyTicks(n);
            IsRun(maxRetries, events) && After(maxRetries, events) == State(n + 1, Numbers(n), 0, true, None)
    decreases n
  {
    var events: seq<Event<T>> := OnlyTicks(n);
    assert events[..|events| - 1] == if n == 0 then [] else OnlyTicks(n - 1);
    if n == 0 {
      assert After<T>(maxRetries, []) == Initial();
      assert After(maxRetries, events).inFlight == {};
    } else {
      AfterOnlyTicks<T>(maxRetries, n - 1);
    }
  }

  lemma {:induction false} NoRetriesNoExcess<T>(events: seq<Event<T>>)
    requires IsRun(0, events)
    ensures After(0, events).started == 1
    decreases |events|
  {
    if events != [] {
      NoRetriesNoExcess(events[..|events| - 1]);
    }
  }

  /**
   * So `maxRetries` bounds nothing once it is positive: there is a run with any number of calls. Without retries there
   * is only ever the first.
   */
  lemma OverlapExceedsMaxRetries<T>(maxRetries: nat, calls: nat)
    requires calls >= 1
    ensures (exists events: seq<Event<T>> :: IsRun(maxRetries, events) && After(maxRetries, events).started == calls)
            <==> maxRetries >= 1 || calls == 1
  {
    if maxRetries >= 1 {
      AfterOnlyTicks<T>(maxRetries, calls - 1);
      var events: seq<Event<T>> := OnlyTicks(calls - 1);
      assert IsRun(maxRetries, events);
    } else {
      if events: seq<Event<T>> :| IsRun(maxRetries, events) && After(maxRetries, events).started == calls {
        NoRetriesNoExcess(events);
      }
      var none: seq<Event<T>> := [];
      assert After(maxRetries, none) == Initial();
      assert IsRun(maxRetries, none);
    }
  }

  /** A run with that many ticks has had the deciding one. */
  lemma {:induction false} HasDecisiveTick<T>(maxRetries: nat, events: seq<Event<T>>) returns (i: nat)
    requires Ticks(events) > maxRetries
    ensures IsDecisiveTick(maxRetries, events, i)
    decreases |events|
  {
    var n := |events| - 1;
    if Ticks(events[..n]) > maxRetries {
      i := HasDecisiveTick(maxRetries, events[..n]);
      assert events[..n][..i] == events[..i];
    } else {
      i := n;
    }
  }

  /**
   * The promise cannot hang: a run that goes past the timeout has the deciding tick, after which the promise is settled
   * or an attempt was in flight; without overlaps it is settled by then.
   */
  lemma SettlesInTime<T>(interval: nat, timeout: nat, events: seq<Event<T>>)
    requires interval > 0 && IsRun(timeout / interval, events)
    ensures Ticks(events) * interval > timeout ==>
              After(timeout / interval, events).settled.Some? || OverlapsAtLimit(timeout / interval, events)
    ensures Overlaps(timeout / interval, events) == 0 && Ticks(events) * interval > timeout ==>
              After(timeout / interval, events).settled.Some?
  {
    var maxRetries := timeout / interval;
    WithinTimeout(interval, timeout, Ticks(events));
    if Ticks(events) > maxRetries {
      var i := HasDecisiveTick(maxRetries, events);
      DecisiveTick(maxRetries, events, i);
      if After(maxRetries, events[..i]).inFlight == {} {
        SettledForGood(maxRetries, events, i + 1);
      }
    }
    CallsAreBounded(maxRetries, events);
  }

  lemma WithinTimeout(interval: nat, timeout: nat, ticks: nat)
    requires interval > 0
    ensures ticks <= timeout / interval <==> ticks * interval <= timeout
  {
    var q, r := timeout / interval, timeout % interval;
    assert timeout == q * interval + r && 0 <= r < interval;
    if ticks <= q {
      assert ticks * interval <= q * interval;
    } else {
      assert ticks * interval >= (q + 1) * interval == q * interval + interval;
    }
  }
}
