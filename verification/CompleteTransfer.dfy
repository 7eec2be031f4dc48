/**
 * Tracking and completing a Circle transfer in rounds (connect/src/routes/common.ts, `checkAndCompleteTransfer`,
 * with the CCTP routes' `track` and `complete`), against a destination chain that others may redeem on too.
 */
module CompleteTransfer {
  import opened Prelude
  import opened Receipts
  import opened CircleTracker

  /** Whether the route has `complete` and `finalize` methods, and whether the caller passed a destination signer. */
  datatype Route = Route(manual: bool, finalizable: bool, signer: bool)

  /** What the world does during one round, by the clock `elapsed` milliseconds long. */
  datatype Round = Round(
    details: TxId -> Reply<TransferMessage>,
    vaa: Reply<nat>,
    signature: Reply<Option<string>>,
    destinationTx: Reply<Option<TxId>>,
    redeemedBefore: set<Message>, // by anyone, before the chain is asked
    chainDown: bool,              // asking the chain throws
    submission: Reply<seq<TxId>>, // what comes of sending the redeem transaction, if it is sent
    finalization: Reply<seq<TxId>>, // what comes of finalizing, if the route does
    redeemedAfter: set<Message>,  // by anyone, before the round ends
    elapsed: int)

  datatype Outcome = Running | Returned | Rejected

  datatype Driver = Driver(
    receipt: CircleReceipt,
    redeemed: set<Message>,   // messages redeemed on the destination chain
    submitted: seq<Message>,  // messages this driver redeemed, one entry per successful submission
    leftover: int,
    outcome: Outcome)

  /** The chain answers truthfully: a message is completed exactly when it has been redeemed. */
  function AnswersIn(w: Round, redeemed: set<Message>): Answers {
    Answers(w.details, w.vaa, w.signature, w.destinationTx,
            m => if w.chainDown then Throws else Answer(m in redeemed))
  }

  /** What `complete` does with a receipt: refuse it, pass it by, or submit its message. */
  datatype Completion = Refuse | PassBy | Submit(message: Message)

  function CompletionOf(r: CircleReceipt): Completion {
    if !r.state.Attested? || !r.HasAttestation() then Refuse
    else if r.attestation.value.attestation.value.RelayVaa? then PassBy
    else if !Truthy(r.attestation.value.attestation.value.signature) then Refuse
    else Submit(MessageOf(r))
  }

  /** The driver calls the route's `finalize`, which redeems nothing itself. */
  predicate Finalizes(route: Route, r: CircleReceipt) {
    route.finalizable && r.state.DestinationInitiated? && route.signer
  }

  /** One round, from the first look at the clock to the decision to go again. */
  function Step(route: Route, w: Round, s: Driver): Driver {
    var redeemed := s.redeemed + w.redeemedBefore;
    var trace := Run(s.receipt, AnswersIn(w, redeemed));
    var receipt := Last([s.receipt] + trace.shown);
    if trace.threw then s.(redeemed := redeemed, outcome := Rejected)
    else if receipt.state.DestinationFinalized? then s.(receipt := receipt, redeemed := redeemed, outcome := Returned)
    else
      var completion :=
        if route.manual && route.signer && receipt.state.Attested? then CompletionOf(receipt) else PassBy;
      if completion.Refuse? || (completion.Submit? && w.submission.Throws?) then
        s.(redeemed := redeemed + w.redeemedAfter, outcome := Rejected)
      else
        var mine := if completion.Submit? then [completion.message] else [];
        var leftover := s.leftover - w.elapsed;
        Driver(receipt, redeemed + (set m | m in mine) + w.redeemedAfter, s.submitted + mine, leftover,
               if Finalizes(route, receipt) && w.finalization.Throws? then Rejected
               else if leftover > 0 then Running
               else Returned)
  }

  /** The state after at most `k` steps, from step number `i` on. */
  function Iterate(step: (nat, Driver) -> Driver, i: nat, s: Driver, k: nat): Driver
    decreases k
  {
    if k == 0 || !s.outcome.Running? then s else Iterate(step, i + 1, step(i, s), k - 1)
  }

  lemma {:induction false} IterateLast(step: (nat, Driver) -> Driver, i: nat, s: Driver, k: nat)
    requires k > 0 && Iterate(step, i, s, k - 1).outcome.Running?
    ensures Iterate(step, i, s, k) == step(i + k - 1, Iterate(step, i, s, k - 1))
    decreases k
  {
    if k > 1 {
      IterateLast(step, i + 1, step(i, s), k - 1);
    }
  }

  /** However long it is followed, a run has one end. */
  lemma {:induction false} IterateEnds(step: (nat, Driver) -> Driver, i: nat, s: Driver, rounds: nat, k: nat)
    requires rounds > 0 && Iterate(step, i, s, rounds - 1).outcome.Running?
    requires !Iterate(step, i, s, rounds).outcome.Running? && !Iterate(step, i, s, k).outcome.Running?
    ensures Iterate(step, i, s, k) == Iterate(step, i, s, rounds)
    decreases k
  {
    if rounds > 1 {
      IterateEnds(step, i + 1, step(i, s), rounds - 1, k - 1);
    }
  }

  function StepOf(route: Route, world: nat -> Round): (nat, Driver) -> Driver {
    (i: nat, s) => Step(route, world(i), s)
  }

  /** The state after at most `k` rounds, the first of them `world(i)`. */
  function Rounds(route: Route, world: nat -> Round, i: nat, s: Driver, k: nat): Driver {
    Iterate(StepOf(route, world), i, s, k)
  }

  lemma NextRound(route: Route, world: nat -> Round, i: nat, s: Driver, k: nat)
    requires s.outcome.Running? && k > 0
    ensures Rounds(route, world, i, s, k) == Rounds(route, world, i + 1, Step(route, world(i), s), k - 1)
  {
  }

  /** The destination chain as this driver sees and changes it. */
  class Destination {
    var redeemed: set<Message>
    var submitted: seq<Message>

    /** Others redeem: the chain only ever gains messages. */
    method Gains(others: set<Message>)
      modifies this`redeemed
      ensures redeemed == old(redeemed) + others
    {
      redeemed := redeemed + others;
    }

    /** `CCTPRoute.complete`: the receipt it returns moves to DestinationInitiated when it submitted the redeem. */
    method Complete(receipt: CircleReceipt, submission: Reply<seq<TxId>>) returns (result: Reply<CircleReceipt>)
      modifies this
      ensures var c := CompletionOf(receipt);
              && (result.Throws? <==> c.Refuse? || (c.Submit? && submission.Throws?))
              && (result.Answer? && c.PassBy? ==> result.value == receipt)
              && (result.Answer? && c.Submit? ==>
                    result.value == receipt.(state := DestinationInitiated, destinationTxs := Some(submission.value)))
              && submitted == old(submitted) + (if result.Answer? && c.Submit? then [c.message] else [])
              && redeemed == old(redeemed) + (if result.Answer? && c.Submit? then {c.message} else {})
    {
      if !receipt.state.Attested? { return Throws; }
      if !receipt.HasAttestation() { return Throws; }
      var att := receipt.attestation.value.attestation.value;
      if att.CircleAttestation? {
        if !Truthy(att.signature) { return Throws; }
        if submission.Throws? { return Throws; }
        redeemed := redeemed + {att.message};
        submitted := submitted + [att.message];
        return Answer(receipt.(state := DestinationInitiated, destinationTxs := Some(submission.value)));
      }
      return Answer(receipt);
    }

    /** One round: drain the tracker, return a finalized receipt, complete an attested one, and read the clock. */
    method DoRound(route: Route, w: Round, start: CircleReceipt, timeout: int)
      returns (outcome: Outcome, receipt: CircleReceipt, leftover: int)
      modifies this
      ensures IsStep(route, w, Driver(start, old(redeemed), old(submitted), timeout, Running),
                     Driver(receipt, redeemed, submitted, leftover, outcome))
    {
      Gains(w.redeemedBefore);
      receipt := start;
      leftover := timeout;
      var shown, threw := Track(receipt, AnswersIn(w, redeemed));
      if shown != [] { receipt := shown[|shown| - 1]; }
      assert receipt == Last([start] + shown);
      if threw { return Rejected, receipt, leftover; }
      if receipt.state.DestinationFinalized? { return Returned, receipt, leftover; }
      if route.manual && receipt.state.Attested? && route.signer {
        var completed := Complete(receipt, w.submission);
        Gains(w.redeemedAfter);
        if completed.Throws? { return Rejected, receipt, leftover; }
      } else {
        Gains(w.redeemedAfter);
      }
      if route.finalizable && receipt.state.DestinationInitiated? && route.signer {
        if w.finalization.Throws? { return Rejected, receipt, leftover; }
      }
      leftover := timeout - w.elapsed;
      outcome := if leftover > 0 then Running else Returned;
    }

    /**
     * The driver goes again as long as time is left: it stops with the first round that does not leave it running.
     * It need only stop at some round, which the ghost parameter bounds.
     */
    method CheckAndComplete(
      route: Route, world: nat -> Round, i: nat, start: CircleReceipt, timeout: int, ghost bound: nat)
      returns (outcome: Outcome, receipt: CircleReceipt, ghost rounds: nat)
      requires !Rounds(route, world, i, Driver(start, redeemed, submitted, timeout, Running), bound).outcome.Running?
      modifies this
      ensures EndsWith(route, world, i, Driver(start, old(redeemed), old(submitted), timeout, Running), rounds,
                       Driver(receipt, redeemed, submitted, timeout, outcome))
      ensures rounds > 1 ==> Elapsed(world, i, rounds - 1) < timeout
      ensures outcome.Returned? && !receipt.state.DestinationFinalized? ==> Elapsed(world, i, rounds) >= timeout
      decreases bound
    {
      ghost var s0 := Driver(start, redeemed, submitted, timeout, Running);
      var leftover: int;
      outcome, receipt, leftover := DoRound(route, world(i), start, timeout);
      ghost var s1 := Driver(receipt, redeemed, submitted, leftover, outcome);
      if outcome.Running? {
        StillBounded(route, world, i, s0, s1, bound);
        outcome, receipt, rounds := CheckAndComplete(route, world, i + 1, receipt, leftover, bound - 1);
        rounds := rounds + 1;
      } else {
        rounds := 1;
      }
      ghost var end := Driver(receipt, redeemed, submitted, leftover, outcome);
      EndsAfter(route, world, i, s0, s1, rounds, end);
      EndsByTheClock(route, world, i, s0, rounds, end);
    }
  }

  lemma StillBounded(route: Route, world: nat -> Round, i: nat, s: Driver, t: Driver, bound: nat)
    requires s.outcome.Running? && IsStep(route, world(i), s, t) && t.outcome.Running?
    requires !Rounds(route, world, i, s, bound).outcome.Running?
    ensures bound > 0 && !Rounds(route, world, i + 1, t, bound - 1).outcome.Running?
  {
    if bound > 0 {
      NextRound(route, world, i, s, bound);
    }
    assert Step(route, world(i), s) == t;
  }

  /** A state as seen from outside: the receipt is lost when the driver rejects, and the leftover when it ends. */
  ghost predicate SameTo(s: Driver, t: Driver) {
    && s.redeemed == t.redeemed && s.submitted == t.submitted && s.outcome == t.outcome
    && (!s.outcome.Rejected? ==> s.receipt == t.receipt)
    && (s.outcome.Running? ==> s.leftover == t.leftover)
  }

  ghost predicate IsStep(route: Route, w: Round, s: Driver, t: Driver) {
    SameTo(Step(route, w, s), t)
  }

  /** The driver ends with the last of `rounds` rounds, in a state that looks like `t`. */
  ghost predicate EndsWith(route: Route, world: nat -> Round, i: nat, s: Driver, rounds: nat, t: Driver) {
    && rounds > 0 && Rounds(route, world, i, s, rounds - 1).outcome.Running?
    && SameTo(Rounds(route, world, i, s, rounds), t) && !t.outcome.Running?
  }

  lemma EndsAfter(route: Route, world: nat -> Round, i: nat, s: Driver, t: Driver, rounds: nat, end: Driver)
    requires s.outcome.Running? && IsStep(route, world(i), s, t)
    requires if t.outcome.Running? then rounds > 0 && EndsWith(route, world, i + 1, t, rounds - 1, end)
             else rounds == 1 && SameTo(t, end)
    ensures EndsWith(route, world, i, s, rounds, end)
  {
    NextRound(route, world, i, s, rounds);
    if t.outcome.Running? {
      assert Step(route, world(i), s) == t;
      NextRound(route, world, i, s, rounds - 1);
    }
  }

  /** Every message the receipt holds, or its last source transaction logged, is `m`. */
  predicate IsFor(r: CircleReceipt, m: Message, logged: TxId -> Message) {
    && (HasMessage(r) ==> MessageOf(r) == m)
    && (r.originTxs != [] ==> logged(Last(r.originTxs)) == m)
  }

  /** Whenever a source transaction is read, the message found is the one it logged. */
  ghost predicate Consistent(world: nat -> Round, logged: TxId -> Message) {
    forall i, tx | world(i).details(tx).Answer? :: world(i).details(tx).value.message == logged(tx)
  }

  /** What every round keeps: at most one successful submission, and none unless its message is redeemed. */
  predicate Safe(s: Driver, m: Message, logged: TxId -> Message) {
    && IsFor(s.receipt, m, logged)
    && (s.submitted == [] || (s.submitted == [m] && m in s.redeemed))
  }

  predicate ReadsOf(a: Answers, tx: TxId, logged: TxId -> Message) {
    a.details(tx).Answer? ==> a.details(tx).value.message == logged(tx)
  }

  lemma EdgeKeepsMessage(a: Answers, p: CircleReceipt, s: CircleReceipt, m: Message, logged: TxId -> Message)
    requires Justified(a, p, s) && IsFor(p, m, logged)
    requires forall tx :: ReadsOf(a, tx, logged)
    ensures IsFor(s, m, logged)
  {
    if p.originTxs != [] {
      assert ReadsOf(a, Last(p.originTxs), logged);
    }
  }

  lemma LinkedKeepsMessage(rs: seq<CircleReceipt>, a: Answers, m: Message, logged: TxId -> Message)
    requires rs != [] && Linked(rs, (p, s) => Justified(a, p, s)) && IsFor(rs[0], m, logged)
    requires forall tx :: ReadsOf(a, tx, logged)
    ensures IsFor(Last(rs), m, logged)
  {
    var edge := (p, s) => Justified(a, p, s);
    var good := s => IsFor(s, m, logged);
    forall k | 0 < k < |rs| && good(rs[k - 1]) && edge(rs[k - 1], rs[k]) ensures good(rs[k]) {
      EdgeKeepsMessage(a, rs[k - 1], rs[k], m, logged);
    }
    LinkedKeeps(rs, edge, good, 0, |rs| - 1);
  }

  /** The receipt has just been looked up on the destination chain, if it is attested or redeemed, and denied. */
  predicate JustDenied(s: CircleReceipt, a: Answers) {
    s.state.Attested? || s.state.DestinationInitiated? ==>
      HasMessage(s) && a.isCompleted(MessageOf(s)) == Answer(false)
  }

  /** The last receipt a trace leaves its consumer with. */
  function Left(r: CircleReceipt, t: Trace<CircleOrWormholeId, Attestation>): CircleReceipt {
    if t.shown == [] then r else Last(t.shown)
  }

  lemma LeftAfter(r: CircleReceipt, s: CircleReceipt, t: Trace<CircleOrWormholeId, Attestation>)
    ensures Left(r, After([s], t)) == Left(s, t) && After([s], t).threw == t.threw
  {
  }

  lemma RedemptionUnfinished(r: CircleReceipt, a: Answers)
    ensures Redemption(r, a).threw || JustDenied(Left(r, Redemption(r, a)), a)
  {
  }

  lemma StatusUnfinished(r: CircleReceipt, a: Answers)
    ensures Status(r, a).threw || JustDenied(Left(r, Status(r, a)), a)
  {
    RedemptionUnfinished(r, a);
    if a.destinationTx.Answer? && a.destinationTx.value.Some? {
      var s := WithDestinationTx(r, a.destinationTx.value.value);
      RedemptionUnfinished(s, a);
      LeftAfter(r, s, Redemption(s, a));
    }
  }

  lemma AttestUnfinished(r: CircleReceipt, a: Answers)
    ensures Attest(r, a).threw || JustDenied(Left(r, Attest(r, a)), a)
  {
    StatusUnfinished(r, a);
    if Attest(r, a) != Status(r, a) && !Attest(r, a).threw {
      var s := Attest(r, a).shown[0];
      StatusUnfinished(s, a);
      LeftAfter(r, s, Status(s, a));
    }
  }

  /** A call that returns with a receipt still attested or redeemed has just heard that it is not completed. */
  lemma UnfinishedMeansNotRedeemed(r: CircleReceipt, a: Answers)
    requires !Run(r, a).threw
    ensures JustDenied(Last([r] + Run(r, a).shown), a)
  {
    AttestUnfinished(r, a);
    if r.state.SourceInitiated? && Run(r, a).shown != [] {
      var s := Run(r, a).shown[0];
      AttestUnfinished(s, a);
      LeftAfter(r, s, Attest(s, a));
    }
    assert Last([r] + Run(r, a).shown) == Left(r, Run(r, a));
  }

  lemma StepSafe(route: Route, w: Round, s: Driver, m: Message, logged: TxId -> Message)
    requires Safe(s, m, logged)
    requires forall tx | w.details(tx).Answer? :: w.details(tx).value.message == logged(tx)
    ensures Safe(Step(route, w, s), m, logged)
  {
    var a := AnswersIn(w, s.redeemed + w.redeemedBefore);
    CallJustified(s.receipt, a);
    LinkedKeepsMessage([s.receipt] + Run(s.receipt, a).shown, a, m, logged);
    if !Run(s.receipt, a).threw {
      UnfinishedMeansNotRedeemed(s.receipt, a);
    }
  }

  lemma {:induction false} RoundsSafe(
    route: Route, world: nat -> Round, i: nat, s: Driver, k: nat, m: Message, logged: TxId -> Message)
    requires Safe(s, m, logged) && Consistent(world, logged)
    ensures Safe(Rounds(route, world, i, s, k), m, logged)
    ensures s.redeemed <= Rounds(route, world, i, s, k).redeemed
    decreases k
  {
    if k != 0 && s.outcome.Running? {
      StepSafe(route, world(i), s, m, logged);
      RoundsSafe(route, world, i + 1, Step(route, world(i), s), k - 1, m, logged);
    }
  }

  /** One call of the driver, followed for as many rounds as it runs or as it is left to run. */
  datatype Invocation = Invocation(
    route: Route, start: CircleReceipt, timeout: int, world: nat -> Round, rounds: nat)

  /** The redeemed and submitted messages after calls of the driver one after the other. */
  function AfterAll(calls: seq<Invocation>, redeemed: set<Message>): Driver
    requires calls != []
    decreases |calls|
  {
    var c := calls[|calls| - 1];
    var before := if |calls| == 1 then Driver(c.start, redeemed, [], c.timeout, Running)
                  else AfterAll(calls[..|calls| - 1], redeemed);
    Rounds(c.route, c.world, 0, before.(receipt := c.start, leftover := c.timeout, outcome := Running), c.rounds)
  }

  /**
   * However often the driver is called for one transfer, from whatever receipts of it the caller kept, and however
   * its rounds end, this caller's redeem is submitted successfully at most once, and then its message is redeemed.
   */
  lemma {:induction false} RedeemedAtMostOnce(
    calls: seq<Invocation>, redeemed: set<Message>, m: Message, logged: TxId -> Message)
    requires calls != []
    requires forall c | c in calls :: IsFor(c.start, m, logged) && Consistent(c.world, logged)
    ensures Safe(AfterAll(calls, redeemed), m, logged)
    ensures |AfterAll(calls, redeemed).submitted| <= 1
    decreases |calls|
  {
    var c := calls[|calls| - 1];
    var before := if |calls| == 1 then Driver(c.start, redeemed, [], c.timeout, Running)
                  else AfterAll(calls[..|calls| - 1], redeemed);
    if |calls| > 1 {
      forall b | b in calls[..|calls| - 1] ensures b in calls {}
      RedeemedAtMostOnce(calls[..|calls| - 1], redeemed, m, logged);
    }
    RoundsSafe(c.route, c.world, 0, before.(receipt := c.start, leftover := c.timeout, outcome := Running), c.rounds,
               m, logged);
  }

  /** A finalized receipt has been returned, and its message is redeemed on the destination chain. */
  predicate RightlyCompleted(t: Driver) {
    t.receipt.state.DestinationFinalized? ==>
      t.outcome.Returned? && HasMessage(t.receipt) && MessageOf(t.receipt) in t.redeemed
  }

  /** A new finalized receipt is returned only for a message that is redeemed on the destination chain. */
  lemma StepCompletesOnlyIfRedeemed(route: Route, w: Round, s: Driver)
    requires s.outcome.Running? && !s.receipt.state.DestinationFinalized?
    ensures RightlyCompleted(Step(route, w, s))
  {
    var a := AnswersIn(w, s.redeemed + w.redeemedBefore);
    var shown := Run(s.receipt, a).shown;
    if shown != [] && Last(shown).state.DestinationFinalized? {
      CallFinalizesOnlyIfRedeemed(s.receipt, a, |shown| - 1);
    }
  }

  lemma {:induction false} CompletedOnlyIfRedeemed(route: Route, world: nat -> Round, i: nat, s: Driver, k: nat)
    requires RightlyCompleted(s)
    ensures RightlyCompleted(Rounds(route, world, i, s, k))
    decreases k
  {
    if k != 0 && s.outcome.Running? {
      StepCompletesOnlyIfRedeemed(route, world(i), s);
      CompletedOnlyIfRedeemed(route, world, i + 1, Step(route, world(i), s), k - 1);
    }
  }

  /** A receipt of an attested transfer, with its Circle message and a signature. */
  predicate IsSigned(r: CircleReceipt, hash: string, m: Message, signature: string) {
    && r.state.Attested? && signature != ""
    && r.attestation == Some(AttestationReceipt(Some(CircleId(hash)), Some(CircleAttestation(m, Some(signature)))))
  }

  /** A round submits an attested transfer's message exactly when it may, the chain denies it, and the sending works. */
  lemma StepSubmitsIff(
    route: Route, w: Round, s: Driver, hash: string, m: Message, signature: string)
    requires IsSigned(s.receipt, hash, m, signature)
    ensures var submits := route.manual && route.signer && !w.chainDown && w.submission.Answer?
                           && m !in s.redeemed && m !in w.redeemedBefore;
            && (Step(route, w, s).submitted == s.submitted + [m] <==> submits)
            && (Step(route, w, s).submitted == s.submitted <==> !submits)
  {
    CallFinalizesIff(s.receipt, hash, m, Some(signature), AnswersIn(w, s.redeemed + w.redeemedBefore));
    assert s.submitted + [m] != s.submitted;
    assert s.submitted + [] == s.submitted;
  }

  /** And once the message is redeemed, the next round returns the finalized receipt unless an answer throws. */
  lemma RedeemedReturnsNext(
    route: Route, w: Round, s: Driver, hash: string, m: Message, signature: Option<string>)
    requires s.receipt.state.Attested? || s.receipt.state.DestinationInitiated?
    requires s.receipt.attestation ==
               Some(AttestationReceipt(Some(CircleId(hash)), Some(CircleAttestation(m, signature))))
    requires m in s.redeemed
    ensures var t := Step(route, w, s);
            t.outcome == (if w.chainDown then Rejected else Returned)
            && (!w.chainDown ==>
                  t.receipt == s.receipt.(state := DestinationFinalized, destinationTxs := Some([])))
            && t.submitted == s.submitted
  {
    CallFinalizesIff(s.receipt, hash, m, signature, AnswersIn(w, s.redeemed + w.redeemedBefore));
  }

  /** How a round looks to the driver once nothing more is done in it: by the clock alone. */
  function ByTheClock(w: Round, s: Driver): Outcome {
    if s.leftover - w.elapsed > 0 then Running else Returned
  }

  /**
   * How a round ends for an attested transfer: rejected if the chain cannot be asked, returned if it confirms; else
   * rejected if the driver is to complete it and has no signature to do so or the redeem transaction fails, and
   * otherwise by the clock. Everyone's redemptions are on the chain afterwards.
   */
  lemma AttestedRoundEnds(
    route: Route, w: Round, s: Driver, hash: string, m: Message, signature: Option<string>)
    requires s.receipt.state.Attested?
    requires s.receipt.attestation ==
               Some(AttestationReceipt(Some(CircleId(hash)), Some(CircleAttestation(m, signature))))
    ensures var t := Step(route, w, s);
            var denied := !w.chainDown && m !in s.redeemed && m !in w.redeemedBefore;
            var completes := route.manual && route.signer;
            var fails := signature == None || signature == Some("") || w.submission.Throws?;
            && t.outcome == (if w.chainDown then Rejected else if !denied then Returned
                             else if completes && fails then Rejected else ByTheClock(w, s))
            && t.redeemed == s.redeemed + w.redeemedBefore
                             + (if denied && completes && !fails then {m} else {})
                             + (if denied then w.redeemedAfter else {})
  {
    CallFinalizesIff(s.receipt, hash, m, signature, AnswersIn(w, s.redeemed + w.redeemedBefore));
  }

  /**
   * And for one that is redeemed, as a caller may know: nothing is submitted, and if the chain does not confirm it yet
   * the round is rejected exactly when the route finalizes with this signer and that fails.
   */
  lemma RedeemedRoundEnds(
    route: Route, w: Round, s: Driver, hash: string, m: Message, signature: Option<string>)
    requires s.receipt.state.DestinationInitiated?
    requires s.receipt.attestation ==
               Some(AttestationReceipt(Some(CircleId(hash)), Some(CircleAttestation(m, signature))))
    ensures var t := Step(route, w, s);
            var denied := !w.chainDown && m !in s.redeemed && m !in w.redeemedBefore;
            && t.outcome == (if w.chainDown then Rejected else if !denied then Returned
                             else if route.finalizable && route.signer && w.finalization.Throws? then Rejected
                             else ByTheClock(w, s))
            && t.submitted == s.submitted
  {
    CallFinalizesIff(s.receipt, hash, m, signature, AnswersIn(w, s.redeemed + w.redeemedBefore));
    assert s.submitted + [] == s.submitted;
  }

  // ---------- When the driver goes again, and how it ends ----------

  /** The time that `k` rounds take, from round `i` on. */
  function Elapsed(world: nat -> Round, i: nat, k: nat): int
    decreases k
  {
    if k == 0 then 0 else world(i).elapsed + Elapsed(world, i + 1, k - 1)
  }

  /** A round after which the driver goes again has left it time, and one that returns an unfinished receipt none. */
  lemma StepByTheClock(route: Route, w: Round, s: Driver)
    ensures var t := Step(route, w, s);
            && (t.outcome.Running? ==> t.leftover == s.leftover - w.elapsed > 0)
            && (t.outcome.Returned? && !t.receipt.state.DestinationFinalized? ==> s.leftover - w.elapsed <= 0)
  {
  }

  lemma NextEnds(route: Route, world: nat -> Round, i: nat, s: Driver, rounds: nat, end: Driver)
    requires s.outcome.Running? && EndsWith(route, world, i, s, rounds, end)
    ensures var t := Step(route, world(i), s);
            if rounds == 1 then SameTo(t, end) && !t.outcome.Running?
            else t.outcome.Running? && EndsWith(route, world, i + 1, t, rounds - 1, end)
  {
    NextRound(route, world, i, s, rounds);
    if rounds > 1 {
      NextRound(route, world, i, s, rounds - 1);
    }
  }

  /**
   * On every run: a driver that goes again had time left, and one that returns a receipt that is not finalized has used
   * up its time. Nothing else makes it return one.
   */
  lemma {:induction false} EndsByTheClock(
    route: Route, world: nat -> Round, i: nat, s: Driver, rounds: nat, end: Driver)
    requires s.outcome.Running? && EndsWith(route, world, i, s, rounds, end)
    ensures rounds > 1 ==> Elapsed(world, i, rounds - 1) < s.leftover
    ensures end.outcome.Returned? && !end.receipt.state.DestinationFinalized? ==>
              Elapsed(world, i, rounds) >= s.leftover
    decreases rounds
  {
    NextEnds(route, world, i, s, rounds, end);
    StepByTheClock(route, world(i), s);
    if rounds == 1 {
      assert Elapsed(world, i, 1) == world(i).elapsed + Elapsed(world, i + 1, 0);
    } else {
      EndsByTheClock(route, world, i + 1, Step(route, world(i), s), rounds - 1, end);
      assert rounds == 2 ==> Elapsed(world, i, 1) == world(i).elapsed + Elapsed(world, i + 1, 0);
    }
  }

  /** The receipt that a round starting in `s` leaves is the last one that its call of the tracker showed. */
  predicate HandsBackLast(w: Round, s: Driver, r: CircleReceipt) {
    r == Last([s.receipt] + Run(s.receipt, AnswersIn(w, s.redeemed + w.redeemedBefore)).shown)
  }

  lemma StepHandsBackLast(route: Route, w: Round, s: Driver)
    requires !Step(route, w, s).outcome.Rejected?
    ensures HandsBackLast(w, s, Step(route, w, s).receipt)
  {
  }

  /**
   * The receipt handed back is the last one that the tracker showed in the last round: what completing and finalizing
   * give back never reaches it. A driver that rejects hands nothing back.
   */
  lemma HandsBackLastShown(route: Route, world: nat -> Round, i: nat, s: Driver, rounds: nat, end: Driver)
    requires EndsWith(route, world, i, s, rounds, end) && !end.outcome.Rejected?
    ensures HandsBackLast(world(i + rounds - 1), Rounds(route, world, i, s, rounds - 1), end.receipt)
  {
    IterateLast(StepOf(route, world), i, s, rounds);
    StepHandsBackLast(route, world(i + rounds - 1), Rounds(route, world, i, s, rounds - 1));
  }

  /** A transfer that was submitted, and not attested yet. */
  predicate IsSubmitted(r: CircleReceipt) {
    && r.originTxs != []
    && (r.state.SourceInitiated? || (r.state.SourceFinalized? && r.HasId() && r.attestation.value.id.value.CircleId?))
  }

  /** The last source transaction can be read, and logged `m`. */
  predicate Logged(r: CircleReceipt, a: Answers, m: Message)
    requires r.originTxs != []
  {
    a.details(Last(r.originTxs)).Answer? && a.details(Last(r.originTxs)).value.message == m
  }

  lemma TrackWaits(r: CircleReceipt, a: Answers, m: Message)
    requires IsSubmitted(r) && Logged(r, a, m) && (a.signature == Answer(None) || a.signature == Answer(Some("")))
    ensures var s := Last([r] + Run(r, a).shown);
            && !Run(r, a).threw && IsSubmitted(s) && s.state.SourceFinalized?
            && s.from == r.from && s.to == r.to && s.originTxs == r.originTxs && s.error == r.error
  {
    if r.state.SourceFinalized? {
      CallAttestsIff(r, r.attestation.value.id.value.hash, a);
    } else {
      CallFindsMessageIff(r, a);
      var s := Run(r, a).shown[0];
      CallAttestsIff(s, s.attestation.value.id.value.hash, a);
    }
  }

  /** What tracking leaves once the signature is there: finalized or attested, as the chain answers. */
  lemma TrackSigns(r: CircleReceipt, a: Answers, m: Message, signature: string) returns (hash: string)
    requires IsSubmitted(r) && Logged(r, a, m) && a.signature == Answer(Some(signature)) && signature != ""
    requires a.isCompleted(m).Answer?
    ensures var id := Some(CircleId(hash));
            var signed := r.(state := Attested, attestation :=
                          Some(AttestationReceipt(id, Some(CircleAttestation(m, Some(signature))))));
            && !Run(r, a).threw
            && Last([r] + Run(r, a).shown) ==
                 if a.isCompleted(m).value then signed.(state := DestinationFinalized, destinationTxs := Some([]))
                 else signed
  {
    var s := r;
    if r.state.SourceInitiated? {
      CallFindsMessageIff(r, a);
      s := Run(r, a).shown[0];
    }
    hash := s.attestation.value.id.value.hash;
    CallAttestsIff(s, hash, a);
    var t := Run(s, a).shown[0];
    CallFinalizesIff(t, hash, m, Some(signature), a);
    assert Run(t, a).shown != [];
    assert Run(s, a).shown == [t] + Run(t, a).shown;
  }

  /** A round in which the source transaction can be read and its message has no signature yet. */
  predicate Unsigned(w: Round, tx: TxId, m: Message) {
    && w.details(tx).Answer? && w.details(tx).value.message == m
    && (w.signature == Answer(None) || w.signature == Answer(Some("")))
  }

  /** A round in which it has one. */
  predicate SignedNow(w: Round, tx: TxId, m: Message, signature: string) {
    && w.details(tx).Answer? && w.details(tx).value.message == m
    && w.signature == Answer(Some(signature)) && signature != ""
  }

  /** A receipt of this transfer, finalized with this message and signature. */
  predicate IsFinalOf(r: CircleReceipt, s: CircleReceipt, m: Message, signature: string) {
    && r.state.DestinationFinalized? && r.from == s.from && r.to == s.to && r.originTxs == s.originTxs
    && r.HasAttestation() && r.attestation.value.attestation.value == CircleAttestation(m, Some(signature))
    && r.destinationTxs == Some([]) && r.error == s.error
  }

  /**
   * The finalized receipt was returned, and the message is redeemed: by this driver, once, exactly when no one else
   * had redeemed it.
   */
  predicate Completed(s: Driver, t: Driver, m: Message, signature: string, others: set<Message>) {
    && t.outcome.Returned? && IsFinalOf(t.receipt, s.receipt, m, signature) && m in t.redeemed
    && t.submitted == if m in s.redeemed + others then s.submitted else s.submitted + [m]
  }

  /** The round changed nothing but the clock and what others have redeemed. */
  predicate Waited(w: Round, s: Driver, t: Driver) {
    && t.outcome.Running? && IsSubmitted(t.receipt) && t.leftover == s.leftover - w.elapsed
    && t.receipt.from == s.receipt.from && t.receipt.to == s.receipt.to && t.receipt.originTxs == s.receipt.originTxs
    && t.receipt.error == s.receipt.error
    && t.submitted == s.submitted && t.redeemed == s.redeemed + w.redeemedBefore + w.redeemedAfter
  }

  lemma StepWaits(route: Route, w: Round, s: Driver, m: Message)
    requires s.outcome.Running? && IsSubmitted(s.receipt) && Unsigned(w, Last(s.receipt.originTxs), m)
    requires w.elapsed < s.leftover
    ensures Waited(w, s, Step(route, w, s))
  {
    TrackWaits(s.receipt, AnswersIn(w, s.redeemed + w.redeemedBefore), m);
  }

  lemma CompletedAfterWaiting(
    w: Round, s: Driver, t: Driver, end: Driver, m: Message, signature: string, others: set<Message>)
    requires Waited(w, s, t) && Completed(t, end, m, signature, others)
    ensures Completed(s, end, m, signature, w.redeemedBefore + (w.redeemedAfter + others))
  {
  }

  /** A manual route with a signer, a chain that answers twice, and a redeem transaction that gets through. */
  predicate CanComplete(route: Route, first: Round, second: Round) {
    route.manual && route.signer && !first.chainDown && !second.chainDown && first.submission.Answer?
  }

  /**
   * A driver that is given a signed receipt and time for a second round returns it finalized, and submits its message
   * itself, once, exactly when no one else has redeemed it.
   */
  lemma SignedCompletes(
    route: Route, world: nat -> Round, i: nat, s: Driver, hash: string, m: Message, signature: string)
    requires s.outcome.Running? && IsSigned(s.receipt, hash, m, signature)
    requires CanComplete(route, world(i), world(i + 1)) && world(i).elapsed < s.leftover
    ensures Completed(s, Rounds(route, world, i, s, 2), m, signature, world(i).redeemedBefore)
  {
    var t := Step(route, world(i), s);
    CallFinalizesIff(s.receipt, hash, m, Some(signature), AnswersIn(world(i), s.redeemed + world(i).redeemedBefore));
    NextRound(route, world, i, s, 2);
    if t.outcome.Running? {
      NextRound(route, world, i + 1, t, 1);
      RedeemedReturnsNext(route, world(i + 1), t, hash, m, Some(signature));
    }
  }

  /** There is time for `n` rounds and more. */
  ghost predicate HasTimeFor(world: nat -> Round, i: nat, n: nat, leftover: int) {
    forall k | 0 < k <= n :: Elapsed(world, i, k) < leftover
  }

  lemma TimeAfter(world: nat -> Round, i: nat, n: nat, leftover: int)
    requires HasTimeFor(world, i, n + 1, leftover)
    ensures world(i).elapsed < leftover && HasTimeFor(world, i + 1, n, leftover - world(i).elapsed)
  {
    assert Elapsed(world, i, 1) == world(i).elapsed + Elapsed(world, i + 1, 0);
    forall k {:trigger Elapsed(world, i + 1, k)} | 0 < k <= n
      ensures Elapsed(world, i + 1, k) < leftover - world(i).elapsed
    {
      assert Elapsed(world, i, k + 1) == world(i).elapsed + Elapsed(world, i + 1, k);
    }
  }

  /** So the bound is reached: a driver left to run for two rounds redeems a signed message that no one else does. */
  lemma RedeemedOnce(c: Invocation, hash: string, m: Message, signature: string)
    requires IsSigned(c.start, hash, m, signature) && c.rounds == 2
    requires CanComplete(c.route, c.world(0), c.world(1)) && c.world(0).elapsed < c.timeout
    requires m !in c.world(0).redeemedBefore
    ensures AfterAll([c], {}).submitted == [m]
    ensures AfterAll([c, c], {}).submitted == [m]
    ensures AfterAll([c, c], {}).outcome.Returned? && AfterAll([c, c], {}).receipt.state.DestinationFinalized?
  {
    SignedCompletes(c.route, c.world, 0, Driver(c.start, {}, [], c.timeout, Running), hash, m, signature);
    var once := AfterAll([c], {});
    assert [c, c][..1] == [c];
    SignedCompletes(c.route, c.world, 0, once.(receipt := c.start, leftover := c.timeout, outcome := Running),
                    hash, m, signature);
  }

  /** What others have redeemed by the time the chain is asked in the `n`-th round after round `i`. */
  function RedeemedByOthers(world: nat -> Round, i: nat, n: nat): set<Message>
    decreases n
  {
    world(i).redeemedBefore
    + if n == 0 then {} else world(i).redeemedAfter + RedeemedByOthers(world, i + 1, n - 1)
  }

  lemma StepCompletes(route: Route, world: nat -> Round, i: nat, s: Driver, m: Message, signature: string)
    requires s.outcome.Running? && IsSubmitted(s.receipt)
    requires SignedNow(world(i), Last(s.receipt.originTxs), m, signature)
    requires CanComplete(route, world(i), world(i + 1)) && world(i).elapsed < s.leftover
    ensures Completed(s, Rounds(route, world, i, s, 2), m, signature, world(i).redeemedBefore)
  {
    var t := Step(route, world(i), s);
    var hash := TrackSigns(s.receipt, AnswersIn(world(i), s.redeemed + world(i).redeemedBefore), m, signature);
    NextRound(route, world, i, s, 2);
    if t.outcome.Running? {
      NextRound(route, world, i + 1, t, 1);
      RedeemedReturnsNext(route, world(i + 1), t, hash, m, Some(signature));
    }
  }

  /**
   * From a submitted transfer on: if its message can be read in every round, its signature comes in the `n`-th round
   * after the first, and there is time for one round more, the driver returns the finalized receipt, and submits the
   * message itself, once, exactly when no one else has redeemed it by then.
   */
  lemma {:induction false} SubmittedCompletes(
    route: Route, world: nat -> Round, i: nat, s: Driver, n: nat, m: Message, signature: string)
    requires s.outcome.Running? && IsSubmitted(s.receipt)
    requires forall j | i <= j < i + n :: Unsigned(world(j), Last(s.receipt.originTxs), m)
    requires SignedNow(world(i + n), Last(s.receipt.originTxs), m, signature)
    requires CanComplete(route, world(i + n), world(i + n + 1)) && HasTimeFor(world, i, n + 1, s.leftover)
    ensures Completed(s, Rounds(route, world, i, s, n + 2), m, signature, RedeemedByOthers(world, i, n))
    decreases n
  {
    TimeAfter(world, i, n, s.leftover);
    if n == 0 {
      StepCompletes(route, world, i, s, m, signature);
    } else {
      var t := Step(route, world(i), s);
      assert Unsigned(world(i), Last(s.receipt.originTxs), m);
      StepWaits(route, world(i), s, m);
      SubmittedCompletes(route, world, i + 1, t, n - 1, m, signature);
      NextRound(route, world, i, s, n + 2);
      CompletedAfterWaiting(world(i), s, t, Rounds(route, world, i + 1, t, n + 1), m, signature,
                            RedeemedByOthers(world, i + 1, n - 1));
    }
  }

  /** So this is how the driver ends, as its caller sees it. */
  lemma SubmittedEndsCompleted(route: Route, world: nat -> Round, i: nat, s: Driver, rounds: nat, end: Driver,
    n: nat, m: Message, signature: string)
    requires s.outcome.Running? && EndsWith(route, world, i, s, rounds, end)
    requires IsSubmitted(s.receipt)
    requires forall j | i <= j < i + n :: Unsigned(world(j), Last(s.receipt.originTxs), m)
    requires SignedNow(world(i + n), Last(s.receipt.originTxs), m, signature)
    requires CanComplete(route, world(i + n), world(i + n + 1)) && HasTimeFor(world, i, n + 1, s.leftover)
    ensures Completed(s, end, m, signature, RedeemedByOthers(world, i, n))
  {
    SubmittedCompletes(route, world, i, s, n, m, signature);
    IterateEnds(StepOf(route, world), i, s, rounds, n + 2);
  }

  /** With `d` milliseconds or more to a round, a driver still running after `k` rounds has used `k * d` of its time. */
  lemma {:induction false} RunningNeedsTime(route: Route, world: nat -> Round, i: nat, s: Driver, k: nat, d: int)
    requires s.outcome.Running? && Rounds(route, world, i, s, k).outcome.Running?
    requires forall j :: world(j).elapsed >= d
    ensures k == 0 || k * d < s.leftover
    decreases k
  {
    if k != 0 {
      NextRound(route, world, i, s, k);
      StepByTheClock(route, world(i), s);
      RunningNeedsTime(route, world, i + 1, Step(route, world(i), s), k - 1, d);
      OneRoundMore(k, d, s.leftover, world(i).elapsed);
    }
  }

  lemma OneRoundMore(k: nat, d: int, leftover: int, elapsed: int)
    requires k > 0 && elapsed >= d && leftover - elapsed > 0
    requires k == 1 || (k - 1) * d < leftover - elapsed
    ensures k * d < leftover
  {
    assert k * d == (k - 1) * d + d;
  }

  /** So every run has ended within its timeout divided by `d`, rounded up, and always after some round. */
  lemma EndsInTime(route: Route, world: nat -> Round, s: Driver, d: int)
    requires s.outcome.Running? && d > 0 && forall j :: world(j).elapsed >= d
    ensures var bound := if s.leftover <= 0 then 1 else (s.leftover + d - 1) / d;
            !Rounds(route, world, 0, s, bound).outcome.Running?
  {
    CeilingCovers(s.leftover, d);
    EndsBy(route, world, s, if s.leftover <= 0 then 1 else (s.leftover + d - 1) / d, d);
  }

  lemma EndsBy(route: Route, world: nat -> Round, s: Driver, k: nat, d: int)
    requires s.outcome.Running? && k > 0 && k * d >= s.leftover
    requires forall j :: world(j).elapsed >= d
    ensures !Rounds(route, world, 0, s, k).outcome.Running?
  {
    if Rounds(route, world, 0, s, k).outcome.Running? {
      RunningNeedsTime(route, world, 0, s, k, d);
    }
  }

  lemma CeilingCovers(n: int, d: int)
    requires d > 0
    ensures n > 0 ==> (n + d - 1) / d > 0 && (n + d - 1) / d * d >= n
  {
    var q, r := (n + d - 1) / d, (n + d - 1) % d;
    assert q * d + r == n + d - 1 && r < d;
  }
}
