/** The receipt tracker of token bridge transfers (connect/src/protocols/tokenBridge/tokenTransfer.ts, `track`). */
module TokenTracker {
  import opened Prelude
  import opened Receipts

  type MessageId = nat

  /** A signed message: which protocol it decodes as, and whether it only attests token metadata. */
  datatype Vaa = Vaa(executor: bool, attestMeta: bool, digest: nat)

  type TokenReceipt = Receipt<MessageId, Vaa>

  datatype RelayStatus = Pending | RelayFailure | Unsupported | Submitted | Underpaid | Aborted
  {
    predicate IsFailure() {
      RelayFailure? || Underpaid? || Unsupported? || Aborted?
    }
  }

  /** The answers one call of the tracker would get from the source chain, the APIs and the destination chain. */
  datatype Answers = Answers(
    message: Reply<MessageId>,
    vaa: Reply<Option<Vaa>>,
    enqueued: Reply<bool>,
    destinationTx: Reply<Option<TxId>>,
    complete: Reply<bool>,
    relay: Reply<Option<RelayStatus>>)

  function WithMessage(r: TokenReceipt, id: MessageId): TokenReceipt {
    r.(state := SourceFinalized, attestation := Some(AttestationReceipt(Some(id), None)))
  }

  function WithVaa(r: TokenReceipt, vaa: Vaa): TokenReceipt
    requires r.HasId()
  {
    r.(state := Attested, attestation := Some(AttestationReceipt(r.attestation.value.id, Some(vaa))))
  }

  function WithDestinationTx(r: TokenReceipt, tx: TxId): TokenReceipt {
    r.(state := DestinationInitiated, destinationTxs := Some([tx]))
  }

  function WithRelayFailure(r: TokenReceipt): TokenReceipt {
    r.(state := Failed, error := Some(RelayFailed))
  }

  /** The whole trace of one call: the origin, attestation, status, redemption and relay phases in turn. */
  function Run(r: TokenReceipt, a: Answers): Trace<MessageId, Vaa> {
    if r.state.SourceInitiated? then
      if r.originTxs == [] || a.message.Throws? then Thrown([])
      else
        var s := WithMessage(r, a.message.value);
        After([s], Attest(s, a))
    else if r.state.SourceFinalized? || r.state.InReview? then Attest(r, a)
    else Status(r, a)
  }

  /** Found or not, the attestation phase ends the call with an exception. */
  function Attest(r: TokenReceipt, a: Answers): Trace<MessageId, Vaa> {
    if !r.HasId() || a.vaa.Throws? then Thrown([])
    else if a.vaa.value.Some? then Thrown([WithVaa(r, a.vaa.value.value)])
    else if a.enqueued == Answer(true) then Thrown([r.(state := InReview)])
    else Thrown([])
  }

  function Status(r: TokenReceipt, a: Answers): Trace<MessageId, Vaa> {
    if !r.state.Attested? && !r.IsRelayFailed() then Redemption(r, a)
    else if !r.HasId() || a.destinationTx.Throws? then Thrown([])
    else
      var s := if a.destinationTx.value.Some? then WithDestinationTx(r, a.destinationTx.value.value) else r;
      After([s], Redemption(s, a))
  }

  function Redemption(r: TokenReceipt, a: Answers): Trace<MessageId, Vaa> {
    if !r.state.Attested? && !r.state.DestinationInitiated? && !r.IsRelayFailed() then Relay(r, a)
    else if !r.HasAttestation() || r.attestation.value.attestation.value.attestMeta || a.complete.Throws? then
      Thrown([])
    else
      var s := if a.complete.value then r.(state := DestinationFinalized) else r;
      After([s], Relay(s, a))
  }

  function Relay(r: TokenReceipt, a: Answers): Trace<MessageId, Vaa> {
    if !r.state.Attested? || !r.HasAttestation() || !r.attestation.value.attestation.value.executor then Finished([r])
    else if r.originTxs == [] || a.relay.Throws? || a.relay.value.None? then Thrown([])
    else if a.relay.value.value.IsFailure() then
      var s := WithRelayFailure(r);
      Finished([s, s])
    else Finished([r])
  }

  /** The generator itself, with the receipts it yields collected in order. */
  method Track(start: TokenReceipt, a: Answers) returns (shown: seq<TokenReceipt>, threw: bool)
    ensures Trace(shown, threw) == Run(start, a)
  {
    var receipt := start;
    shown := [];
    if receipt.state.SourceInitiated? {
      if |receipt.originTxs| == 0 { return shown, true; }
      if a.message.Throws? { return shown, true; }
      receipt := receipt.(state := SourceFinalized,
                          attestation := Some(AttestationReceipt(Some(a.message.value), None)));
      shown := shown + [receipt];
    }
    if receipt.state.SourceFinalized? || receipt.state.InReview? {
      if !receipt.HasId() { return shown, true; }
      var id := receipt.attestation.value.id;
      if a.vaa.Throws? { return shown, true; }
      if a.vaa.value.Some? {
        receipt := receipt.(attestation := Some(AttestationReceipt(id, a.vaa.value)), state := Attested);
        shown := shown + [receipt];
      } else {
        if a.enqueued.Throws? { return shown, true; }
        if a.enqueued.value {
          receipt := receipt.(state := InReview);
          shown := shown + [receipt];
        }
      }
      return shown, true;
    }
    if receipt.state.Attested? || receipt.state.SourceFinalized? || receipt.state.InReview? || receipt.IsRelayFailed() {
      if !receipt.HasId() { return shown, true; }
      if a.destinationTx.Throws? { return shown, true; }
      if a.destinationTx.value.Some? {
        receipt := receipt.(destinationTxs := Some([a.destinationTx.value.value]), state := DestinationInitiated);
      }
      shown := shown + [receipt];
    }
    if receipt.state.Attested? || receipt.state.DestinationInitiated? || receipt.IsRelayFailed() {
      if !receipt.HasAttestation() { return shown, true; }
      if receipt.attestation.value.attestation.value.attestMeta { return shown, true; }
      if a.complete.Throws? { return shown, true; }
      if a.complete.value {
        receipt := receipt.(state := DestinationFinalized);
      }
      shown := shown + [receipt];
    }
    if receipt.state.Attested? && receipt.attestation.value.attestation.value.executor {
      if receipt.originTxs == [] || a.relay.Throws? { return shown, true; }
      if a.relay.value.None? { return shown, true; }
      var relayStatus := a.relay.value.value;
      if relayStatus.RelayFailure? || relayStatus.Underpaid? || relayStatus.Unsupported? || relayStatus.Aborted? {
        receipt := receipt.(state := Failed, error := Some(RelayFailed));
        shown := shown + [receipt];
      }
    }
    shown := shown + [receipt];
    threw := false;
  }

  /** What the receipt types demand of each state, with a full attestation from Attested on. */
  predicate WellFormed(r: TokenReceipt) {
    match r.state
    case SourceFinalized => r.HasId()
    case InReview => r.HasId()
    case Attested => r.HasId() && r.HasAttestation()
    case Failed => r.HasId() && r.HasAttestation()
    case DestinationInitiated => r.HasId() && r.HasAttestation()
    case DestinationFinalized => r.HasId() && r.HasAttestation()
    case _ => true
  }

  /** What one receipt may become: it climbs, keeps its identity, and a finalized one is left alone. */
  predicate Progress(r: TokenReceipt, s: TokenReceipt) {
    && Climbs(r, s)
    && SameTransfer(r, s)
    && (r.HasId() ==> s.HasId())
    && (r.HasId() && !r.state.SourceInitiated? ==> SameMessage(r, s))
    && (r.state.Rank() >= Attested.Rank() ==> s.attestation == r.attestation)
    && (WellFormed(r) ==> WellFormed(s))
    && (r.state.DestinationFinalized? || r.state.Created? || r.state.Refunded? || r.state.DestinationQueued? ==> s == r)
  }

  /** The edges of the state machine: what a receipt becomes, and the answer that justifies it. */
  predicate Justified(a: Answers, p: TokenReceipt, s: TokenReceipt) {
    || s == p
    || (p.state.SourceInitiated? && a.message.Answer? && s == WithMessage(p, a.message.value))
    || ((p.state.SourceFinalized? || p.state.InReview?) && p.HasId() && a.vaa.Answer? && a.vaa.value.Some?
        && s == WithVaa(p, a.vaa.value.value))
    || ((p.state.SourceFinalized? || p.state.InReview?) && a.vaa == Answer(None) && a.enqueued == Answer(true)
        && s == p.(state := InReview))
    || ((p.state.Attested? || p.IsRelayFailed()) && p.HasId() && a.destinationTx.Answer? && a.destinationTx.value.Some?
        && s == WithDestinationTx(p, a.destinationTx.value.value))
    || ((p.state.Attested? || p.state.DestinationInitiated? || p.IsRelayFailed()) && p.HasAttestation()
        && SaysRedeemed(a) && s == p.(state := DestinationFinalized))
    || (p.state.Attested? && a.complete == Answer(false) && p.HasAttestation()
        && p.attestation.value.attestation.value.executor
        && a.relay.Answer? && a.relay.value.Some? && a.relay.value.value.IsFailure() && s == WithRelayFailure(p))
  }

  predicate SaysRedeemed(a: Answers) {
    a.complete == Answer(true)
  }

  lemma RelayJustified(r: TokenReceipt, a: Answers)
    requires r.state.Attested? ==> a.complete == Answer(false)
    ensures Linked([r] + Relay(r, a).shown, (p, s) => Justified(a, p, s))
  {
  }

  lemma RedemptionJustified(r: TokenReceipt, a: Answers)
    ensures Linked([r] + Redemption(r, a).shown, (p, s) => Justified(a, p, s))
  {
    if !r.state.Attested? && !r.state.DestinationInitiated? && !r.IsRelayFailed() {
      RelayJustified(r, a);
    } else if r.HasAttestation() && !r.attestation.value.attestation.value.attestMeta && a.complete.Answer? {
      var s := if a.complete.value then r.(state := DestinationFinalized) else r;
      RelayJustified(s, a);
      LinkedCons(r, [s] + Relay(s, a).shown, (p, s) => Justified(a, p, s));
    }
  }

  lemma StatusJustified(r: TokenReceipt, a: Answers)
    ensures Linked([r] + Status(r, a).shown, (p, s) => Justified(a, p, s))
  {
    if !r.state.Attested? && !r.IsRelayFailed() {
      RedemptionJustified(r, a);
    } else if r.HasId() && a.destinationTx.Answer? {
      var s := if a.destinationTx.value.Some? then WithDestinationTx(r, a.destinationTx.value.value) else r;
      RedemptionJustified(s, a);
      LinkedCons(r, [s] + Redemption(s, a).shown, (p, s) => Justified(a, p, s));
    }
  }

  /** Every receipt a call yields is reached from the one before it by a justified edge. */
  lemma CallJustified(r: TokenReceipt, a: Answers)
    ensures Linked([r] + Run(r, a).shown, (p, s) => Justified(a, p, s))
  {
    if r.state.SourceInitiated? {
      if r.originTxs != [] && a.message.Answer? {
        var s := WithMessage(r, a.message.value);
        LinkedCons(r, [s] + Attest(s, a).shown, (p, s) => Justified(a, p, s));
      }
    } else if !r.state.SourceFinalized? && !r.state.InReview? {
      StatusJustified(r, a);
    }
  }

  /**
   * And a call takes every edge that its answers justify. A submitted transfer gets its message id exactly when the
   * source chain gives one, and the call goes on from there as a call that starts there.
   */
  lemma CallFindsMessageIff(r: TokenReceipt, a: Answers)
    requires r.state.SourceInitiated?
    ensures r.originTxs != [] && a.message.Answer? ==>
              var s := r.(state := SourceFinalized,
                          attestation := Some(AttestationReceipt(Some(a.message.value), None)));
              Run(r, a) == Trace([s] + Run(s, a).shown, Run(s, a).threw)
    ensures r.originTxs == [] || a.message.Throws? ==> Run(r, a) == Trace([], true)
  {
  }

  /**
   * Before the attestation, a call attests exactly when the signed message is found, and puts the transfer in review
   * exactly when no message is found and the governor holds it; it shows nothing else, and always throws.
   */
  lemma CallAttestsIff(r: TokenReceipt, id: MessageId, a: Answers)
    requires r.state.SourceFinalized? || r.state.InReview?
    requires r.HasId() && r.attestation.value.id == Some(id)
    ensures var shown := Run(r, a).shown;
            && ((exists k | 0 <= k < |shown| :: shown[k].state.Attested?) <==> a.vaa.Answer? && a.vaa.value.Some?)
            && (a.vaa.Answer? && a.vaa.value.Some? ==>
                  shown == [r.(state := Attested, attestation := Some(AttestationReceipt(Some(id), a.vaa.value)))])
    ensures var shown := Run(r, a).shown;
            && ((exists k | 0 <= k < |shown| :: shown[k].state.InReview?)
                <==> a.vaa == Answer(None) && a.enqueued == Answer(true))
            && (a.vaa == Answer(None) ==> shown == if a.enqueued == Answer(true) then [r.(state := InReview)] else [])
    ensures Run(r, a).threw
  {
    if a.vaa.Answer? && a.vaa.value.Some? {
      assert Run(r, a).shown[0].state.Attested?;
    } else if a.vaa == Answer(None) && a.enqueued == Answer(true) {
      assert Run(r, a).shown[0].state.InReview?;
    }
  }

  /** A receipt with a message id and a signed message that moves tokens, past its attestation and not yet finalized. */
  predicate IsTrackable(r: TokenReceipt, id: MessageId, vaa: Vaa) {
    && (r.state.Attested? || r.state.DestinationInitiated? || (r.state.Failed? && r.error == Some(RelayFailed)))
    && r.attestation == Some(AttestationReceipt(Some(id), Some(vaa))) && !vaa.attestMeta
  }

  /** What becomes of such a receipt on the way: redeemed, if the status lookup knows the transaction. */
  function LookedUp(r: TokenReceipt, a: Answers): TokenReceipt {
    if !r.state.DestinationInitiated? && a.destinationTx.Answer? && a.destinationTx.value.Some? then
      r.(state := DestinationInitiated, destinationTxs := Some([a.destinationTx.value.value]))
    else r
  }

  /** The status lookup is made for every such receipt that is not redeemed, and throws. */
  predicate LookupThrows(r: TokenReceipt, a: Answers) {
    !r.state.DestinationInitiated? && a.destinationTx.Throws?
  }

  /** The relay of an attested executor transfer is asked about, after the lookup and the chain have denied it. */
  predicate AsksRelay(r: TokenReceipt, vaa: Vaa, a: Answers) {
    r.state.Attested? && vaa.executor && a.destinationTx == Answer(None) && a.complete == Answer(false)
  }

  predicate SaysRelayFailed(a: Answers) {
    || a.relay == Answer(Some(RelayFailure)) || a.relay == Answer(Some(Underpaid))
    || a.relay == Answer(Some(Unsupported)) || a.relay == Answer(Some(Aborted))
  }

  /**
   * A trackable transfer is shown redeemed exactly when the status lookup knows its destination transaction, and then
   * with that transaction.
   */
  lemma CallRedeemsIff(r: TokenReceipt, id: MessageId, vaa: Vaa, a: Answers)
    requires IsTrackable(r, id, vaa) && !r.state.DestinationInitiated?
    ensures (exists k | 0 <= k < |Run(r, a).shown| :: Run(r, a).shown[k].state.DestinationInitiated?)
            <==> a.destinationTx.Answer? && a.destinationTx.value.Some?
    ensures a.destinationTx.Answer? && a.destinationTx.value.Some? ==>
              && Run(r, a).shown != []
              && Run(r, a).shown[0] ==
                   r.(state := DestinationInitiated, destinationTxs := Some([a.destinationTx.value.value]))
  {
    if a.destinationTx.Answer? && a.destinationTx.value.Some? {
      assert Run(r, a).shown[0].state.DestinationInitiated?;
    }
  }

  /** It is shown finalized exactly when the destination chain says so, and the status lookup, if made, answers. */
  lemma CallFinalizesIff(r: TokenReceipt, id: MessageId, vaa: Vaa, a: Answers)
    requires IsTrackable(r, id, vaa)
    ensures var f := LookedUp(r, a).(state := DestinationFinalized);
            && ((exists k | 0 <= k < |Run(r, a).shown| :: Run(r, a).shown[k].state.DestinationFinalized?)
                <==> a.complete == Answer(true) && !LookupThrows(r, a))
            && (a.complete == Answer(true) && !LookupThrows(r, a) ==>
                  Run(r, a) == Trace((if r.state.DestinationInitiated? then [] else [LookedUp(r, a)]) + [f, f], false))
  {
    var s := LookedUp(r, a);
    if a.complete == Answer(true) && !LookupThrows(r, a) {
      var f := s.(state := DestinationFinalized);
      assert Redemption(s, a).shown == [f, f];
      assert Last(Run(r, a).shown) == f;
    }
  }

  /**
   * It is shown failed, with a relay error, exactly when it is an executor transfer that neither the lookup nor the
   * chain knows to be redeemed, and its relay has failed, was underpaid, is unsupported or was aborted.
   */
  lemma CallFailsIff(r: TokenReceipt, id: MessageId, vaa: Vaa, a: Answers)
    requires IsTrackable(r, id, vaa) && r.state.Attested?
    ensures (exists k | 0 <= k < |Run(r, a).shown| :: Run(r, a).shown[k].state.Failed?)
            <==> r.originTxs != [] && AsksRelay(r, vaa, a) && SaysRelayFailed(a)
    ensures r.originTxs != [] && AsksRelay(r, vaa, a) && SaysRelayFailed(a) ==>
              var f := r.(state := Failed, error := Some(RelayFailed)); Run(r, a) == Trace([r, r, f, f], false)
  {
    if r.originTxs != [] && AsksRelay(r, vaa, a) && SaysRelayFailed(a) {
      var f := r.(state := Failed, error := Some(RelayFailed));
      assert Relay(r, a).shown == [f, f];
      assert Redemption(r, a).shown == [r, f, f];
      assert Run(r, a).shown == [r, r, f, f];
      assert Run(r, a).shown[3].state.Failed?;
    }
  }

  /**
   * It throws exactly when the lookup or the chain does, or there is no status to be had of a relay it asks about, with
   * what was found until then shown.
   */
  lemma CallThrowsIff(r: TokenReceipt, id: MessageId, vaa: Vaa, a: Answers)
    requires IsTrackable(r, id, vaa)
    ensures Run(r, a).threw
            <==> || LookupThrows(r, a) || a.complete.Throws?
                 || (AsksRelay(r, vaa, a) && (r.originTxs == [] || a.relay == Throws || a.relay == Answer(None)))
    ensures Run(r, a).threw ==>
              Run(r, a).shown ==
                if LookupThrows(r, a) then []
                else if a.complete.Throws? then if r.state.DestinationInitiated? then [] else [LookedUp(r, a)]
                else [r, r]
  {
    if AsksRelay(r, vaa, a) {
      assert Run(r, a).shown == [r] + ([r] + Relay(r, a).shown);
    }
  }

  /**
   * And a call that neither finalizes it nor finds its relay failed, nor throws, ends with what the lookup made of it.
   */
  lemma CallLeavesPending(r: TokenReceipt, id: MessageId, vaa: Vaa, a: Answers)
    requires IsTrackable(r, id, vaa) && !Run(r, a).threw && a.complete == Answer(false)
    requires !(AsksRelay(r, vaa, a) && SaysRelayFailed(a))
    ensures var s := LookedUp(r, a);
            Run(r, a).shown == if r.state.DestinationInitiated? then [s, s] else [s, s, s]
  {
    var s := LookedUp(r, a);
    assert Relay(s, a) == Finished([s]);
    assert Redemption(s, a).shown == [s, s];
  }

  /**
   * An attestation of token metadata is looked up and then refused, and a receipt in any other state is left as it is.
   */
  lemma CallLeavesAlone(r: TokenReceipt, a: Answers)
    ensures r.state.Attested? && r.HasId() && r.HasAttestation() && r.attestation.value.attestation.value.attestMeta ==>
              Run(r, a) == Trace(if a.destinationTx.Throws? then [] else [LookedUp(r, a)], true)
    ensures var untracked := r.state.Created? || r.state.DestinationFinalized? || r.state.Refunded?
                             || r.state.DestinationQueued? || (r.state.Failed? && r.error != Some(RelayFailed));
            untracked ==> Run(r, a) == Trace([r], false)
  {
  }

  /** Every justified edge is progress. */
  lemma EdgeProgress(a: Answers, p: TokenReceipt, s: TokenReceipt)
    requires Justified(a, p, s)
    ensures Progress(p, s)
  {
  }

  lemma CallProgress(r: TokenReceipt, a: Answers)
    ensures Linked([r] + Run(r, a).shown, Progress)
  {
    CallJustified(r, a);
    var all := [r] + Run(r, a).shown;
    forall i {:trigger all[i]} | 0 < i < |all| ensures Progress(all[i - 1], all[i]) {
      EdgeProgress(a, all[i - 1], all[i]);
    }
  }

  lemma SessionsLinked(r: TokenReceipt, calls: seq<Call<Answers>>)
    ensures Linked(History(Run, r, calls), Progress)
  {
    forall s, n ensures Linked([s] + Run(s, n).shown, Progress) {
      CallProgress(s, n);
    }
    SessionLinked(Run, Progress, r, calls);
  }

  /** A created receipt is not tracked at all. */
  lemma CreatedStays(rs: seq<TokenReceipt>)
    requires rs != [] && Linked(rs, Progress) && rs[0].state.Created?
    ensures Last(rs) == rs[0]
  {
    LinkedKeeps(rs, Progress, (s: TokenReceipt) => s == rs[0], 0, |rs| - 1);
  }

  lemma ProgressClimbs(rs: seq<TokenReceipt>)
    requires Linked(rs, Progress)
    ensures Linked(rs, Climbs)
  {
    forall i {:trigger rs[i]} | 0 < i < |rs| ensures Climbs(rs[i - 1], rs[i]) {
      assert Progress(rs[i - 1], rs[i]);
    }
  }

  /** Progress along a whole history: at most six changes of state, and ranks never fall. */
  lemma ProgressBounds(rs: seq<TokenReceipt>)
    requires rs != [] && Linked(rs, Progress)
    ensures StateChanges(rs) <= 6
    ensures forall i, j | 0 <= i <= j < |rs| :: rs[i].state.Rank() <= rs[j].state.Rank()
  {
    ProgressClimbs(rs);
    ChangesCostRank(rs);
    if rs[0].state.Created? {
      CreatedStays(rs);
    }
    forall i, j | 0 <= i <= j < |rs| ensures rs[i].state.Rank() <= rs[j].state.Rank() {
      RanksNeverFall(rs, i, j);
    }
  }

  /**
   * Every session of calls, whatever is answered, wherever it throws and whenever the consumer leaves:
   * the receipt only makes progress, its state changes at most six times, and ranks never fall.
   */
  lemma SessionsProgress(r: TokenReceipt, calls: seq<Call<Answers>>)
    ensures Linked(History(Run, r, calls), Progress)
    ensures StateChanges(History(Run, r, calls)) <= 6
    ensures forall i, j | 0 <= i <= j < |History(Run, r, calls)| ::
              History(Run, r, calls)[i].state.Rank() <= History(Run, r, calls)[j].state.Rank()
  {
    SessionsLinked(r, calls);
    ProgressBounds(History(Run, r, calls));
  }

  lemma ProgressIsPreorder(r: TokenReceipt, s: TokenReceipt, t: TokenReceipt)
    ensures Progress(r, r)
    ensures Progress(r, s) && Progress(s, t) ==> Progress(r, t)
  {
  }

  /** In a session of calls every receipt has made progress since every earlier one. */
  lemma SessionsProgressAlong(r: TokenReceipt, calls: seq<Call<Answers>>, i: nat, j: nat)
    requires i <= j < |History(Run, r, calls)|
    ensures Progress(History(Run, r, calls)[i], History(Run, r, calls)[j])
  {
    SessionsLinked(r, calls);
    forall x, y, z ensures Progress(x, x) && (Progress(x, y) && Progress(y, z) ==> Progress(x, z)) {
      ProgressIsPreorder(x, y, z);
    }
    LinkedPreorder(History(Run, r, calls), Progress, i, j);
  }

  /**
   * The parts of a receipt that identify the transfer never change in a session, nor does a message id that a receipt
   * past the initiated state has, whether the session began with it or came to it.
   */
  lemma SessionsKeepIdentity(r: TokenReceipt, calls: seq<Call<Answers>>, i: nat, j: nat)
    requires i <= j < |History(Run, r, calls)|
    ensures var rs := History(Run, r, calls);
            && SameTransfer(r, rs[j]) && SameTransfer(rs[i], rs[j])
            && (rs[i].HasId() && !rs[i].state.SourceInitiated? ==> SameMessage(rs[i], rs[j]))
  {
    SessionsProgressAlong(r, calls, i, j);
    SessionsProgressAlong(r, calls, 0, j);
  }

  /**
   * From a well-formed receipt, every receipt of a session that is attested, failed, redeemed or finalized
   * holds a full attestation, and the attestation it holds is final.
   */
  lemma SessionsStayWellFormed(r: TokenReceipt, calls: seq<Call<Answers>>, i: nat, j: nat)
    requires WellFormed(r) && i <= j < |History(Run, r, calls)|
    ensures WellFormed(History(Run, r, calls)[i])
    ensures var rs := History(Run, r, calls);
            rs[i].state.Rank() >= Attested.Rank() ==> rs[j].attestation == rs[i].attestation
    ensures var rs := History(Run, r, calls);
            rs[i].state.DestinationFinalized? ==> rs[j] == rs[i]
  {
    SessionsProgressAlong(r, calls, 0, i);
    SessionsProgressAlong(r, calls, i, j);
  }

  /** A call shows a new finalized receipt only if the destination chain answered true. */
  lemma CallFinalizesOnlyIfRedeemed(r: TokenReceipt, a: Answers, k: nat)
    requires k < |Run(r, a).shown| && Run(r, a).shown[k].state.DestinationFinalized?
    ensures Run(r, a).shown[k] == r || SaysRedeemed(a)
  {
    CallJustified(r, a);
    if !SaysRedeemed(a) {
      LinkedKeeps([r] + Run(r, a).shown, (p, s) => Justified(a, p, s),
        (s: TokenReceipt) => s.state.DestinationFinalized? ==> s == r, 0, k + 1);
    }
  }

  /**
   * A finalized receipt of a session was first shown, no later, by a call that started from a receipt that was not
   * finalized and was told by the destination chain that the transfer is complete.
   */
  lemma FinalizedOnlyIfRedeemed(r: TokenReceipt, calls: seq<Call<Answers>>, i: nat) returns (c: nat, k: nat, p: nat)
    requires i < |History(Run, r, calls)| && History(Run, r, calls)[i].state.DestinationFinalized?
    requires !r.state.DestinationFinalized?
    ensures p <= i && IsShownBy(Run, r, calls, c, k, p) && History(Run, r, calls)[p] == History(Run, r, calls)[i]
    ensures SaysRedeemed(calls[c].answers)
  {
    c, k, p := FinalizedByACall(Run, r, calls, i);
    CallFinalizesOnlyIfRedeemed(Last(History(Run, r, calls[..c])), calls[c].answers, k);
    SessionsProgressAlong(r, calls, p, i);
  }

  /**
   * A call that starts before the attestation ends by throwing, whatever is answered, and never shows more than
   * an attested receipt.
   */
  lemma SourceCallThrows(r: TokenReceipt, a: Answers)
    requires r.state.SourceInitiated? || r.state.SourceFinalized? || r.state.InReview?
    ensures Run(r, a).threw
    ensures forall i | 0 <= i < |Run(r, a).shown| :: Run(r, a).shown[i].state.Rank() <= Attested.Rank()
  {
  }

  /** Whenever the consumer leaves it, one call takes such a transfer to its attestation at most. */
  lemma OneCallEndsAttested(r: TokenReceipt, c: Call<Answers>)
    requires r.state.SourceInitiated? || r.state.SourceFinalized? || r.state.InReview?
    ensures Last(History(Run, r, [c])).state.Rank() <= Attested.Rank()
  {
    SourceCallThrows(r, c.answers);
    LastOfSession(Run, r, c, []);
    assert [c] + [] == [c];
    var seen := Seen(Run, r, c);
    assert |seen| > 1 ==> Last(seen) == Run(r, c.answers).shown[|seen| - 2];
  }

  /** Good answers take an initiated receipt to its attestation in one call, and to the end in another. */
  lemma GoodAnswers(r: TokenReceipt, id: MessageId, vaa: Vaa) returns (c: Call<Answers>)
    requires r.originTxs != [] && !vaa.attestMeta
    ensures r.state.SourceInitiated? ==> Last(Seen(Run, r, c)) == WithVaa(WithMessage(r, id), vaa)
    ensures r.state.Attested? && r.attestation == Some(AttestationReceipt(Some(id), Some(vaa))) ==>
              Last(Seen(Run, r, c)).state.DestinationFinalized?
  {
    c := Call(Answers(Answer(id), Answer(Some(vaa)), Answer(false), Answer(None), Answer(true), Throws), 9);
    if r.state.SourceInitiated? {
      assert Run(r, c.answers).shown == [WithMessage(r, id), WithVaa(WithMessage(r, id), vaa)];
    } else if r.state.Attested? && r.attestation == Some(AttestationReceipt(Some(id), Some(vaa))) {
      var s := r.(state := DestinationFinalized);
      assert Relay(s, c.answers).shown == [s];
      assert Redemption(r, c.answers).shown == [s, s];
      assert Run(r, c.answers).shown == [r, s, s];
    }
  }

  /** So one call leaves a transfer on its source side attested at most, but two calls can take it to the end. */
  lemma TwoCallsFinalize(r: TokenReceipt, id: MessageId, vaa: Vaa) returns (c: Call<Answers>, d: Call<Answers>)
    requires r.state.SourceInitiated? && r.originTxs != [] && !vaa.attestMeta
    ensures Last(History(Run, r, [c])).state.Rank() <= Attested.Rank()
    ensures Last(History(Run, r, [c, d])).state.DestinationFinalized?
  {
    c := GoodAnswers(r, id, vaa);
    OneCallEndsAttested(r, c);
    var s := Last(Seen(Run, r, c));
    d := GoodAnswers(s, id, vaa);
    LastOfSession(Run, r, c, [d]);
    LastOfSession(Run, s, d, []);
    assert [c] + [d] == [c, d] && [d] + [] == [d];
  }
}
