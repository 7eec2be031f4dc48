/** The receipt tracker of Circle (CCTP) transfers (connect/src/protocols/cctp/cctpTransfer.ts, `track`). */
module CircleTracker {
  import opened Prelude
  import opened Receipts

  type Message = nat

  datatype CircleOrWormholeId = CircleId(hash: string) | WormholeId(sequence: nat)

  /** A Circle message with its signature once there is one, or the signed message of an automatic relay. */
  datatype Attestation = CircleAttestation(message: Message, signature: Option<string>) | RelayVaa(digest: nat)

  type CircleReceipt = Receipt<CircleOrWormholeId, Attestation>

  /** The Circle message logged by a source transaction. */
  datatype TransferMessage = TransferMessage(hash: string, message: Message)

  datatype Answers = Answers(
    details: TxId -> Reply<TransferMessage>,
    vaa: Reply<nat>,
    signature: Reply<Option<string>>,
    destinationTx: Reply<Option<TxId>>,
    isCompleted: Message -> Reply<bool>)

  /** JavaScript takes a missing and an empty string alike. */
  predicate Truthy(s: Option<string>) {
    s.Some? && s.value != ""
  }

  function WithMessage(r: CircleReceipt, m: TransferMessage): CircleReceipt {
    r.(state := SourceFinalized,
       attestation := Some(AttestationReceipt(Some(CircleId(m.hash)), Some(CircleAttestation(m.message, None)))))
  }

  function WithAttestation(r: CircleReceipt, att: Attestation): CircleReceipt
    requires r.HasId()
  {
    r.(state := Attested, attestation := Some(AttestationReceipt(r.attestation.value.id, Some(att))))
  }

  function WithDestinationTx(r: CircleReceipt, tx: TxId): CircleReceipt {
    r.(state := DestinationInitiated, destinationTxs := Some([tx]))
  }

  /** The last step forgets the destination transactions. */
  function WithCompletion(r: CircleReceipt): CircleReceipt {
    r.(state := DestinationFinalized, destinationTxs := Some([]))
  }

  predicate IsWormhole(r: CircleReceipt) {
    r.HasId() && r.attestation.value.id.value.WormholeId?
  }

  predicate IsCircle(r: CircleReceipt) {
    r.HasId() && r.attestation.value.id.value.CircleId?
  }

  predicate HasMessage(r: CircleReceipt) {
    r.HasAttestation() && r.attestation.value.attestation.value.CircleAttestation?
  }

  function MessageOf(r: CircleReceipt): Message
    requires HasMessage(r)
  {
    r.attestation.value.attestation.value.message
  }

  /** The whole trace of one call: the origin, attestation, status and redemption phases in turn. */
  function Run(r: CircleReceipt, a: Answers): Trace<CircleOrWormholeId, Attestation> {
    if !r.state.SourceInitiated? then Attest(r, a)
    else if r.originTxs == [] || a.details(Last(r.originTxs)).Throws? then Thrown([])
    else
      var s := WithMessage(r, a.details(Last(r.originTxs)).value);
      After([s], Attest(s, a))
  }

  function Attest(r: CircleReceipt, a: Answers): Trace<CircleOrWormholeId, Attestation> {
    if !r.state.SourceFinalized? then Status(r, a)
    else if !r.HasId() then Thrown([])
    else if IsWormhole(r) then
      if r.HasAttestation() then Status(r, a)
      else if a.vaa.Throws? then Thrown([])
      else
        var s := WithAttestation(r, RelayVaa(a.vaa.value));
        After([s], Status(s, a))
    else if a.signature.Throws? || r.originTxs == [] || a.details(Last(r.originTxs)).Throws? then Thrown([])
    else if !Truthy(a.signature.value) then Status(r, a)
    else
      var s := WithAttestation(r, CircleAttestation(a.details(Last(r.originTxs)).value.message, a.signature.value));
      After([s], Status(s, a))
  }

  function Status(r: CircleReceipt, a: Answers): Trace<CircleOrWormholeId, Attestation> {
    if !r.state.Attested? && !r.state.SourceFinalized? then Redemption(r, a)
    else if !r.HasId() then Thrown([])
    else if !IsWormhole(r) then Redemption(r, a)
    else if a.destinationTx.Throws? then Thrown([])
    else if a.destinationTx.value.None? then Redemption(r, a)
    else
      var s := WithDestinationTx(r, a.destinationTx.value.value);
      After([s], Redemption(s, a))
  }

  function Redemption(r: CircleReceipt, a: Answers): Trace<CircleOrWormholeId, Attestation> {
    if !r.state.Attested? && !r.state.DestinationInitiated? then Finished([])
    else if !HasMessage(r) || a.isCompleted(MessageOf(r)).Throws? then Thrown([])
    else Finished([if a.isCompleted(MessageOf(r)).value then WithCompletion(r) else r])
  }

  /** The generator itself, with the receipts it yields collected in order. */
  method Track(start: CircleReceipt, a: Answers) returns (shown: seq<CircleReceipt>, threw: bool)
    ensures Trace(shown, threw) == Run(start, a)
  {
    var receipt := start;
    shown := [];
    if receipt.state.SourceInitiated? {
      if |receipt.originTxs| == 0 { return shown, true; }
      var initTx := receipt.originTxs[|receipt.originTxs| - 1];
      var msg := a.details(initTx);
      if msg.Throws? { return shown, true; }
      var id := CircleId(msg.value.hash);
      receipt := receipt.(
        attestation := Some(AttestationReceipt(Some(id), Some(CircleAttestation(msg.value.message, None)))),
        state := SourceFinalized);
      shown := shown + [receipt];
    }
    if receipt.state.SourceFinalized? {
      if receipt.attestation.None? || receipt.attestation.value.id.None? { return shown, true; }
      var id := receipt.attestation.value.id.value;
      if id.WormholeId? {
        if receipt.attestation.value.attestation.None? {
          if a.vaa.Throws? { return shown, true; }
          receipt := receipt.(
            attestation := Some(AttestationReceipt(Some(id), Some(RelayVaa(a.vaa.value)))), state := Attested);
          shown := shown + [receipt];
        }
      } else {
        if a.signature.Throws? { return shown, true; }
        if |receipt.originTxs| == 0 { return shown, true; }
        var message := a.details(receipt.originTxs[|receipt.originTxs| - 1]);
        if message.Throws? { return shown, true; }
        if Truthy(a.signature.value) {
          var signed := CircleAttestation(message.value.message, a.signature.value);
          receipt := receipt.(attestation := Some(AttestationReceipt(Some(id), Some(signed))), state := Attested);
          shown := shown + [receipt];
        }
      }
    }
    if receipt.state.Attested? || receipt.state.SourceFinalized? {
      if receipt.attestation.None? || receipt.attestation.value.id.None? { return shown, true; }
      if receipt.attestation.value.id.value.WormholeId? {
        if a.destinationTx.Throws? { return shown, true; }
        if a.destinationTx.value.Some? {
          receipt := receipt.(destinationTxs := Some([a.destinationTx.value.value]), state := DestinationInitiated);
          shown := shown + [receipt];
        }
      }
    }
    if receipt.state.Attested? || receipt.state.DestinationInitiated? {
      if !HasMessage(receipt) { return shown, true; }
      var isComplete := a.isCompleted(MessageOf(receipt));
      if isComplete.Throws? { return shown, true; }
      if isComplete.value {
        receipt := receipt.(state := DestinationFinalized, destinationTxs := Some([]));
      }
      shown := shown + [receipt];
    }
    threw := false;
  }

  /** A full attestation is of the kind its id calls for: a signed Circle message, or a relay's signed message. */
  predicate Full(r: CircleReceipt) {
    && r.HasId() && r.HasAttestation()
    && match r.attestation.value.attestation.value
       case CircleAttestation(_, signature) => IsCircle(r) && Truthy(signature)
       case RelayVaa(_) => IsWormhole(r)
  }

  predicate WellFormed(r: CircleReceipt) {
    match r.state
    case SourceFinalized => r.HasId() && (IsWormhole(r) && r.HasAttestation() ==> !HasMessage(r))
    case Attested => Full(r)
    case Failed => Full(r)
    case DestinationInitiated => Full(r)
    case DestinationFinalized => Full(r)
    case _ => true
  }

  predicate Tracked(s: TransferState) {
    s.SourceInitiated? || s.SourceFinalized? || s.Attested? || s.DestinationInitiated?
  }

  /** The edges of the state machine: what a receipt becomes, and the answer that justifies it. */
  predicate Justified(a: Answers, p: CircleReceipt, s: CircleReceipt) {
    || s == p
    || (p.state.SourceInitiated? && p.originTxs != [] && a.details(Last(p.originTxs)).Answer?
        && s == WithMessage(p, a.details(Last(p.originTxs)).value))
    || (p.state.SourceFinalized? && IsWormhole(p) && !p.HasAttestation() && a.vaa.Answer?
        && s == WithAttestation(p, RelayVaa(a.vaa.value)))
    || (p.state.SourceFinalized? && IsCircle(p) && p.originTxs != [] && a.details(Last(p.originTxs)).Answer?
        && a.signature.Answer? && Truthy(a.signature.value)
        && s == WithAttestation(p, CircleAttestation(a.details(Last(p.originTxs)).value.message, a.signature.value)))
    || ((p.state.Attested? || (p.state.SourceFinalized? && p.HasAttestation())) && IsWormhole(p)
        && a.destinationTx.Answer? && a.destinationTx.value.Some?
        && s == WithDestinationTx(p, a.destinationTx.value.value))
    || ((p.state.Attested? || p.state.DestinationInitiated?) && SaysRedeemed(a, p) && s == WithCompletion(p))
  }

  predicate SaysRedeemed(a: Answers, r: CircleReceipt) {
    HasMessage(r) && a.isCompleted(MessageOf(r)) == Answer(true)
  }

  lemma RedemptionJustified(r: CircleReceipt, a: Answers)
    ensures Linked([r] + Redemption(r, a).shown, (p, s) => Justified(a, p, s))
  {
  }

  lemma StatusJustified(r: CircleReceipt, a: Answers)
    requires r.state.SourceFinalized? && IsWormhole(r) ==> r.HasAttestation()
    ensures Linked([r] + Status(r, a).shown, (p, s) => Justified(a, p, s))
  {
    if r.state.Attested? || r.state.SourceFinalized? {
      if IsWormhole(r) && a.destinationTx.Answer? && a.destinationTx.value.Some? {
        var s := WithDestinationTx(r, a.destinationTx.value.value);
        RedemptionJustified(s, a);
        LinkedCons(r, [s] + Redemption(s, a).shown, (p, s) => Justified(a, p, s));
      }
    }
  }

  lemma AttestJustified(r: CircleReceipt, a: Answers)
    ensures Linked([r] + Attest(r, a).shown, (p, s) => Justified(a, p, s))
  {
    if !r.state.SourceFinalized? {
      StatusJustified(r, a);
    } else if r.HasId() && (IsWormhole(r) ==> r.HasAttestation()) && Attest(r, a) == Status(r, a) {
      StatusJustified(r, a);
    } else if Attest(r, a).shown != [] {
      var s := Attest(r, a).shown[0];
      StatusJustified(s, a);
      LinkedCons(r, [s] + Status(s, a).shown, (p, s) => Justified(a, p, s));
    }
  }

  /** Every receipt a call yields is reached from the one before it by a justified edge. */
  lemma CallJustified(r: CircleReceipt, a: Answers)
    ensures Linked([r] + Run(r, a).shown, (p, s) => Justified(a, p, s))
  {
    if !r.state.SourceInitiated? {
      AttestJustified(r, a);
    } else if r.originTxs != [] && a.details(Last(r.originTxs)).Answer? {
      var s := WithMessage(r, a.details(Last(r.originTxs)).value);
      AttestJustified(s, a);
      LinkedCons(r, [s] + Attest(s, a).shown, (p, s) => Justified(a, p, s));
    }
  }

  /**
   * And a call takes every edge that its answers justify. A submitted transfer gets its message exactly when its last
   * source transaction can be read, and the call goes on from there as a call that starts there.
   */
  lemma CallFindsMessageIff(r: CircleReceipt, a: Answers)
    requires r.state.SourceInitiated?
    ensures r.originTxs != [] && a.details(Last(r.originTxs)).Answer? ==>
              var found := a.details(Last(r.originTxs)).value;
              var att := AttestationReceipt(Some(CircleId(found.hash)), Some(CircleAttestation(found.message, None)));
              var s := r.(state := SourceFinalized, attestation := Some(att));
              Run(r, a) == Trace([s] + Run(s, a).shown, Run(s, a).threw)
    ensures r.originTxs == [] || a.details(Last(r.originTxs)).Throws? ==> Run(r, a) == Trace([], true)
  {
  }

  /**
   * A transfer with the id of a Circle message is attested, with the message that its last source transaction logged
   * and the signature fetched, exactly when there is a signature that is not empty; then the call goes on from there.
   */
  lemma CallAttestsIff(r: CircleReceipt, hash: string, a: Answers)
    requires r.state.SourceFinalized? && r.HasId() && r.attestation.value.id == Some(CircleId(hash))
    ensures var answered := r.originTxs != [] && a.details(Last(r.originTxs)).Answer? && a.signature.Answer?;
            var signed := answered && a.signature.value != None && a.signature.value != Some("");
            && ((exists k | 0 <= k < |Run(r, a).shown| :: Run(r, a).shown[k].state.Attested?) <==> signed)
            && (signed ==>
                  var att := CircleAttestation(a.details(Last(r.originTxs)).value.message, a.signature.value);
                  var s := r.(state := Attested,
                              attestation := Some(AttestationReceipt(Some(CircleId(hash)), Some(att))));
                  Run(r, a) == Trace([s] + Run(s, a).shown, Run(s, a).threw))
            && (!signed ==> Run(r, a) == Trace([], !answered))
  {
    if Run(r, a).shown != [] {
      assert Run(r, a).shown[0].state.Attested?;
    }
  }

  /** One with the id of a relay's message is attested exactly when that message was missing and is found. */
  lemma RelayAttestsIff(r: CircleReceipt, sequence: nat, a: Answers)
    requires r.state.SourceFinalized? && r.HasId() && r.attestation.value.id == Some(WormholeId(sequence))
    ensures (exists k | 0 <= k < |Run(r, a).shown| :: Run(r, a).shown[k].state.Attested?)
            <==> r.attestation.value.attestation.None? && a.vaa.Answer?
    ensures r.attestation.value.attestation.None? && a.vaa.Answer? ==>
              var att := AttestationReceipt(Some(WormholeId(sequence)), Some(RelayVaa(a.vaa.value)));
              var s := r.(state := Attested, attestation := Some(att));
              Run(r, a) == Trace([s] + Run(s, a).shown, Run(s, a).threw)
    ensures r.attestation.value.attestation.None? && a.vaa.Throws? ==> Run(r, a) == Trace([], true)
  {
    if r.attestation.value.attestation.None? && a.vaa.Answer? {
      assert Run(r, a).shown[0].state.Attested?;
    }
  }

  /**
   * With that message in hand, a relayed transfer is shown redeemed exactly when the status lookup knows its
   * destination transaction, and then with that transaction.
   */
  lemma RelayRedeemsIff(r: CircleReceipt, sequence: nat, digest: nat, a: Answers)
    requires r.state.SourceFinalized? || r.state.Attested?
    requires r.attestation == Some(AttestationReceipt(Some(WormholeId(sequence)), Some(RelayVaa(digest))))
    ensures (exists k | 0 <= k < |Run(r, a).shown| :: Run(r, a).shown[k].state.DestinationInitiated?)
            <==> a.destinationTx.Answer? && a.destinationTx.value.Some?
    ensures a.destinationTx.Answer? && a.destinationTx.value.Some? ==>
              var s := r.(state := DestinationInitiated, destinationTxs := Some([a.destinationTx.value.value]));
              Run(r, a) == Trace([s], true)
    ensures a.destinationTx == Answer(None) ==> Run(r, a) == Trace([], r.state.Attested?)
    ensures a.destinationTx.Throws? ==> Run(r, a) == Trace([], true)
  {
    if a.destinationTx.Answer? && a.destinationTx.value.Some? {
      assert Run(r, a).shown[0].state.DestinationInitiated?;
    }
  }

  /** A transfer with a Circle message, attested or redeemed, ends just as its destination chain answers. */
  lemma CallFinalizesIff(r: CircleReceipt, hash: string, m: Message, signature: Option<string>, a: Answers)
    requires r.state.Attested? || r.state.DestinationInitiated?
    requires r.attestation == Some(AttestationReceipt(Some(CircleId(hash)), Some(CircleAttestation(m, signature))))
    ensures a.isCompleted(m) == Answer(true)
            <==> Run(r, a) == Trace([r.(state := DestinationFinalized, destinationTxs := Some([]))], false)
    ensures a.isCompleted(m) == Answer(false) <==> Run(r, a) == Trace([r], false)
    ensures a.isCompleted(m) == Throws <==> Run(r, a) == Trace([], true)
  {
    assert Run(r, a) == Redemption(r, a);
    assert [r.(state := DestinationFinalized, destinationTxs := Some([]))][0] != [r][0];
  }

  /** So one call with good answers takes a submitted transfer all the way, in these three steps. */
  lemma OneCallFinalizes(r: CircleReceipt, found: TransferMessage, signature: string, a: Answers)
    requires r.state.SourceInitiated? && r.originTxs != [] && a.details(Last(r.originTxs)) == Answer(found)
    requires a.signature == Answer(Some(signature)) && signature != "" && a.isCompleted(found.message) == Answer(true)
    ensures var id := Some(CircleId(found.hash));
            var bare := CircleAttestation(found.message, None);
            var signed := CircleAttestation(found.message, Some(signature));
            Run(r, a) == Trace(
              [r.(state := SourceFinalized, attestation := Some(AttestationReceipt(id, Some(bare)))),
               r.(state := Attested, attestation := Some(AttestationReceipt(id, Some(signed)))),
               r.(state := DestinationFinalized, attestation := Some(AttestationReceipt(id, Some(signed))),
                  destinationTxs := Some([]))], false)
  {
    var id := Some(CircleId(found.hash));
    var s := r.(state := SourceFinalized,
                attestation := Some(AttestationReceipt(id, Some(CircleAttestation(found.message, None)))));
    var signed := CircleAttestation(found.message, Some(signature));
    var t := s.(state := Attested, attestation := Some(AttestationReceipt(id, Some(signed))));
    CallFindsMessageIff(r, a);
    CallAttestsIff(s, found.hash, a);
    CallFinalizesIff(t, found.hash, found.message, Some(signature), a);
    assert Run(s, a).shown == [t, t.(state := DestinationFinalized, destinationTxs := Some([]))];
  }

  /** A receipt in any other state is left as it is, and one without an id throws where it needs one. */
  lemma CallLeavesAlone(r: CircleReceipt, a: Answers)
    ensures !Tracked(r.state) ==> Run(r, a) == Trace([], false)
    ensures (r.state.SourceFinalized? || r.state.Attested?) && !r.HasId() ==> Run(r, a) == Trace([], true)
    ensures (r.state.Attested? || r.state.DestinationInitiated?) && !r.HasAttestation() && IsCircle(r) ==>
              Run(r, a) == Trace([], true)
  {
  }

  /** What one receipt may become: it climbs, keeps its identity, and one outside the tracked states is left alone. */
  predicate Progress(r: CircleReceipt, s: CircleReceipt) {
    && Climbs(r, s)
    && SameTransfer(r, s)
    && (r.HasId() && !r.state.SourceInitiated? ==> SameMessage(r, s))
    && (r.state.Rank() >= Attested.Rank() ==> s.attestation == r.attestation)
    && (WellFormed(r) ==> WellFormed(s))
    && (!Tracked(r.state) ==> s == r)
  }

  /** Every justified edge is progress. */
  lemma EdgeProgress(a: Answers, p: CircleReceipt, s: CircleReceipt)
    requires Justified(a, p, s)
    ensures Progress(p, s)
  {
  }

  lemma CallProgress(r: CircleReceipt, a: Answers)
    ensures Linked([r] + Run(r, a).shown, Progress)
  {
    CallJustified(r, a);
    var all := [r] + Run(r, a).shown;
    forall i {:trigger all[i]} | 0 < i < |all| ensures Progress(all[i - 1], all[i]) {
      EdgeProgress(a, all[i - 1], all[i]);
    }
  }

  lemma SessionsLinked(r: CircleReceipt, calls: seq<Call<Answers>>)
    ensures Linked(History(Run, r, calls), Progress)
  {
    forall s, n ensures Linked([s] + Run(s, n).shown, Progress) {
      CallProgress(s, n);
    }
    SessionLinked(Run, Progress, r, calls);
  }

  lemma ProgressIsPreorder(r: CircleReceipt, s: CircleReceipt, t: CircleReceipt)
    ensures Progress(r, r)
    ensures Progress(r, s) && Progress(s, t) ==> Progress(r, t)
  {
  }

  /**
   * Every session of calls, between any two of its receipts: the state stays or rises in rank, the transfer and any
   * message id keep their identity, well-formedness is kept, an attestation once full is final, and a finalized receipt
   * never changes.
   */
  lemma SessionsProgress(r: CircleReceipt, calls: seq<Call<Answers>>, i: nat, j: nat)
    requires i <= j < |History(Run, r, calls)|
    ensures Progress(History(Run, r, calls)[i], History(Run, r, calls)[j])
    ensures SameTransfer(r, History(Run, r, calls)[j])
    ensures WellFormed(r) ==> WellFormed(History(Run, r, calls)[j])
  {
    SessionsLinked(r, calls);
    forall x, y, z ensures Progress(x, x) && (Progress(x, y) && Progress(y, z) ==> Progress(x, z)) {
      ProgressIsPreorder(x, y, z);
    }
    LinkedPreorder(History(Run, r, calls), Progress, i, j);
    LinkedPreorder(History(Run, r, calls), Progress, 0, j);
  }

  /** A call shows a new finalized receipt only if the destination chain answered true for its message. */
  lemma CallFinalizesOnlyIfRedeemed(r: CircleReceipt, a: Answers, k: nat)
    requires k < |Run(r, a).shown| && Run(r, a).shown[k].state.DestinationFinalized?
    ensures Run(r, a).shown[k] == r || SaysRedeemed(a, Run(r, a).shown[k])
  {
    CallJustified(r, a);
    LinkedKeeps([r] + Run(r, a).shown, (p, s) => Justified(a, p, s),
      (s: CircleReceipt) => s.state.DestinationFinalized? ==> s == r || SaysRedeemed(a, s), 0, k + 1);
  }

  /**
   * A finalized receipt of a session was first shown, no later, by a call that started from a receipt that was not
   * finalized and was told by the destination chain that its message is completed.
   */
  lemma FinalizedOnlyIfRedeemed(r: CircleReceipt, calls: seq<Call<Answers>>, i: nat) returns (c: nat, k: nat, p: nat)
    requires i < |History(Run, r, calls)| && History(Run, r, calls)[i].state.DestinationFinalized?
    requires !r.state.DestinationFinalized?
    ensures p <= i && IsShownBy(Run, r, calls, c, k, p) && History(Run, r, calls)[p] == History(Run, r, calls)[i]
    ensures SaysRedeemed(calls[c].answers, History(Run, r, calls)[i])
  {
    c, k, p := FinalizedByACall(Run, r, calls, i);
    CallFinalizesOnlyIfRedeemed(Last(History(Run, r, calls[..c])), calls[c].answers, k);
    SessionsProgress(r, calls, p, i);
  }

  /** A transfer relayed by Wormhole, not yet finalized. */
  predicate Relayed(r: CircleReceipt) {
    && WellFormed(r) && IsWormhole(r)
    && (r.state.SourceFinalized? || r.state.Attested? || r.state.DestinationInitiated?)
  }

  /** Although the tracker's comment promises a receipt of the end, no session finalizes a relayed transfer. */
  lemma RelayedNeverFinalizes(r: CircleReceipt, calls: seq<Call<Answers>>, j: nat)
    requires Relayed(r) && j < |History(Run, r, calls)|
    ensures !History(Run, r, calls)[j].state.DestinationFinalized?
  {
    forall s, n ensures Linked([s] + Run(s, n).shown, KeepsRelayed) {
      CallJustified(s, n);
      var all := [s] + Run(s, n).shown;
      forall i {:trigger all[i]} | 0 < i < |all| ensures KeepsRelayed(all[i - 1], all[i]) {
        RelayedEdge(n, all[i - 1], all[i]);
      }
    }
    SessionLinked(Run, KeepsRelayed, r, calls);
    LinkedKeeps(History(Run, r, calls), KeepsRelayed, Relayed, 0, j);
  }

  predicate KeepsRelayed(r: CircleReceipt, s: CircleReceipt) {
    Relayed(r) ==> Relayed(s)
  }

  lemma RelayedEdge(a: Answers, p: CircleReceipt, s: CircleReceipt)
    requires Justified(a, p, s)
    ensures KeepsRelayed(p, s)
  {
  }

  /** Any call that meets a relayed transfer attested or redeemed ends by throwing. */
  lemma RelayedCallThrows(r: CircleReceipt, a: Answers)
    requires Relayed(r) && !r.state.SourceFinalized?
    ensures Run(r, a).threw
  {
  }
}
