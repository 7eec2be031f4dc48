/**
 * The receipt tracker shared in shape by the Portico and tBTC routes (connect/src/routes/portico/automatic.ts and
 * connect/src/routes/tbtc/tbtc.ts, `track`): they differ only in which bridge decodes and completes the message.
 */
module VaaTracker {
  import opened Prelude
  import opened Receipts

  /** A signed message, with the message id it names itself. */
  datatype Vaa = Vaa(id: nat, digest: nat)

  type VaaReceipt = Receipt<nat, Vaa>

  datatype Answers = Answers(vaa: Reply<Option<Vaa>>, isCompleted: Reply<bool>)

  function WithVaa(r: VaaReceipt, vaa: Vaa): VaaReceipt {
    r.(state := Attested, attestation := Some(AttestationReceipt(Some(vaa.id), Some(vaa))))
  }

  function Run(r: VaaReceipt, a: Answers): Trace<nat, Vaa> {
    if !r.state.SourceInitiated? && !r.state.SourceFinalized? then Redemption(r, a)
    else if r.originTxs == [] || a.vaa.Throws? || a.vaa.value.None? then Thrown([])
    else
      var s := WithVaa(r, a.vaa.value.value);
      After([s], Redemption(s, a))
  }

  function Redemption(r: VaaReceipt, a: Answers): Trace<nat, Vaa> {
    if !r.state.Attested? then Finished([r])
    else if !r.HasAttestation() || a.isCompleted.Throws? then Thrown([])
    else if !a.isCompleted.value then Finished([r])
    else
      var s := r.(state := DestinationFinalized);
      Finished([s, s])
  }

  /** The generator itself, with the receipts it yields collected in order. */
  method Track(start: VaaReceipt, a: Answers) returns (shown: seq<VaaReceipt>, threw: bool)
    ensures Trace(shown, threw) == Run(start, a)
  {
    var receipt := start;
    shown := [];
    if receipt.state.SourceInitiated? || receipt.state.SourceFinalized? {
      if |receipt.originTxs| == 0 { return shown, true; }
      if a.vaa.Throws? || a.vaa.value.None? { return shown, true; }
      var vaa := a.vaa.value.value;
      receipt := receipt.(state := Attested, attestation := Some(AttestationReceipt(Some(vaa.id), Some(vaa))));
      shown := shown + [receipt];
    }
    if receipt.state.Attested? {
      if !receipt.HasAttestation() { return shown, true; }
      if a.isCompleted.Throws? { return shown, true; }
      if a.isCompleted.value {
        receipt := receipt.(state := DestinationFinalized);
        shown := shown + [receipt];
      }
    }
    shown := shown + [receipt];
    threw := false;
  }

  predicate WellFormed(r: VaaReceipt) {
    r.state.Attested? || r.state.DestinationFinalized? ==> r.HasId() && r.HasAttestation()
  }

  predicate Justified(a: Answers, p: VaaReceipt, s: VaaReceipt) {
    || s == p
    || ((p.state.SourceInitiated? || p.state.SourceFinalized?) && a.vaa.Answer? && a.vaa.value.Some?
        && s == WithVaa(p, a.vaa.value.value))
    || (p.state.Attested? && a.isCompleted == Answer(true) && s == p.(state := DestinationFinalized))
  }

  lemma RedemptionJustified(r: VaaReceipt, a: Answers)
    ensures Linked([r] + Redemption(r, a).shown, (p, s) => Justified(a, p, s))
  {
  }

  lemma CallJustified(r: VaaReceipt, a: Answers)
    ensures Linked([r] + Run(r, a).shown, (p, s) => Justified(a, p, s))
  {
    if !r.state.SourceInitiated? && !r.state.SourceFinalized? {
      RedemptionJustified(r, a);
    } else if Run(r, a).shown != [] {
      var s := Run(r, a).shown[0];
      RedemptionJustified(s, a);
      LinkedCons(r, [s] + Redemption(s, a).shown, (p, s) => Justified(a, p, s));
    }
  }

  /**
   * A transfer on its source side is attested, under the id that the signed message names, exactly when that message is
   * found for its source transaction; the call goes on from there, and throws otherwise.
   */
  lemma CallAttestsIff(r: VaaReceipt, a: Answers)
    requires r.state.SourceInitiated? || r.state.SourceFinalized?
    ensures var found := r.originTxs != [] && a.vaa.Answer? && a.vaa.value.Some?;
            && (found ==>
                  var vaa := a.vaa.value.value;
                  var s := r.(state := Attested, attestation := Some(AttestationReceipt(Some(vaa.id), Some(vaa))));
                  Run(r, a) == Trace([s] + Run(s, a).shown, Run(s, a).threw))
            && (!found ==> Run(r, a) == Trace([], true))
  {
  }

  /** An attested transfer ends just as its destination chain answers, and any other is shown as it is. */
  lemma AttestedCallEnds(r: VaaReceipt, a: Answers)
    requires !r.state.SourceInitiated? && !r.state.SourceFinalized? && (r.state.Attested? ==> r.HasAttestation())
    ensures var f := r.(state := DestinationFinalized);
            Run(r, a) ==
              if !r.state.Attested? || a.isCompleted == Answer(false) then Trace([r], false)
              else if a.isCompleted == Answer(true) then Trace([f, f], false)
              else Trace([], true)
  {
  }

  /** One patient call finalizes exactly the transfers that can be attested and are then reported completed. */
  lemma CallFinalizesIff(r: VaaReceipt, a: Answers)
    requires WellFormed(r) && !r.state.DestinationFinalized?
    ensures (exists k | 0 <= k < |Run(r, a).shown| :: Run(r, a).shown[k].state.DestinationFinalized?)
            <==> a.isCompleted == Answer(true)
                 && (r.state.Attested?
                     || ((r.state.SourceInitiated? || r.state.SourceFinalized?) && r.originTxs != []
                         && a.vaa.Answer? && a.vaa.value.Some?))
  {
    if r.state.Attested? && a.isCompleted == Answer(true) {
      assert Run(r, a).shown[0].state.DestinationFinalized?;
    } else if Run(r, a).shown != [] && !r.state.Attested? && a.isCompleted == Answer(true) {
      var s := Run(r, a).shown[0];
      assert s.state.Attested? ==> Run(r, a).shown == [s] + Redemption(s, a).shown;
      assert s.state.Attested? ==> Run(r, a).shown[1].state.DestinationFinalized?;
    }
  }

  predicate Progress(r: VaaReceipt, s: VaaReceipt) {
    && Climbs(r, s)
    && SameTransfer(r, s)
    && (r.state.Rank() >= Attested.Rank() ==> s.attestation == r.attestation)
    && (WellFormed(r) ==> WellFormed(s))
    && (r.state.Rank() > Attested.Rank() || r.state.Created? || r.state.InReview? ==> s == r)
  }

  lemma EdgeProgress(a: Answers, p: VaaReceipt, s: VaaReceipt)
    requires Justified(a, p, s)
    ensures Progress(p, s)
  {
  }

  lemma CallProgress(r: VaaReceipt, a: Answers)
    ensures Linked([r] + Run(r, a).shown, Progress)
  {
    CallJustified(r, a);
    var all := [r] + Run(r, a).shown;
    forall i {:trigger all[i]} | 0 < i < |all| ensures Progress(all[i - 1], all[i]) {
      EdgeProgress(a, all[i - 1], all[i]);
    }
  }

  lemma ProgressIsPreorder(r: VaaReceipt, s: VaaReceipt, t: VaaReceipt)
    ensures Progress(r, r)
    ensures Progress(r, s) && Progress(s, t) ==> Progress(r, t)
  {
  }

  /**
   * Every session of calls, between any two of its receipts: the state stays or rises in rank, the transfer keeps its
   * identity, well-formedness is kept, an attestation once there is final, and a finalized receipt never changes.
   */
  lemma SessionsProgress(r: VaaReceipt, calls: seq<Call<Answers>>, i: nat, j: nat)
    requires i <= j < |History(Run, r, calls)|
    ensures Progress(History(Run, r, calls)[i], History(Run, r, calls)[j])
    ensures SameTransfer(r, History(Run, r, calls)[j])
    ensures WellFormed(r) ==> WellFormed(History(Run, r, calls)[j])
  {
    forall s, n ensures Linked([s] + Run(s, n).shown, Progress) {
      CallProgress(s, n);
    }
    SessionLinked(Run, Progress, r, calls);
    forall x, y, z ensures Progress(x, x) && (Progress(x, y) && Progress(y, z) ==> Progress(x, z)) {
      ProgressIsPreorder(x, y, z);
    }
    LinkedPreorder(History(Run, r, calls), Progress, i, j);
    LinkedPreorder(History(Run, r, calls), Progress, 0, j);
  }

  /** A call shows a new finalized receipt only if the destination chain answered true. */
  lemma CallFinalizesOnlyIfCompleted(r: VaaReceipt, a: Answers, k: nat)
    requires k < |Run(r, a).shown| && Run(r, a).shown[k].state.DestinationFinalized?
    ensures Run(r, a).shown[k] == r || a.isCompleted == Answer(true)
  {
    CallJustified(r, a);
    if a.isCompleted != Answer(true) {
      LinkedKeeps([r] + Run(r, a).shown, (p, s) => Justified(a, p, s),
        (s: VaaReceipt) => s.state.DestinationFinalized? ==> s == r, 0, k + 1);
    }
  }

  /**
   * A finalized receipt of a session was first shown, no later, by a call that started from a receipt that was not
   * finalized and was told by the destination chain that the transfer is completed.
   */
  lemma FinalizedOnlyIfCompleted(r: VaaReceipt, calls: seq<Call<Answers>>, i: nat) returns (c: nat, k: nat, p: nat)
    requires i < |History(Run, r, calls)| && History(Run, r, calls)[i].state.DestinationFinalized?
    requires !r.state.DestinationFinalized?
    ensures p <= i && IsShownBy(Run, r, calls, c, k, p) && History(Run, r, calls)[p] == History(Run, r, calls)[i]
    ensures calls[c].answers.isCompleted == Answer(true)
  {
    c, k, p := FinalizedByACall(Run, r, calls, i);
    CallFinalizesOnlyIfCompleted(Last(History(Run, r, calls[..c])), calls[c].answers, k);
    SessionsProgress(r, calls, p, i);
  }
}
