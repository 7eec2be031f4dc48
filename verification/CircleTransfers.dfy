/**
 * The stateful transfer object of manual Circle transfers (connect/src/protocols/cctp/cctpTransfer.ts, class
 * `CircleTransfer` and `getReceipt`), and what its receipts are to the tracker.
 */
module CircleTransfers {
  import opened Prelude
  import opened Receipts
  import opened CircleTracker

  /** A Circle message with its id, and its signature once fetched. */
  datatype Evidence = Evidence(hash: string, message: Message, signature: Option<string>)

  datatype Transfer = Transfer(
    from: Chain,
    to: Chain,
    fromContext: Chain, // the chain contexts may be overridden by the caller
    toContext: Chain,
    state: TransferState,
    txids: seq<TxId>,
    attestations: Option<seq<Evidence>>,
    initiated: nat)     // how often the source transfer was submitted successfully
  {
    predicate IsAttested() {
      state.Code() >= Attested.Code()
    }
  }

  /** A method call, with the answers it would meet. */
  datatype Op =
    | Initiate(submission: Reply<seq<string>>)
    | Fetch(answers: FetchAnswers)
    | Complete(submission: Reply<seq<string>>)

  datatype FetchAnswers = FetchAnswers(
    details: Reply<TransferMessage>,
    signature: string -> Reply<Option<string>>,
    isCompleted: Message -> Reply<bool>)

  /** The attestations after the signing loop from index `i` on, and whether it throws. */
  function SignFrom(atts: seq<Evidence>, i: nat, a: FetchAnswers): (seq<Evidence>, bool)
    decreases |atts| - i
  {
    if i >= |atts| then (atts, false)
    else if Truthy(atts[i].signature) then SignFrom(atts, i + 1, a)
    else if a.signature(atts[i].hash).Throws? || a.signature(atts[i].hash).value.None? then (atts, true)
    else SignFrom(atts[i := atts[i].(signature := a.signature(atts[i].hash).value)], i + 1, a)
  }

  /** The state after asking for the completion of the attestations from index `i` on, and whether that throws. */
  function CheckFrom(atts: seq<Evidence>, i: nat, a: FetchAnswers, state: TransferState): (TransferState, bool)
    decreases |atts| - i
  {
    if i >= |atts| then (state, false)
    else
      match a.isCompleted(atts[i].message)
      case Throws => (state, true)
      case Answer(completed) => CheckFrom(atts, i + 1, a, if completed then DestinationFinalized else state)
  }

  /** The object after a call, and whether the call throws. */
  function Apply(op: Op, t: Transfer): (Transfer, bool) {
    match op
    case Initiate(submission) => ApplyInitiate(t, submission)
    case Fetch(a) => ApplyFetch(t, a)
    case Complete(submission) => ApplyComplete(t, submission)
  }

  function ApplyInitiate(t: Transfer, submission: Reply<seq<string>>): (Transfer, bool) {
    if !t.state.Created? || submission.Throws? then (t, true)
    else
      var txids := TxIds(t.fromContext, submission.value);
      (t.(txids := txids, state := SourceInitiated, initiated := t.initiated + 1), false)
  }

  function ApplyFetch(t: Transfer, a: FetchAnswers): (Transfer, bool) {
    var unknown := t.attestations.None? || t.attestations.value == [];
    if t.state.Code() < SourceInitiated.Code() then (t, true)
    else if unknown && (t.txids == [] || a.details.Throws?) then (t, true)
    else
      var found :=
        if unknown then [Evidence(a.details.value.hash, a.details.value.message, None)] else t.attestations.value;
      var (atts, unsigned) := SignFrom(found, 0, a);
      if unsigned then (if unknown then t else t.(attestations := Some(atts)), true)
      else
        var (state, threw) := CheckFrom(atts, 0, a, Attested);
        (t.(attestations := Some(atts), state := state), threw)
  }

  /** Completing sends the redeem transactions and leaves the object's state alone. */
  function ApplyComplete(t: Transfer, submission: Reply<seq<string>>): (Transfer, bool) {
    if !t.IsAttested() || t.attestations.None? || |t.attestations.value| != 1 then (t, true)
    else if !Truthy(t.attestations.value[0].signature) || submission.Throws? then (t, true)
    else (t.(txids := t.txids + TxIds(t.toContext, submission.value)), false)
  }

  /** `from` a set of details. */
  function FromDetails(from: Chain, to: Chain, fromContext: Option<Chain>, toContext: Option<Chain>): Transfer {
    Transfer(from, to, if fromContext.Some? then fromContext.value else from,
             if toContext.Some? then toContext.value else to, Created, [], None, 0)
  }

  /** `from` a Circle message, or the transaction that logged it: the signature is fetched before it is returned. */
  function FromMessage(m: TransferMessage, txids: seq<TxId>, from: Chain, to: Chain, fromContext: Option<Chain>,
    toContext: Option<Chain>, a: FetchAnswers): Reply<Transfer>
  {
    var t := FromDetails(from, to, fromContext, toContext).(
      state := SourceInitiated, txids := txids, attestations := Some([Evidence(m.hash, m.message, None)]));
    var (u, threw) := ApplyFetch(t, a);
    if threw then Throws else Answer(u)
  }

  class CircleTransfer {
    const from: Chain
    const to: Chain
    const fromContext: Chain
    const toContext: Chain
    var state: TransferState
    var txids: seq<TxId>
    var attestations: Option<seq<Evidence>>
    ghost var initiated: nat

    ghost function View(): Transfer
      reads this
    {
      Transfer(from, to, fromContext, toContext, state, txids, attestations, initiated)
    }

    constructor (from: Chain, to: Chain, fromContext: Option<Chain>, toContext: Option<Chain>)
      ensures View() == FromDetails(from, to, fromContext, toContext)
    {
      this.from, this.to := from, to;
      this.fromContext := if fromContext.Some? then fromContext.value else from;
      this.toContext := if toContext.Some? then toContext.value else to;
      state, txids, attestations, initiated := Created, [], None, 0;
    }

    method InitiateTransfer(submission: Reply<seq<string>>) returns (threw: bool)
      modifies this
      ensures (View(), threw) == Apply(Initiate(submission), old(View()))
    {
      if state != Created { return true; }
      if submission.Throws? { return true; }
      txids := TxIds(fromContext, submission.value);
      state := SourceInitiated;
      initiated := initiated + 1;
      return false;
    }

    /** The signing loop; attestations that the object already has are signed in place, one after the other. */
    method SignAll(found: seq<Evidence>, known: bool, a: FetchAnswers) returns (atts: seq<Evidence>, threw: bool)
      requires known ==> attestations == Some(found)
      modifies this`attestations
      ensures (atts, threw) == SignFrom(found, 0, a)
      ensures attestations == if known then Some(atts) else old(attestations)
    {
      atts := found;
      var idx := 0;
      while idx < |atts|
        invariant |atts| == |found| && idx <= |found|
        invariant SignFrom(found, 0, a) == SignFrom(atts, idx, a)
        invariant attestations == if known then Some(atts) else old(attestations)
      {
        if !Truthy(atts[idx].signature) {
          var reply := a.signature(atts[idx].hash);
          if reply.Throws? { return atts, true; }
          if reply.value.None? { return atts, true; }
          atts := atts[idx := atts[idx].(signature := reply.value)];
          if known { attestations := Some(atts); }
        }
        idx := idx + 1;
      }
      return atts, false;
    }

    method FetchAttestation(a: FetchAnswers) returns (threw: bool)
      modifies this
      ensures (View(), threw) == Apply(Fetch(a), old(View()))
    {
      if state.Code() < SourceInitiated.Code() { return true; }
      var known := attestations.Some? && attestations.value != [];
      var atts: seq<Evidence>;
      if known {
        atts := attestations.value;
      } else {
        if |txids| == 0 { return true; }
        if a.details.Throws? { return true; }
        atts := [Evidence(a.details.value.hash, a.details.value.message, None)];
      }
      var unsigned: bool;
      atts, unsigned := SignAll(atts, known, a);
      if unsigned { return true; }
      attestations := Some(atts);
      state := Attested;
      var i := 0;
      while i < |atts|
        invariant i <= |atts|
        invariant CheckFrom(atts, 0, a, Attested) == CheckFrom(atts, i, a, state)
        invariant attestations == Some(atts) && txids == old(txids) && initiated == old(initiated)
      {
        var completed := a.isCompleted(atts[i].message);
        if completed.Throws? { return true; }
        if completed.value { state := DestinationFinalized; }
        i := i + 1;
      }
      return false;
    }

    method CompleteTransfer(submission: Reply<seq<string>>) returns (threw: bool)
      modifies this
      ensures (View(), threw) == Apply(Complete(submission), old(View()))
    {
      if state.Code() < Attested.Code() { return true; }
      if attestations.None? { return true; }
      if |attestations.value| > 1 { return true; }
      if |attestations.value| == 0 { return true; }
      if !Truthy(attestations.value[0].signature) { return true; }
      if submission.Throws? { return true; }
      txids := txids + TxIds(toContext, submission.value);
      return false;
    }

    /** `getReceipt`: what the object's fields say about the transfer, read one after the other. */
    method GetReceipt() returns (receipt: CircleReceipt)
      ensures receipt == ReceiptOf(View())
    {
      receipt := Receipt(from, to, Created, [], None, None, None);
      var originTxs := OnChain(txids, from);
      if |originTxs| > 0 {
        receipt := receipt.(state := SourceInitiated, originTxs := originTxs);
      }
      if attestations.Some? && |attestations.value| > 0 {
        var att := attestations.value[0];
        receipt := receipt.(state := SourceFinalized);
        receipt := receipt.(state := Attested, attestation :=
          Some(AttestationReceipt(Some(CircleId(att.hash)), Some(CircleAttestation(att.message, att.signature)))));
      }
      var destinationTxs := OnChain(txids, to);
      if |destinationTxs| > 0 {
        receipt := receipt.(state := DestinationInitiated, destinationTxs := Some(destinationTxs));
      }
    }
  }

  /** The receipt is decided by the last of the fields that has anything to say. */
  function ReceiptOf(t: Transfer): CircleReceipt {
    var origin, destination := OnChain(t.txids, t.from), OnChain(t.txids, t.to);
    var known := t.attestations.Some? && t.attestations.value != [];
    Receipt(
      t.from, t.to,
      if destination != [] then DestinationInitiated
      else if known then Attested
      else if origin != [] then SourceInitiated
      else Created,
      origin,
      if known then
        var att := t.attestations.value[0];
        Some(AttestationReceipt(Some(CircleId(att.hash)), Some(CircleAttestation(att.message, att.signature))))
      else None,
      if destination != [] then Some(destination) else None,
      None)
  }

  function AfterCalls(t: Transfer, ops: seq<Op>): Transfer
    decreases |ops|
  {
    if ops == [] then t else AfterCalls(Apply(ops[0], t).0, ops[1..])
  }

  /** An attestation was fetched; the signature may still be the empty string, which the API may answer. */
  predicate Fetched(t: Transfer) {
    t.attestations.Some? && |t.attestations.value| == 1 && t.attestations.value[0].signature.Some?
  }

  /** The signature is one that JavaScript takes for one. */
  predicate Signed(t: Transfer) {
    Fetched(t) && Truthy(t.attestations.value[0].signature)
  }

  /** What every call keeps of an object made by `from`. */
  predicate Inv(t: Transfer) {
    && (t.state.Created? || t.state.SourceInitiated? || t.state == Attested || t.state.DestinationFinalized?)
    && (t.state.Created? ==> t.txids == [] && t.initiated == 0)
    && (t.state.SourceInitiated? ==> forall i | 0 <= i < |t.txids| :: t.txids[i].chain == t.fromContext)
    && (if t.IsAttested() then Fetched(t) else t.attestations.None?)
    && t.initiated <= 1
  }

  /** What one call, thrown or not, may change: once attested, neither the message nor a signature that is one. */
  predicate Keeps(t: Transfer, u: Transfer) {
    && u.from == t.from && u.to == t.to && u.fromContext == t.fromContext && u.toContext == t.toContext
    && (t.IsAttested() && Fetched(t) ==>
          && u.IsAttested() && Fetched(u)
          && u.attestations.value[0].hash == t.attestations.value[0].hash
          && u.attestations.value[0].message == t.attestations.value[0].message
          && (Signed(t) ==> u.attestations == t.attestations))
    && t.txids <= u.txids && t.initiated <= u.initiated
  }

  /** Signing the one attestation that an object ever has. */
  lemma SignOne(att: Evidence, a: FetchAnswers)
    ensures SignFrom([att], 0, a) ==
              if Truthy(att.signature) then ([att], false)
              else if a.signature(att.hash).Throws? || a.signature(att.hash).value.None? then ([att], true)
              else ([att.(signature := a.signature(att.hash).value)], false)
  {
    if Truthy(att.signature) {
      assert SignFrom([att], 1, a) == ([att], false);
    } else if a.signature(att.hash).Answer? && a.signature(att.hash).value.Some? {
      var signed := att.(signature := a.signature(att.hash).value);
      assert [att][0 := signed] == [signed];
      assert SignFrom([signed], 1, a) == ([signed], false);
    }
  }

  /**
   * The signing loop over any number of attestations: it throws exactly at the first one that has no signature and gets
   * none, with all before it signed; what was signed stays, and nothing changes but the signatures.
   */
  lemma {:induction false} SignsInOrder(atts: seq<Evidence>, i: nat, a: FetchAnswers) returns (n: nat)
    requires i <= |atts|
    ensures var (signed, threw) := SignFrom(atts, i, a);
            && i <= n <= |atts| && |signed| == |atts| && (threw <==> n < |atts|)
            && (forall j | 0 <= j < i || n <= j < |atts| :: signed[j] == atts[j])
            && (forall j | i <= j < n :: IsSignedAs(atts[j], signed[j], a))
            && (n < |atts| ==>
                  && (atts[n].signature == None || atts[n].signature == Some(""))
                  && (a.signature(atts[n].hash).Throws? || a.signature(atts[n].hash).value.None?))
    decreases |atts| - i
  {
    n := i;
    if i < |atts| {
      if Truthy(atts[i].signature) {
        n := SignsInOrder(atts, i + 1, a);
      } else if a.signature(atts[i].hash).Answer? && a.signature(atts[i].hash).value.Some? {
        n := SignsInOrder(atts[i := atts[i].(signature := a.signature(atts[i].hash).value)], i + 1, a);
      }
    }
  }

  /** The same message, with the signature that was there or the one that the API gives. */
  predicate IsSignedAs(att: Evidence, signed: Evidence, a: FetchAnswers) {
    && signed.hash == att.hash && signed.message == att.message && signed.signature.Some?
    && (if att.signature == None || att.signature == Some("") then a.signature(att.hash) == Answer(signed.signature)
        else signed.signature == att.signature)
  }

  /**
   * The completion check over any number of attestations: it throws exactly at the first one that the chain does not
   * answer for, and is finalized by any confirmed before.
   */
  lemma {:induction false} ChecksInOrder(atts: seq<Evidence>, i: nat, a: FetchAnswers, state: TransferState)
    returns (n: nat)
    requires i <= |atts|
    ensures var (end, threw) := CheckFrom(atts, i, a, state);
            && i <= n <= |atts| && (threw <==> n < |atts|) && (forall j | i <= j < n :: IsAnswered(atts[j], a))
            && (n < |atts| ==> a.isCompleted(atts[n].message).Throws?)
            && end == if AnyConfirmed(atts, i, n, a) then DestinationFinalized else state
    decreases |atts| - i
  {
    n := i;
    if i < |atts| && a.isCompleted(atts[i].message).Answer? {
      n := ChecksInOrder(
        atts, i + 1, a, if a.isCompleted(atts[i].message).value then DestinationFinalized else state);
      assert AnyConfirmed(atts, i, n, a)
             <==> a.isCompleted(atts[i].message) == Answer(true) || AnyConfirmed(atts, i + 1, n, a);
    }
  }

  predicate AnyConfirmed(atts: seq<Evidence>, i: nat, n: nat, a: FetchAnswers)
    requires n <= |atts|
  {
    exists j | i <= j < n :: a.isCompleted(atts[j].message) == Answer(true)
  }

  predicate IsAnswered(att: Evidence, a: FetchAnswers) {
    a.isCompleted(att.message).Answer?
  }

  lemma CheckOne(att: Evidence, a: FetchAnswers)
    ensures CheckFrom([att], 0, a, Attested) ==
              match a.isCompleted(att.message)
              case Throws => (Attested, true)
              case Answer(completed) => (if completed then DestinationFinalized else Attested, false)
  {
    if a.isCompleted(att.message).Answer? {
      var state := if a.isCompleted(att.message).value then DestinationFinalized else Attested;
      assert CheckFrom([att], 1, a, state) == (state, false);
    }
  }

  /** The one attestation that fetching works on. */
  function Found(t: Transfer, a: FetchAnswers): Evidence
    requires (t.IsAttested() && Fetched(t)) || a.details.Answer?
  {
    if t.IsAttested() && Fetched(t) then t.attestations.value[0]
    else Evidence(a.details.value.hash, a.details.value.message, None)
  }

  lemma FetchIs(t: Transfer, a: FetchAnswers)
    requires Inv(t) && (t.IsAttested() || (t.state.SourceInitiated? && t.txids != [] && a.details.Answer?))
    ensures var att := Found(t, a);
            var signature := if Truthy(att.signature) then Answer(att.signature) else a.signature(att.hash);
            ApplyFetch(t, a) ==
              if signature.Throws? || signature.value.None? then (t, true)
              else
                (t.(attestations := Some([att.(signature := signature.value)]),
                    state := if a.isCompleted(att.message) == Answer(true) then DestinationFinalized else Attested),
                 a.isCompleted(att.message).Throws?)
  {
    var att := Found(t, a);
    assert t.IsAttested() ==> t.attestations.value == [att] && t.attestations == Some([att]);
    SignOne(att, a);
    CheckOne(SignFrom([att], 0, a).0[0], a);
    assert att.(signature := att.signature) == att;
  }

  lemma FetchKeeps(t: Transfer, a: FetchAnswers)
    requires Inv(t)
    ensures var u := ApplyFetch(t, a).0; Inv(u) && Keeps(t, u)
  {
    if t.IsAttested() || (t.state.SourceInitiated? && t.txids != [] && a.details.Answer?) {
      FetchIs(t, a);
      var att := Found(t, a);
      assert t.IsAttested() ==> t.attestations.value == [att] && [att.(signature := att.signature)] == [att];
    }
  }

  lemma CallKeeps(op: Op, t: Transfer)
    requires Inv(t)
    ensures var u := Apply(op, t).0; Inv(u) && Keeps(t, u)
  {
    if op.Fetch? {
      FetchKeeps(t, op.answers);
    }
  }

  /**
   * Over every sequence of calls, thrown or not, and whatever the API answers: the source transfer is submitted
   * successfully at most once, an attested object stays attested with the same message, and a signature never changes
   * unless it is the empty string.
   */
  lemma {:induction false} CallsKeep(t: Transfer, ops: seq<Op>)
    requires Inv(t)
    ensures var u := AfterCalls(t, ops); Inv(u) && Keeps(t, u) && u.initiated <= 1
    decreases |ops|
  {
    if ops != [] {
      CallKeeps(ops[0], t);
      CallsKeep(Apply(ops[0], t).0, ops[1..]);
    }
  }

  /**
   * A call changes the attestations of an attested object exactly when it fetches another signature for an empty one.
   */
  lemma AttestationsChangeIff(op: Op, t: Transfer)
    requires Inv(t) && t.IsAttested()
    ensures Apply(op, t).0.attestations != t.attestations
            <==> op.Fetch? && !Signed(t)
                 && (var answer := op.answers.signature(t.attestations.value[0].hash);
                     answer.Answer? && answer.value.Some? && answer.value != t.attestations.value[0].signature)
  {
    if op.Fetch? {
      FetchIs(t, op.answers);
      var att := t.attestations.value[0];
      assert t.attestations.value == [att] && [att.(signature := att.signature)] == [att];
      var u := Apply(op, t).0;
      assert u.attestations.value[0].signature != att.signature ==> u.attestations != t.attestations;
    }
  }

  lemma FromIsInv(m: TransferMessage, txids: seq<TxId>, from: Chain, to: Chain, fromContext: Option<Chain>,
    toContext: Option<Chain>, a: FetchAnswers)
    ensures Inv(FromDetails(from, to, fromContext, toContext))
    ensures var t := FromMessage(m, txids, from, to, fromContext, toContext, a);
            t.Answer? ==> Inv(t.value) && t.value.IsAttested() && t.value.txids == txids
                          && t.value.attestations.value[0].message == m.message
    ensures FromMessage(m, txids, from, to, fromContext, toContext, a).Answer?
            <==> a.signature(m.hash).Answer? && a.signature(m.hash).value.Some? && a.isCompleted(m.message).Answer?
  {
    var att := Evidence(m.hash, m.message, None);
    SignOne(att, a);
    CheckOne(SignFrom([att], 0, a).0[0], a);
  }

  /** Submitting succeeds exactly for a new object, when the transfer gets through. */
  lemma InitiateSucceedsIff(t: Transfer, submission: Reply<seq<string>>)
    ensures var (u, threw) := Apply(Initiate(submission), t);
            && (!threw <==> t.state.Created? && submission.Answer?)
            && (!threw ==> u.state.SourceInitiated? && u.initiated == t.initiated + 1)
            && (threw ==> u == t)
  {
  }

  /** Completing succeeds exactly for an attested object with a signature, when the redeem transactions get through. */
  lemma CompleteSucceedsIff(t: Transfer, submission: Reply<seq<string>>)
    requires Inv(t)
    ensures var (u, threw) := Apply(Complete(submission), t);
            && (!threw <==> submission.Answer? && (t.state == Attested || t.state.DestinationFinalized?) && Signed(t))
            && u.state == t.state && u.attestations == t.attestations && (threw ==> u == t)
  {
  }

  /**
   * Fetching succeeds exactly when the message is known or found, it has a signature or the API gives one, and its
   * completion is answered; without the last it throws only after it has kept the signature.
   */
  lemma FetchSucceedsIff(t: Transfer, a: FetchAnswers)
    requires Inv(t)
    ensures var (u, threw) := Apply(Fetch(a), t);
            if t.state.Created? || (t.state.SourceInitiated? && (t.txids == [] || a.details.Throws?)) then
              u == t && threw
            else
              var att := if t.state.SourceInitiated? then Evidence(a.details.value.hash, a.details.value.message, None)
                         else t.attestations.value[0];
              var known := att.signature != None && att.signature != Some("");
              var signature := if known then Answer(att.signature) else a.signature(att.hash);
              if signature.Throws? || signature.value.None? then u == t && threw
              else
                && u == t.(attestations := Some([Evidence(att.hash, att.message, signature.value)]),
                           state := if a.isCompleted(att.message) == Answer(true) then DestinationFinalized
                                    else Attested)
                && (threw <==> a.isCompleted(att.message).Throws?)
  {
    if !(t.state.Created? || (t.state.SourceInitiated? && (t.txids == [] || a.details.Throws?))) {
      FetchIs(t, a);
    }
  }

  /** The hashes that a call gives back which succeeds in submitting the source transfer, and in redeeming it. */
  function SubmittedBy(op: Op, threw: bool): seq<string> {
    if op.Initiate? && !threw && op.submission.Answer? then op.submission.value else []
  }

  function RedeemedBy(op: Op, threw: bool): seq<string> {
    if op.Complete? && !threw && op.submission.Answer? then op.submission.value else []
  }

  /** And those of a sequence of calls, in order. */
  function SubmittedHashes(t: Transfer, ops: seq<Op>): seq<string>
    decreases |ops|
  {
    if ops == [] then []
    else SubmittedBy(ops[0], Apply(ops[0], t).1) + SubmittedHashes(Apply(ops[0], t).0, ops[1..])
  }

  function RedeemedHashes(t: Transfer, ops: seq<Op>): seq<string>
    decreases |ops|
  {
    if ops == [] then []
    else RedeemedBy(ops[0], Apply(ops[0], t).1) + RedeemedHashes(Apply(ops[0], t).0, ops[1..])
  }

  lemma {:induction false} NothingSubmittedTwice(t: Transfer, ops: seq<Op>)
    requires Inv(t) && !t.state.Created?
    ensures SubmittedHashes(t, ops) == []
    decreases |ops|
  {
    if ops != [] {
      CallKeeps(ops[0], t);
      StaysSubmitted(ops[0], t);
      NothingSubmittedTwice(Apply(ops[0], t).0, ops[1..]);
    }
  }

  lemma StaysSubmitted(op: Op, t: Transfer)
    requires Inv(t) && !t.state.Created?
    ensures !Apply(op, t).0.state.Created?
  {
    if op.Fetch? {
      FetchSucceedsIff(t, op.answers);
    }
  }

  /** One call records the hashes it is given, under the chain of the context that it went through. */
  lemma CallRecords(t: Transfer, op: Op)
    requires Inv(t)
    ensures var (u, threw) := Apply(op, t);
            && u.txids == t.txids + TxIds(t.fromContext, SubmittedBy(op, threw))
                                  + TxIds(t.toContext, RedeemedBy(op, threw))
            && (SubmittedBy(op, threw) == [] || !u.state.Created?)
            && (RedeemedBy(op, threw) == [] || !u.state.Created?)
  {
    assert TxIds(t.fromContext, []) == [] && TxIds(t.toContext, []) == [];
    if op.Fetch? {
      FetchSucceedsIff(t, op.answers);
    }
  }

  /**
   * Over every sequence of calls: the object holds the transactions it began with, those of its submission under the
   * chain of its source context, and those of all successful completions in order under the chain of its destination
   * context.
   */
  lemma {:induction false} CallsRecord(t: Transfer, ops: seq<Op>)
    requires Inv(t)
    ensures AfterCalls(t, ops).txids ==
              t.txids + TxIds(t.fromContext, SubmittedHashes(t, ops)) + TxIds(t.toContext, RedeemedHashes(t, ops))
    decreases |ops|
  {
    assert TxIds(t.fromContext, []) == [] && TxIds(t.toContext, []) == [];
    if ops != [] {
      var (u, threw) := Apply(ops[0], t);
      var s, r := SubmittedBy(ops[0], threw), RedeemedBy(ops[0], threw);
      var later, more := SubmittedHashes(u, ops[1..]), RedeemedHashes(u, ops[1..]);
      CallKeeps(ops[0], t);
      CallRecords(t, ops[0]);
      CallsRecord(u, ops[1..]);
      if !u.state.Created? {
        NothingSubmittedTwice(u, ops[1..]);
      }
      TxIdsConcat(t.fromContext, s, later);
      TxIdsConcat(t.toContext, r, more);
      Interleave(t.txids, TxIds(t.fromContext, s), TxIds(t.toContext, r), TxIds(t.fromContext, later),
                 TxIds(t.toContext, more));
    }
  }

  lemma NewTxids(t: Transfer, ops: seq<Op>)
    requires Inv(t) && t.txids == []
    ensures AfterCalls(t, ops).txids ==
              TxIds(t.fromContext, SubmittedHashes(t, ops)) + TxIds(t.toContext, RedeemedHashes(t, ops))
  {
    CallsRecord(t, ops);
    var origin := TxIds(t.fromContext, SubmittedHashes(t, ops));
    assert [] + origin == origin;
  }

  /** The receipt lists the hashes given back by the submission and by the completions, each on their chain. */
  predicate Lists(r: CircleReceipt, submitted: seq<string>, redeemed: seq<string>) {
    && AreOn(r.originTxs, r.from, submitted)
    && (if redeemed == [] then r.destinationTxs.None?
        else r.destinationTxs.Some? && AreOn(r.destinationTxs.value, r.to, redeemed))
    && (r.state.DestinationInitiated? <==> redeemed != [])
  }

  lemma ReceiptLists(u: Transfer, submitted: seq<string>, redeemed: seq<string>)
    requires OnChain(u.txids, u.from) == TxIds(u.from, submitted) && OnChain(u.txids, u.to) == TxIds(u.to, redeemed)
    ensures Lists(ReceiptOf(u), submitted, redeemed)
  {
    assert |TxIds(u.to, redeemed)| == |redeemed|;
  }

  /**
   * So the receipt of a new transfer between two chains, through their own contexts, lists as origin transactions just
   * the hashes of its submission, as destination transactions just those of its completions, in order, and says
   * redeemed exactly when there are some.
   */
  lemma ReceiptListsHashes(
    from: Chain, to: Chain, fromContext: Option<Chain>, toContext: Option<Chain>, ops: seq<Op>)
    requires from != to
    requires (fromContext == None || fromContext == Some(from)) && (toContext == None || toContext == Some(to))
    ensures var t := FromDetails(from, to, fromContext, toContext);
            var r := ReceiptOf(AfterCalls(t, ops));
            r.from == from && r.to == to && Lists(r, SubmittedHashes(t, ops), RedeemedHashes(t, ops))
  {
    var t := FromDetails(from, to, fromContext, toContext);
    CallsKeep(t, ops);
    NewTxids(t, ops);
    OnTwoChains(from, to, SubmittedHashes(t, ops), RedeemedHashes(t, ops));
    ReceiptLists(AfterCalls(t, ops), SubmittedHashes(t, ops), RedeemedHashes(t, ops));
  }

  /** The receipt's state tells how far the transfer has come, by what there is of it, and it holds the attestation. */
  predicate Tells(r: CircleReceipt, u: Transfer, submitted: seq<string>, redeemed: seq<string>) {
    var known := u.attestations.Some?;
    && (known <==> u.state == Attested || u.state.DestinationFinalized?)
    && r.state == (if redeemed != [] then DestinationInitiated
                   else if known then Attested
                   else if submitted != [] then SourceInitiated
                   else Created)
    && (!known ==> r.attestation.None?)
    && (known ==>
          && |u.attestations.value| == 1
          && var first := u.attestations.value[0];
             var signed := CircleAttestation(first.message, first.signature);
             r.attestation == Some(AttestationReceipt(Some(CircleId(first.hash)), Some(signed))))
  }

  lemma ReceiptTells(u: Transfer, submitted: seq<string>, redeemed: seq<string>)
    requires OnChain(u.txids, u.from) == TxIds(u.from, submitted) && OnChain(u.txids, u.to) == TxIds(u.to, redeemed)
    requires Inv(u)
    ensures Tells(ReceiptOf(u), u, submitted, redeemed)
  {
    assert |TxIds(u.to, redeemed)| == |redeemed| && |TxIds(u.from, submitted)| == |submitted|;
  }

  lemma ReceiptTellsState(
    from: Chain, to: Chain, fromContext: Option<Chain>, toContext: Option<Chain>, ops: seq<Op>)
    requires from != to
    requires (fromContext == None || fromContext == Some(from)) && (toContext == None || toContext == Some(to))
    ensures var t := FromDetails(from, to, fromContext, toContext);
            var u := AfterCalls(t, ops);
            Tells(ReceiptOf(u), u, SubmittedHashes(t, ops), RedeemedHashes(t, ops))
  {
    var t := FromDetails(from, to, fromContext, toContext);
    CallsKeep(t, ops);
    NewTxids(t, ops);
    OnTwoChains(from, to, SubmittedHashes(t, ops), RedeemedHashes(t, ops));
    ReceiptTells(AfterCalls(t, ops), SubmittedHashes(t, ops), RedeemedHashes(t, ops));
  }

  /** An object works through the chain contexts it was given, or through those of its chains. */
  lemma ContextsOf(m: TransferMessage, txids: seq<TxId>, from: Chain, to: Chain, fromContext: Option<Chain>,
    toContext: Option<Chain>, a: FetchAnswers)
    ensures HasContexts(FromDetails(from, to, fromContext, toContext), from, to, fromContext, toContext)
    ensures var t := FromMessage(m, txids, from, to, fromContext, toContext, a);
            t.Answer? ==> HasContexts(t.value, from, to, fromContext, toContext)
  {
  }

  predicate HasContexts(
    t: Transfer, from: Chain, to: Chain, fromContext: Option<Chain>, toContext: Option<Chain>)
  {
    && t.from == from && t.to == to
    && (fromContext == None ==> t.fromContext == from) && (toContext == None ==> t.toContext == to)
    && (fromContext.Some? ==> t.fromContext == fromContext.value)
    && (toContext.Some? ==> t.toContext == toContext.value)
  }

  /**
   * The object's own state falls exactly when a finalized transfer is fetched once more, has or gets a signature, and
   * the destination chain then does not confirm the completion.
   */
  lemma StateFallsIff(op: Op, t: Transfer)
    requires Inv(t)
    ensures Apply(op, t).0.state.Code() < t.state.Code()
            <==> op.Fetch? && t.state.DestinationFinalized?
                 && (var att := t.attestations.value[0];
                     && (Truthy(att.signature)
                         || (op.answers.signature(att.hash).Answer? && op.answers.signature(att.hash).value.Some?))
                     && op.answers.isCompleted(att.message) != Answer(true))
  {
    if op.Fetch? {
      if t.IsAttested() || (t.state.SourceInitiated? && t.txids != [] && op.answers.details.Answer?) {
        FetchIs(t, op.answers);
      }
    }
  }

  /** Such an object is made: `from` a message that is redeemed already, and fetched while the chain cannot be asked. */
  lemma FetchedOnceMoreFalls(m: TransferMessage, from: Chain, to: Chain, signature: string)
    requires signature != ""
    ensures var good := FetchAnswers(Throws, h => Answer(Some(signature)), x => Answer(true));
            var down := FetchAnswers(Throws, h => Throws, x => Throws);
            var t := FromMessage(m, [], from, to, None, None, good);
            && t.Answer? && t.value.state.DestinationFinalized?
            && Apply(Fetch(down), t.value).0.state == Attested
  {
    var good := FetchAnswers(Throws, h => Answer(Some(signature)), x => Answer(true));
    var down := FetchAnswers(Throws, h => Throws, x => Throws);
    var att := Evidence(m.hash, m.message, None);
    FromIsInv(m, [], from, to, None, None, good);
    SignOne(att, good);
    CheckOne(SignFrom([att], 0, good).0[0], good);
    FetchIs(FromMessage(m, [], from, to, None, None, good).value, down);
  }

  /** A transfer submitted through a source context that the caller pointed at the destination chain. */
  predicate Misplaced(t: Transfer) {
    t.state.SourceInitiated? && t.txids != [] && t.fromContext == t.to
  }

  /**
   * In every reachable state but that one, the receipt says attested or later exactly when the object does. The tracker
   * can follow it in every state but that one and those of an attested object with an empty signature.
   */
  lemma ReceiptsAgreeIff(t: Transfer, ops: seq<Op>)
    requires Inv(t)
    ensures var u := AfterCalls(t, ops);
            && (!Misplaced(u) <==> (u.IsAttested() <==> ReceiptOf(u).state.Code() >= Attested.Code()))
            && (WellFormed(ReceiptOf(u)) <==> !Misplaced(u) && (u.IsAttested() ==> Signed(u)))
  {
    CallsKeep(t, ops);
    AgreesAt(AfterCalls(t, ops));
  }

  lemma AgreesAt(u: Transfer)
    requires Inv(u)
    ensures !Misplaced(u) <==> (u.IsAttested() <==> ReceiptOf(u).state.Code() >= Attested.Code())
    ensures WellFormed(ReceiptOf(u)) <==> !Misplaced(u) && (u.IsAttested() ==> Signed(u))
  {
    if u.state.SourceInitiated? && u.txids != [] {
      assert u.txids[0].chain == u.fromContext;
    }
  }

  /** A misplaced transfer is made: one call on an object whose source context is on the destination chain. */
  lemma OverriddenContextIsMisplaced(from: Chain, to: Chain, hash: string)
    ensures var u := AfterCalls(FromDetails(from, to, Some(to), None), [Initiate(Answer([hash]))]);
            Misplaced(u) && !u.IsAttested() && ReceiptOf(u).state.DestinationInitiated? && !WellFormed(ReceiptOf(u))
  {
    var t, op := FromDetails(from, to, Some(to), None), Initiate(Answer([hash]));
    var u := Apply(op, t).0;
    assert AfterCalls(u, [op][1..]) == u;
    assert u.txids[0].chain == to;
  }

  /** The exception is real: a message whose signature the API answers with an empty string. */
  lemma EmptySignatureIsAttested(m: TransferMessage, from: Chain, to: Chain, a: FetchAnswers)
    requires a.signature(m.hash) == Answer(Some("")) && a.isCompleted(m.message) == Answer(false)
    ensures var t := FromMessage(m, [], from, to, None, None, a);
            && t.Answer? && t.value.state == Attested
            && ReceiptOf(t.value).state == Attested && !WellFormed(ReceiptOf(t.value))
            && ApplyComplete(t.value, Answer([])).1
  {
    FromIsInv(m, [], from, to, None, None, a);
    var att := Evidence(m.hash, m.message, None);
    SignOne(att, a);
    CheckOne(SignFrom([att], 0, a).0[0], a);
  }
}
