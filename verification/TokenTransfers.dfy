/**
 * The stateful transfer object of the token bridge (connect/src/protocols/tokenBridge/tokenTransfer.ts, class
 * `TokenTransfer` and `getReceipt`): its guarded methods, over every sequence of calls including ones that throw.
 */
module TokenTransfers {
  import opened Prelude
  import opened Receipts
  import opened TokenTracker

  /** A message id, and its signed message once fetched. */
  datatype Evidence = Evidence(id: MessageId, vaa: Option<Vaa>)

  /** What the object makes happen outside itself, when it succeeds. */
  datatype Effect = SourceSubmitted | VaaFetched(id: MessageId) | Redeemed

  datatype Transfer = Transfer(
    from: Chain,
    to: Chain,
    fromContext: Chain, // the chain contexts may be overridden by the caller
    toContext: Chain,
    state: TransferState,
    txids: seq<TxId>,
    attestations: Option<seq<Evidence>>,
    log: seq<Effect>)
  {
    predicate IsAttested() {
      state.Code() >= Attested.Code()
    }

    function First(): Option<Evidence> {
      if attestations.Some? && attestations.value != [] then Some(attestations.value[0]) else None
    }
  }

  /** A method call, with the answers it would meet. */
  datatype Op =
    | Initiate(submission: Reply<seq<string>>)
    | Fetch(message: Reply<MessageId>, vaa: MessageId -> Reply<Option<Vaa>>, complete: Reply<bool>)
    | Complete(submission: Reply<seq<string>>)

  /** The attestations, the effects and the exception left by the fetching loop from index `i` on. */
  function FetchFrom(atts: seq<Evidence>, i: nat, vaa: MessageId -> Reply<Option<Vaa>>, log: seq<Effect>)
    : (seq<Evidence>, seq<Effect>, bool)
    decreases |atts| - i
  {
    if i >= |atts| then (atts, log, false)
    else if atts[i].vaa.Some? then FetchFrom(atts, i + 1, vaa, log)
    else if vaa(atts[i].id).Throws? || vaa(atts[i].id).value.None? then (atts, log, true)
    else
      FetchFrom(atts[i := atts[i].(vaa := vaa(atts[i].id).value)], i + 1, vaa, log + [VaaFetched(atts[i].id)])
  }

  /** The object after a call, and whether the call throws. */
  function Apply(op: Op, t: Transfer): (Transfer, bool) {
    match op
    case Initiate(submission) => ApplyInitiate(t, submission)
    case Fetch(message, vaa, complete) => ApplyFetch(t, message, vaa, complete)
    case Complete(submission) => ApplyComplete(t, submission)
  }

  function ApplyInitiate(t: Transfer, submission: Reply<seq<string>>): (Transfer, bool) {
    if !t.state.Created? || submission.Throws? then (t, true)
    else
      (t.(txids := TxIds(t.fromContext, submission.value), state := SourceInitiated, log := t.log + [SourceSubmitted]),
       false)
  }

  function ApplyFetch(
    t: Transfer, message: Reply<MessageId>, vaa: MessageId -> Reply<Option<Vaa>>, complete: Reply<bool>)
    : (Transfer, bool)
  {
    var unknown := t.attestations.None? || t.attestations.value == [];
    if t.state.Code() < SourceInitiated.Code() || t.state.Code() > Attested.Code() then (t, true)
    else if unknown && (t.txids == [] || message.Throws?) then (t, true)
    else
      var found := if unknown then [Evidence(message.value, None)] else t.attestations.value;
      var (atts, log, threw) := FetchFrom(found, 0, vaa, t.log);
      var u := t.(attestations := Some(atts), log := log);
      if threw then (u, true)
      else if complete.Throws? then (u.(state := Attested), true)
      else (u.(state := if complete.value then DestinationFinalized else Attested), false)
  }

  function ApplyComplete(t: Transfer, submission: Reply<seq<string>>): (Transfer, bool) {
    if !t.IsAttested() || t.attestations.None? || t.attestations.value == [] then (t, true)
    else if t.attestations.value[0].vaa.None? || submission.Throws? then (t, true)
    else
      (t.(txids := t.txids + TxIds(t.toContext, submission.value), state := DestinationInitiated,
          log := t.log + [Redeemed]),
       false)
  }

  /** `from` a set of details: refused when source and destination are one chain, otherwise a new object. */
  function FromDetails(
    amount: nat, from: Chain, to: Chain, supported: bool, fromContext: Option<Chain>, toContext: Option<Chain>)
    : Reply<Transfer>
  {
    if amount == 0 || from == to || !supported then Throws
    else
      Answer(Transfer(from, to, if fromContext.Some? then fromContext.value else from,
                      if toContext.Some? then toContext.value else to, Created, [], None, []))
  }

  /** `from` a message id: the signed message is fetched first, and gives the chains; then its completion is checked. */
  function FromMessage(
    id: MessageId, vaa: Reply<Option<Vaa>>, from: Chain, to: Chain,
    fromContext: Option<Chain>, toContext: Option<Chain>,
    complete: Reply<bool>)
    : Reply<Transfer>
  {
    if vaa.Throws? || vaa.value.None? then Throws
    else
      var t := Transfer(from, to, if fromContext.Some? then fromContext.value else from,
                        if toContext.Some? then toContext.value else to,
                        Attested, [], Some([Evidence(id, vaa.value)]), [VaaFetched(id)]);
      var (u, threw) := ApplyFetch(t, Throws, m => Throws, complete);
      if threw then Throws else Answer(u)
  }

  /** `from` a source transaction: as from its message, and the transaction is kept. */
  function FromTransaction(
    tx: TxId, message: Reply<MessageId>, vaa: Reply<Option<Vaa>>, from: Chain, to: Chain,
    fromContext: Option<Chain>, toContext: Option<Chain>, complete: Reply<bool>)
    : Reply<Transfer>
  {
    if message.Throws? then Throws
    else
      var t := FromMessage(message.value, vaa, from, to, fromContext, toContext, complete);
      if t.Throws? then Throws else Answer(t.value.(txids := [tx]))
  }

  class TokenTransfer {
    const from: Chain
    const to: Chain
    const fromContext: Chain
    const toContext: Chain
    var state: TransferState
    var txids: seq<TxId>
    var attestations: Option<seq<Evidence>>
    ghost var log: seq<Effect>

    ghost function View(): Transfer
      reads this
    {
      Transfer(from, to, fromContext, toContext, state, txids, attestations, log)
    }

    constructor (from: Chain, to: Chain, fromContext: Chain, toContext: Chain)
      ensures View() == Transfer(from, to, fromContext, toContext, Created, [], None, [])
    {
      this.from, this.to, this.fromContext, this.toContext := from, to, fromContext, toContext;
      state, txids, attestations, log := Created, [], None, [];
    }

    method InitiateTransfer(submission: Reply<seq<string>>) returns (threw: bool)
      modifies this
      ensures (View(), threw) == Apply(Initiate(submission), old(View()))
    {
      if state != Created { return true; }
      if submission.Throws? { return true; }
      txids := TxIds(fromContext, submission.value);
      state := SourceInitiated;
      log := log + [SourceSubmitted];
      return false;
    }

    method FetchAttestation(message: Reply<MessageId>, vaa: MessageId -> Reply<Option<Vaa>>, complete: Reply<bool>)
      returns (threw: bool)
      modifies this
      ensures (View(), threw) == Apply(Fetch(message, vaa, complete), old(View()))
    {
      if state.Code() < SourceInitiated.Code() || state.Code() > Attested.Code() { return true; }
      if attestations.None? || |attestations.value| == 0 {
        if |txids| == 0 { return true; }
        if message.Throws? { return true; }
        attestations := Some([Evidence(message.value, None)]);
      }
      ghost var found := attestations.value;
      var idx := 0;
      while idx < |attestations.value|
        invariant attestations.Some? && |attestations.value| == |found| && idx <= |found|
        invariant state == old(state) && txids == old(txids)
        invariant FetchFrom(found, 0, vaa, old(log)) == FetchFrom(attestations.value, idx, vaa, log)
      {
        var att := attestations.value[idx];
        if att.vaa.None? {
          var reply := vaa(att.id);
          if reply.Throws? { return true; }
          if reply.value.None? { return true; }
          attestations := Some(attestations.value[idx := att.(vaa := reply.value)]);
          log := log + [VaaFetched(att.id)];
        }
        idx := idx + 1;
      }
      state := Attested;
      if |attestations.value| > 0 {
        if complete.Throws? { return true; }
        if complete.value { state := DestinationFinalized; }
      }
      return false;
    }

    method CompleteTransfer(submission: Reply<seq<string>>) returns (threw: bool)
      modifies this
      ensures (View(), threw) == Apply(Complete(submission), old(View()))
    {
      if state.Code() < Attested.Code() { return true; }
      if attestations.None? { return true; }
      if attestations.value == [] { return true; }
      if attestations.value[0].vaa.None? { return true; }
      if submission.Throws? { return true; }
      txids := txids + TxIds(toContext, submission.value);
      state := DestinationInitiated;
      log := log + [Redeemed];
      return false;
    }

    /** `getReceipt`: what the object's fields say about the transfer, read one after the other. */
    method GetReceipt() returns (receipt: TokenReceipt)
      ensures receipt == ReceiptOf(View())
    {
      receipt := Receipt(from, to, Created, [], None, None, None);
      var originTxs := OnChain(txids, from);
      if |originTxs| > 0 {
        receipt := receipt.(state := SourceInitiated, originTxs := originTxs);
      }
      if attestations.Some? && |attestations.value| > 0 {
        var att := attestations.value[0];
        receipt := receipt.(state := SourceFinalized, attestation := Some(AttestationReceipt(Some(att.id), None)));
        if att.vaa.Some? {
          receipt := receipt.(state := Attested,
                              attestation := Some(AttestationReceipt(Some(att.id), att.vaa)));
        }
      }
      var destinationTxs := OnChain(txids, to);
      if |destinationTxs| > 0 {
        receipt := receipt.(state := DestinationFinalized, destinationTxs := Some(destinationTxs));
      }
    }
  }

  /** The receipt is decided by the last of the fields that has anything to say. */
  function ReceiptOf(t: Transfer): TokenReceipt {
    var origin := OnChain(t.txids, t.from);
    var destination := OnChain(t.txids, t.to);
    var first := t.First();
    Receipt(
      t.from, t.to,
      if destination != [] then DestinationFinalized
      else if first.Some? then if first.value.vaa.Some? then Attested else SourceFinalized
      else if origin != [] then SourceInitiated
      else Created,
      origin,
      if first.Some? then Some(AttestationReceipt(Some(first.value.id), first.value.vaa)) else None,
      if destination != [] then Some(destination) else None,
      None)
  }

  /** The object after a sequence of calls, each met by its own answers. */
  function AfterCalls(t: Transfer, ops: seq<Op>): Transfer
    decreases |ops|
  {
    if ops == [] then t else AfterCalls(Apply(ops[0], t).0, ops[1..])
  }

  function Count(log: seq<Effect>, e: Effect): nat {
    multiset(log)[e]
  }

  /** What every call keeps of an object made by `from`. */
  ghost predicate Inv(t: Transfer) {
    && (t.state.Created? || t.state.SourceInitiated? || t.state == Attested
        || t.state.DestinationInitiated? || t.state.DestinationFinalized?)
    && (t.state.Created? ==> t.txids == [] && t.attestations.None? && t.log == [])
    && (t.state.SourceInitiated? ==> forall i | 0 <= i < |t.txids| :: t.txids[i].chain == t.fromContext)
    && (t.attestations.Some? ==> |t.attestations.value| == 1)
    && (t.IsAttested() <==> t.First().Some? && t.First().value.vaa.Some?)
    && Count(t.log, SourceSubmitted) <= 1
    && (forall id :: Count(t.log, VaaFetched(id)) == if t.IsAttested() && id == t.First().value.id then 1 else 0)
  }

  lemma FromMessageIsInv(
    id: MessageId, vaa: Reply<Option<Vaa>>, from: Chain, to: Chain,
    fromContext: Option<Chain>, toContext: Option<Chain>,
    complete: Reply<bool>)
    ensures var t := FromMessage(id, vaa, from, to, fromContext, toContext, complete);
            t.Answer? ==> Inv(t.value) && t.value.IsAttested()
  {
    if vaa.Answer? && vaa.value.Some? {
      FetchOne(Evidence(id, vaa.value), m => Throws, [VaaFetched(id)]);
    }
  }

  /** Every object that `from` makes satisfies the invariant; one made from a message or a transaction is attested. */
  lemma FromIsInv(
    amount: nat, id: MessageId, tx: TxId, message: Reply<MessageId>, vaa: Reply<Option<Vaa>>, complete: Reply<bool>,
    from: Chain, to: Chain, supported: bool, fromContext: Option<Chain>, toContext: Option<Chain>)
    ensures var t := FromDetails(amount, from, to, supported, fromContext, toContext);
            t.Answer? ==> Inv(t.value) && t.value.state.Created?
    ensures var t := FromMessage(id, vaa, from, to, fromContext, toContext, complete);
            t.Answer? ==> Inv(t.value) && t.value.IsAttested()
    ensures var t := FromTransaction(tx, message, vaa, from, to, fromContext, toContext, complete);
            t.Answer? ==> Inv(t.value) && t.value.IsAttested() && t.value.txids == [tx]
  {
    FromMessageIsInv(id, vaa, from, to, fromContext, toContext, complete);
    if message.Answer? {
      FromMessageIsInv(message.value, vaa, from, to, fromContext, toContext, complete);
      var t := FromMessage(message.value, vaa, from, to, fromContext, toContext, complete);
      if t.Answer? {
        assert t.value.(txids := [tx]).First() == t.value.First();
      }
    }
  }

  /** Which answers let `from` make an object, and in which state: a new one, or one that is attested or finalized. */
  lemma FromSucceedsIff(
    amount: nat, id: MessageId, tx: TxId, message: Reply<MessageId>, vaa: Reply<Option<Vaa>>, complete: Reply<bool>,
    from: Chain, to: Chain, supported: bool, fromContext: Option<Chain>, toContext: Option<Chain>)
    ensures FromDetails(amount, from, to, supported, fromContext, toContext).Answer?
            <==> amount > 0 && from != to && supported
    ensures var t := FromMessage(id, vaa, from, to, fromContext, toContext, complete);
            && (t.Answer? <==> vaa.Answer? && vaa.value.Some? && complete.Answer?)
            && (t.Answer? ==>
                  && t.value.state == (if complete.value then DestinationFinalized else Attested)
                  && t.value.attestations == Some([Evidence(id, vaa.value)]) && t.value.txids == [])
    ensures var t := FromTransaction(tx, message, vaa, from, to, fromContext, toContext, complete);
            && (t.Answer? <==> message.Answer? && vaa.Answer? && vaa.value.Some? && complete.Answer?)
            && (t.Answer? ==>
                  && t.value.state == (if complete.value then DestinationFinalized else Attested)
                  && t.value.attestations == Some([Evidence(message.value, vaa.value)]) && t.value.txids == [tx])
  {
    if vaa.Answer? && vaa.value.Some? {
      FetchOne(Evidence(id, vaa.value), m => Throws, [VaaFetched(id)]);
      if message.Answer? {
        FetchOne(Evidence(message.value, vaa.value), m => Throws, [VaaFetched(message.value)]);
      }
    }
  }

  /** An object works through the chain contexts it was given, or through those of its chains. */
  lemma ContextsOf(
    amount: nat, id: MessageId, tx: TxId, message: Reply<MessageId>, vaa: Reply<Option<Vaa>>, complete: Reply<bool>,
    from: Chain, to: Chain, supported: bool, fromContext: Option<Chain>, toContext: Option<Chain>)
    ensures var t := FromDetails(amount, from, to, supported, fromContext, toContext);
            t.Answer? ==> HasContexts(t.value, from, to, fromContext, toContext)
    ensures var t := FromMessage(id, vaa, from, to, fromContext, toContext, complete);
            t.Answer? ==> HasContexts(t.value, from, to, fromContext, toContext)
    ensures var t := FromTransaction(tx, message, vaa, from, to, fromContext, toContext, complete);
            t.Answer? ==> HasContexts(t.value, from, to, fromContext, toContext)
  {
    MessageContexts(id, vaa, complete, from, to, fromContext, toContext);
    if message.Answer? {
      MessageContexts(message.value, vaa, complete, from, to, fromContext, toContext);
    }
  }

  lemma MessageContexts(
    id: MessageId, vaa: Reply<Option<Vaa>>, complete: Reply<bool>,
    from: Chain, to: Chain, fromContext: Option<Chain>, toContext: Option<Chain>)
    ensures var t := FromMessage(id, vaa, from, to, fromContext, toContext, complete);
            t.Answer? ==> HasContexts(t.value, from, to, fromContext, toContext)
  {
  }

  predicate HasContexts(
    t: Transfer, from: Chain, to: Chain, fromContext: Option<Chain>, toContext: Option<Chain>)
  {
    && t.from == from && t.to == to
    && (fromContext == None ==> t.fromContext == from) && (toContext == None ==> t.toContext == to)
    && (fromContext.Some? ==> t.fromContext == fromContext.value)
    && (toContext.Some? ==> t.toContext == toContext.value)
  }

  /** The loop over the one attestation an object ever has. */
  lemma FetchOne(att: Evidence, vaa: MessageId -> Reply<Option<Vaa>>, log: seq<Effect>)
    ensures FetchFrom([att], 0, vaa, log) ==
              if att.vaa.Some? then ([att], log, false)
              else if vaa(att.id).Throws? || vaa(att.id).value.None? then ([att], log, true)
              else ([att.(vaa := vaa(att.id).value)], log + [VaaFetched(att.id)], false)
  {
    if att.vaa.None? && vaa(att.id).Answer? && vaa(att.id).value.Some? {
      var fetched := att.(vaa := vaa(att.id).value);
      assert [att][0 := fetched] == [fetched];
      assert FetchFrom([fetched], 1, vaa, log + [VaaFetched(att.id)]) == ([fetched], log + [VaaFetched(att.id)], false);
    } else if att.vaa.Some? {
      assert FetchFrom([att], 1, vaa, log) == ([att], log, false);
    }
  }

  /**
   * The loop over any number of attestations: it throws exactly at the first one whose message is neither there nor to
   * be had, with all before it fetched; what was there stays, and nothing changes but what it fetches.
   */
  lemma {:induction false} FetchesInOrder(
    atts: seq<Evidence>, i: nat, vaa: MessageId -> Reply<Option<Vaa>>, log: seq<Effect>)
    returns (n: nat)
    requires i <= |atts|
    ensures var (fetched, _, threw) := FetchFrom(atts, i, vaa, log);
            && i <= n <= |atts| && |fetched| == |atts| && (threw <==> n < |atts|)
            && (forall j | 0 <= j < i || n <= j < |atts| :: fetched[j] == atts[j])
            && (forall j | i <= j < n :: IsFetched(atts[j], fetched[j], vaa))
            && (n < |atts| ==> atts[n].vaa.None? && (vaa(atts[n].id).Throws? || vaa(atts[n].id).value.None?))
    decreases |atts| - i
  {
    n := i;
    if i < |atts| {
      if atts[i].vaa.Some? {
        n := FetchesInOrder(atts, i + 1, vaa, log);
      } else if vaa(atts[i].id).Answer? && vaa(atts[i].id).value.Some? {
        var next := atts[i := atts[i].(vaa := vaa(atts[i].id).value)];
        n := FetchesInOrder(next, i + 1, vaa, log + [VaaFetched(atts[i].id)]);
      }
    }
  }

  /** The same message id, with the signed message that was there or the one that the API gives. */
  predicate IsFetched(att: Evidence, fetched: Evidence, vaa: MessageId -> Reply<Option<Vaa>>) {
    && fetched.id == att.id && fetched.vaa.Some?
    && (if att.vaa.Some? then fetched.vaa == att.vaa else vaa(att.id) == Answer(fetched.vaa))
  }

  /** What one call, thrown or not, may change. */
  predicate Keeps(t: Transfer, u: Transfer) {
    && u.from == t.from && u.to == t.to && u.fromContext == t.fromContext && u.toContext == t.toContext
    && (t.IsAttested() ==> u.IsAttested() && u.attestations == t.attestations)
    && (t.First().Some? ==> u.First().Some? && u.First().value.id == t.First().value.id)
    && t.log <= u.log && t.txids <= u.txids
  }

  /** Fetching the signed message of an object that has none. */
  lemma FetchingKeeps(t: Transfer, att: Evidence, vaa: Vaa, u: Transfer)
    requires Inv(t) && !t.IsAttested() && t.state.SourceInitiated?
    requires t.First().Some? ==> t.First().value.id == att.id
    requires u.state == Attested || u.state.DestinationFinalized?
    requires u == t.(
               attestations := Some([att.(vaa := Some(vaa))]), log := t.log + [VaaFetched(att.id)], state := u.state)
    ensures Inv(u) && Keeps(t, u)
  {
    assert u.First() == Some(att.(vaa := Some(vaa)));
    forall e ensures Count(u.log, e) == Count(t.log, e) + if e == VaaFetched(att.id) then 1 else 0 {}
  }

  lemma FetchKeeps(t: Transfer, message: Reply<MessageId>, vaa: MessageId -> Reply<Option<Vaa>>, complete: Reply<bool>)
    requires Inv(t)
    ensures var u := ApplyFetch(t, message, vaa, complete).0; Inv(u) && Keeps(t, u)
  {
    var u := ApplyFetch(t, message, vaa, complete).0;
    if t.First().Some? || message.Answer? {
      var att := if t.First().Some? then t.First().value else Evidence(message.value, None);
      assert t.attestations.Some? ==> t.attestations.value == [att];
      FetchOne(att, vaa, t.log);
      if u.log != t.log {
        FetchingKeeps(t, att, vaa(att.id).value.value, u);
      }
    }
  }

  lemma CompleteKeeps(t: Transfer, submission: Reply<seq<string>>)
    requires Inv(t)
    ensures var u := ApplyComplete(t, submission).0; Inv(u) && Keeps(t, u)
  {
  }

  lemma CallKeeps(op: Op, t: Transfer)
    requires Inv(t)
    ensures var u := Apply(op, t).0; Inv(u) && Keeps(t, u)
  {
    match op
    case Initiate(submission) =>
    case Fetch(message, vaa, complete) => FetchKeeps(t, message, vaa, complete);
    case Complete(submission) => CompleteKeeps(t, submission);
  }

  /**
   * Over every sequence of calls: the source transfer is submitted successfully at most once, an attested object
   * stays attested, message ids and signed messages once known never change, and none is fetched twice.
   */
  lemma {:induction false} CallsKeep(t: Transfer, ops: seq<Op>)
    requires Inv(t)
    ensures var u := AfterCalls(t, ops);
            && Inv(u) && Keeps(t, u)
            && Count(u.log, SourceSubmitted) <= 1
            && (forall id :: Count(u.log, VaaFetched(id)) <= 1)
    decreases |ops|
  {
    if ops != [] {
      CallKeeps(ops[0], t);
      CallsKeep(Apply(ops[0], t).0, ops[1..]);
    }
  }

  // ---------- When calls succeed, and which transactions they record ----------

  /** Submitting succeeds exactly for a new object, when the transfer gets through. */
  lemma InitiateSucceedsIff(t: Transfer, submission: Reply<seq<string>>)
    ensures var (u, threw) := Apply(Initiate(submission), t);
            && (!threw <==> t.state.Created? && submission.Answer?)
            && (!threw ==> u.state.SourceInitiated? && u.log == t.log + [SourceSubmitted])
            && (threw ==> u == t)
  {
  }

  /** Completing succeeds exactly from the attestation on, when the redeem transactions get through. */
  lemma CompleteSucceedsIff(t: Transfer, submission: Reply<seq<string>>)
    requires Inv(t)
    ensures var (u, threw) := Apply(Complete(submission), t);
            && (!threw <==> && submission.Answer?
                            && (t.state == Attested || t.state.DestinationInitiated? || t.state.DestinationFinalized?))
            && (!threw ==> u.state.DestinationInitiated? && u.log == t.log + [Redeemed])
            && (threw ==> u == t)
  {
  }

  /** The id of the object's message, once there is a way to know it. */
  function IdOf(t: Transfer, message: Reply<MessageId>): Option<MessageId> {
    if t.attestations.Some? && t.attestations.value != [] then Some(t.attestations.value[0].id)
    else if t.txids != [] && message.Answer? then Some(message.value)
    else None
  }

  /**
   * Fetching succeeds exactly when the message is signed and its completion is answered, for an object that is
   * submitted or attested. When it throws it keeps what it has found: the id, the signed message, and that it is
   * attested.
   */
  lemma FetchSucceedsIff(
    t: Transfer, message: Reply<MessageId>, vaa: MessageId -> Reply<Option<Vaa>>, complete: Reply<bool>)
    requires Inv(t)
    ensures var (u, threw) := Apply(Fetch(message, vaa, complete), t);
            var id := IdOf(t, message);
            var ended := if complete == Answer(true) then DestinationFinalized else Attested;
            if t.state == Attested then u == t.(state := ended) && (threw <==> complete.Throws?)
            else if !t.state.SourceInitiated? || id.None? then u == t && threw
            else if vaa(id.value).Throws? || vaa(id.value).value.None? then
              u == t.(attestations := Some([Evidence(id.value, None)])) && threw
            else
              && u == t.(attestations := Some([Evidence(id.value, vaa(id.value).value)]),
                         log := t.log + [VaaFetched(id.value)], state := ended)
              && (threw <==> complete.Throws?)
  {
    var id := IdOf(t, message);
    if id.Some? {
      var att := if t.First().Some? then t.First().value else Evidence(id.value, None);
      assert t.attestations.Some? ==> t.attestations.value == [att] && t.attestations == Some([att]);
      FetchOne(att, vaa, t.log);
    }
  }

  /** The hashes that a call gives back which succeeds in submitting the source transfer, and in redeeming it. */
  function SubmittedBy(op: Op, threw: bool): seq<string> {
    if op.Initiate? && !threw && op.submission.Answer? then op.submission.value else []
  }

  function RedeemedBy(op: Op, threw: bool): seq<string> {
    if op.Complete? && !threw && op.submission.Answer? then op.submission.value else []
  }

  /** And those of a sequence of calls, in order. */
  function SubmittedHashes(t: Transfer, ops: seq<Op>): seq<string>
    decreases |ops|
  {
    if ops == [] then []
    else SubmittedBy(ops[0], Apply(ops[0], t).1) + SubmittedHashes(Apply(ops[0], t).0, ops[1..])
  }

  function RedeemedHashes(t: Transfer, ops: seq<Op>): seq<string>
    decreases |ops|
  {
    if ops == [] then []
    else RedeemedBy(ops[0], Apply(ops[0], t).1) + RedeemedHashes(Apply(ops[0], t).0, ops[1..])
  }

  /** How many calls succeed in completing. */
  function Completions(t: Transfer, ops: seq<Op>): nat
    decreases |ops|
  {
    if ops == [] then 0
    else (if ops[0].Complete? && !Apply(ops[0], t).1 then 1 else 0) + Completions(Apply(ops[0], t).0, ops[1..])
  }

  lemma {:induction false} NothingSubmittedTwice(t: Transfer, ops: seq<Op>)
    requires Inv(t) && !t.state.Created?
    ensures SubmittedHashes(t, ops) == []
    decreases |ops|
  {
    if ops != [] {
      CallKeeps(ops[0], t);
      NothingSubmittedTwice(Apply(ops[0], t).0, ops[1..]);
    }
  }

  /** One call records the hashes it is given, under the chain of the context that it went through. */
  lemma CallRecords(t: Transfer, op: Op)
    requires Inv(t)
    ensures var (u, threw) := Apply(op, t);
            && u.txids == t.txids + TxIds(t.fromContext, SubmittedBy(op, threw))
                                  + TxIds(t.toContext, RedeemedBy(op, threw))
            && Count(u.log, Redeemed) == Count(t.log, Redeemed) + (if op.Complete? && !threw then 1 else 0)
            && (RedeemedBy(op, threw) == [] || !u.state.Created?)
            && (SubmittedBy(op, threw) == [] || !u.state.Created?)
  {
    assert TxIds(t.fromContext, []) == [] && TxIds(t.toContext, []) == [];
    if op.Fetch? {
      FetchSucceedsIff(t, op.message, op.vaa, op.complete);
    }
  }

  /**
   * Over every sequence of calls: the object holds the transactions it began with, those of its submission under the
   * chain of its source context, and those of all successful completions in order under the chain of its destination
   * context; and each completion has redeemed once.
   */
  lemma {:induction false} CallsRecord(t: Transfer, ops: seq<Op>)
    requires Inv(t)
    ensures AfterCalls(t, ops).txids ==
              t.txids + TxIds(t.fromContext, SubmittedHashes(t, ops)) + TxIds(t.toContext, RedeemedHashes(t, ops))
    ensures Count(AfterCalls(t, ops).log, Redeemed) == Count(t.log, Redeemed) + Completions(t, ops)
    decreases |ops|
  {
    assert TxIds(t.fromContext, []) == [] && TxIds(t.toContext, []) == [];
    if ops != [] {
      var (u, threw) := Apply(ops[0], t);
      var s, r := SubmittedBy(ops[0], threw), RedeemedBy(ops[0], threw);
      var later, more := SubmittedHashes(u, ops[1..]), RedeemedHashes(u, ops[1..]);
      CallKeeps(ops[0], t);
      CallRecords(t, ops[0]);
      CallsRecord(u, ops[1..]);
      if !u.state.Created? {
        NothingSubmittedTwice(u, ops[1..]);
      }
      TxIdsConcat(t.fromContext, s, later);
      TxIdsConcat(t.toContext, r, more);
      Interleave(t.txids, TxIds(t.fromContext, s), TxIds(t.toContext, r), TxIds(t.fromContext, later),
                 TxIds(t.toContext, more));
    }
  }

  lemma NewTxids(t: Transfer, ops: seq<Op>)
    requires Inv(t) && t.txids == []
    ensures AfterCalls(t, ops).txids ==
              TxIds(t.fromContext, SubmittedHashes(t, ops)) + TxIds(t.toContext, RedeemedHashes(t, ops))
  {
    CallsRecord(t, ops);
    var origin := TxIds(t.fromContext, SubmittedHashes(t, ops));
    assert [] + origin == origin;
  }

  /** The receipt lists the hashes given back by the submission and by the completions, each on their chain. */
  predicate Lists(r: TokenReceipt, submitted: seq<string>, redeemed: seq<string>) {
    && AreOn(r.originTxs, r.from, submitted)
    && (if redeemed == [] then r.destinationTxs.None?
        else r.destinationTxs.Some? && AreOn(r.destinationTxs.value, r.to, redeemed))
    && (r.state.DestinationFinalized? <==> redeemed != [])
  }

  lemma ReceiptLists(u: Transfer, submitted: seq<string>, redeemed: seq<string>)
    requires OnChain(u.txids, u.from) == TxIds(u.from, submitted) && OnChain(u.txids, u.to) == TxIds(u.to, redeemed)
    ensures Lists(ReceiptOf(u), submitted, redeemed)
  {
    assert |TxIds(u.to, redeemed)| == |redeemed|;
  }

  /**
   * So the receipt of a new transfer between two chains, through their own contexts, lists as origin transactions just
   * the hashes of its submission, as destination transactions just those of its completions, in order, and says
   * finalized exactly when there are some.
   */
  lemma ReceiptListsHashes(
    amount: nat, from: Chain, to: Chain, supported: bool, fromContext: Option<Chain>, toContext: Option<Chain>,
    ops: seq<Op>)
    requires amount > 0 && from != to && supported
    requires (fromContext == None || fromContext == Some(from)) && (toContext == None || toContext == Some(to))
    ensures FromDetails(amount, from, to, supported, fromContext, toContext).Answer?
    ensures var t := FromDetails(amount, from, to, supported, fromContext, toContext).value;
            var r := ReceiptOf(AfterCalls(t, ops));
            r.from == from && r.to == to && Lists(r, SubmittedHashes(t, ops), RedeemedHashes(t, ops))
  {
    var t := FromDetails(amount, from, to, supported, fromContext, toContext).value;
    CallsKeep(t, ops);
    NewTxids(t, ops);
    OnTwoChains(from, to, SubmittedHashes(t, ops), RedeemedHashes(t, ops));
    ReceiptLists(AfterCalls(t, ops), SubmittedHashes(t, ops), RedeemedHashes(t, ops));
  }

  /** The receipt's state tells how far the transfer has come, by what there is of it, and it holds the attestation. */
  predicate Tells(r: TokenReceipt, u: Transfer, submitted: seq<string>, redeemed: seq<string>) {
    var known := u.attestations.Some?;
    && r.state == (if redeemed != [] then DestinationFinalized
                   else if u.state == Attested || u.state.DestinationInitiated? || u.state.DestinationFinalized? then
                     Attested
                   else if known then SourceFinalized
                   else if submitted != [] then SourceInitiated
                   else Created)
    && (!known ==> r.attestation.None?)
    && (known ==>
          && |u.attestations.value| == 1
          && var first := u.attestations.value[0];
             r.attestation == Some(AttestationReceipt(Some(first.id), first.vaa)))
  }

  /** One attestation, and its signed message exactly from the attestation on. */
  predicate HasShape(u: Transfer) {
    && (u.attestations.Some? ==> |u.attestations.value| == 1)
    && (u.state == Attested || u.state.DestinationInitiated? || u.state.DestinationFinalized?
        <==> u.attestations.Some? && u.attestations.value[0].vaa.Some?)
  }

  lemma ShapeOf(u: Transfer)
    requires Inv(u)
    ensures HasShape(u)
  {
  }

  lemma ReceiptTells(u: Transfer, submitted: seq<string>, redeemed: seq<string>)
    requires OnChain(u.txids, u.from) == TxIds(u.from, submitted) && OnChain(u.txids, u.to) == TxIds(u.to, redeemed)
    requires HasShape(u)
    ensures Tells(ReceiptOf(u), u, submitted, redeemed)
  {
    assert |TxIds(u.to, redeemed)| == |redeemed| && |TxIds(u.from, submitted)| == |submitted|;
  }

  lemma ReceiptTellsState(
    amount: nat, from: Chain, to: Chain, supported: bool, fromContext: Option<Chain>, toContext: Option<Chain>,
    ops: seq<Op>)
    requires amount > 0 && from != to && supported
    requires (fromContext == None || fromContext == Some(from)) && (toContext == None || toContext == Some(to))
    ensures var t := FromDetails(amount, from, to, supported, fromContext, toContext).value;
            var u := AfterCalls(t, ops);
            Tells(ReceiptOf(u), u, SubmittedHashes(t, ops), RedeemedHashes(t, ops))
  {
    var t := FromDetails(amount, from, to, supported, fromContext, toContext).value;
    CallsKeep(t, ops);
    NewTxids(t, ops);
    OnTwoChains(from, to, SubmittedHashes(t, ops), RedeemedHashes(t, ops));
    ShapeOf(AfterCalls(t, ops));
    ReceiptTells(AfterCalls(t, ops), SubmittedHashes(t, ops), RedeemedHashes(t, ops));
  }

  /** The object's own state is not monotone: it falls exactly when a finalized transfer is completed once more. */
  lemma StateFallsIff(op: Op, t: Transfer)
    requires Inv(t)
    ensures Apply(op, t).0.state.Code() < t.state.Code()
            <==> op.Complete? && op.submission.Answer? && t.state.DestinationFinalized?
  {
    if op.Fetch? {
      CallKeeps(op, t);
    }
  }

  /** Such an object is made: `from` a message that is redeemed already, and completed once more. */
  lemma CompletedOnceMoreFalls(id: MessageId, vaa: Vaa, from: Chain, to: Chain, hashes: seq<string>)
    ensures var t := FromMessage(id, Answer(Some(vaa)), from, to, None, None, Answer(true));
            && t.Answer? && t.value.state.DestinationFinalized?
            && Apply(Complete(Answer(hashes)), t.value).0.state.DestinationInitiated?
  {
    FetchOne(Evidence(id, Some(vaa)), m => Throws, [VaaFetched(id)]);
  }

  /** The receipt of an object says attested or later exactly when the object does. */
  predicate Agrees(t: Transfer) {
    t.IsAttested() <==> ReceiptOf(t).state.Code() >= Attested.Code()
  }

  lemma ReceiptAttestedIff(t: Transfer)
    ensures ReceiptOf(t).state.Code() >= Attested.Code()
            <==> OnChain(t.txids, t.to) != [] || (t.First().Some? && t.First().value.vaa.Some?)
  {
  }

  lemma AgreesAt(u: Transfer)
    requires Inv(u)
    ensures Agrees(u) <==> !(u.state.SourceInitiated? && u.txids != [] && u.fromContext == u.to)
  {
    ReceiptAttestedIff(u);
    if u.state.SourceInitiated? && u.txids != [] {
      assert u.txids[0].chain == u.fromContext;
    }
  }

  /**
   * Receipt and object agree in every reachable state but one: a transfer submitted through a source context that
   * the caller pointed at the destination chain, whose source transactions then pass for destination ones.
   */
  lemma AgreesIff(t: Transfer, ops: seq<Op>)
    requires Inv(t)
    ensures var u := AfterCalls(t, ops);
            Agrees(u) <==> !(u.state.SourceInitiated? && u.txids != [] && u.fromContext == u.to)
  {
    CallsKeep(t, ops);
    AgreesAt(AfterCalls(t, ops));
  }

  /** So with the source context on any other chain they always agree, and the receipt is one the tracker can follow. */
  lemma ReceiptsAgree(t: Transfer, ops: seq<Op>)
    requires Inv(t) && t.fromContext != t.to
    ensures Agrees(AfterCalls(t, ops))
    ensures WellFormed(ReceiptOf(AfterCalls(t, ops)))
  {
    AgreesIff(t, ops);
    CallsKeep(t, ops);
  }

  /** The exception is real: one call reaches it. */
  lemma OverriddenContextDisagrees()
    ensures var t := FromDetails(1, "Ethereum", "Solana", true, Some("Solana"), None);
            t.Answer? && !Agrees(AfterCalls(t.value, [Initiate(Answer(["0xabc"]))]))
  {
    var t := FromDetails(1, "Ethereum", "Solana", true, Some("Solana"), None).value;
    var op := Initiate(Answer(["0xabc"]));
    var u := Apply(op, t).0;
    assert AfterCalls(t, [op]) == u;
    assert u.txids[0].chain == "Solana";
  }
}
