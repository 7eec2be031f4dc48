/** Sending Solana transactions with resubmission (platforms/solana/src/signer.ts, `SolanaSendSigner`). */
module SolanaSender {
  import opened Prelude

  datatype SendError =
    | BlockheightExceeded
    | SendTransactionError(message: string, logs: Option<seq<string>>)
    | OtherError

  datatype SendResult = Sent(signature: string) | Failed(error: SendError)

  predicate Contains(s: string, part: string) {
    exists i | 0 <= i <= |s| :: part <= s[i..]
  }

  function FirstWith(logs: seq<string>, prefix: string): Option<string> {
    if logs == [] then None
    else if prefix <= logs[0] then Some(logs[0])
    else FirstWith(logs[1..], prefix)
  }

  /** The errors worth a new attempt: an expired or unknown blockhash, or a storage account not seen yet. */
  predicate Retryable(e: SendError) {
    match e
    case BlockheightExceeded => true
    case OtherError => false
    case SendTransactionError(message, logs) =>
      && Contains(message, "Transaction simulation failed")
      && (Contains(message, "Blockhash not found")
          || (logs.Some?
              && var logged := FirstWith(logs.value, "Program log: Error: ");
                 logged.Some?
                 && (|| Contains(logged.value, "Not enough bytes")
                     || Contains(logged.value, "Unexpected length of input"))))
  }

  // ---------- What the errors worth a new attempt are ----------

  predicate StartsWith(s: string, part: string) {
    |part| <= |s| && s[..|part|] == part
  }

  predicate HoldsAt(s: string, part: string, i: nat) {
    i + |part| <= |s| && s[i..i + |part|] == part
  }

  predicate Holds(s: string, part: string) {
    exists i | 0 <= i <= |s| :: HoldsAt(s, part, i)
  }

  /** The k-th log line is the first to report an error of the program. */
  predicate ReportsError(logs: seq<string>, k: nat) {
    && k < |logs| && StartsWith(logs[k], "Program log: Error: ")
    && forall j | 0 <= j < k :: !StartsWith(logs[j], "Program log: Error: ")
  }

  predicate IsSizeError(line: string) {
    Holds(line, "Not enough bytes") || Holds(line, "Unexpected length of input")
  }

  /** A failed simulation that a new block or a little time may cure. */
  predicate SimulationMayPass(message: string, logs: Option<seq<string>>) {
    && Holds(message, "Transaction simulation failed")
    && (|| Holds(message, "Blockhash not found")
        || (logs.Some?
            && exists k | 0 <= k < |logs.value| :: ReportsError(logs.value, k) && IsSizeError(logs.value[k])))
  }

  predicate MayPass(e: SendError) {
    e.BlockheightExceeded? || (e.SendTransactionError? && SimulationMayPass(e.message, e.logs))
  }

  lemma ContainsIff(s: string, part: string)
    ensures Contains(s, part) <==> Holds(s, part)
  {
    forall i | 0 <= i <= |s| ensures part <= s[i..] <==> HoldsAt(s, part, i) {
      if i + |part| <= |s| {
        assert s[i..][..|part|] == s[i..i + |part|];
      }
    }
  }

  lemma {:induction false} FirstWithIs(logs: seq<string>, k: nat)
    requires ReportsError(logs, k)
    ensures FirstWith(logs, "Program log: Error: ") == Some(logs[k])
    decreases |logs|
  {
    if k > 0 {
      assert !StartsWith(logs[0], "Program log: Error: ");
      assert forall j | 0 <= j < k - 1 :: logs[1..][j] == logs[j + 1];
      FirstWithIs(logs[1..], k - 1);
    }
  }

  lemma {:induction false} FirstWithReports(logs: seq<string>) returns (k: nat)
    requires FirstWith(logs, "Program log: Error: ").Some?
    ensures ReportsError(logs, k)
    decreases |logs|
  {
    if StartsWith(logs[0], "Program log: Error: ") {
      k := 0;
    } else {
      k := FirstWithReports(logs[1..]);
      k := k + 1;
      assert forall j | 0 < j < k :: logs[j] == logs[1..][j - 1];
    }
  }

  /** These errors are retried and no others: an expired transaction, and a simulation that may pass. */
  lemma RetryableIff(e: SendError)
    ensures Retryable(e) <==> MayPass(e)
  {
    if e.SendTransactionError? {
      ContainsIff(e.message, "Transaction simulation failed");
      ContainsIff(e.message, "Blockhash not found");
      if e.logs.Some? {
        var logs := e.logs.value;
        var first := FirstWith(logs, "Program log: Error: ");
        forall k | 0 <= k < |logs| && ReportsError(logs, k) ensures first == Some(logs[k]) {
          FirstWithIs(logs, k);
        }
        if first.Some? {
          var k := FirstWithReports(logs);
          FirstWithIs(logs, k);
          ContainsIff(logs[k], "Not enough bytes");
          ContainsIff(logs[k], "Unexpected length of input");
          assert ReportsError(logs, k);
        }
      }
    }
  }

  // ---------- Sending ----------

  type Instruction = string

  /** The signer's settings; priority fees are enabled by a positive percentile. */
  datatype Options = Options(maxResubmits: int, priorityFee: bool)

  /**
   * The answers met: the n-th latest block, the fee instructions of a transaction, its attempts, and the confirmation
   * of a signature with a block. A block goes by its hash; its last valid height travels with it.
   */
  datatype World = World(
    latestBlock: nat -> Reply<string>,
    fee: nat -> Reply<seq<Instruction>>,
    send: (nat, nat) -> SendResult,
    confirm: (string, string) -> Reply<bool>)

  datatype Event =
    | Fetched(blockhash: string)
    | Attempted(tx: nat, attempt: nat, blockhash: string, instructions: seq<Instruction>, result: SendResult)

  predicate RetryableFailure(e: Event) {
    e.Attempted? && e.result.Failed? && Retryable(e.result.error)
  }

  /** What precedes an attempt: the first block, the success of the transaction before, or a failure and a new block. */
  predicate Follows(log: seq<Event>, p: nat)
    requires p < |log| && log[p].Attempted?
  {
    var e := log[p];
    if e.attempt > 0 then
      && p >= 2 && log[p - 1].Fetched? && log[p - 1].blockhash == e.blockhash
      && RetryableFailure(log[p - 2]) && log[p - 2].tx == e.tx && log[p - 2].attempt == e.attempt - 1
    else if e.tx > 0 then
      && p >= 1 && log[p - 1].Attempted? && log[p - 1].result.Sent? && log[p - 1].tx == e.tx - 1
      && log[p - 1].blockhash == e.blockhash
    else p == 1 && log[0] == Fetched(e.blockhash)
  }

  /** A log of blocks fetched and attempts made that follows the signer's rules. */
  predicate Legal(txs: seq<seq<Instruction>>, o: Options, w: World, log: seq<Event>) {
    forall p | 0 <= p < |log| :: LegalAt(txs, o, w, log, p)
  }

  predicate LegalAt(txs: seq<seq<Instruction>>, o: Options, w: World, log: seq<Event>, p: nat)
    requires p < |log|
  {
    match log[p]
    case Fetched(blockhash) =>
      && w.latestBlock(Fetches(log[..p])) == Answer(blockhash)
      && (p == 0 || (RetryableFailure(log[p - 1]) && log[p - 1].attempt < o.maxResubmits - 1))
    case Attempted(tx, attempt, _, instructions, result) =>
      && tx < |txs| && attempt < o.maxResubmits
      && (o.priorityFee ==> w.fee(tx).Answer?)
      && instructions == txs[tx] + (if o.priorityFee then w.fee(tx).value else [])
      && result == w.send(tx, attempt)
      && Follows(log, p)
  }

  function Fetches(log: seq<Event>): nat {
    if log == [] then 0 else Fetches(log[..|log| - 1]) + if log[|log| - 1].Fetched? then 1 else 0
  }

  /** The block fetched last. */
  function LastBlock(log: seq<Event>): string {
    if log == [] then ""
    else if log[|log| - 1].Fetched? then log[|log| - 1].blockhash
    else LastBlock(log[..|log| - 1])
  }

  function Signatures(log: seq<Event>): seq<string> {
    if log == [] then []
    else
      var e := log[|log| - 1];
      Signatures(log[..|log| - 1]) + if e.Attempted? && e.result.Sent? then [e.result.signature] else []
  }

  /** The log's last word on transaction `i`: nothing yet, or its success. */
  predicate Done(log: seq<Event>, i: nat, blockhash: string) {
    if i == 0 then log == [Fetched(blockhash)]
    else
      log != [] && var e := log[|log| - 1];
      e.Attempted? && e.tx == i - 1 && e.result.Sent? && e.blockhash == blockhash
  }

  /** Every transaction up to the i-th has its signature, from a successful attempt of its own. */
  predicate EachSent(log: seq<Event>, ids: seq<string>) {
    forall i | 0 <= i < |ids| :: WasSent(log, i, ids[i])
  }

  predicate WasSent(log: seq<Event>, i: nat, id: string) {
    exists p | 0 <= p < |log| :: log[p].Attempted? && log[p].tx == i && log[p].result == Sent(id)
  }

  /** Legality of an event depends on nothing after it. */
  lemma LegalStays(txs: seq<seq<Instruction>>, o: Options, w: World, log: seq<Event>, e: Event)
    requires Legal(txs, o, w, log) && LegalAt(txs, o, w, log + [e], |log|)
    ensures Legal(txs, o, w, log + [e])
  {
    forall p | 0 <= p < |log + [e]| ensures LegalAt(txs, o, w, log + [e], p) {
      if p < |log| {
        assert LegalAt(txs, o, w, log, p);
        assert (log + [e])[p] == log[p];
        assert (log + [e])[..p] == log[..p];
        assert p >= 1 ==> (log + [e])[p - 1] == log[p - 1];
        assert p >= 2 ==> (log + [e])[p - 2] == log[p - 2];
      }
    }
  }

  lemma CountsOf(log: seq<Event>, e: Event)
    ensures Fetches(log + [e]) == Fetches(log) + if e.Fetched? then 1 else 0
    ensures Signatures(log + [e]) ==
            Signatures(log) + if e.Attempted? && e.result.Sent? then [e.result.signature] else []
    ensures LastBlock(log + [e]) == if e.Fetched? then e.blockhash else LastBlock(log)
  {
    assert (log + [e])[..|log|] == log;
  }

  lemma SentStays(log: seq<Event>, longer: seq<Event>, ids: seq<string>)
    requires log <= longer && EachSent(log, ids)
    ensures EachSent(longer, ids)
  {
    forall i | 0 <= i < |ids| ensures WasSent(longer, i, ids[i]) {
      assert WasSent(log, i, ids[i]);
      var p :| 0 <= p < |log| && log[p].Attempted? && log[p].tx == i && log[p].result == Sent(ids[i]);
      assert longer[p] == log[p];
    }
  }

  /** Where an attempt failed and a new block was fetched for the next one. */
  predicate Resubmitting(log: seq<Event>, i: nat, attempt: nat, blockhash: string) {
    && |log| >= 2 && log[|log| - 1] == Fetched(blockhash) && RetryableFailure(log[|log| - 2])
    && log[|log| - 2].tx == i && log[|log| - 2].attempt == attempt - 1
  }

  function WithFee(ixs: seq<Instruction>, o: Options, w: World, i: nat): seq<Instruction> {
    ixs + if o.priorityFee && w.fee(i).Answer? then w.fee(i).value else []
  }

  lemma AttemptIsLegal(
    txs: seq<seq<Instruction>>, o: Options, w: World,
    log: seq<Event>, i: nat, attempt: nat, blockhash: string, e: Event)
    requires Legal(txs, o, w, log) && i < |txs| && attempt < o.maxResubmits
    requires if attempt == 0 then Done(log, i, blockhash) else Resubmitting(log, i, attempt, blockhash)
    requires o.priorityFee ==> w.fee(i).Answer?
    requires e == Attempted(i, attempt, blockhash, WithFee(txs[i], o, w, i), w.send(i, attempt))
    ensures Legal(txs, o, w, log + [e])
    ensures Fetches(log + [e]) == Fetches(log) && LastBlock(log + [e]) == LastBlock(log)
    ensures Signatures(log + [e]) == Signatures(log) + if e.result.Sent? then [e.result.signature] else []
    ensures e.result.Sent? ==> Done(log + [e], i + 1, blockhash) && WasSent(log + [e], i, e.result.signature)
  {
    assert (log + [e])[|log|] == e;
    assert Follows(log + [e], |log|);
    LegalStays(txs, o, w, log, e);
    CountsOf(log, e);
  }

  lemma FetchIsLegal(txs: seq<seq<Instruction>>, o: Options, w: World, log: seq<Event>, blockhash: string)
    requires Legal(txs, o, w, log) && log != []
    requires RetryableFailure(log[|log| - 1]) && log[|log| - 1].attempt < o.maxResubmits - 1
    requires w.latestBlock(Fetches(log)) == Answer(blockhash)
    ensures Legal(txs, o, w, log + [Fetched(blockhash)])
    ensures Fetches(log + [Fetched(blockhash)]) == Fetches(log) + 1
    ensures LastBlock(log + [Fetched(blockhash)]) == blockhash
    ensures Signatures(log + [Fetched(blockhash)]) == Signatures(log)
    ensures Resubmitting(log + [Fetched(blockhash)], log[|log| - 1].tx, log[|log| - 1].attempt + 1, blockhash)
  {
    assert (log + [Fetched(blockhash)])[..|log|] == log;
    LegalStays(txs, o, w, log, Fetched(blockhash));
    CountsOf(log, Fetched(blockhash));
  }

  predicate FeeFails(txs: seq<seq<Instruction>>, o: Options, w: World) {
    o.priorityFee && exists i | 0 <= i < |txs| :: w.fee(i).Throws?
  }

  /** The last event is a failed attempt with no way on: not retryable, the last allowed, or no new block to be had. */
  predicate AttemptFails(o: Options, w: World, log: seq<Event>) {
    && log != [] && log[|log| - 1].Attempted? && log[|log| - 1].result.Failed?
    && (|| !Retryable(log[|log| - 1].result.error)
        || log[|log| - 1].attempt == o.maxResubmits - 1
        || w.latestBlock(Fetches(log)).Throws?)
  }

  /** Every signature is confirmed with the block fetched last, whichever it was sent with. */
  predicate ConfirmationFails(w: World, log: seq<Event>) {
    exists i | 0 <= i < |Signatures(log)| :: w.confirm(Signatures(log)[i], LastBlock(log)) != Answer(true)
  }

  datatype Outcome = Success(signature: string) | TryAgain | GiveUp

  /** Whether an attempt may be made here: the first one of its transaction, or one after a retryable failure. */
  predicate Ready(log: seq<Event>, i: nat, attempt: nat, blockhash: string) {
    if attempt == 0 then Done(log, i, blockhash) else Resubmitting(log, i, attempt, blockhash)
  }

  /** One attempt, and the new block for the next one if it failed in a retryable way. */
  method TryOnce(
    txs: seq<seq<Instruction>>, o: Options, w: World, i: nat, attempt: nat, instructions: seq<Instruction>,
    before: seq<Event>, block: string, fetched: nat)
    returns (log: seq<Event>, blockhash: string, fetches: nat, outcome: Outcome)
    requires Legal(txs, o, w, before) && fetched == Fetches(before) && block == LastBlock(before)
    requires i < |txs| && attempt < o.maxResubmits && Ready(before, i, attempt, block)
    requires (o.priorityFee ==> w.fee(i).Answer?) && instructions == WithFee(txs[i], o, w, i)
    ensures before <= log && Legal(txs, o, w, log) && fetches == Fetches(log) && blockhash == LastBlock(log)
    ensures outcome.Success? ==>
              && Done(log, i + 1, blockhash) && WasSent(log, i, outcome.signature)
              && Signatures(log) == Signatures(before) + [outcome.signature]
    ensures outcome.TryAgain? ==>
              && attempt + 1 < o.maxResubmits && Ready(log, i, attempt + 1, blockhash)
              && Signatures(log) == Signatures(before)
    ensures outcome.GiveUp? ==> AttemptFails(o, w, log)
  {
    blockhash, fetches := block, fetched;
    var sent := w.send(i, attempt);
    var e := Attempted(i, attempt, blockhash, instructions, sent);
    AttemptIsLegal(txs, o, w, before, i, attempt, blockhash, e);
    log := before + [e];
    if sent.Sent? { return log, blockhash, fetches, Success(sent.signature); }
    if attempt == o.maxResubmits - 1 || !Retryable(sent.error) { return log, blockhash, fetches, GiveUp; }
    var latest := w.latestBlock(fetches);
    if latest.Throws? { return log, blockhash, fetches, GiveUp; }
    blockhash, fetches := latest.value, fetches + 1;
    FetchIsLegal(txs, o, w, log, blockhash);
    log := log + [Fetched(blockhash)];
    return log, blockhash, fetches, TryAgain;
  }

  /** The resubmission loop for one transaction; `signature` stays empty if there is no attempt at all. */
  method SendOne(
    txs: seq<seq<Instruction>>, o: Options, w: World, i: nat, before: seq<Event>, block: string, fetched: nat)
    returns (log: seq<Event>, blockhash: string, fetches: nat, signature: Reply<Option<string>>)
    requires i < |txs| && Legal(txs, o, w, before) && fetched == Fetches(before) && block == LastBlock(before)
    requires o.maxResubmits > 0 ==> Done(before, i, block)
    ensures before <= log && Legal(txs, o, w, log) && fetches == Fetches(log) && blockhash == LastBlock(log)
    ensures signature.Throws? ==> FeeFails(txs, o, w) || AttemptFails(o, w, log)
    ensures o.maxResubmits <= 0 ==> log == before && blockhash == block && (signature.Answer? ==> signature.value.None?)
    ensures o.maxResubmits > 0 && signature.Answer? ==>
              && signature.value.Some? && Done(log, i + 1, blockhash)
              && Signatures(log) == Signatures(before) + [signature.value.value]
              && WasSent(log, i, signature.value.value)
  {
    log, blockhash, fetches := before, block, fetched;
    var instructions := txs[i];
    var priorityFee: seq<Instruction> := [];
    if o.priorityFee {
      if w.fee(i).Throws? { return log, blockhash, fetches, Throws; }
      priorityFee := w.fee(i).value;
    }
    var attempt := 0;
    while attempt < o.maxResubmits
      invariant 0 <= attempt && before <= log && fetches == Fetches(log) && blockhash == LastBlock(log)
      invariant Legal(txs, o, w, log) && Signatures(log) == Signatures(before)
      invariant instructions == txs[i] + if attempt > 0 then priorityFee else []
      invariant o.maxResubmits <= 0 ==> log == before && blockhash == block
      invariant o.maxResubmits > 0 ==> attempt < o.maxResubmits && Ready(log, i, attempt, blockhash)
    {
      if o.priorityFee && attempt == 0 {
        instructions := instructions + priorityFee;
      }
      var outcome: Outcome;
      log, blockhash, fetches, outcome := TryOnce(txs, o, w, i, attempt, instructions, log, blockhash, fetches);
      match outcome {
        case Success(sent) => return log, blockhash, fetches, Answer(Some(sent));
        case GiveUp => return log, blockhash, fetches, Throws;
        case TryAgain => attempt := attempt + 1;
      }
    }
    return log, blockhash, fetches, Answer(None);
  }

  /** Waiting for the confirmations, all with the same block: one that fails or throws fails them all. */
  method Confirm(txids: seq<string>, blockhash: string, w: World) returns (confirmed: bool)
    ensures confirmed <==> forall i | 0 <= i < |txids| :: w.confirm(txids[i], blockhash) == Answer(true)
  {
    for i := 0 to |txids|
      invariant forall j | 0 <= j < i :: w.confirm(txids[j], blockhash) == Answer(true)
    {
      if w.confirm(txids[i], blockhash) != Answer(true) { return false; }
    }
    return true;
  }

  /** Transaction `i` is sent with attempt `n`, and what fails before that may pass. */
  predicate GetsSent(o: Options, w: World, i: nat, n: nat) {
    && n < o.maxResubmits && w.send(i, n).Sent?
    && forall a | 0 <= a < n :: w.send(i, a).Failed? && MayPass(w.send(i, a).error)
  }

  /** Every transaction is sent in the end, with its `n[i]`-th attempt, and nothing else that is asked for fails. */
  ghost predicate GetsThrough(txs: seq<seq<Instruction>>, o: Options, w: World, n: seq<nat>) {
    && |n| == |txs| && (forall i | 0 <= i < |txs| :: GetsSent(o, w, i, n[i]))
    && (o.priorityFee ==> forall i | 0 <= i < |txs| :: w.fee(i).Answer?)
    && (forall k: nat :: w.latestBlock(k).Answer?)
    && (forall i, block | 0 <= i < |txs| :: IsConfirmed(w, w.send(i, n[i]), block))
  }

  predicate IsConfirmed(w: World, sent: SendResult, block: string) {
    sent.Sent? ==> w.confirm(sent.signature, block) == Answer(true)
  }

  /** The signatures of these attempts, one for each transaction. */
  predicate AreSent(w: World, n: seq<nat>, ids: seq<string>) {
    |ids| == |n| && forall i | 0 <= i < |n| :: w.send(i, n[i]) == Sent(ids[i])
  }

  lemma {:induction false} AttemptsStop(
    txs: seq<seq<Instruction>>, o: Options, w: World, log: seq<Event>, n: seq<nat>, p: nat)
    requires GetsThrough(txs, o, w, n) && Legal(txs, o, w, log) && p < |log| && log[p].Attempted?
    ensures log[p].tx < |n| && log[p].attempt <= n[log[p].tx]
    decreases p
  {
    assert LegalAt(txs, o, w, log, p);
    if log[p].attempt > 0 {
      AttemptsStop(txs, o, w, log, n, p - 2);
      assert LegalAt(txs, o, w, log, p - 2) && GetsSent(o, w, log[p].tx, n[log[p].tx]);
    }
  }

  /** Then no attempt ends in an exception. */
  lemma NeverFails(txs: seq<seq<Instruction>>, o: Options, w: World, log: seq<Event>)
    requires Legal(txs, o, w, log)
    ensures forall n | GetsThrough(txs, o, w, n) :: !FeeFails(txs, o, w) && !AttemptFails(o, w, log)
  {
    forall n | GetsThrough(txs, o, w, n) ensures !FeeFails(txs, o, w) && !AttemptFails(o, w, log) {
      if log != [] && log[|log| - 1].Attempted? {
        var e := log[|log| - 1];
        AttemptsStop(txs, o, w, log, n, |log| - 1);
        assert LegalAt(txs, o, w, log, |log| - 1) && GetsSent(o, w, e.tx, n[e.tx]);
        if e.result.Failed? {
          RetryableIff(e.result.error);
        }
      }
    }
  }

  /** And what is sent is what those attempts give back. */
  lemma IdsAreSent(txs: seq<seq<Instruction>>, o: Options, w: World, log: seq<Event>, ids: seq<string>)
    requires Legal(txs, o, w, log) && EachSent(log, ids) && |ids| == if o.maxResubmits > 0 then |txs| else 0
    ensures forall n | GetsThrough(txs, o, w, n) ::
              AreSent(w, n, ids) && forall i, block | 0 <= i < |ids| :: w.confirm(ids[i], block) == Answer(true)
  {
    forall n | GetsThrough(txs, o, w, n)
      ensures AreSent(w, n, ids)
      ensures forall i, block | 0 <= i < |ids| :: w.confirm(ids[i], block) == Answer(true)
    {
      assert |txs| > 0 ==> GetsSent(o, w, 0, n[0]);
      forall i | 0 <= i < |n| ensures w.send(i, n[i]) == Sent(ids[i]) {
        assert WasSent(log, i, ids[i]) && GetsSent(o, w, i, n[i]);
        var p :| 0 <= p < |log| && log[p].Attempted? && log[p].tx == i && log[p].result == Sent(ids[i]);
        assert LegalAt(txs, o, w, log, p);
        AttemptsStop(txs, o, w, log, n, p);
      }
      forall i, block | 0 <= i < |ids| ensures w.confirm(ids[i], block) == Answer(true) {
        assert IsConfirmed(w, w.send(i, n[i]), block);
      }
    }
  }

  lemma FirstIsLegal(txs: seq<seq<Instruction>>, o: Options, w: World, blockhash: string)
    requires w.latestBlock(0) == Answer(blockhash)
    ensures var log := [Fetched(blockhash)];
            && Legal(txs, o, w, log) && Fetches(log) == 1 && LastBlock(log) == blockhash && Signatures(log) == []
  {
    assert [Fetched(blockhash)][..0] == [];
  }

  /** The signer throws only when something has failed for good; otherwise it returns one signature per transaction. */
  method SignAndSend(txs: seq<seq<Instruction>>, o: Options, w: World)
    returns (log: seq<Event>, result: Reply<seq<string>>)
    ensures Legal(txs, o, w, log)
    ensures result.Answer? ==> result.value == Signatures(log) && EachSent(log, result.value)
    ensures result.Answer? ==> |result.value| == if o.maxResubmits > 0 then |txs| else 0
    ensures result.Answer? ==> !ConfirmationFails(w, log)
    ensures result.Throws? ==>
              || w.latestBlock(0).Throws? || FeeFails(txs, o, w) || AttemptFails(o, w, log) || ConfirmationFails(w, log)
    ensures forall n | GetsThrough(txs, o, w, n) :: result.Answer? && AreSent(w, n, result.value)
  {
    log := [];
    if w.latestBlock(0).Throws? { return log, Throws; }
    var blockhash := w.latestBlock(0).value;
    var fetches := 1;
    log := [Fetched(blockhash)];
    FirstIsLegal(txs, o, w, blockhash);
    var txids: seq<string> := [];
    for i := 0 to |txs|
      invariant Legal(txs, o, w, log) && fetches == Fetches(log) && blockhash == LastBlock(log)
      invariant Signatures(log) == txids && EachSent(log, txids)
      invariant |txids| == if o.maxResubmits > 0 then i else 0
      invariant o.maxResubmits > 0 ==> Done(log, i, blockhash)
    {
      var signature: Reply<Option<string>>;
      ghost var before := log;
      log, blockhash, fetches, signature := SendOne(txs, o, w, i, log, blockhash, fetches);
      if signature.Throws? {
        NeverFails(txs, o, w, log);
        return log, Throws;
      }
      SentStays(before, log, txids);
      if signature.value.Some? {
        txids := txids + [signature.value.value];
      }
    }
    IdsAreSent(txs, o, w, log, txids);
    var confirmed := Confirm(txids, blockhash, w);
    return log, if confirmed then Answer(txids) else Throws;
  }

  /** The attempt before an attempt, if there is one: just before it, or with one block fetched in between. */
  function Previous(log: seq<Event>, p: nat): nat
    requires p < |log| && log[p].Attempted? && Follows(log, p) && (log[p].tx > 0 || log[p].attempt > 0)
  {
    if log[p].attempt > 0 then p - 2 else p - 1
  }

  predicate Precedes(a: Event, b: Event)
    requires a.Attempted? && b.Attempted?
  {
    a.tx < b.tx || (a.tx == b.tx && a.attempt < b.attempt)
  }

  /** Attempts go forward: first by transaction, within one by attempt, and never twice over the same. */
  lemma {:induction false} AttemptsAdvance(
    txs: seq<seq<Instruction>>, o: Options, w: World, log: seq<Event>, p: nat, q: nat)
    requires Legal(txs, o, w, log) && p < q < |log| && log[p].Attempted? && log[q].Attempted?
    ensures Precedes(log[p], log[q])
    decreases q
  {
    assert LegalAt(txs, o, w, log, q);
    var r := Previous(log, q);
    if p < r {
      AttemptsAdvance(txs, o, w, log, p, r);
    }
  }

  function AttemptsOf(log: seq<Event>, tx: nat): nat {
    if log == [] then 0
    else
      var e := log[|log| - 1];
      AttemptsOf(log[..|log| - 1], tx) + if e.Attempted? && e.tx == tx then 1 else 0
  }

  lemma {:induction false} AttemptsBelow(
    txs: seq<seq<Instruction>>, o: Options, w: World, log: seq<Event>, n: nat, tx: nat, bound: nat)
    requires Legal(txs, o, w, log) && n <= |log|
    requires forall p | 0 <= p < n && log[p].Attempted? && log[p].tx == tx :: log[p].attempt < bound
    ensures AttemptsOf(log[..n], tx) <= bound
    decreases n
  {
    if n != 0 {
      assert log[..n][..n - 1] == log[..n - 1];
      var e := log[n - 1];
      if e.Attempted? && e.tx == tx {
        forall p | 0 <= p < n - 1 && log[p].Attempted? && log[p].tx == tx ensures log[p].attempt < e.attempt {
          AttemptsAdvance(txs, o, w, log, p, n - 1);
        }
        AttemptsBelow(txs, o, w, log, n - 1, tx, e.attempt);
      } else {
        AttemptsBelow(txs, o, w, log, n - 1, tx, bound);
      }
    }
  }

  /** Every transaction gets at most as many attempts as resubmits are allowed. */
  lemma AttemptsAreBounded(txs: seq<seq<Instruction>>, o: Options, w: World, log: seq<Event>, tx: nat)
    requires Legal(txs, o, w, log)
    ensures AttemptsOf(log, tx) <= if o.maxResubmits > 0 then o.maxResubmits else 0
  {
    assert log[..|log|] == log;
    forall p | 0 <= p < |log| && log[p].Attempted? ensures log[p].attempt < o.maxResubmits {
      assert LegalAt(txs, o, w, log, p);
    }
    AttemptsBelow(txs, o, w, log, |log|, tx, if o.maxResubmits > 0 then o.maxResubmits else 0);
  }

  /** No transaction is attempted before every one ahead of it has been sent. */
  lemma {:induction false} PredecessorsWereSent(
    txs: seq<seq<Instruction>>, o: Options, w: World, log: seq<Event>, p: nat, i: nat)
    requires Legal(txs, o, w, log) && p < |log| && log[p].Attempted? && i < log[p].tx
    ensures exists q | 0 <= q < p :: log[q].Attempted? && log[q].tx == i && log[q].result.Sent?
    decreases p
  {
    assert LegalAt(txs, o, w, log, p);
    var r := Previous(log, p);
    if log[r].tx != i {
      PredecessorsWereSent(txs, o, w, log, r, i);
      var q :| 0 <= q < r && log[q].Attempted? && log[q].tx == i && log[q].result.Sent?;
    }
  }

  /** Nothing follows a failure unless it is retryable and not the last one allowed; and then a new block is fetched. */
  lemma WhatFollowsFailure(txs: seq<seq<Instruction>>, o: Options, w: World, log: seq<Event>, p: nat)
    requires Legal(txs, o, w, log) && p + 1 < |log| && log[p].Attempted? && log[p].result.Failed?
    ensures MayPass(log[p].result.error) && log[p].attempt < o.maxResubmits - 1
    ensures log[p + 1].Fetched? && w.latestBlock(Fetches(log[..p + 1])) == Answer(log[p + 1].blockhash)
  {
    assert LegalAt(txs, o, w, log, p + 1);
    RetryableIff(log[p].result.error);
  }

  /** So an error of another kind, or one that is not of a simulation, ends the sending. */
  lemma OtherErrorsEnd(txs: seq<seq<Instruction>>, o: Options, w: World, log: seq<Event>, p: nat)
    requires Legal(txs, o, w, log) && p < |log| && log[p].Attempted? && log[p].result.Failed?
    requires var e := log[p].result.error;
             || e.OtherError?
             || (e.SendTransactionError? && !Holds(e.message, "Transaction simulation failed"))
    ensures p == |log| - 1
  {
    if p + 1 < |log| {
      WhatFollowsFailure(txs, o, w, log, p);
    }
  }

  /**
   * An attempt is made with the latest block fetched before it, so a resubmission never reuses the block of the
   * failure it follows.
   */
  lemma {:induction false} UsesLatestBlock(
    txs: seq<seq<Instruction>>, o: Options, w: World, log: seq<Event>, p: nat)
    requires Legal(txs, o, w, log) && p < |log| && log[p].Attempted?
    ensures exists f | 0 <= f < p ::
              log[f] == Fetched(log[p].blockhash) && forall k | f < k < p :: log[k].Attempted? && log[k].result.Sent?
    decreases p
  {
    assert LegalAt(txs, o, w, log, p);
    if log[p].attempt > 0 {
      assert log[p - 1] == Fetched(log[p].blockhash);
    } else if log[p].tx > 0 {
      UsesLatestBlock(txs, o, w, log, p - 1);
      var f :| 0 <= f < p - 1 && log[f] == Fetched(log[p - 1].blockhash)
               && forall k | f < k < p - 1 :: log[k].Attempted? && log[k].result.Sent?;
      assert log[f] == Fetched(log[p].blockhash);
    } else {
      assert log[0] == Fetched(log[p].blockhash);
    }
  }

  /** The block used last is the answer to the last fetch. */
  lemma {:induction false} LastFetch(txs: seq<seq<Instruction>>, o: Options, w: World, log: seq<Event>, n: nat)
    requires Legal(txs, o, w, log) && 0 < n <= |log|
    ensures Fetches(log[..n]) > 0 && w.latestBlock(Fetches(log[..n]) - 1) == Answer(LastBlock(log[..n]))
    decreases n
  {
    assert LegalAt(txs, o, w, log, n - 1);
    assert log[..n][..n - 1] == log[..n - 1];
    if log[n - 1].Attempted? {
      LastFetch(txs, o, w, log, n - 1);
    }
  }

  /** The block of an attempt is the one fetched last before it. */
  lemma {:induction false} BlockOfAttempt(
    txs: seq<seq<Instruction>>, o: Options, w: World, log: seq<Event>, p: nat)
    requires Legal(txs, o, w, log) && p < |log| && log[p].Attempted?
    ensures p > 0 && log[p].blockhash == LastBlock(log[..p])
    decreases p
  {
    assert LegalAt(txs, o, w, log, p);
    assert log[..p][..p - 1] == log[..p - 1];
    if log[p - 1].Attempted? {
      BlockOfAttempt(txs, o, w, log, p - 1);
    }
  }

  lemma {:induction false} FetchesGrow(log: seq<Event>, p: nat, n: nat)
    requires p <= n <= |log|
    ensures Fetches(log[..p]) <= Fetches(log[..n])
    ensures Fetches(log[..p]) == Fetches(log[..n]) <==> forall k | p <= k < n :: !log[k].Fetched?
    decreases n
  {
    if p < n {
      assert log[..n][..n - 1] == log[..n - 1];
      FetchesGrow(log, p, n - 1);
    }
  }

  /** No two fetches are answered with the same block. */
  ghost predicate NewBlocks(w: World) {
    forall m, n | w.latestBlock(m).Answer? && w.latestBlock(m) == w.latestBlock(n) :: m == n
  }

  /**
   * A transaction is confirmed with the block it was sent with if no block was fetched after it, that is, if none after
   * it was sent again; and only then, as long as the fetches bring new blocks.
   */
  lemma ConfirmedWithItsBlockIff(txs: seq<seq<Instruction>>, o: Options, w: World, log: seq<Event>, p: nat)
    requires Legal(txs, o, w, log) && p < |log| && log[p].Attempted?
    ensures var later := exists k | p < k < |log| :: log[k].Fetched?;
            && (!later ==> LastBlock(log) == log[p].blockhash)
            && (NewBlocks(w) && later ==> LastBlock(log) != log[p].blockhash)
  {
    assert log[..|log|] == log;
    BlockOfAttempt(txs, o, w, log, p);
    LastFetch(txs, o, w, log, p);
    LastFetch(txs, o, w, log, |log|);
    FetchesGrow(log, p, |log|);
  }

  /** With no resubmits allowed the signer sends nothing at all, yet the method above returns without an error. */
  lemma NoResubmitsSendNothing(txs: seq<seq<Instruction>>, o: Options, w: World, log: seq<Event>)
    requires Legal(txs, o, w, log) && o.maxResubmits <= 0
    ensures forall p | 0 <= p < |log| :: log[p].Fetched?
    ensures Signatures(log) == []
    decreases |log|
  {
    forall p | 0 <= p < |log| ensures log[p].Fetched? {
      assert LegalAt(txs, o, w, log, p);
    }
    NoAttemptNoSignature(log);
  }

  lemma {:induction false} NoAttemptNoSignature(log: seq<Event>)
    requires forall p | 0 <= p < |log| :: log[p].Fetched?
    ensures Signatures(log) == []
    decreases |log|
  {
    if log != [] {
      NoAttemptNoSignature(log[..|log| - 1]);
    }
  }
}
