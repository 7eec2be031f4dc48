/** Signing and sending a stream of transactions in batches (connect/src/common.ts, `ssw`). */
module Batching {
  import opened Prelude

  datatype Tx = Tx(id: nat, parallelizable: bool)

  /** The batches sent for a stream: runs of parallelizable transactions, cut by each one that is not. */
  function Batches(stream: seq<Tx>): seq<seq<Tx>> {
    BatchesFrom([], stream)
  }

  function BatchesFrom(buffer: seq<Tx>, stream: seq<Tx>): seq<seq<Tx>>
    decreases |stream|
  {
    if stream == [] then Flush(buffer)
    else if stream[0].parallelizable then BatchesFrom(buffer + [stream[0]], stream[1..])
    else Flush(buffer) + [[stream[0]]] + BatchesFrom([], stream[1..])
  }

  /** The batches sent by the time a stream breaks off: what is still in the buffer then is lost. */
  function BatchesBegun(buffer: seq<Tx>, stream: seq<Tx>): seq<seq<Tx>>
    decreases |stream|
  {
    if stream == [] then []
    else if stream[0].parallelizable then BatchesBegun(buffer + [stream[0]], stream[1..])
    else Flush(buffer) + [[stream[0]]] + BatchesBegun([], stream[1..])
  }

  function Flush(buffer: seq<Tx>): seq<seq<Tx>> {
    if buffer == [] then [] else [buffer]
  }

  /** The outcome of sending `batches` in order: the ids collected, unless one is refused and the rest is not sent. */
  datatype Sent = Sent(calls: seq<seq<Tx>>, ids: seq<string>, failed: bool)

  function SendAll(batches: seq<seq<Tx>>, send: (nat, seq<Tx>) -> Reply<seq<string>>): Sent {
    if batches == [] then Sent([], [], false)
    else
      var before := SendAll(batches[..|batches| - 1], send);
      if before.failed then before else OneMore(before, batches[|batches| - 1], send)
  }

  function OneMore(before: Sent, b: seq<Tx>, send: (nat, seq<Tx>) -> Reply<seq<string>>): Sent {
    match send(|before.calls|, b)
    case Throws => Sent(before.calls + [b], before.ids, true)
    case Answer(ids) => Sent(before.calls + [b], before.ids + ids, false)
  }

  lemma Extend(batches: seq<seq<Tx>>, b: seq<Tx>, send: (nat, seq<Tx>) -> Reply<seq<string>>)
    requires !SendAll(batches, send).failed
    ensures SendAll(batches + [b], send) == OneMore(SendAll(batches, send), b, send)
  {
    assert (batches + [b])[..|batches|] == batches;
  }

  /** After a refusal nothing more is sent. */
  lemma {:induction false} FailedStays(
    batches: seq<seq<Tx>>, more: seq<seq<Tx>>, send: (nat, seq<Tx>) -> Reply<seq<string>>)
    requires SendAll(batches, send).failed
    ensures SendAll(batches + more, send) == SendAll(batches, send)
    decreases |more|
  {
    if more == [] {
      assert batches + more == batches;
    } else {
      var shorter := more[..|more| - 1];
      assert (batches + more)[..|batches + more| - 1] == batches + shorter;
      FailedStays(batches, shorter, send);
    }
  }

  /** The k-th call, in the midst of `calls` before it and `rest` after it. */
  method Call(
    calls: seq<seq<Tx>>, ids: seq<string>, b: seq<Tx>, ghost rest: seq<seq<Tx>>,
    send: (nat, seq<Tx>) -> Reply<seq<string>>)
    returns (sent: Sent)
    requires SendAll(calls, send) == Sent(calls, ids, false)
    ensures sent == SendAll(calls + [b], send)
    ensures sent.calls == calls + [b]
    ensures sent.failed ==> sent == SendAll(calls + ([b] + rest), send)
  {
    var reply := send(|calls|, b);
    Extend(calls, b, send);
    if reply.Throws? {
      FailedStays(calls + [b], rest, send);
      assert calls + ([b] + rest) == calls + [b] + rest;
      return Sent(calls + [b], ids, true);
    }
    return Sent(calls + [b], ids + reply.value, false);
  }

  /** The batches still to come, of a stream that ends or one that breaks off. */
  function Rest(buffer: seq<Tx>, stream: seq<Tx>, breaks: bool): seq<seq<Tx>> {
    if breaks then BatchesBegun(buffer, stream) else BatchesFrom(buffer, stream)
  }

  /** A transaction that is not parallelizable: the buffer is flushed, then it is sent by itself. */
  method Flushing(
    sent: Sent, txbuff: seq<Tx>, tx: Tx, ghost rest: seq<seq<Tx>>, send: (nat, seq<Tx>) -> Reply<seq<string>>)
    returns (after: Sent)
    requires !sent.failed && sent == SendAll(sent.calls, send)
    ensures after.failed ==> after == SendAll(sent.calls + (Flush(txbuff) + [[tx]] + rest), send)
    ensures !after.failed ==> after == SendAll(after.calls, send)
    ensures !after.failed ==> after.calls + rest == sent.calls + (Flush(txbuff) + [[tx]] + rest)
  {
    after := sent;
    Associative(Flush(txbuff), [[tx]], rest);
    Associative(sent.calls, Flush(txbuff), [[tx]] + rest);
    if |txbuff| > 0 {
      after := Call(after.calls, after.ids, txbuff, [[tx]] + rest, send);
      if after.failed { return; }
    } else {
      assert sent.calls + Flush(txbuff) == sent.calls;
    }
    Associative(after.calls, [[tx]], rest);
    after := Call(after.calls, after.ids, [tx], rest, send);
  }

  /**
   * `ssw`: `send(k, batch)` is the answer to the k-th call; the calls made are returned with the ids. The stream may
   * break off with an exception after the transactions it has given.
   */
  method SignSendWait(stream: seq<Tx>, breaks: bool, send: (nat, seq<Tx>) -> Reply<seq<string>>)
    returns (sent: Sent, threw: bool)
    ensures sent == SendAll(if breaks then BatchesBegun([], stream) else Batches(stream), send)
    ensures threw == (breaks || sent.failed)
  {
    sent := Sent([], [], false);
    var txbuff: seq<Tx> := [];
    assert stream[0..] == stream;
    for i := 0 to |stream|
      invariant Rest([], stream, breaks) == sent.calls + Rest(txbuff, stream[i..], breaks)
      invariant sent == SendAll(sent.calls, send) && !sent.failed
    {
      var tx := stream[i];
      assert stream[i..][0] == tx && stream[i..][1..] == stream[i + 1..];
      if tx.parallelizable {
        txbuff := txbuff + [tx];
      } else {
        sent := Flushing(sent, txbuff, tx, Rest([], stream[i + 1..], breaks), send);
        if sent.failed { return sent, true; }
        txbuff := [];
      }
    }
    AtEnd(sent.calls, txbuff, stream[|stream|..], breaks);
    if breaks { return sent, true; }
    if |txbuff| > 0 {
      sent := Call(sent.calls, sent.ids, txbuff, [], send);
    }
    return sent, sent.failed;
  }

  lemma AtEnd(calls: seq<seq<Tx>>, buffer: seq<Tx>, none: seq<Tx>, breaks: bool)
    requires none == []
    ensures calls + Rest(buffer, none, breaks) == if breaks || buffer == [] then calls else calls + [buffer]
  {
  }

  function Concat<T>(xss: seq<seq<T>>): seq<T> {
    if xss == [] then [] else xss[0] + Concat(xss[1..])
  }

  predicate AllParallelizable(b: seq<Tx>) {
    forall i | 0 <= i < |b| :: b[i].parallelizable
  }

  /** A batch that may be sent at once: one transaction, or several that are all parallelizable. */
  predicate Sendable(b: seq<Tx>) {
    b != [] && (|b| == 1 || AllParallelizable(b))
  }

  /** A way of sending the stream in order that respects the barriers. */
  predicate IsPartition(batches: seq<seq<Tx>>, stream: seq<Tx>) {
    Concat(batches) == stream && forall i | 0 <= i < |batches| :: Sendable(batches[i])
  }

  lemma {:induction false} ConcatAppend<T>(xss: seq<seq<T>>, yss: seq<seq<T>>)
    ensures Concat(xss + yss) == Concat(xss) + Concat(yss)
    decreases |xss|
  {
    if xss == [] {
      assert xss + yss == yss;
    } else {
      assert (xss + yss)[1..] == xss[1..] + yss;
      ConcatAppend(xss[1..], yss);
    }
  }

  lemma {:induction false} BatchesPartition(buffer: seq<Tx>, stream: seq<Tx>)
    requires AllParallelizable(buffer)
    ensures IsPartition(BatchesFrom(buffer, stream), buffer + stream)
    decreases |stream|
  {
    if stream == [] {
      assert Concat(Flush(buffer)) == buffer == buffer + stream;
    } else if stream[0].parallelizable {
      BatchesPartition(buffer + [stream[0]], stream[1..]);
      assert buffer + [stream[0]] + stream[1..] == buffer + stream;
    } else {
      var rest := BatchesFrom([], stream[1..]);
      BatchesPartition([], stream[1..]);
      ConcatAppend(Flush(buffer), [[stream[0]]]);
      ConcatAppend(Flush(buffer) + [[stream[0]]], rest);
      assert Concat([[stream[0]]]) == [stream[0]];
      assert Concat(Flush(buffer)) == buffer;
      assert buffer + [stream[0]] + ([] + stream[1..]) == buffer + stream;
    }
  }

  predicate MayShare(a: Tx, b: Tx) {
    a.parallelizable && b.parallelizable
  }

  /** The neighbours in a stream that no call may have in common. */
  function Cuts(s: seq<Tx>): nat {
    if |s| <= 1 then 0 else (if MayShare(s[0], s[1]) then 0 else 1) + Cuts(s[1..])
  }

  lemma {:induction false} CutsConcat(p: seq<Tx>, q: seq<Tx>)
    requires p != [] && q != []
    ensures Cuts(p + q) == Cuts(p) + (if MayShare(p[|p| - 1], q[0]) then 0 else 1) + Cuts(q)
    decreases |p|
  {
    if |p| == 1 {
      assert (p + q)[1..] == q;
    } else {
      CutsConcat(p[1..], q);
      assert (p + q)[1..] == p[1..] + q;
    }
  }

  lemma {:induction false} SendableHasNoCuts(b: seq<Tx>)
    requires b == [] || Sendable(b)
    ensures Cuts(b) == 0
    decreases |b|
  {
    if |b| > 1 {
      SendableHasNoCuts(b[1..]);
    }
  }

  /** The batches of `ssw` are cut just where they have to be. */
  lemma {:induction false} BatchesAreCuts(buffer: seq<Tx>, stream: seq<Tx>)
    requires AllParallelizable(buffer)
    ensures |BatchesFrom(buffer, stream)| == if buffer + stream == [] then 0 else Cuts(buffer + stream) + 1
    decreases |stream|
  {
    if stream == [] {
      assert buffer + stream == buffer;
      SendableHasNoCuts(buffer);
    } else if stream[0].parallelizable {
      BatchesAreCuts(buffer + [stream[0]], stream[1..]);
      assert buffer + [stream[0]] + stream[1..] == buffer + stream;
    } else {
      BatchesAreCuts([], stream[1..]);
      assert [] + stream[1..] == stream[1..];
      assert buffer == [] ==> buffer + stream == stream;
      SendableHasNoCuts(buffer);
      if buffer != [] {
        CutsConcat(buffer, stream);
      }
    }
  }

  /** No two batches in a row could have been sent in one call. */
  predicate Maximal(batches: seq<seq<Tx>>) {
    forall i, j | 0 <= i < j == i + 1 < |batches| && batches[i] != [] && batches[j] != [] ::
      !MayShare(batches[i][|batches[i]| - 1], batches[j][0])
  }

  lemma PartitionTail(batches: seq<seq<Tx>>, stream: seq<Tx>)
    requires IsPartition(batches, stream) && stream != []
    ensures Sendable(batches[0]) && stream == batches[0] + Concat(batches[1..])
    ensures IsPartition(batches[1..], Concat(batches[1..]))
    ensures if |batches| == 1 then Concat(batches[1..]) == []
            else Sendable(batches[1]) && Concat(batches[1..]) != [] && Concat(batches[1..])[0] == batches[1][0]
    ensures Maximal(batches) <==>
              || |batches| == 1
              || (Maximal(batches[1..]) && !MayShare(batches[0][|batches[0]| - 1], batches[1][0]))
  {
    var rest := batches[1..];
    assert forall i | 0 <= i < |rest| :: rest[i] == batches[i + 1];
    assert Sendable(batches[0]);
    if |batches| > 1 {
      assert Sendable(rest[0]);
    }
  }

  /** Every way of sending the stream needs a call more than there are cuts, and more than that unless it is maximal. */
  lemma {:induction false} PartitionsCoverCuts(batches: seq<seq<Tx>>, stream: seq<Tx>)
    requires IsPartition(batches, stream) && stream != []
    ensures |batches| >= Cuts(stream) + 1
    ensures |batches| == Cuts(stream) + 1 <==> Maximal(batches)
    decreases |batches|
  {
    PartitionTail(batches, stream);
    SendableHasNoCuts(batches[0]);
    if |batches| == 1 {
      assert stream == batches[0];
    } else {
      PartitionsCoverCuts(batches[1..], Concat(batches[1..]));
      CutsConcat(batches[0], Concat(batches[1..]));
    }
  }

  /** A sendable start of `p + q` that goes beyond `p` holds neighbours that may share a call. */
  lemma SharedBySendable(p: seq<Tx>, q: seq<Tx>, b: seq<Tx>, rest: seq<Tx>)
    requires p + q == b + rest && p != [] && q != [] && Sendable(b)
    ensures |p| < |b| ==> MayShare(p[|p| - 1], q[0])
  {
    var n := |p|;
    assert (p + q)[n - 1] == p[n - 1] && (p + q)[n] == q[0];
    assert n < |b| ==> (b + rest)[n - 1] == b[n - 1] && (b + rest)[n] == b[n];
  }

  /** The first batch of a maximal way is no shorter than that of any other. */
  lemma FirstIsLongest(batches: seq<seq<Tx>>, other: seq<seq<Tx>>, stream: seq<Tx>)
    requires IsPartition(batches, stream) && IsPartition(other, stream) && stream != [] && Maximal(batches)
    ensures |other[0]| <= |batches[0]|
  {
    PartitionTail(batches, stream);
    PartitionTail(other, stream);
    if |batches| > 1 {
      SharedBySendable(batches[0], Concat(batches[1..]), other[0], Concat(other[1..]));
    }
  }

  /** There is only one maximal way. */
  lemma {:induction false} MaximalIsUnique(batches: seq<seq<Tx>>, other: seq<seq<Tx>>, stream: seq<Tx>)
    requires IsPartition(batches, stream) && IsPartition(other, stream) && Maximal(batches) && Maximal(other)
    ensures batches == other
    decreases |stream|
  {
    if stream == [] {
      EmptyPartition(batches, stream);
      EmptyPartition(other, stream);
    } else {
      PartitionTail(batches, stream);
      PartitionTail(other, stream);
      FirstIsLongest(batches, other, stream);
      FirstIsLongest(other, batches, stream);
      var n := |batches[0]|;
      assert batches[0] == stream[..n] == other[0];
      assert Concat(batches[1..]) == stream[n..] == Concat(other[1..]);
      MaximalIsUnique(batches[1..], other[1..], stream[n..]);
      assert batches == [batches[0]] + batches[1..];
      assert other == [other[0]] + other[1..];
    }
  }

  lemma EmptyPartition(batches: seq<seq<Tx>>, stream: seq<Tx>)
    requires IsPartition(batches, stream)
    ensures batches == [] <==> stream == []
  {
    if batches != [] {
      assert Sendable(batches[0]);
    }
  }

  /** `ssw` sends the stream in order, within its barriers, in the fewest calls that any such sending takes. */
  lemma BatchesAreFewest(stream: seq<Tx>, batches: seq<seq<Tx>>)
    ensures IsPartition(Batches(stream), stream)
    ensures IsPartition(batches, stream) ==> |Batches(stream)| <= |batches|
  {
    BatchesPartition([], stream);
    assert [] + stream == stream;
    BatchesAreCuts([], stream);
    if IsPartition(batches, stream) && stream != [] {
      PartitionsCoverCuts(batches, stream);
    }
  }

  /** And no other sending takes as few, or joins all that may be sent together. */
  lemma FewestIsUnique(stream: seq<Tx>, batches: seq<seq<Tx>>)
    requires IsPartition(batches, stream)
    ensures |batches| <= |Batches(stream)| <==> batches == Batches(stream)
    ensures Maximal(batches) <==> batches == Batches(stream)
  {
    BatchesAreFewest(stream, batches);
    if stream == [] {
      EmptyPartition(batches, stream);
    } else {
      BatchesAreCuts([], stream);
      assert [] + stream == stream;
      PartitionsCoverCuts(batches, stream);
      PartitionsCoverCuts(Batches(stream), stream);
      if Maximal(batches) {
        MaximalIsUnique(batches, Batches(stream), stream);
      }
    }
  }

  function Ids(b: seq<Tx>, id: Tx -> string): seq<string> {
    seq(|b|, i requires 0 <= i < |b| => id(b[i]))
  }

  lemma IdsConcat(a: seq<Tx>, b: seq<Tx>, id: Tx -> string)
    ensures Ids(a + b, id) == Ids(a, id) + Ids(b, id)
  {
  }

  /** A sender that names its transactions in order, whenever it does not refuse. */
  ghost predicate NamesInOrder(send: (nat, seq<Tx>) -> Reply<seq<string>>, id: Tx -> string) {
    forall k, b | send(k, b).Answer? :: send(k, b).value == Ids(b, id)
  }

  /** The calls made are the first of the batches; the only refusal, if there is one, is the last call. */
  predicate InOrder(sent: Sent, batches: seq<seq<Tx>>, send: (nat, seq<Tx>) -> Reply<seq<string>>) {
    && sent.calls <= batches
    && (!sent.failed ==> sent.calls == batches)
    && (sent.failed ==> sent.calls != [] && send(|sent.calls| - 1, sent.calls[|sent.calls| - 1]).Throws?)
    && (forall k | 0 <= k < |sent.calls| && send(k, sent.calls[k]).Throws? :: sent.failed && k == |sent.calls| - 1)
  }

  lemma OneMoreInOrder(sent: Sent, batches: seq<seq<Tx>>, b: seq<Tx>, send: (nat, seq<Tx>) -> Reply<seq<string>>)
    requires InOrder(sent, batches, send)
    ensures InOrder(if sent.failed then sent else OneMore(sent, b, send), batches + [b], send)
  {
  }

  /** Whatever the sender answers: if batch k is refused, those before it were sent and none after it is tried. */
  lemma {:induction false} SentInOrder(batches: seq<seq<Tx>>, send: (nat, seq<Tx>) -> Reply<seq<string>>)
    ensures InOrder(SendAll(batches, send), batches, send)
    decreases |batches|
  {
    if batches != [] {
      var before, b := batches[..|batches| - 1], batches[|batches| - 1];
      SentInOrder(before, send);
      OneMoreInOrder(SendAll(before, send), before, b, send);
      assert batches == before + [b];
    }
  }

  /** The batches whose ids were collected: all that were sent, but for one that was refused. */
  function Accepted(sent: Sent): seq<seq<Tx>> {
    if sent.failed && sent.calls != [] then sent.calls[..|sent.calls| - 1] else sent.calls
  }

  /** With a sender that names its transactions in order, the ids collected are theirs. */
  lemma {:induction false} IdsInOrder(
    batches: seq<seq<Tx>>, send: (nat, seq<Tx>) -> Reply<seq<string>>, id: Tx -> string)
    requires NamesInOrder(send, id)
    ensures var sent := SendAll(batches, send); sent.ids == Ids(Concat(Accepted(sent)), id)
    decreases |batches|
  {
    if batches != [] {
      var before, b := batches[..|batches| - 1], batches[|batches| - 1];
      IdsInOrder(before, send, id);
      var sent := SendAll(before, send);
      if !sent.failed {
        ConcatAppend(sent.calls, [b]);
        assert Concat([b]) == b;
        IdsConcat(Concat(sent.calls), b, id);
        assert (sent.calls + [b])[..|sent.calls|] == sent.calls;
      }
    }
  }

  /** So a stream that is sent entirely gives one id per transaction, the last one naming the last transaction. */
  lemma OneIdPerTransaction(stream: seq<Tx>, send: (nat, seq<Tx>) -> Reply<seq<string>>, id: Tx -> string)
    requires NamesInOrder(send, id)
    ensures var sent := SendAll(Batches(stream), send);
            !sent.failed ==> sent.ids == Ids(stream, id)
    ensures var sent := SendAll(Batches(stream), send);
            sent.failed ==> |sent.ids| < |stream| && sent.ids == Ids(stream[..|sent.ids|], id)
  {
    SentInOrder(Batches(stream), send);
    IdsInOrder(Batches(stream), send, id);
    BatchesAreFewest(stream, []);
    var sent := SendAll(Batches(stream), send);
    if sent.failed {
      var n := |sent.calls| - 1;
      assert Accepted(sent) == Batches(stream)[..n] && Sendable(Batches(stream)[n]);
      ConcatPrefix(Batches(stream), n);
    }
  }

  /** The batches before one that holds something concatenate to a proper prefix. */
  lemma ConcatPrefix<T>(batches: seq<seq<T>>, n: nat)
    requires n < |batches| && batches[n] != []
    ensures var head := Concat(batches[..n]);
            |head| < |Concat(batches)| && Concat(batches)[..|head|] == head
  {
    var head, tail := batches[..n], batches[n..];
    assert head + tail == batches;
    ConcatAppend(head, tail);
    assert Concat(tail) != [];
  }

  /** The last transactions of a stream, all parallelizable: the ones still in the buffer at its end. */
  function Buffered(buffer: seq<Tx>, stream: seq<Tx>): seq<Tx>
    decreases |stream|
  {
    if stream == [] then buffer
    else if stream[0].parallelizable then Buffered(buffer + [stream[0]], stream[1..])
    else Buffered([], stream[1..])
  }

  /** The batches of a whole stream are those of one that breaks off, and its buffer. */
  lemma {:induction false} BegunAndBuffered(buffer: seq<Tx>, stream: seq<Tx>)
    ensures BatchesFrom(buffer, stream) == BatchesBegun(buffer, stream) + Flush(Buffered(buffer, stream))
    ensures AllParallelizable(buffer) ==> AllParallelizable(Buffered(buffer, stream))
    ensures var begun := BatchesBegun(buffer, stream);
            begun != [] ==> |begun[|begun| - 1]| == 1 && !begun[|begun| - 1][0].parallelizable
    decreases |stream|
  {
    if stream == [] {
      assert BatchesBegun(buffer, stream) == [];
    } else if stream[0].parallelizable {
      BegunAndBuffered(buffer + [stream[0]], stream[1..]);
    } else {
      BegunAndBuffered([], stream[1..]);
      Associative(Flush(buffer) + [[stream[0]]], BatchesBegun([], stream[1..]), Flush(Buffered([], stream[1..])));
    }
  }

  /**
   * A stream that breaks off loses exactly the run of parallelizable transactions at its end; the rest is sent, in
   * order, in the batches that the whole stream would have been sent in.
   */
  lemma BreakingLosesTheBuffer(stream: seq<Tx>)
    ensures var begun, lost := BatchesBegun([], stream), Buffered([], stream);
            && begun <= Batches(stream) && Concat(begun) + lost == stream
            && AllParallelizable(lost)
            && (Concat(begun) != [] ==> !stream[|Concat(begun)| - 1].parallelizable)
  {
    var begun, lost := BatchesBegun([], stream), Buffered([], stream);
    BegunAndBuffered([], stream);
    BatchesAreFewest(stream, []);
    ConcatAppend(begun, Flush(lost));
    assert Concat(Flush(lost)) == lost;
    if begun != [] {
      var last := begun[|begun| - 1];
      ConcatAppend(begun[..|begun| - 1], [last]);
      assert begun == begun[..|begun| - 1] + [last] && Concat([last]) == last;
      assert stream[|Concat(begun)| - 1] == last[0];
    }
  }
}
