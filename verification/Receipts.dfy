/** Transfer states, receipts, and sessions of repeated tracker calls (connect/src/types.ts). */
module Receipts {
  import opened Prelude

  type Chain = string

  datatype TransferState =
    | Failed
    | Created
    | SourceInitiated
    | SourceFinalized
    | InReview
    | Attested
    | Refunded
    | DestinationInitiated
    | DestinationQueued
    | DestinationFinalized
  {
    /** The number behind the enum member. */
    function Code(): int {
      match this
      case Failed => -1
      case Created => 0
      case SourceInitiated => 1
      case SourceFinalized => 2
      case InReview => 3
      case Attested => 4
      case Refunded => 5
      case DestinationInitiated => 6
      case DestinationQueued => 7
      case DestinationFinalized => 8
    }

    /**
     * Progress of a transfer. A failed relay ranks above its attestation and below a redemption,
     * because a failed relay may still be redeemed. No tracker enters or leaves Refunded and
     * DestinationQueued, so these share the top rank.
     */
    function Rank(): nat {
      match this
      case Created => 0
      case SourceInitiated => 1
      case SourceFinalized => 2
      case InReview => 3
      case Attested => 4
      case Failed => 5
      case DestinationInitiated => 6
      case Refunded => 7
      case DestinationQueued => 7
      case DestinationFinalized => 7
    }
  }

  datatype TxId = TxId(chain: Chain, txid: string)

  /** What sending gives back: the hashes, on the chain of the context sent through. */
  function TxIds(chain: Chain, hashes: seq<string>): seq<TxId> {
    seq(|hashes|, i requires 0 <= i < |hashes| => TxId(chain, hashes[i]))
  }

  /** The transactions on one chain, in order. */
  function OnChain(txids: seq<TxId>, chain: Chain): (r: seq<TxId>)
    ensures r == [] <==> forall i | 0 <= i < |txids| :: txids[i].chain != chain
  {
    if txids == [] then []
    else (if txids[0].chain == chain then [txids[0]] else []) + OnChain(txids[1..], chain)
  }

  /** The transactions are these hashes, in order, on this chain. */
  predicate AreOn(txids: seq<TxId>, chain: Chain, hashes: seq<string>) {
    |txids| == |hashes| && forall i | 0 <= i < |txids| :: txids[i].chain == chain && txids[i].txid == hashes[i]
  }

  lemma TxIdsConcat(chain: Chain, a: seq<string>, b: seq<string>)
    ensures TxIds(chain, a + b) == TxIds(chain, a) + TxIds(chain, b)
  {
  }

  lemma {:induction false} OnChainConcat(a: seq<TxId>, b: seq<TxId>, chain: Chain)
    ensures OnChain(a + b, chain) == OnChain(a, chain) + OnChain(b, chain)
    decreases |a|
  {
    if a == [] {
      assert a + b == b;
    } else {
      assert (a + b)[1..] == a[1..] + b;
      OnChainConcat(a[1..], b, chain);
      Associative(if a[0].chain == chain then [a[0]] else [], OnChain(a[1..], chain), OnChain(b, chain));
    }
  }

  lemma {:induction false} OnChainTxIds(chain: Chain, hashes: seq<string>, other: Chain)
    ensures OnChain(TxIds(chain, hashes), other) == if other == chain then TxIds(chain, hashes) else []
    decreases |hashes|
  {
    if hashes != [] {
      assert TxIds(chain, hashes)[1..] == TxIds(chain, hashes[1..]);
      OnChainTxIds(chain, hashes[1..], other);
      assert TxIds(chain, hashes) == [TxIds(chain, hashes)[0]] + TxIds(chain, hashes[1..]);
    }
  }

  /** Of the transactions of a transfer between two chains, those on either chain. */
  lemma OnTwoChains(from: Chain, to: Chain, submitted: seq<string>, redeemed: seq<string>)
    requires from != to
    ensures OnChain(TxIds(from, submitted) + TxIds(to, redeemed), from) == TxIds(from, submitted)
    ensures OnChain(TxIds(from, submitted) + TxIds(to, redeemed), to) == TxIds(to, redeemed)
  {
    var origin, destination := TxIds(from, submitted), TxIds(to, redeemed);
    OnChainConcat(origin, destination, from);
    OnChainConcat(origin, destination, to);
    OnChainTxIds(from, submitted, from);
    OnChainTxIds(from, submitted, to);
    OnChainTxIds(to, redeemed, from);
    OnChainTxIds(to, redeemed, to);
    assert origin + [] == origin && [] + destination == destination;
  }

  datatype TransferError = RelayFailed | OtherError

  datatype AttestationReceipt<+I, +A> = AttestationReceipt(id: Option<I>, attestation: Option<A>)

  /** The union of the receipt types: a field that a state does not carry is empty. */
  datatype Receipt<+I, +A> = Receipt(
    from: Chain,
    to: Chain,
    state: TransferState,
    originTxs: seq<TxId>,
    attestation: Option<AttestationReceipt<I, A>>,
    destinationTxs: Option<seq<TxId>>,
    error: Option<TransferError>)
  {
    predicate IsRelayFailed() {
      state.Code() < 0 && error == Some(RelayFailed)
    }

    predicate HasId() {
      attestation.Some? && attestation.value.id.Some?
    }

    predicate HasAttestation() {
      attestation.Some? && attestation.value.attestation.Some?
    }
  }

  /** The same chains and the same origin transactions. */
  predicate SameTransfer<I, A>(r: Receipt<I, A>, s: Receipt<I, A>) {
    s.from == r.from && s.to == r.to && s.originTxs == r.originTxs
  }

  /** The same message id, on a receipt that is past the initiated state. */
  predicate SameMessage<I(==), A>(r: Receipt<I, A>, s: Receipt<I, A>) {
    r.HasId() && s.HasId() && s.attestation.value.id == r.attestation.value.id && !s.state.SourceInitiated?
  }

  /** What one drained tracker generator shows its consumer: the receipts it yields, and whether it then throws. */
  datatype Trace<+I, +A> = Trace(shown: seq<Receipt<I, A>>, threw: bool)

  function Finished<I, A>(shown: seq<Receipt<I, A>>): Trace<I, A> {
    Trace(shown, false)
  }

  function Thrown<I, A>(shown: seq<Receipt<I, A>>): Trace<I, A> {
    Trace(shown, true)
  }

  function After<I, A>(first: seq<Receipt<I, A>>, rest: Trace<I, A>): Trace<I, A> {
    Trace(first + rest.shown, rest.threw)
  }

  function Last<T>(xs: seq<T>): T
    requires xs != []
  {
    xs[|xs| - 1]
  }

  /** One call of a tracker: the answers it meets, and how many receipts the consumer waits for before leaving. */
  datatype Call<+N> = Call(answers: N, patience: nat)

  /** The receipts a consumer holds during one call, from the one it passes in to the last one it waits for. */
  function Seen<I, A, N>(track: (Receipt<I, A>, N) -> Trace<I, A>, r: Receipt<I, A>, c: Call<N>)
    : (rs: seq<Receipt<I, A>>)
    ensures rs != []
  {
    var shown := track(r, c.answers).shown;
    [r] + if c.patience < |shown| then shown[..c.patience] else shown
  }

  /** Every receipt held over repeated calls, each call fed with the receipt held after the one before. */
  function History<I, A, N>(track: (Receipt<I, A>, N) -> Trace<I, A>, r: Receipt<I, A>, calls: seq<Call<N>>)
    : (rs: seq<Receipt<I, A>>)
    ensures rs != [] && rs[0] == r
    decreases |calls|
  {
    if calls == [] then [r]
    else
      var seen := Seen(track, r, calls[0]);
      seen[..|seen| - 1] + History(track, Last(seen), calls[1..])
  }

  /** What is held at the end of a session is what its later calls make of what the first one left. */
  lemma {:induction false} LastOfSession<I, A, N>(
    track: (Receipt<I, A>, N) -> Trace<I, A>, r: Receipt<I, A>, c: Call<N>, rest: seq<Call<N>>)
    ensures Last(History(track, r, [c] + rest)) == Last(History(track, Last(Seen(track, r, c)), rest))
  {
    assert ([c] + rest)[1..] == rest;
  }

  /** Every two neighbours of `rs` are related. */
  ghost predicate Linked<R>(rs: seq<R>, rel: (R, R) -> bool) {
    forall i, j {:trigger rs[i], rs[j]} | 0 <= i < j == i + 1 < |rs| :: rel(rs[i], rs[j])
  }

  lemma LinkedCons<R>(r: R, rs: seq<R>, rel: (R, R) -> bool)
    requires rs != [] && rel(r, rs[0]) && Linked(rs, rel)
    ensures Linked([r] + rs, rel)
  {
    forall i | 0 < i < |[r] + rs|
      ensures rel(([r] + rs)[i - 1], ([r] + rs)[i])
    {
      assert ([r] + rs)[i] == rs[i - 1];
    }
  }

  /** What relates neighbours in every single call relates neighbours in every session of calls. */
  lemma {:induction false} SessionLinked<I(!new), A(!new), N(!new)>(
    track: (Receipt<I, A>, N) -> Trace<I, A>,
    rel: (Receipt<I, A>, Receipt<I, A>) -> bool,
    r: Receipt<I, A>,
    calls: seq<Call<N>>)
    requires forall s, n :: Linked([s] + track(s, n).shown, rel)
    ensures Linked(History(track, r, calls), rel)
    decreases |calls|
  {
    if calls != [] {
      var seen := Seen(track, r, calls[0]);
      var front := seen[..|seen| - 1];
      var rest := History(track, Last(seen), calls[1..]);
      SessionLinked(track, rel, Last(seen), calls[1..]);
      var all := [r] + track(r, calls[0].answers).shown;
      assert Linked(all, rel);
      assert seen == all[..|seen|];
      forall i | 0 < i < |front + rest|
        ensures rel((front + rest)[i - 1], (front + rest)[i])
      {
        if i <= |front| {
          assert (front + rest)[i] == all[i] && (front + rest)[i - 1] == all[i - 1];
        } else {
          assert (front + rest)[i] == rest[i - |front|];
        }
      }
    }
  }

  /** What relates neighbours relates any two, the earlier to the later, if it is reflexive and transitive. */
  lemma {:induction false} LinkedPreorder<R(!new)>(rs: seq<R>, rel: (R, R) -> bool, i: nat, j: nat)
    requires Linked(rs, rel) && i <= j < |rs|
    requires forall r :: rel(r, r)
    requires forall r, s, t :: rel(r, s) && rel(s, t) ==> rel(r, t)
    ensures rel(rs[i], rs[j])
    decreases j - i
  {
    if i < j {
      LinkedPreorder(rs, rel, i, j - 1);
      assert rel(rs[j - 1], rs[j]);
    }
  }

  /** A property that every link passes on holds of everything after a place where it holds. */
  lemma {:induction false} LinkedKeeps<R>(rs: seq<R>, rel: (R, R) -> bool, good: R -> bool, i: nat, j: nat)
    requires Linked(rs, rel) && i <= j < |rs| && good(rs[i])
    requires forall k, l {:trigger rs[k], rs[l]} | 0 <= k < l == k + 1 < |rs| ::
               good(rs[k]) && rel(rs[k], rs[l]) ==> good(rs[l])
    ensures good(rs[j])
    decreases j - i
  {
    if i < j {
      LinkedKeeps(rs, rel, good, i, j - 1);
      assert rel(rs[j - 1], rs[j]);
    }
  }

  function StateChanges<I, A>(rs: seq<Receipt<I, A>>): nat {
    if |rs| <= 1 then 0
    else StateChanges(rs[..|rs| - 1]) + if rs[|rs| - 2].state == rs[|rs| - 1].state then 0 else 1
  }

  /** A state either stays or rises in rank. */
  predicate Climbs<I, A>(r: Receipt<I, A>, s: Receipt<I, A>) {
    s.state == r.state || r.state.Rank() < s.state.Rank()
  }

  /** Along climbing receipts each change of state costs at least one rank. */
  lemma {:induction false} ChangesCostRank<I, A>(rs: seq<Receipt<I, A>>)
    requires rs != [] && Linked(rs, Climbs)
    ensures rs[0].state.Rank() + StateChanges(rs) <= Last(rs).state.Rank()
    decreases |rs|
  {
    if |rs| > 1 {
      ChangesCostRank(rs[..|rs| - 1]);
      assert Climbs(rs[|rs| - 2], rs[|rs| - 1]);
    }
  }

  /** Ranks never fall between any two receipts of a history, not only between neighbours. */
  lemma {:induction false} RanksNeverFall<I, A>(rs: seq<Receipt<I, A>>, i: nat, j: nat)
    requires Linked(rs, Climbs) && i <= j < |rs|
    ensures rs[i].state.Rank() <= rs[j].state.Rank()
    decreases j - i
  {
    if i < j {
      RanksNeverFall(rs, i, j - 1);
      assert Climbs(rs[j - 1], rs[j]);
    }
  }

  /** A session that goes on after a call holds what its later calls make of what the first one left. */
  lemma {:induction false} HistoryOfRest<I, A, N>(
    track: (Receipt<I, A>, N) -> Trace<I, A>, r: Receipt<I, A>, calls: seq<Call<N>>, c: nat)
    requires c < |calls|
    ensures var seen := Seen(track, r, calls[0]);
            var rest := History(track, Last(seen), calls[1..][..c]);
            && |History(track, r, calls[..c + 1])| == |seen| - 1 + |rest|
            && Last(History(track, r, calls[..c + 1])) == Last(rest)
  {
    assert calls[..c + 1][1..] == calls[1..][..c];
  }

  lemma AtJoint<T>(front: seq<T>, rest: seq<T>, i: nat)
    requires i < |front + rest|
    ensures (front + rest)[i] == if i < |front| then front[i] else rest[i - |front|]
  {
  }

  /** A receipt of a session is one of its first call, or one of the session that the later calls are. */
  lemma {:induction false} HistoryAt<I, A, N>(
    track: (Receipt<I, A>, N) -> Trace<I, A>, r: Receipt<I, A>, calls: seq<Call<N>>, i: nat)
    requires calls != [] && i < |History(track, r, calls)|
    ensures var seen := Seen(track, r, calls[0]);
            var rest := History(track, Last(seen), calls[1..]);
            && |History(track, r, calls)| == |seen| - 1 + |rest|
            && (i < |seen| ==> History(track, r, calls)[i] == seen[i])
            && (i >= |seen| - 1 ==> History(track, r, calls)[i] == rest[i - (|seen| - 1)])
  {
    var seen := Seen(track, r, calls[0]);
    var front, rest := seen[..|seen| - 1], History(track, Last(seen), calls[1..]);
    AtJoint(front, rest, i);
    assert History(track, r, calls) == front + rest && rest[0] == Last(seen);
  }

  /**
   * The receipt at `p` of a session is the `k`-th that call `c` shows, started from a receipt that is not finalized.
   */
  ghost predicate IsShownBy<I, A, N>(
    track: (Receipt<I, A>, N) -> Trace<I, A>, r: Receipt<I, A>, calls: seq<Call<N>>, c: nat, k: nat, p: nat)
  {
    && c < |calls|
    && var held := Last(History(track, r, calls[..c]));
    && !held.state.DestinationFinalized?
    && p == |History(track, r, calls[..c])| + k < |History(track, r, calls)|
    && k < |track(held, calls[c].answers).shown|
    && History(track, r, calls)[p] == track(held, calls[c].answers).shown[k]
  }

  /** What a session of the later calls shows, the whole session shows further on. */
  lemma {:induction false} ShownLater<I, A, N>(
    track: (Receipt<I, A>, N) -> Trace<I, A>, r: Receipt<I, A>, calls: seq<Call<N>>, c: nat, k: nat, p: nat)
    requires calls != [] && IsShownBy(track, Last(Seen(track, r, calls[0])), calls[1..], c, k, p)
    ensures var q := p + |Seen(track, r, calls[0])| - 1;
            && IsShownBy(track, r, calls, c + 1, k, q)
            && History(track, r, calls)[q] == History(track, Last(Seen(track, r, calls[0])), calls[1..])[p]
  {
    HistoryOfRest(track, r, calls, c);
    HistoryAt(track, r, calls, p + |Seen(track, r, calls[0])| - 1);
  }

  /** What the first call shows after the receipt passed in, it shows in the session too. */
  lemma {:induction false} ShownFirst<I, A, N>(
    track: (Receipt<I, A>, N) -> Trace<I, A>, r: Receipt<I, A>, calls: seq<Call<N>>, p: nat)
    requires calls != [] && !r.state.DestinationFinalized? && 0 < p < |Seen(track, r, calls[0])|
    ensures IsShownBy(track, r, calls, 0, p - 1, p)
    ensures History(track, r, calls)[p] == Seen(track, r, calls[0])[p]
  {
    HistoryAt(track, r, calls, 0);
    HistoryAt(track, r, calls, p);
    assert calls[..0] == [];
  }

  /**
   * A session that comes to hold a finalized receipt at `i` first did so no later, at `p`, in a call that started from
   * a receipt that was not finalized.
   */
  lemma {:induction false} FinalizedByACall<I, A, N>(
    track: (Receipt<I, A>, N) -> Trace<I, A>, r: Receipt<I, A>, calls: seq<Call<N>>, i: nat)
    returns (c: nat, k: nat, p: nat)
    requires !r.state.DestinationFinalized?
    requires i < |History(track, r, calls)| && History(track, r, calls)[i].state.DestinationFinalized?
    ensures p <= i && IsShownBy(track, r, calls, c, k, p)
    ensures History(track, r, calls)[p].state.DestinationFinalized?
    decreases |calls|
  {
    assert calls != [];
    var seen := Seen(track, r, calls[0]);
    var next := Last(seen);
    HistoryAt(track, r, calls, i);
    if next.state.DestinationFinalized? || i < |seen| {
      p := if i < |seen| then i else |seen| - 1;
      c, k := 0, p - 1;
      ShownFirst(track, r, calls, p);
    } else {
      c, k, p := FinalizedByACall(track, next, calls[1..], i - (|seen| - 1));
      ShownLater(track, r, calls, c, k, p);
      c, p := c + 1, p + |seen| - 1;
    }
  }
}
