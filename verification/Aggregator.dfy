/** core/src/aggregator.rs: the transposing loops over the verifiers' nonces and partial signatures. */
module Aggregator {
  import opened Wrappers
  import opened Transactions
  import opened VerifierDatabase
  import opened Verifier

  /** The `i`-th element of every list, when all have one. */
  function Column<T>(lists: seq<seq<T>>, i: nat): (r: Option<seq<T>>)
    ensures r.Some? <==> forall v :: 0 <= v < |lists| ==> i < |lists[v]|
    ensures r.Some? ==> |r.value| == |lists| && forall v :: 0 <= v < |lists| ==> r.value[v] == lists[v][i]
  {
    if lists == [] then Some([])
    else if i >= |lists[0]| then None
    else
      var rest :- Column(lists[1..], i);
      Some([lists[0][i]] + rest)
  }

  /** Every list is at least as long as the first, whose length the loops take. */
  ghost predicate LongEnough<T>(lists: seq<seq<T>>)
    requires lists != []
  {
    forall v :: 0 <= v < |lists| ==> |lists[0]| <= |lists[v]|
  }

  /** `aggs` are the sums of the columns. */
  ghost predicate ColumnSums(lists: seq<seq<PubNonce>>, aggs: seq<AggNonce>) {
    forall i :: 0 <= i < |aggs| ==> Column(lists, i) == Some(aggs[i].nonces)
  }

  /** It panics on no lists, and fails when a list is shorter than the first. */
  method AggregatePubNonces(pubNonces: seq<seq<PubNonce>>) returns (r: Result<seq<AggNonce>, Error>)
    ensures r == Failure(Panicked) <==> pubNonces == []
    ensures r.Success? <==> pubNonces != [] && LongEnough(pubNonces)
    ensures r.Success? ==> |r.value| == |pubNonces[0]| && ColumnSums(pubNonces, r.value)
    ensures r.Failure? && pubNonces != [] ==> r.error == NoncesNotFound
  {
    if pubNonces == [] {
      return Failure(Panicked);
    }
    var aggNonces := [];
    for i := 0 to |pubNonces[0]|
      invariant |aggNonces| == i && ColumnSums(pubNonces, aggNonces)
    {
      var column := Column(pubNonces, i);
      if column.None? {
        return Failure(NoncesNotFound);
      }
      aggNonces := aggNonces + [Sum(column.value)];
    }
    if |pubNonces[0]| > 0 {
      assert Column(pubNonces, |pubNonces[0]| - 1).Some?;
    }
    r := Success(aggNonces);
  }

  function Nonces(partials: seq<Partial>): seq<PubNonce> {
    seq(|partials|, k requires 0 <= k < |partials| => PubNonce(partials[k].nonce))
  }

  predicate HasSigner(partials: seq<Partial>, v: nat) {
    exists k :: 0 <= k < |partials| && partials[k].signer == v
  }

  /**
   When MuSig2 aggregation gives a valid signature of `n` signers: one partial signature of
   each, all over the message and the tweak with the same aggregated nonce, and this is the
   sum of the nonces they were made with.
  */
  predicate Aggregates(n: nat, agg: AggNonce, partials: seq<Partial>, message: Sighash, tweaked: bool) {
    && |partials| == n
    && (forall v :: 0 <= v < n ==> HasSigner(partials, v))
    && (forall k :: 0 <= k < n ==>
         partials[k].message == message && partials[k].tweaked == tweaked && partials[k].agg == agg)
    && multiset(agg.nonces) == multiset(Nonces(partials))
  }

  function AggregatePartialSignatures(n: nat, agg: AggNonce, partials: seq<Partial>, message: Sighash, tweaked: bool)
    : Option<Signature>
  {
    if Aggregates(n, agg, partials, message, tweaked) then Some(NofN(message, tweaked)) else None
  }

  /** The message of one operator's transaction. */
  function Message(cfg: Config, deposit: OutPoint, utxo: Utxo, i: nat, takes: bool): Option<Sighash> {
    if takes then TakesSighash(cfg, deposit, utxo, i) else SlashSighash(cfg, deposit, utxo, i)
  }

  /**
   One turn of the loops, for the transactions of operator `i`. A list without an element
   there is an error of the slash_or_take loop and a panic of the operator_takes loop.
  */
  function AggregateAt(cfg: Config, n: nat, deposit: OutPoint, utxos: seq<Utxo>, aggs: seq<AggNonce>,
                       partials: seq<seq<Partial>>, i: nat, takes: bool): Result<Signature, Error> {
    var column := Column(partials, i);
    if column.None? then Failure(if takes then Panicked else NoncesNotFound)
    else if i >= |utxos| || i >= |aggs| then Failure(Panicked)
    else
      var message :- OrPanic(Message(cfg, deposit, utxos[i], i, takes));
      var sig := AggregatePartialSignatures(n, aggs[i], column.value, message, takes);
      if sig.Some? then Success(sig.value) else Failure(AggregationFailed)
  }

  /**
   aggregate_slash_or_take_sigs and aggregate_operator_take_sigs, which differ in the
   message, the tweak and the failure for a short list. The first index that fails decides.
  */
  method AggregateSigs(cfg: Config, n: nat, deposit: OutPoint, utxos: seq<Utxo>, aggs: seq<AggNonce>,
                       partials: seq<seq<Partial>>, takes: bool) returns (r: Result<seq<Signature>, Error>)
    ensures partials == [] ==> r == Failure(Panicked)
    ensures r.Success? ==> partials != [] && |r.value| == |partials[0]| && forall i :: 0 <= i < |r.value| ==>
              AggregateAt(cfg, n, deposit, utxos, aggs, partials, i, takes) == Success(r.value[i])
    ensures r.Failure? && partials != [] ==> exists i ::
              && 0 <= i < |partials[0]|
              && AggregateAt(cfg, n, deposit, utxos, aggs, partials, i, takes) == Failure(r.error)
              && forall k :: 0 <= k < i ==> AggregateAt(cfg, n, deposit, utxos, aggs, partials, k, takes).Success?
  {
    if partials == [] {
      return Failure(Panicked);
    }
    var sigs := [];
    for i := 0 to |partials[0]|
      invariant |sigs| == i
      invariant forall k :: 0 <= k < i ==>
        AggregateAt(cfg, n, deposit, utxos, aggs, partials, k, takes) == Success(sigs[k])
    {
      var sig := AggregateAt(cfg, n, deposit, utxos, aggs, partials, i, takes);
      if sig.Failure? {
        return Failure(sig.error);
      }
      sigs := sigs + [sig.value];
    }
    r := Success(sigs);
  }

  /** What a successful turn returns: the full signature on that operator's message. */
  lemma AggregateAtSigns(cfg: Config, n: nat, deposit: OutPoint, utxos: seq<Utxo>, aggs: seq<AggNonce>,
                         partials: seq<seq<Partial>>, i: nat, takes: bool)
    ensures var r := AggregateAt(cfg, n, deposit, utxos, aggs, partials, i, takes);
            r.Success? <==>
            && Column(partials, i).Some? && i < |utxos| && i < |aggs|
            && Message(cfg, deposit, utxos[i], i, takes).Some?
            && Aggregates(n, aggs[i], Column(partials, i).value, Message(cfg, deposit, utxos[i], i, takes).value, takes)
    ensures var r := AggregateAt(cfg, n, deposit, utxos, aggs, partials, i, takes);
            r.Success? ==> r.value == NofN(Message(cfg, deposit, utxos[i], i, takes).value, takes)
  {
    hide SlashSighash, TakesSighash, Aggregates, Column;
  }
}
