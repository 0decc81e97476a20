/** What a new head does to the transaction pool (kernel/tx_pool.go): the transactions that the old
    chain had and the new one lacks go back into the pool, which then moves to the state of the head. */
module HeadResets {
  import opened Wrappers
  import opened Transactions
  import opened TxLists
  import opened PricedLists
  import opened PoolSpec
  import opened Settling
  import opened TxPools
  import Ancestry
  import Chains
  import BlockChains

  /** The transactions of the hashes, in order. */
  function Back(hashes: seq<Chains.TxHash>, tx: Chains.TxHash -> Tx): (txs: seq<Tx>)
    ensures |txs| == |hashes| && forall i :: 0 <= i < |txs| ==> txs[i] == tx(hashes[i])
  {
    seq(|hashes|, i requires 0 <= i < |hashes| => tx(hashes[i]))
  }

  /** Heads that are at most 64 numbers apart, the new one not a genesis that passes for a child. */
  predicate Near(oldHead: Ancestry.Header, newHead: Ancestry.Header, genesis: Ancestry.Hash) {
    && oldHead.number <= newHead.number + 64 && newHead.number <= oldHead.number + 64
    && !(newHead.hash == genesis && newHead.parent == oldHead.hash)
  }

  /** Moves the pool from one head to another. Nothing of the old chain gets lost unseen: every
      transaction that the new chain lacks was offered to the pool, and was taken or refused with an
      error. */
  method MoveHead(chain: BlockChains.BlockChain, pool: TxPool, oldHead: Option<Ancestry.Header>,
                  newHead: Ancestry.Header, tx: Chains.TxHash -> Tx, st: Option<ChainState>, now: int)
    returns (hashes: seq<Chains.TxHash>, ghost r: Reinjection, ghost injected: Snapshot, ghost adjusted: Snapshot,
             ghost mid: Snapshot, ghost level: nat)
    requires chain.StoreValid() && newHead.hash in chain.headers && chain.headers[newHead.hash] == newHead
    requires oldHead.Some? ==> oldHead.value.hash in chain.headers && chain.headers[oldHead.value.hash] == oldHead.value
    requires pool.Valid()
    modifies pool, pool.all, pool.priced
    ensures pool.Valid() && (st == None ==> unchanged(pool) && unchanged(pool.all) && unchanged(pool.priced))
    ensures oldHead == None ==> hashes == []
    ensures oldHead.Some? && Near(oldHead.value, newHead, chain.genesis) ==>
              forall t :: t in hashes <==>
                && t in Chains.Scan(chain.headers, chain.bodies, chain.genesis, oldHead.value.hash)
                && t !in Chains.Scan(chain.headers, chain.bodies, chain.genesis, newHead.hash)
    ensures st.Some? ==>
              && pool.Moved(st.value, Back(hashes, tx), old(pool.Stand()).Renewed(), r, injected, adjusted, mid, level,
                            now)
              && |r.trail| == |r.errs| == |hashes|
              && forall i :: 0 <= i < |hashes| ==> r.errs[i] != None || tx(hashes[i]) in r.trail[i].now.all
    ensures st.Some? && old(pool.Contiguous()) && mid.pending == pool.pending ==>
              (pool.Contiguous() <==>
               && Intact(Back(hashes, tx), r, injected.pending, st.value, old(pool.state).nonce)
               && Unwrapped(adjusted.queue, adjusted.nonces, pool.pending, st.value, adjusted.queue.Keys))
  {
    hide *;
    hashes := [];
    if oldHead.Some? {
      hashes := chain.Reinject(oldHead.value, newHead);
      if Near(oldHead.value, newHead, chain.genesis) {
        NearMeans(oldHead.value, newHead, chain.genesis);
      }
    }
    r, injected, adjusted, mid, level := pool.Reset(st, Back(hashes, tx), now);
    if st.Some? {
      Offered(pool, st.value, Back(hashes, tx), old(pool.Stand()).Renewed(), r, injected, adjusted, mid, level, now);
    }
  }

  lemma NearMeans(oldHead: Ancestry.Header, newHead: Ancestry.Header, genesis: Ancestry.Hash)
    requires Near(oldHead, newHead, genesis)
    ensures oldHead.number <= newHead.number + 64 && newHead.number <= oldHead.number + 64
            && !(newHead.hash == genesis && newHead.parent == oldHead.hash)
  {
  }

  lemma Offered(pool: TxPool, st: ChainState, txs: seq<Tx>, was: Standing, r: Reinjection, injected: Snapshot,
                adjusted: Snapshot, mid: Snapshot, level: nat, now: int)
    requires pool.Moved(st, txs, was, r, injected, adjusted, mid, level, now)
    ensures |r.trail| == |r.errs| == |txs| && pool.state == st
    ensures forall i :: 0 <= i < |txs| ==> r.errs[i] != None || txs[i] in r.trail[i].now.all
  {
    hide Settled, Demotes, Next, Greatest, Removals, Discards, Refusal, NoncesFall, Replaces, Get, Plus;
    forall i | 0 <= i < |txs| && r.errs[i] == None ensures txs[i] in r.trail[i].now.all {
      assert pool.AddedOne(txs[i], false, LastOf(r.trail[..i], was), r.trail[i], r.errs[i]);
    }
  }
}
