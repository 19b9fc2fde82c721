/**
  The rings of the channel are the ring: what a post or a take does to one is
  what a single-entry burst does to a queue of slots - 1 entries, which one
  producer and one consumer on the 32-bit ring are shown to be.
 */
module ChannelRing {
  import opened Words
  import opened RingSpec
  import Channel
  import opened MpmcQueue

  /** The post of vc_tx_msg: a burst of one, refused exactly when the queue is full. */
  lemma PostIsPut(ch: Channel.Chan, to: nat, index: nat)
    requires Channel.Wf(ch) && to < 2 && index < |ch.cells|
    ensures var (ch', taken) := Channel.PostCell(ch, to, index);
            QueueStep(ch.slots - 1, ch.queues[to],
                      if taken then Put([index], [index], Variable) else Full(1, Variable), ch'.queues[to])
    ensures var ch' := Channel.PostCell(ch, to, index).0; ch'.queues[1 - to] == ch.queues[1 - to]
  {
  }

  /** A burst of one that the queue refuses is a post the channel refuses, and the other way round. */
  lemma RefusedAlike(cap: nat, q: seq<nat>, index: nat)
    requires |q| <= cap
    ensures Allowed(cap, q, Full(1, Variable)) <==> |q| == cap
    ensures Allowed(cap, q, Put([index], [index], Variable)) <==> |q| < cap
    ensures Allowed(cap, q, Dry(1, Variable)) <==> q == []
    ensures forall out :: Allowed(cap, q, Get(out, 1, Variable)) <==> q != [] && out == q[..1]
  {
    forall out | q != [] && out == q[..1] ensures Allowed(cap, q, Get(out, 1, Variable)) {
      assert q == out + q[1..];
    }
  }

  /** The dequeue of vc_rx_msg: a burst of one from a queue that holds something. */
  lemma TakeIsGet(ch: Channel.Chan, me: nat)
    requires Channel.Wf(ch) && me < 2 && ch.queues[me] != []
    ensures QueueStep(ch.slots - 1, ch.queues[me], Get(ch.queues[me][..1], 1, Variable),
                      Channel.TakeOff(ch, me).queues[me])
    ensures Channel.TakeOff(ch, me).queues[1 - me] == ch.queues[1 - me]
  {
    assert ch.queues[me] == ch.queues[me][..1] + ch.queues[me][1..];
  }
}
