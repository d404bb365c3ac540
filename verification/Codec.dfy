/** The matrix network code over GF(2^8), end to end. */
module Codec {
  import opened Fields
  import opened Gf
  import opened Packets
  import opened Picks
  import opened Decoder
  import opened Receiver
  import opened Delivery
  import opened Progress

  /** Any k packets of a generation of byte strings, systematic ones with distinct indices: when the
      decoder succeeds it gives back, byte for byte and in order, the originals it did not have. */
  lemma ByteRoundTrip(q: seq<Skb<byte>>, k: nat, p: nat, len: nat, rest: seq<Skb<byte>>, news: seq<seq<byte>>,
                      originals: seq<seq<byte>>) returns (idx: seq<nat>)
    requires Originals(originals, k, p, len) && |q| == k
    requires forall i :: 0 <= i < k ==> MadeFrom(GF, originals, k, p, len, q[i])
    requires Attempt(GF, q, k, p, len, true, rest, news)
    ensures InOrder(originals, news, idx) && forall m: nat :: m in idx <==> m < k && !HasIndex(q, m)
  {
    GfIsField();
    var clear := seq(k, m requires 0 <= m < k => HasIndex(q, m));
    idx := DecodeReturnsOriginals(GF, q, k, p, len, true, rest, news, originals, clear);
  }

  /** The receiver starts empty; over every run with fair arrivals, until three generations have completed after
      the target, it delivers each original at most once, and each exactly once from its completion on. */
  lemma ByteDelivery(t: Target<byte>, states: seq<Rx<byte>>, events: seq<Event<byte>>, n: nat) returns (idx: seq<nat>)
    requires t.Good() && t.eid != 0 && Run(GF, states, events) && n <= |events|
    requires FairRun(GF, t, states, events, n) && Recent(t, states, n)
    requires states[0] == Rx([], [0, 0, 0], [])
    ensures Attributed(Delivered(states[n].up, t.eid), t.originals, idx)
    ensures (exists a :: 0 <= a <= n && CompletedAt(t, states, a)) ==> forall m :: 0 <= m < t.K() ==> m in idx
  {
    GfIsField();
    idx := DeliveredOnce(GF, t, states, events, n);
    assert states[n].up[0..] == states[n].up;
  }

  /** The receiver starts empty, and the first k packets of a generation come in time: with distinct systematic
      indices and an invertible coefficient matrix, the k-th completes it and every original has been delivered. */
  lemma ByteProgress(t: Target<byte>, states: seq<Rx<byte>>, events: seq<Event<byte>>, n: nat) returns (idx: seq<nat>)
    requires t.Good() && t.eid != 0 && Run(GF, states, events) && 0 < n <= |events|
    requires states[0] == Rx([], [0, 0, 0], [])
    requires Genuine(GF, t, events, n) && OnTime(events, t.eid, n) && events[n - 1].skb.eid == t.eid
    requires |Arrived(events, t.eid, n)| == t.K() && NoDuplicates(Arrived(events, t.eid, n))
    requires Decodable(GF, Arrived(events, t.eid, n), t.K(), t.P(), t.len)
    ensures t.eid !in states[n - 1].lastDid && |states[n].lastDid| == 3 && states[n].lastDid[0] == t.eid
    ensures Attributed(Delivered(states[n].up, t.eid), t.originals, idx)
    ensures forall m :: 0 <= m < t.K() ==> m in idx
  {
    GfIsField();
    idx := Completes(GF, t, states, events, n);
    assert states[n].up[0..] == states[n].up;
  }
}
