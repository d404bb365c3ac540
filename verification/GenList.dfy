/** The receiver's doubly linked list of generations (the mnc_queue functions of mnc_rx.c). */
module GenList {
  import opened Packets
  import opened Decoder
  import opened Picks

  const ETIMEOUT := 125

  /** Jiffies are unsigned machine words, and wrap. */
  const WORD := 0x1_0000_0000_0000_0000

  function Elapsed(now: nat, start: nat): nat
  {
    (now - start) % WORD
  }

  /** The packets gathered so far for one generation. */
  class MncQueue<T> {
    const eid: u8
    const ejiffies: nat
    const kp: u8
    var sys: bool
    const skbs: Queue<Skb<T>>
    var next: MncQueue?<T>
    var prev: MncQueue?<T>
    const list: MncQueueHead<T>

    /** mnc_queue_create */
    constructor (eid: u8, ejiffies: nat, kp: u8, list: MncQueueHead<T>)
      ensures this.eid == eid && this.ejiffies == ejiffies && this.kp == kp && this.list == list
      ensures sys && next == null && prev == null && fresh(skbs) && skbs.items == []
    {
      this.eid, this.ejiffies, this.kp, this.list := eid, ejiffies, kp, list;
      sys := true;
      skbs := new Queue();
      next, prev := null, null;
    }
  }

  ghost predicate Expired<T>(q: MncQueue<T>, now: nat)
  {
    Elapsed(now, q.ejiffies) > ETIMEOUT
  }

  /** The generations that are not too old, in order. */
  ghost function Fresh<T>(nodes: seq<MncQueue<T>>, now: nat): seq<MncQueue<T>>
  {
    if nodes == [] then []
    else
      var n := |nodes| - 1;
      Fresh(nodes[..n], now) + if Expired(nodes[n], now) then [] else [nodes[n]]
  }

  /** Which generations are at most ETIMEOUT old. */
  ghost function Young<T>(nodes: seq<MncQueue<T>>, now: nat): (keep: seq<bool>)
    ensures |keep| == |nodes| && forall m :: 0 <= m < |keep| ==>
            keep[m] == (Elapsed(now, nodes[m].ejiffies) <= ETIMEOUT)
  {
    seq(|nodes|, m requires 0 <= m < |nodes| => Elapsed(now, nodes[m].ejiffies) <= ETIMEOUT)
  }

  /** What stays after the expiry pass stands in the order it had, and is what is young enough. */
  lemma {:induction false} FreshInOrder<T>(nodes: seq<MncQueue<T>>, now: nat) returns (idx: seq<nat>)
    ensures InOrder(nodes, Fresh(nodes, now), idx) && Exactly(idx, Young(nodes, now))
    decreases |nodes|
  {
    if nodes == [] {
      idx := [];
    } else {
      var n := |nodes| - 1;
      idx := FreshInOrder(nodes[..n], now);
      assert Young(nodes, now)[..n] == Young(nodes[..n], now);
      idx := PickLast(nodes, Young(nodes, now), Fresh(nodes[..n], now), idx);
    }
  }

  lemma FreshNext<T>(all: seq<MncQueue<T>>, i: nat, now: nat)
    requires i < |all|
    ensures Fresh(all[..i + 1], now) == Fresh(all[..i], now) + if Expired(all[i], now) then [] else [all[i]]
  {
    assert all[..i + 1][..i] == all[..i];
  }

  /** The first `kept` nodes are those of all[..i] that stay, and the others are all[i..]. */
  ghost predicate Swept<T>(nodes: seq<MncQueue<T>>, kept: nat, all: seq<MncQueue<T>>, i: nat, now: nat)
  {
    i <= |all| && kept <= |nodes| && nodes[..kept] == Fresh(all[..i], now) && nodes[kept..] == all[i..]
  }

  lemma SweepOver<T>(nodes: seq<MncQueue<T>>, kept: nat, all: seq<MncQueue<T>>, i: nat, now: nat)
    requires Swept(nodes, kept, all, i, now) && kept < |nodes|
    ensures i < |all| && nodes[kept] == all[i]
    ensures !Expired(all[i], now) ==> Swept(nodes, kept + 1, all, i + 1, now)
    ensures Expired(all[i], now) ==> Swept(nodes[..kept] + nodes[kept + 1..], kept, all, i + 1, now)
  {
    assert nodes[kept] == nodes[kept..][0] == all[i..][0];
    FreshNext(all, i, now);
    assert nodes[kept + 1..] == nodes[kept..][1..] == all[i..][1..] == all[i + 1..];
    assert nodes[..kept + 1] == nodes[..kept] + [nodes[kept]];
    var rest := nodes[..kept] + nodes[kept + 1..];
    assert rest[..kept] == nodes[..kept] && rest[kept..] == nodes[kept + 1..];
  }

  /** Nodes without the one at i. */
  lemma LessOne<T>(nodes: seq<MncQueue<T>>, i: nat)
    requires i < |nodes|
    ensures var rest := nodes[..i] + nodes[i + 1..];
            |rest| == |nodes| - 1 && forall t :: 0 <= t < |rest| ==> rest[t] == nodes[if t < i then t else t + 1]
  {
  }

  class MncQueueHead<T> {
    var next: MncQueue?<T>
    var qlen: nat
    ghost var nodes: seq<MncQueue<T>>
    ghost var footprint: set<MncQueue<T>>  // every generation that was ever in the list

    ghost predicate Linked(i: nat)
      requires i < |nodes|
      reads this, {nodes[i]}`next, {nodes[i]}`prev
    {
      && nodes[i].list == this
      && nodes[i].prev == (if i == 0 then null else nodes[i - 1])
      && nodes[i].next == (if i + 1 == |nodes| then null else nodes[i + 1])
    }

    /** prev and next agree, and qlen is the length. */
    ghost predicate Valid()
      reads this, footprint`next, footprint`prev
    {
      && qlen == |nodes|
      && next == (if nodes == [] then null else nodes[0])
      && (forall i, j :: 0 <= i < j < |nodes| ==> nodes[i] != nodes[j])
      && (forall i, j :: 0 <= i < j < |nodes| ==> nodes[i].skbs != nodes[j].skbs)
      && (forall i :: 0 <= i < |nodes| ==> nodes[i] in footprint)
      && (forall i :: 0 <= i < |nodes| ==> Linked(i))
    }

    /** mnc_queue_head_init */
    constructor ()
      ensures Valid() && nodes == [] && footprint == {}
    {
      next, qlen := null, 0;
      nodes, footprint := [], {};
    }

    /** mnc_queue_insert: walks to the end. */
    method Insert(q: MncQueue<T>)
      requires Valid() && q !in footprint && q.next == null && q.prev == null && q.list == this
      requires forall i :: 0 <= i < |nodes| ==> nodes[i].skbs != q.skbs
      modifies this, footprint`next, q`prev
      ensures Valid() && nodes == old(nodes) + [q] && footprint == old(footprint) + {q}
    {
      if next == null {
        next := q;
        qlen := qlen + 1;
        nodes, footprint := [q], footprint + {q};
        return;
      }
      var m := next;
      ghost var i := 0;
      while m.next != null
        invariant 0 <= i < |nodes| && m == nodes[i]
        decreases |nodes| - i
      {
        assert Linked(i);
        m := m.next;
        i := i + 1;
      }
      assert Linked(i);
      m.next := q;
      q.prev := m;
      qlen := qlen + 1;
      nodes, footprint := nodes + [q], footprint + {q};
      forall t | 0 <= t < |nodes|
        ensures Linked(t)
      {
        assert t < i ==> old(Linked(t));
      }
    }

    /** mnc_queue_free: unlinks q, the generation at position i. Its memory is not modelled. */
    method Free(q: MncQueue<T>, ghost i: nat)
      requires Valid() && i < |nodes| && nodes[i] == q
      modifies this, footprint`next, footprint`prev
      ensures Valid() && nodes == old(nodes)[..i] + old(nodes)[i + 1..] && footprint == old(footprint)
    {
      assert Linked(i) && (i > 0 ==> Linked(i - 1)) && (i + 1 < |nodes| ==> Linked(i + 1));
      var before, after := q.prev, q.next;
      if before == null {
        next := after;
        if after != null {
          after.prev := null;
        }
      } else {
        before.next := after;
        if after != null {
          after.prev := before;
        }
      }
      qlen := qlen - 1;
      LessOne(nodes, i);
      nodes := nodes[..i] + nodes[i + 1..];
      forall t | 0 <= t < |nodes|
        ensures Linked(t)
      {
        assert old(Linked(if t < i then t else t + 1));
      }
    }

    /** mnc_queue_head_find_eid: the first generation with this id. */
    method FindEid(eid: u8) returns (q: MncQueue?<T>, ghost i: nat)
      requires Valid()
      ensures i <= |nodes| && (forall t :: 0 <= t < i ==> nodes[t].eid != eid)
      ensures q == null <==> forall t :: 0 <= t < |nodes| ==> nodes[t].eid != eid
      ensures q != null ==> q in nodes && q.eid == eid
      ensures q == null <==> i == |nodes|
      ensures q != null ==> nodes[i] == q && q.eid == eid
    {
      q := next;
      i := 0;
      while q != null
        invariant 0 <= i <= |nodes| && q == (if i == |nodes| then null else nodes[i])
        invariant forall t :: 0 <= t < i ==> nodes[t].eid != eid
        decreases |nodes| - i
      {
        if q.eid == eid {
          return;
        }
        assert Linked(i);
        q := q.next;
        i := i + 1;
      }
    }

    /** mnc_queue_head_check_etime: exactly the generations older than ETIMEOUT go, and the rest
        keep their order. */
    method CheckEtime(now: nat)
      requires Valid()
      modifies this, footprint`next, footprint`prev
      ensures Valid() && nodes == Fresh(old(nodes), now) && footprint == old(footprint)
    {
      ghost var all := nodes;
      var q := next;
      ghost var i, kept := 0, 0;
      assert all[..0] == [] && all[0..] == all;
      while q != null
        invariant Valid() && Swept(nodes, kept, all, i, now)
        invariant q == (if kept == |nodes| then null else nodes[kept])
        invariant footprint == old(footprint)
        decreases |all| - i
      {
        SweepOver(nodes, kept, all, i, now);
        assert Linked(kept);
        var following := q.next;
        if Elapsed(now, q.ejiffies) > ETIMEOUT {
          Free(q, kept);
        } else {
          kept := kept + 1;
        }
        q := following;
        i := i + 1;
      }
      assert i == |all| && all[..i] == all && nodes[..kept] == nodes;
    }
  }
}
