/** The recent multicast cache (mesh_rmc_check in mesh.c). */
module Rmc {
  const BUCKETS := 256
  const QUEUE_MAX_LEN := 4

  /** RMC_TIMEOUT, in jiffies: three seconds. */
  const TIMEOUT: nat := 750

  type Addr = nat

  datatype Entry = Entry(sa: Addr, seqnum: nat, expTime: nat)

  /** A multicast frame, and when it is checked. */
  datatype Frame = Frame(sa: Addr, seqnum: nat, now: nat)

  function Index(f: Frame): (i: nat)
    ensures i < BUCKETS
  {
    f.seqnum % BUCKETS
  }

  function EntryOf(f: Frame): Entry
  {
    Entry(f.sa, f.seqnum, f.now + TIMEOUT)
  }

  predicate Old(e: Entry, f: Frame)
  {
    f.now > e.expTime
  }

  predicate Same(e: Entry, f: Frame)
  {
    e.sa == f.sa && e.seqnum == f.seqnum
  }

  /** The walk over a bucket after `kept` entries were kept: what remains, and whether the frame was found. */
  function Scan(b: seq<Entry>, kept: nat, f: Frame): (seq<Entry>, bool)
  {
    if b == [] then ([], false)
    else if Old(b[0], f) || kept + 1 == QUEUE_MAX_LEN then Scan(b[1..], kept, f)
    else if Same(b[0], f) then (b, true)
    else
      var r := Scan(b[1..], kept + 1, f);
      ([b[0]] + r.0, r.1)
  }

  /** The bucket after the check. */
  function Kept(b: seq<Entry>, f: Frame): seq<Entry>
  {
    var r := Scan(b, 0, f);
    if r.1 then r.0 else [EntryOf(f)] + r.0
  }

  class Cache {
    var buckets: seq<seq<Entry>>

    ghost predicate Valid()
      reads this
    {
      |buckets| == BUCKETS && forall i :: 0 <= i < BUCKETS ==> |buckets[i]| <= QUEUE_MAX_LEN
    }

    constructor ()
      ensures Valid() && buckets == seq(BUCKETS, _ => [])
    {
      buckets := seq(BUCKETS, _ => []);
    }

    /** mesh_rmc_check; the allocation of the new entry succeeds. */
    method Check(f: Frame) returns (dup: bool)
      requires Valid()
      modifies this
      ensures Valid() && dup == Scan(old(buckets)[Index(f)], 0, f).1
      ensures buckets == old(buckets)[Index(f) := Kept(old(buckets)[Index(f)], f)]
    {
      var idx := Index(f);
      var b := buckets[idx];
      var j: nat, entries: nat := 0, 0;
      ghost var seen: seq<Entry>, rest := [], b;
      ghost var all := Scan(b, 0, f);
      dup := false;
      while j < |b| && !dup
        invariant j <= |b| && b == seen + rest && |seen| == j == entries <= 3
        invariant !dup ==> all.0 == seen + Scan(rest, entries, f).0 && all.1 == Scan(rest, entries, f).1
        invariant dup ==> all.0 == b && all.1
        invariant |b| <= |buckets[idx]|
        decreases |b| - j, !dup
      {
        assert b[j] == rest[0];
        if Old(b[j], f) || entries + 1 == QUEUE_MAX_LEN {
          b := b[..j] + b[j + 1..];
          rest := rest[1..];
          assert b == seen + rest;
        } else if Same(b[j], f) {
          dup := true;
        } else {
          ghost var r := Scan(rest[1..], entries + 1, f).0;
          assert seen + ([rest[0]] + r) == seen + [rest[0]] + r;
          seen, rest := seen + [b[j]], rest[1..];
          entries := entries + 1;
          j := j + 1;
          assert b == seen + rest;
        }
      }
      if !dup {
        assert rest == [] && b == seen == all.0;
        b := [EntryOf(f)] + b;
      }
      assert b == Kept(buckets[idx], f);
      buckets := buckets[idx := b];
    }
  }

  // ---------------------------------------------------------------- one walk

  lemma {:induction false} ScanShort(b: seq<Entry>, kept: nat, f: Frame)
    requires kept <= 3
    ensures |Scan(b, kept, f).0| <= |b|
    ensures !Scan(b, kept, f).1 ==> |Scan(b, kept, f).0| + kept <= 3
    decreases |b|
  {
    if b != [] {
      if kept < 3 {
        ScanShort(b[1..], kept + 1, f);
      }
      ScanShort(b[1..], kept, f);
    }
  }

  lemma {:induction false} ScanSubset(b: seq<Entry>, kept: nat, f: Frame, e: Entry)
    requires e in Scan(b, kept, f).0
    ensures e in b
    decreases |b|
  {
    if Old(b[0], f) || kept + 1 == QUEUE_MAX_LEN {
      ScanSubset(b[1..], kept, f, e);
    } else if !Same(b[0], f) && e != b[0] {
      ScanSubset(b[1..], kept + 1, f, e);
    }
  }

  /** What is found is the frame, and has not expired. */
  lemma {:induction false} ScanFinds(b: seq<Entry>, kept: nat, f: Frame) returns (e: Entry)
    requires Scan(b, kept, f).1
    ensures e in b && Same(e, f) && !Old(e, f)
    decreases |b|
  {
    if Old(b[0], f) || kept + 1 == QUEUE_MAX_LEN {
      e := ScanFinds(b[1..], kept, f);
    } else if Same(b[0], f) {
      e := b[0];
    } else {
      e := ScanFinds(b[1..], kept + 1, f);
    }
  }

  /** An entry among the first three that has not expired survives the walk, and is found if it is the frame's. */
  lemma {:induction false} ScanKeeps(b: seq<Entry>, kept: nat, f: Frame, p: nat) returns (p': nat)
    requires p < |b| && kept + p <= 2 && !Old(b[p], f)
    ensures p' <= p && p' < |Scan(b, kept, f).0| && Scan(b, kept, f).0[p'] == b[p]
    ensures Same(b[p], f) ==> Scan(b, kept, f).1
    decreases |b|
  {
    if Old(b[0], f) {
      p' := ScanKeeps(b[1..], kept, f, p - 1);
    } else if Same(b[0], f) {
      p' := p;
    } else if p == 0 {
      p' := 0;
    } else {
      p' := ScanKeeps(b[1..], kept + 1, f, p - 1);
      p' := p' + 1;
    }
  }

  /** The first d entries outlast the frame, and the pair of frame g comes only after them. */
  predicate Behind(b: seq<Entry>, d: nat, g: Frame, until: nat)
  {
    && (forall j :: 0 <= j < |b| && j < d ==> until <= b[j].expTime)
    && (forall j :: 0 <= j < |b| && Same(b[j], g) ==> d <= j)
  }

  /** A walk leaves the first d entries where they are, or drops them from the end. */
  lemma {:induction false} ScanBehind(b: seq<Entry>, kept: nat, f: Frame, d: nat, g: Frame, until: nat)
    requires kept <= 3 && Behind(b, d, g, until) && f.now <= until
    ensures Behind(Scan(b, kept, f).0, d, g, until)
    decreases |b|
  {
    if b != [] {
      var r := Scan(b, kept, f).0;
      if kept + 1 == QUEUE_MAX_LEN {
        ScanFull(b, f);
      } else if Old(b[0], f) {
        assert d == 0;
        ScanBehind(b[1..], kept, f, d, g, until);
      } else if !Same(b[0], f) {
        var d' := if d == 0 then 0 else d - 1;
        var r' := Scan(b[1..], kept + 1, f).0;
        ScanBehind(b[1..], kept + 1, f, d', g, until);
        assert forall j :: 0 < j < |r| ==> r[j] == r'[j - 1];
      }
    }
  }

  /** After three entries were kept the walk drops all that remain. */
  lemma {:induction false} ScanFull(b: seq<Entry>, f: Frame)
    ensures Scan(b, 3, f) == ([], false)
    decreases |b|
  {
    if b != [] {
      ScanFull(b[1..], f);
    }
  }

  /** A frame whose entry lies behind three others that have not expired is not found. */
  lemma {:induction false} ScanMisses(b: seq<Entry>, kept: nat, f: Frame, d: nat)
    requires kept <= 3 <= kept + d && Behind(b, d, f, f.now)
    ensures !Scan(b, kept, f).1
    decreases |b|
  {
    if kept == 3 {
      ScanFull(b, f);
    } else if b != [] {
      ScanMisses(b[1..], kept + 1, f, d - 1);
    }
  }

  /** A walk that does not find the frame leaves no entry of it. */
  lemma {:induction false} ScanClears(b: seq<Entry>, kept: nat, f: Frame)
    requires !Scan(b, kept, f).1
    ensures forall e :: e in Scan(b, kept, f).0 ==> !Same(e, f)
    decreases |b|
  {
    if b != [] {
      if Old(b[0], f) || kept + 1 == QUEUE_MAX_LEN {
        ScanClears(b[1..], kept, f);
      } else {
        ScanClears(b[1..], kept + 1, f);
      }
    }
  }

  // ---------------------------------------------------------------- whole runs

  /** Bucket i after the first n frames. */
  function Bucket(frames: seq<Frame>, n: nat, i: nat): seq<Entry>
    requires n <= |frames|
  {
    if n == 0 then []
    else
      var b := Bucket(frames, n - 1, i);
      if Index(frames[n - 1]) == i then Kept(b, frames[n - 1]) else b
  }

  /** Frame n is reported as a duplicate. */
  predicate Dup(frames: seq<Frame>, n: nat)
    requires n < |frames|
  {
    Scan(Bucket(frames, n, Index(frames[n])), 0, frames[n]).1
  }

  /** The frames between m and n that were added to the bucket of frame m. */
  function Newer(frames: seq<Frame>, m: nat, n: nat): nat
    requires m < n <= |frames|
  {
    if n == m + 1 then 0
    else Newer(frames, m, n - 1)
         + if frames[n - 1].seqnum % 256 == frames[m].seqnum % 256 && !Dup(frames, n - 1) then 1 else 0
  }

  lemma {:induction false} BucketsShort(frames: seq<Frame>, n: nat, i: nat)
    requires n <= |frames|
    ensures |Bucket(frames, n, i)| <= QUEUE_MAX_LEN
  {
    if n > 0 {
      BucketsShort(frames, n - 1, i);
      ScanShort(Bucket(frames, n - 1, i), 0, frames[n - 1]);
    }
  }

  /** Every entry comes from a frame that was accepted. */
  lemma {:induction false} EntryOrigin(frames: seq<Frame>, n: nat, i: nat, e: Entry) returns (m: nat)
    requires n <= |frames| && e in Bucket(frames, n, i)
    ensures m < n && e == EntryOf(frames[m]) && !Dup(frames, m)
  {
    var b, f := Bucket(frames, n - 1, i), frames[n - 1];
    if Index(f) == i && !Scan(b, 0, f).1 && e == EntryOf(f) {
      m := n - 1;
    } else {
      if Index(f) == i {
        ScanSubset(b, 0, f, e);
      }
      m := EntryOrigin(frames, n - 1, i, e);
    }
  }

  /** A frame is reported as a duplicate only if the same source and number was accepted within the timeout. */
  lemma DuplicateWasAccepted(frames: seq<Frame>, n: nat) returns (m: nat)
    requires n < |frames| && Dup(frames, n)
    ensures m < n && !Dup(frames, m) && frames[m].sa == frames[n].sa && frames[m].seqnum == frames[n].seqnum
    ensures frames[n].now <= frames[m].now + TIMEOUT
  {
    var e := ScanFinds(Bucket(frames, n, Index(frames[n])), 0, frames[n]);
    m := EntryOrigin(frames, n, Index(frames[n]), e);
  }

  predicate Ordered(frames: seq<Frame>)
  {
    forall i, j :: 0 <= i < j < |frames| ==> frames[i].now <= frames[j].now
  }

  /** The entry of an accepted frame is as near to the head as the number of newer ones allows. */
  lemma {:induction false} EntryStays(frames: seq<Frame>, m: nat, n: nat) returns (p: nat)
    requires m < n <= |frames| && Ordered(frames) && !Dup(frames, m) && Newer(frames, m, n) <= 2
    requires frames[n - 1].now <= frames[m].now + TIMEOUT
    ensures p <= Newer(frames, m, n) && p < |Bucket(frames, n, Index(frames[m]))|
    ensures Bucket(frames, n, Index(frames[m]))[p] == EntryOf(frames[m])
    decreases n
  {
    var i, f := Index(frames[m]), frames[n - 1];
    if n == m + 1 {
      p := 0;
    } else {
      p := EntryStays(frames, m, n - 1);
      if Index(f) == i {
        p := ScanKeeps(Bucket(frames, n - 1, i), 0, f, p);
        if !Dup(frames, n - 1) {
          p := p + 1;
        }
      }
    }
  }

  /** Every repeat within the timeout with at most two newer entries in its bucket is reported. */
  lemma RepeatIsReported(frames: seq<Frame>, m: nat, n: nat)
    requires m < n < |frames| && Ordered(frames) && !Dup(frames, m)
    requires frames[m].sa == frames[n].sa && frames[m].seqnum == frames[n].seqnum
    requires frames[n].now <= frames[m].now + TIMEOUT && Newer(frames, m, n) <= 2
    ensures Dup(frames, n)
  {
    var p := EntryStays(frames, m, n);
    var _ := ScanKeeps(Bucket(frames, n, Index(frames[n])), 0, frames[n], p);
  }

  /** Frame m is the latest acceptance of the source and number of frame n. */
  predicate Latest(frames: seq<Frame>, m: nat, n: nat)
  {
    && m < n < |frames| && !Dup(frames, m) && SamePair(frames[m], frames[n])
    && forall j :: m < j < n && SamePair(frames[j], frames[n]) ==> Dup(frames, j)
  }

  predicate SamePair(f: Frame, g: Frame)
  {
    f.sa == g.sa && f.seqnum == g.seqnum
  }

  predicate InTime(frames: seq<Frame>, m: nat, n: nat)
    requires m < |frames| && n < |frames|
  {
    frames[n].now <= frames[m].now + TIMEOUT
  }

  /** As long as frame m is the latest acceptance, its entry lies behind all newer ones. */
  lemma {:induction false} EntrySinks(frames: seq<Frame>, m: nat, k: nat, n: nat)
    requires Latest(frames, m, n) && Ordered(frames) && InTime(frames, m, n) && m < k <= n
    ensures Behind(Bucket(frames, k, Index(frames[n])), Newer(frames, m, k), frames[n], frames[m].now + TIMEOUT)
  {
    var i, f := Index(frames[n]), frames[k - 1];
    var b, until := Bucket(frames, k - 1, i), frames[m].now + TIMEOUT;
    var r := Scan(b, 0, f).0;
    if k == m + 1 {
      ScanClears(b, 0, f);
      assert forall j :: 0 < j < |[EntryOf(f)] + r| ==> ([EntryOf(f)] + r)[j] in r;
    } else {
      EntrySinks(frames, m, k - 1, n);
      if Index(f) == i {
        ScanBehind(b, 0, f, Newer(frames, m, k - 1), frames[n], until);
        if !Dup(frames, k - 1) {
          assert forall j :: 0 < j < |[EntryOf(f)] + r| ==> ([EntryOf(f)] + r)[j] == r[j - 1];
        }
      }
    }
  }

  /** Within the timeout of its latest acceptance, a repeat is reported if and only if at most two newer
      entries have come into its bucket. */
  lemma RepeatReportedIff(frames: seq<Frame>, m: nat, n: nat)
    requires Latest(frames, m, n) && Ordered(frames) && InTime(frames, m, n)
    ensures Dup(frames, n) <==> Newer(frames, m, n) <= 2
  {
    if Newer(frames, m, n) <= 2 {
      RepeatIsReported(frames, m, n);
    } else {
      EntrySinks(frames, m, n, n);
      ScanMisses(Bucket(frames, n, Index(frames[n])), 0, frames[n], Newer(frames, m, n));
    }
  }

  /** The latest acceptance of frame n's source and number is in time, and still near enough to the head. */
  predicate Recalled(frames: seq<Frame>, m: nat, n: nat)
  {
    Latest(frames, m, n) && InTime(frames, m, n) && Newer(frames, m, n) <= 2
  }

  lemma {:induction false} LatestFrom(frames: seq<Frame>, m: nat, n: nat) returns (l: nat)
    requires m < n < |frames| && !Dup(frames, m) && SamePair(frames[m], frames[n])
    ensures m <= l && Latest(frames, l, n)
    decreases n - m
  {
    if Latest(frames, m, n) {
      l := m;
    } else {
      var j :| m < j < n && SamePair(frames[j], frames[n]) && !Dup(frames, j);
      l := LatestFrom(frames, j, n);
    }
  }

  /** What the cache reports, over every run: exactly the frames whose source and number were last accepted
      within the timeout, with at most two newer entries in the bucket since. */
  lemma ReportedIff(frames: seq<Frame>, n: nat)
    requires n < |frames| && Ordered(frames)
    ensures Dup(frames, n) <==> exists m: nat :: Recalled(frames, m, n)
  {
    if Dup(frames, n) {
      var m := DuplicateWasAccepted(frames, n);
      var l := LatestFrom(frames, m, n);
      assert frames[m].now <= frames[l].now;
      RepeatReportedIff(frames, l, n);
      assert Recalled(frames, l, n);
    } else {
      forall m: nat
        ensures !Recalled(frames, m, n)
      {
        if Recalled(frames, m, n) {
          RepeatReportedIff(frames, m, n);
        }
      }
    }
  }

  lemma NewerNext(frames: seq<Frame>, m: nat, n: nat)
    requires m < n < |frames| && Index(frames[n]) == Index(frames[m]) && !Dup(frames, n)
    ensures Newer(frames, m, n + 1) == Newer(frames, m, n) + 1
  {
  }

  /** Two is the most: after three newer entries in the bucket a repeat can pass, however soon it comes. */
  lemma ThreeNewerHide(a: Addr, b: Addr, c: Addr, d: Addr, now: nat)
    requires a != b && a != c && a != d && b != c && b != d && c != d
    ensures var frames := [Frame(a, 0, now), Frame(b, 0, now), Frame(c, 0, now), Frame(d, 0, now), Frame(a, 0, now)];
            Newer(frames, 0, 4) == 3 && !Dup(frames, 4)
  {
    var frames := [Frame(a, 0, now), Frame(b, 0, now), Frame(c, 0, now), Frame(d, 0, now), Frame(a, 0, now)];
    var ea, eb, ec, ed := EntryOf(frames[0]), EntryOf(frames[1]), EntryOf(frames[2]), EntryOf(frames[3]);
    assert [ea][1..] == [] && [eb, ea][1..] == [ea] && [ec, eb, ea][1..] == [eb, ea]
           && [ed, ec, eb, ea][1..] == [ec, eb, ea];
    assert Bucket(frames, 1, 0) == [ea];
    assert Scan([ea], 0, frames[1]) == ([ea], false);
    assert Bucket(frames, 2, 0) == [eb, ea];
    assert Scan([ea], 1, frames[2]) == ([ea], false);
    assert Bucket(frames, 3, 0) == [ec, eb, ea];
    assert Scan([ea], 2, frames[3]) == ([ea], false);
    assert Scan([eb, ea], 1, frames[3]) == ([eb, ea], false);
    assert Bucket(frames, 4, 0) == [ed, ec, eb, ea];
    assert Scan([ea], 3, frames[4]) == Scan([], 3, frames[4]);
    assert !Scan([eb, ea], 2, frames[4]).1;
    assert !Scan([ec, eb, ea], 1, frames[4]).1;
    assert !Dup(frames, 1) && !Dup(frames, 2) && !Dup(frames, 3);
    NewerNext(frames, 0, 1);
    NewerNext(frames, 0, 2);
    NewerNext(frames, 0, 3);
  }

  /** A cache that is given any frames reports those that the run says. */
  method Play(frames: seq<Frame>) returns (dups: seq<bool>)
    ensures |dups| == |frames| && forall n :: 0 <= n < |frames| ==> dups[n] == Dup(frames, n)
  {
    dups := [];
    var cache := new Cache();
    for n := 0 to |frames|
      invariant cache.Valid() && fresh(cache) && |dups| == n && forall j :: 0 <= j < n ==> dups[j] == Dup(frames, j)
      invariant forall i :: 0 <= i < BUCKETS ==> cache.buckets[i] == Bucket(frames, n, i)
    {
      var dup := cache.Check(frames[n]);
      dups := dups + [dup];
    }
  }
}
