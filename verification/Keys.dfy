/** Keys of an interface and its stations (key.c): which slot holds which key, which key is the default,
    and how many keys still need tailroom for encryption in software. */
module Keys {
  import opened Wrappers

  const NUM_DEFAULT_KEYS := 4
  const NUM_DEFAULT_MGMT_KEYS := 2

  type KeyId = nat

  /** Where a key is installed: on the interface, or as a group or pairwise key of a station. */
  datatype Slot = Iface(idx: nat) | Gtk(sta: nat, idx: nat) | Ptk(sta: nat, idx: nat)

  /** `reserve`: the hardware wants room for the MIC or the IV even though it encrypts. */
  datatype Key = Key(slot: Slot, uploaded: bool, reserve: bool)

  /** What becomes of an attempt to hand a key to the hardware. */
  datatype Accel = Uploaded(reserve: bool) | Software | Refused

  predicate Needs(k: Key)
  {
    !k.uploaded || k.reserve
  }

  ghost function NeedSet(keys: map<KeyId, Key>): set<KeyId>
  {
    set id | id in keys && Needs(keys[id])
  }

  function One(b: bool): nat
  {
    if b then 1 else 0
  }

  lemma NeedAdd(keys: map<KeyId, Key>, id: KeyId, k: Key)
    requires id !in keys
    ensures |NeedSet(keys[id := k])| == |NeedSet(keys)| + One(Needs(k))
  {
    var s := NeedSet(keys);
    assert NeedSet(keys[id := k]) == if Needs(k) then s + {id} else s;
  }

  lemma NeedRemove(keys: map<KeyId, Key>, id: KeyId)
    requires id in keys
    ensures |NeedSet(keys - {id})| == |NeedSet(keys)| - One(Needs(keys[id]))
  {
    assert NeedSet(keys - {id}) == NeedSet(keys) - {id};
  }

  lemma NeedUpdate(keys: map<KeyId, Key>, id: KeyId, k: Key)
    requires id in keys
    ensures |NeedSet(keys[id := k])| == |NeedSet(keys)| - One(Needs(keys[id])) + One(Needs(k))
  {
    var s := NeedSet(keys);
    assert NeedSet(keys[id := k]) == if Needs(k) then s + {id} else s - {id};
  }

  predicate OfSta(slot: Slot, sta: nat)
  {
    !slot.Iface? && slot.sta == sta
  }

  function NeedCount(ks: seq<Key>): nat
  {
    if ks == [] then 0 else NeedCount(ks[..|ks| - 1]) + One(Needs(ks[|ks| - 1]))
  }

  lemma NeedCountMore(ks: seq<Key>, k: Key)
    ensures NeedCount(ks + [k]) == NeedCount(ks) + One(Needs(k))
  {
    assert (ks + [k])[..|ks|] == ks;
  }

  /** Slots and listed keys match one to one. */
  ghost predicate Installed(keys: map<KeyId, Key>, slots: map<Slot, KeyId>)
  {
    && (forall s :: s in slots ==> slots[s] in keys && keys[slots[s]].slot == s)
    && (forall id :: id in keys ==> keys[id].slot in slots && slots[keys[id].slot] == id)
  }

  /** A default pointer is empty, or names the key now installed at an index of its range. */
  ghost predicate DefaultOk(d: Option<KeyId>, keys: map<KeyId, Key>, slots: map<Slot, KeyId>, lo: nat, hi: nat)
  {
    d.Some? ==> d.value in keys && keys[d.value].slot.Iface? && lo <= keys[d.value].slot.idx < hi
                && keys[d.value].slot in slots && slots[keys[d.value].slot] == d.value
  }

  /** The listed keys once a new one has taken its slot. */
  function Replaced(keys: map<KeyId, Key>, slots: map<Slot, KeyId>, id: KeyId, k: Key): map<KeyId, Key>
  {
    Vacated(keys, slots, k.slot)[id := k]
  }

  function Vacated(keys: map<KeyId, Key>, slots: map<Slot, KeyId>, slot: Slot): map<KeyId, Key>
  {
    if slot in slots then keys - {slots[slot]} else keys
  }

  lemma ReplacedThen(keys: map<KeyId, Key>, slots: map<Slot, KeyId>, id: KeyId, k: Key, k': Key)
    requires id !in keys && k'.slot == k.slot
    ensures Replaced(keys, slots, id, k)[id := k'] == Replaced(keys, slots, id, k')
    ensures Replaced(keys, slots, id, k) - {id} == Vacated(keys, slots, k.slot)
    ensures slots[k.slot := id] - {k.slot} == slots - {k.slot}
  {
  }

  /** A default that named the key that goes is empty. */
  function Dropped(d: Option<KeyId>, id: KeyId): Option<KeyId>
  {
    if d == Some(id) then None else d
  }

  /** A default that named the key in this slot names the new one. */
  function Followed(d: Option<KeyId>, slots: map<Slot, KeyId>, slot: Slot, id: KeyId): Option<KeyId>
  {
    if d.Some? && slot in slots && slots[slot] == d.value then Some(id) else d
  }

  /** A default d, which was `was`, after a key was linked: if it named the key that was in the slot, it names the new
      one, or nothing when that was refused; and otherwise it stays. */
  predicate Succeeds(d: Option<KeyId>, was: Option<KeyId>, slots: map<Slot, KeyId>, slot: Slot, id: KeyId, ok: bool)
  {
    d == if slot in slots && was == Some(slots[slot]) then (if ok then Some(id) else None) else was
  }

  lemma ReplacedInstalled(keys: map<KeyId, Key>, slots: map<Slot, KeyId>, id: KeyId, k: Key)
    requires Installed(keys, slots) && id !in keys
    ensures Installed(Replaced(keys, slots, id, k), slots[k.slot := id])
  {
  }

  lemma FollowedOk(d: Option<KeyId>, keys: map<KeyId, Key>, slots: map<Slot, KeyId>, id: KeyId, k: Key, lo: nat,
                   hi: nat)
    requires Installed(keys, slots) && id !in keys && DefaultOk(d, keys, slots, lo, hi)
    ensures DefaultOk(Followed(d, slots, k.slot, id), Replaced(keys, slots, id, k), slots[k.slot := id], lo, hi)
  {
  }

  class KeyRing {
    var keys: map<KeyId, Key>  // key_list
    var slots: map<Slot, KeyId>
    var unicast: Option<KeyId>
    var multicast: Option<KeyId>
    var mgmt: Option<KeyId>
    var needed: int
    var pending: int

    ghost predicate Placed()
      reads this
    {
      && Installed(keys, slots)
      && DefaultOk(unicast, keys, slots, 0, NUM_DEFAULT_KEYS)
      && DefaultOk(multicast, keys, slots, 0, NUM_DEFAULT_KEYS)
      && DefaultOk(mgmt, keys, slots, NUM_DEFAULT_KEYS, NUM_DEFAULT_KEYS + NUM_DEFAULT_MGMT_KEYS)
    }

    ghost predicate Valid()
      reads this
    {
      Placed() && pending >= 0 && needed == |NeedSet(keys)| + pending
    }

    constructor ()
      ensures Valid() && keys == map[] && pending == 0
    {
      keys, slots, unicast, multicast, mgmt, needed, pending := map[], map[], None, None, None, 0, 0;
    }

    /** ieee80211_set_default_key: afterwards the pointers that were to change name the very key that is installed
        at the index, or nothing where there is none, and all bookkeeping is as before. */
    method SetDefaultKey(idx: int, uni: bool, multi: bool)
      requires Valid()
      modifies this`unicast, this`multicast
      ensures Valid()
      ensures Named(unicast, old(unicast), uni, idx, 0, NUM_DEFAULT_KEYS)
      ensures Named(multicast, old(multicast), multi, idx, 0, NUM_DEFAULT_KEYS)
    {
      PutDefaultKey(idx, uni, multi);
    }

    /** ieee80211_set_default_mgmt_key */
    method SetDefaultMgmtKey(idx: int)
      requires Valid()
      modifies this`mgmt
      ensures Valid()
      ensures Named(mgmt, old(mgmt), true, idx, NUM_DEFAULT_KEYS, NUM_DEFAULT_KEYS + NUM_DEFAULT_MGMT_KEYS)
    {
      PutDefaultMgmtKey(idx);
    }

    /** A default pointer d, which was `was`: unless it was to stay, it is the listed key of this index when that
        is in range and taken, and empty otherwise. */
    ghost predicate Named(d: Option<KeyId>, was: Option<KeyId>, changes: bool, idx: int, lo: nat, hi: nat)
      reads this
    {
      if !changes then d == was
      else if exists id :: id in keys && keys[id].slot.Iface? && keys[id].slot.idx == idx && lo <= idx < hi
        then d.Some? && d.value in keys && keys[d.value].slot == Iface(idx)
      else d.None?
    }

    /** __ieee80211_set_default_key; an index out of range clears the pointer. */
    method PutDefaultKey(idx: int, uni: bool, multi: bool)
      modifies this`unicast, this`multicast
      ensures var key := if 0 <= idx < NUM_DEFAULT_KEYS && Iface(idx) in slots then Some(slots[Iface(idx)]) else None;
              unicast == (if uni then key else old(unicast)) && multicast == (if multi then key else old(multicast))
    {
      var key := None;
      if 0 <= idx < NUM_DEFAULT_KEYS && Iface(idx) in slots {
        key := Some(slots[Iface(idx)]);
      }
      if uni {
        unicast := key;
      }
      if multi {
        multicast := key;
      }
    }

    /** __ieee80211_set_default_mgmt_key */
    method PutDefaultMgmtKey(idx: int)
      modifies this`mgmt
      ensures mgmt == if NUM_DEFAULT_KEYS <= idx < NUM_DEFAULT_KEYS + NUM_DEFAULT_MGMT_KEYS
              && Iface(idx) in slots then Some(slots[Iface(idx)]) else None
    {
      mgmt := None;
      if NUM_DEFAULT_KEYS <= idx < NUM_DEFAULT_KEYS + NUM_DEFAULT_MGMT_KEYS && Iface(idx) in slots {
        mgmt := Some(slots[Iface(idx)]);
      }
    }

    /** ieee80211_key_replace, for a key that goes. */
    method Withdraw(id: KeyId)
      requires Placed() && id in keys
      modifies this`keys, this`slots, this`unicast, this`multicast, this`mgmt
      ensures Placed() && keys == old(keys) - {id} && slots == old(slots) - {old(keys)[id].slot}
      ensures unicast == Dropped(old(unicast), id) && multicast == Dropped(old(multicast), id)
              && mgmt == Dropped(old(mgmt), id)
    {
      if unicast == Some(id) {
        PutDefaultKey(-1, true, false);
      }
      if multicast == Some(id) {
        PutDefaultKey(-1, false, true);
      }
      if mgmt == Some(id) {
        PutDefaultMgmtKey(-1);
      }
      slots := slots - {keys[id].slot};
      keys := keys - {id};
    }

    /** Once the key has taken its slot and the defaults follow, everything is placed again. */
    lemma PlacedOnceReplaced(id: KeyId, k: Key)
      requires Placed() && id !in keys
      ensures var keys', slots' := Replaced(keys, slots, id, k), slots[k.slot := id];
              && Installed(keys', slots')
              && DefaultOk(Followed(unicast, slots, k.slot, id), keys', slots', 0, NUM_DEFAULT_KEYS)
              && DefaultOk(Followed(multicast, slots, k.slot, id), keys', slots', 0, NUM_DEFAULT_KEYS)
              && DefaultOk(Followed(mgmt, slots, k.slot, id), keys', slots', NUM_DEFAULT_KEYS,
                 NUM_DEFAULT_KEYS + NUM_DEFAULT_MGMT_KEYS)
    {
      ReplacedInstalled(keys, slots, id, k);
      FollowedOk(unicast, keys, slots, id, k, 0, NUM_DEFAULT_KEYS);
      FollowedOk(multicast, keys, slots, id, k, 0, NUM_DEFAULT_KEYS);
      FollowedOk(mgmt, keys, slots, id, k, NUM_DEFAULT_KEYS, NUM_DEFAULT_KEYS + NUM_DEFAULT_MGMT_KEYS);
    }

    /** ieee80211_key_replace, for a key that comes: it takes the place of whatever is in its slot, also
        as a default. */
    method Install(id: KeyId, k: Key)
      requires Placed() && id !in keys
      modifies this`keys, this`slots, this`unicast, this`multicast, this`mgmt
      ensures Placed() && slots == old(slots)[k.slot := id] && keys == Replaced(old(keys), old(slots), id, k)
      ensures unicast == Followed(old(unicast), old(slots), k.slot, id)
      ensures multicast == Followed(old(multicast), old(slots), k.slot, id)
      ensures mgmt == Followed(old(mgmt), old(slots), k.slot, id)
    {
      PlacedOnceReplaced(id, k);
      var was := if k.slot in slots then Some(slots[k.slot]) else None;
      keys := keys[id := k];
      FollowDefaults(id, k, was);
      if was.Some? {
        keys := keys - {was.value};
      }
      assert keys == Replaced(old(keys), old(slots), id, k);
    }

    /** The slot and the defaults move from the old key to the new one. */
    method FollowDefaults(id: KeyId, k: Key, was: Option<KeyId>)
      requires was == if k.slot in slots then Some(slots[k.slot]) else None
      requires was.Some? && (unicast == was || multicast == was) ==> k.slot.Iface? && k.slot.idx < NUM_DEFAULT_KEYS
      requires was.Some? && mgmt == was ==>
                 k.slot.Iface? && NUM_DEFAULT_KEYS <= k.slot.idx < NUM_DEFAULT_KEYS + NUM_DEFAULT_MGMT_KEYS
      modifies this`slots, this`unicast, this`multicast, this`mgmt
      ensures slots == old(slots)[k.slot := id]
      ensures unicast == Followed(old(unicast), old(slots), k.slot, id)
      ensures multicast == Followed(old(multicast), old(slots), k.slot, id)
      ensures mgmt == Followed(old(mgmt), old(slots), k.slot, id)
    {
      var uni, multi, man := was.Some? && unicast == was, was.Some? && multicast == was, was.Some? && mgmt == was;
      slots := slots[k.slot := id];
      if uni {
        PutDefaultKey(k.slot.idx, true, false);
      }
      if multi {
        PutDefaultKey(k.slot.idx, false, true);
      }
      if man {
        PutDefaultMgmtKey(k.slot.idx);
      }
    }

    /** ieee80211_key_disable_hw_accel, for a key that is no longer listed. */
    method DisableHwAccel(k: Key) returns (k': Key)
      modifies this`needed
      ensures k' == k.(uploaded := false) && needed == old(needed) + One(!Needs(k))
    {
      k' := k;
      if k.uploaded {
        if !k.reserve {
          needed := needed + 1;
        }
        k' := k.(uploaded := false);
      }
    }

    /** __ieee80211_key_destroy: the count of a key goes at once or later. */
    method Destroy(k: Key, delay: bool)
      modifies this`needed, this`pending
      ensures delay ==> pending == old(pending) + 1 && needed == old(needed) + One(!Needs(k))
      ensures !delay ==> pending == old(pending) && needed == old(needed) - One(Needs(k))
    {
      var _ := DisableHwAccel(k);
      if delay {
        pending := pending + 1;
      } else {
        needed := needed - 1;
      }
    }

    /** ieee80211_key_free */
    method Free(id: KeyId, delay: bool)
      requires Valid() && id in keys
      modifies this
      ensures Valid() && keys == old(keys) - {id} && slots == old(slots) - {old(keys)[id].slot}
      ensures unicast == Dropped(old(unicast), id) && multicast == Dropped(old(multicast), id)
              && mgmt == Dropped(old(mgmt), id)
      ensures pending == old(pending) + One(delay)
    {
      NeedRemove(keys, id);
      var k := keys[id];
      Withdraw(id);
      Destroy(k, delay);
    }

    /** ieee80211_key_enable_hw_accel */
    method EnableHwAccel(id: KeyId, accel: Accel) returns (ok: bool)
      requires Valid() && id in keys && !keys[id].uploaded
      modifies this`keys, this`needed
      ensures Valid() && ok == !accel.Refused?
      ensures keys == if accel.Uploaded? then old(keys)[id := old(keys)[id].(uploaded := true,
              reserve := accel.reserve)] else old(keys)
    {
      ok := !accel.Refused?;
      if accel.Uploaded? {
        var k := keys[id].(uploaded := true, reserve := accel.reserve);
        NeedUpdate(keys, id, k);
        keys := keys[id := k];
        if !accel.reserve {
          needed := needed - 1;
        }
      }
    }

    /** The first half of ieee80211_key_link: the new key takes its slot, and the old one is destroyed. */
    method Exchange(id: KeyId, slot: Slot)
      requires Valid() && id !in keys
      modifies this
      ensures Valid() && id in keys && slots == old(slots)[slot := id]
      ensures keys == Replaced(old(keys), old(slots), id, Key(slot, false, false))
      ensures unicast == Followed(old(unicast), old(slots), slot, id)
      ensures multicast == Followed(old(multicast), old(slots), slot, id)
      ensures mgmt == Followed(old(mgmt), old(slots), slot, id)
      ensures pending == old(pending) + One(slot in old(slots))
    {
      var k := Key(slot, false, false);
      var was := if slot in slots then Some(keys[slots[slot]]) else None;
      if was.Some? {
        NeedRemove(keys, slots[slot]);
        NeedAdd(keys - {slots[slot]}, id, k);
      } else {
        NeedAdd(keys, id, k);
      }
      needed := needed + 1;
      Install(id, k);
      if was.Some? {
        Destroy(was.value, true);
      }
    }

    /** ieee80211_key_link */
    method Link(id: KeyId, slot: Slot, accel: Accel) returns (ok: bool)
      requires Valid() && id !in keys
      modifies this
      ensures Valid() && ok == !accel.Refused?
      ensures ok ==> keys == Replaced(old(keys), old(slots), id,
              Key(slot, accel.Uploaded?, accel.Uploaded? && accel.reserve))
      ensures !ok ==> keys == Vacated(old(keys), old(slots), slot)
      ensures slots == if ok then old(slots)[slot := id] else old(slots) - {slot}
      ensures Succeeds(unicast, old(unicast), old(slots), slot, id, ok)
      ensures Succeeds(multicast, old(multicast), old(slots), slot, id, ok)
      ensures Succeeds(mgmt, old(mgmt), old(slots), slot, id, ok)
      ensures pending == old(pending) + One(slot in old(slots)) + One(!ok)
    {
      ReplacedThen(keys, slots, id, Key(slot, false, false),
        Key(slot, accel.Uploaded?, accel.Uploaded? && accel.reserve));
      Exchange(id, slot);
      ok := EnableHwAccel(id, accel);
      if !ok {
        Free(id, true);
      }
    }

    /** ieee80211_remove_key: the driver has already dropped the key. */
    method Remove(id: KeyId)
      requires Valid() && id in keys
      modifies this
      ensures Valid() && keys == old(keys) - {id} && pending == old(pending)
      ensures unicast == Dropped(old(unicast), id) && multicast == Dropped(old(multicast), id)
              && mgmt == Dropped(old(mgmt), id)
    {
      var k := keys[id];
      if k.uploaded {
        NeedUpdate(keys, id, k.(uploaded := false));
        keys := keys[id := k.(uploaded := false)];
        if !k.reserve {
          needed := needed + 1;
        }
      }
      Free(id, false);
    }

    /** ieee80211_free_sta_keys: every key in a slot of the station goes. */
    method FreeStaKeys(sta: nat)
      requires Valid()
      modifies this
      ensures Valid() && keys == map id | id in old(keys) && !OfSta(old(keys)[id].slot, sta) :: old(keys)[id]
      ensures unicast == old(unicast) && multicast == old(multicast) && mgmt == old(mgmt)
    {
      var rest: set<KeyId> := set id | id in keys && OfSta(keys[id].slot, sta);
      while rest != {}
        invariant Valid() && forall id :: id in rest ==> id in keys && OfSta(keys[id].slot, sta)
        invariant unicast == old(unicast) && multicast == old(multicast) && mgmt == old(mgmt)
        invariant forall id :: id in keys ==> id in old(keys) && keys[id] == old(keys)[id]
        invariant forall id :: id in old(keys) ==> (id in keys <==> id in rest || !OfSta(old(keys)[id].slot, sta))
        decreases |rest|
      {
        var id :| id in rest;
        Free(id, true);
        rest := rest - {id};
      }
    }

    /** ieee80211_free_keys_iface: all keys leave the list and their slots. */
    method FreeKeysIface() returns (doomed: seq<Key>)
      requires Valid()
      modifies this
      ensures Placed() && keys == map[] && slots == map[] && pending == 0 && needed == NeedCount(doomed)
    {
      needed := needed - pending;
      pending := 0;
      doomed := [];
      while keys != map[]
        invariant Placed() && pending == 0 && needed == |NeedSet(keys)| + NeedCount(doomed)
        decreases |keys|
      {
        var id :| id in keys;
        NeedRemove(keys, id);
        NeedCountMore(doomed, keys[id]);
        doomed := doomed + [keys[id]];
        Withdraw(id);
      }
      assert NeedSet(keys) == {};
    }

    /** ieee80211_free_keys: nothing is left, and both counters are zero. */
    method FreeKeys()
      requires Valid()
      modifies this
      ensures Valid() && keys == map[] && slots == map[] && needed == 0 && pending == 0
      ensures unicast == multicast == mgmt == None
    {
      var doomed := FreeKeysIface();
      while doomed != []
        invariant Placed() && keys == map[] && slots == map[] && pending == 0 && needed == NeedCount(doomed)
        decreases |doomed|
      {
        Destroy(doomed[|doomed| - 1], false);
        doomed := doomed[..|doomed| - 1];
      }
      assert NeedSet(keys) == {};
    }

    /** ieee80211_delayed_tailroom_dec */
    method DelayedDec()
      requires Valid()
      modifies this`needed, this`pending
      ensures Valid() && pending == 0
      ensures needed == |set id | id in keys && (!keys[id].uploaded || keys[id].reserve)|
    {
      needed := needed - pending;
      pending := 0;
      assert NeedSet(keys) == set id | id in keys && (!keys[id].uploaded || keys[id].reserve);
    }
  }
}
