/** `helper::evp_pkey_handle` and the keys it counts, updated in place, tied to the counts of `KeyCounts`. */
module PkeyHandles {
  import opened Octets
  import opened KeyCounts

  /** An `EVP_PKEY`: what matters of it here is its reference count. */
  class Pkey {
    ghost const id: nat
    var refs: nat
    ghost var frees: nat

    constructor (ghost id: nat)
      ensures this.id == id && refs == 1 && frees == 0
    {
      this.id, refs, frees := id, 1, 0;
    }

    /** `EVP_PKEY_up_ref`, which succeeds. */
    method UpRef()
      requires refs > 0
      modifies this`refs
      ensures refs == old(refs) + 1
    {
      refs := refs + 1;
    }

    /** `EVP_PKEY_free`. */
    method Free()
      requires refs > 0
      modifies this
      ensures refs == old(refs) - 1 && frees == old(frees) + if refs == 0 then 1 else 0
    {
      refs := refs - 1;
      if refs == 0 { frees := frees + 1; }
    }
  }

  /** Every handle and key there is, and who else refers to the keys. */
  class Heap {
    ghost var handles: map<nat, EvpPkeyHandle>
    ghost var keys: map<nat, Pkey>
    ghost var outside: map<nat, nat>

    ghost predicate Valid()
      reads this`handles, this`keys, handles.Values`key
    {
      && (forall h | h in handles :: handles[h].id == h && handles[h].heap == this && Knows(handles[h].key))
      && (forall k | k in keys :: keys[k].id == k)
    }

    ghost predicate Knows(key: Pkey?)
      reads this`keys
    {
      key != null ==> key.id in keys && keys[key.id] == key
    }

    ghost function HandleMap(): map<nat, Option<nat>>
      reads this`handles, handles.Values`key
    {
      map h | h in handles :: IdOf(handles[h].key)
    }

    ghost function RefMap(): map<nat, nat>
      reads this`keys, keys.Values`refs
    {
      map k | k in keys :: keys[k].refs
    }

    ghost function FreeMap(): map<nat, nat>
      reads this`keys, keys.Values`frees
    {
      map k | k in keys :: keys[k].frees
    }

    ghost function View(): Store
      reads this, handles.Values`key, keys.Values`refs, keys.Values`frees
    {
      Store(HandleMap(), RefMap(), FreeMap(), outside)
    }

    /** After one handle alone has changed, or has been added. */
    twostate lemma OnlyOneHandle(new h: EvpPkeyHandle)
      requires old(Valid()) && keys == old(keys) && Knows(h.key) && h.heap == this
      requires handles == old(handles)[h.id := h]
      requires forall g | g in old(handles.Values) && g != h :: unchanged(g)
      ensures Valid() && HandleMap() == old(HandleMap())[h.id := IdOf(h.key)]
    {
      assert forall g | g in old(handles) && g != h.id :: old(handles)[g] in old(handles.Values);
    }

    /** After one key alone has changed. */
    twostate lemma OnlyOneKey(k: Pkey)
      requires old(Valid()) && keys == old(keys) && k.id in keys && keys[k.id] == k
      requires forall j | j in keys.Values && j != k :: unchanged(j)
      ensures RefMap() == old(RefMap())[k.id := k.refs] && FreeMap() == old(FreeMap())[k.id := k.frees]
      ensures old(RefMap())[k.id] == old(k.refs) && old(FreeMap())[k.id] == old(k.frees)
    {
      assert forall j | j in keys && j != k.id :: keys[j] in keys.Values;
    }

    lemma SeesKey(key: Pkey?)
      requires Valid() && Knows(key)
      ensures key != null ==> key.id in View().refs && View().refs[key.id] == key.refs
    {
    }

    /** While the counts are right, a key that a handle holds is alive. */
    lemma HeldKey(h: EvpPkeyHandle)
      requires Valid() && h.id in handles && handles[h.id] == h && Balanced(View())
      ensures h.key != null ==> h.key.refs > 0
    {
      hide Balanced;
      Sees(h);
      if h.key != null { HeldIsAlive(View(), h.id); }
    }

    /** What a handle or a key looks like in the view. */
    lemma Sees(h: EvpPkeyHandle)
      requires Valid() && h.id in handles && handles[h.id] == h
      ensures h.id in View().handles && View().handles[h.id] == IdOf(h.key) && Knows(h.key)
      ensures h.key != null ==> h.key.id in View().refs && View().refs[h.key.id] == h.key.refs
    {
    }
  }

  ghost function IdOf(key: Pkey?): Option<nat> {
    if key == null then None else Some(key.id)
  }

  class EvpPkeyHandle {
    ghost const id: nat
    ghost const heap: Heap
    var key: Pkey?

    ghost predicate Known()
      reads this, heap, heap.handles.Values
    {
      heap.Valid() && id in heap.handles && heap.handles[id] == this
    }

    constructor (ghost heap: Heap, ghost id: nat)
      requires heap.Valid() && id !in heap.handles
      modifies heap`handles
      ensures this.heap == heap && this.id == id && key == null && Known()
      ensures heap.View() == Hold(old(heap.View()), id, None)
    {
      this.heap, this.id, key := heap, id, null;
      new;
      Enter();
    }

    /** The explicit constructor: the caller's reference, if there is a key, becomes the handle's. */
    constructor Adopt(ghost heap: Heap, ghost id: nat, key: Pkey?)
      requires heap.Valid() && id !in heap.handles && heap.Knows(key)
      requires key != null ==> key.id in heap.outside && heap.outside[key.id] > 0
      modifies heap`handles, heap`outside
      ensures this.heap == heap && this.id == id && this.key == key && Known()
      ensures heap.View() == Adopted(old(heap.View()), id, IdOf(key))
    {
      hide Heap.HandleMap, Heap.RefMap, Heap.FreeMap;
      this.heap, this.id, this.key := heap, id, key;
      new;
      Enter();
      if key != null { heap.outside := heap.outside[key.id := heap.outside[key.id] - 1]; }
    }

    constructor Copy(ghost id: nat, other: EvpPkeyHandle)
      requires other.Known() && Balanced(other.heap.View()) && id !in other.heap.handles
      modifies other.heap`handles, other.key
      ensures this.heap == other.heap && this.id == id && key == other.key && Known()
      ensures Some(heap.View()) == Copied(old(other.heap.View()), id, other.id)
    {
      hide Heap.HandleMap, Heap.RefMap, Heap.FreeMap, Balanced, KeyCounts.UpRef;
      other.heap.HeldKey(other);
      other.heap.Sees(other);
      this.heap, this.id, key := other.heap, id, other.key;
      new;
      Enter();
      IncrementRefCount();
    }

    /** A new handle joins the others. */
    ghost method Enter()
      requires heap.Valid() && id !in heap.handles && heap.Knows(key)
      modifies heap`handles
      ensures Known() && heap.handles == old(heap.handles)[id := this]
      ensures heap.View() == Hold(old(heap.View()), id, IdOf(key))
    {
      heap.handles := heap.handles[id := this];
      heap.OnlyOneHandle(this);
    }

    constructor Move(ghost id: nat, other: EvpPkeyHandle)
      requires other.Known() && id !in other.heap.handles
      modifies other.heap`handles, other`key
      ensures this.heap == other.heap && this.id == id && key == old(other.key) && other.key == null && Known()
      ensures heap.View() == Moved(old(other.heap.View()), id, other.id)
    {
      this.heap, this.id, key := other.heap, id, other.key;
      new;
      other.heap.Sees(other);
      Enter();
      other.Point(null);
    }

    /** The assignment of `m_key`, no count touched. */
    method Point(newKey: Pkey?)
      requires Known() && heap.Knows(newKey)
      modifies this`key
      ensures Known() && key == newKey && heap.View() == Hold(old(heap.View()), id, IdOf(newKey))
    {
      key := newKey;
      heap.OnlyOneHandle(this);
    }

    /** `increment_ref_count`. */
    method IncrementRefCount()
      requires Known() && (key != null ==> key.refs > 0)
      modifies key
      ensures Known() && Some(heap.View()) == KeyCounts.UpRef(old(heap.View()), IdOf(key))
      ensures key != null ==> key.refs == old(key.refs) + 1
    {
      if key != null {
        heap.Sees(this);
        key.UpRef();
        heap.OnlyOneKey(key);
        assert heap.FreeMap() == old(heap.FreeMap());
      }
    }

    /** `decrement_ref_count`. */
    method DecrementRefCount()
      requires Known() && (key != null ==> key.refs > 0)
      modifies key
      ensures Known() && Some(heap.View()) == KeyCounts.Free(old(heap.View()), IdOf(key))
      ensures key != null ==> key.refs == old(key.refs) - 1
    {
      if key != null {
        heap.Sees(this);
        key.Free();
        heap.OnlyOneKey(key);
        assert key.refs != 0 ==> heap.FreeMap() == old(heap.FreeMap());
      }
    }

    /** What both assignments that add a reference do: drop the old key, then hold the new one. */
    method Replace(newKey: Pkey?)
      requires Known() && heap.Knows(newKey)
      requires (key != null ==> key.refs > 0) && (newKey != null ==> newKey.refs > if newKey == key then 1 else 0)
      modifies this`key, key, newKey
      ensures Known() && key == newKey && Some(heap.View()) == RawAssigned(old(heap.View()), id, IdOf(newKey))
    {
      hide Heap.HandleMap, Heap.RefMap, Heap.FreeMap, Heap.Valid, KeyCounts.UpRef, KeyCounts.Free;
      heap.Sees(this);
      DecrementRefCount();
      Point(newKey);
      IncrementRefCount();
    }

    /** `operator=(const evp_pkey_handle&)`. */
    method AssignCopy(other: EvpPkeyHandle)
      requires Known() && other.Known() && other.heap == heap && Balanced(heap.View())
      modifies this`key, key, other.key
      ensures Known() && key == old(other.key)
      ensures Some(heap.View()) == CopyAssigned(old(heap.View()), id, other.id)
    {
      if other == this { return; }
      hide Heap.HandleMap, Heap.RefMap, Heap.FreeMap, Heap.Valid, Balanced, KeyCounts.UpRef, KeyCounts.Free;
      heap.Sees(this);
      heap.Sees(other);
      HoldersAreCounted(heap.View(), id, other.id);
      Replace(other.key);
    }

    /** `operator=(evp_pkey_handle&&)`. */
    method AssignMove(other: EvpPkeyHandle)
      requires Known() && other.Known() && other.heap == heap && Balanced(heap.View())
      modifies this`key, other`key, key
      ensures Known() && other.Known() && key == old(other.key) && (other != this ==> other.key == null)
      ensures Some(heap.View()) == MoveAssigned(old(heap.View()), id, other.id)
    {
      if other == this { return; }
      heap.Sees(this);
      heap.HeldKey(this);
      DecrementRefCount();
      heap.Sees(other);
      Point(other.key);
      other.Point(null);
    }

    /** `operator=(EVP_PKEY*)`: the handle adds a reference of its own. */
    method AssignRaw(newKey: Pkey?)
      requires Known() && Balanced(heap.View()) && heap.Knows(newKey)
      requires Allowed(heap.View(), KeyCounts.AssignRaw(id, IdOf(newKey)))
      modifies this`key, key, newKey
      ensures Known() && key == newKey
      ensures Some(heap.View()) == RawAssigned(old(heap.View()), id, IdOf(newKey))
    {
      hide Heap.HandleMap, Heap.RefMap, Heap.FreeMap, Heap.Valid, Balanced;
      heap.Sees(this);
      heap.SeesKey(newKey);
      heap.HeldKey(this);
      Replace(newKey);
    }

    /** The destructor. */
    method Destroy()
      requires Known() && Balanced(heap.View())
      modifies key, heap`handles
      ensures heap.Valid() && Some(heap.View()) == Destroyed(old(heap.View()), id)
    {
      hide Heap.RefMap, Heap.FreeMap, Balanced;
      heap.Sees(this);
      heap.HeldKey(this);
      DecrementRefCount();
      label dropped:
      heap.handles := heap.handles - {id};
      assert heap.HandleMap() == old@dropped(heap.HandleMap()) - {id};
    }
  }
}
