/** The slab allocator of src/flat_storage.rs: a vector of slots whose vacant
    slots are threaded, through the slots themselves, into a free list. */
module FlatStorages {

  const INVALID_ID: nat := 0xFFFF_FFFF_FFFF_FFFF

  datatype Option<+T> = None | Some(value: T)

  datatype AllocNode<T> = Vacant(next: nat) | Occupied(val: T)

  ghost predicate Distinct<X>(s: seq<X>) {
    forall i, j :: 0 <= i < j < |s| ==> s[i] != s[j]
  }

  /** The slot reached from `id` by following `n` vacant links. */
  function Walk<T>(data: seq<AllocNode<T>>, id: nat, n: nat): nat
    decreases n, |data|
  {
    if n == 0 then id
    else if id < |data| && data[id].Vacant? then Walk(data, data[id].next, n - 1)
    else INVALID_ID
  }

  /** Entry `i` of a list of slots, or INVALID_ID past its end. */
  ghost function At(list: seq<nat>, i: nat): nat {
    if i < |list| then list[i] else INVALID_ID
  }

  /** `list` spells out the links that start at `head`. */
  ghost predicate Linked<T>(data: seq<AllocNode<T>>, head: nat, list: seq<nat>) {
    && head == At(list, 0)
    && (forall i :: 0 <= i < |list| ==> list[i] < |data| && data[list[i]] == Vacant(At(list, i + 1)))
  }

  /** `list` spells out the links from `head` and is exactly the vacant slots. */
  ghost predicate Threaded<T>(data: seq<AllocNode<T>>, head: nat, list: seq<nat>) {
    && Linked(data, head, list)
    && Distinct(list)
    && forall k :: 0 <= k < |data| ==> (data[k].Vacant? <==> k in list)
  }

  /** The finite map that the slots stand for. */
  ghost function Stored<T>(data: seq<AllocNode<T>>): map<nat, T> {
    map k | 0 <= k < |data| && data[k].Occupied? :: data[k].val
  }

  class FlatStorage<T> {
    var data: seq<AllocNode<T>>
    var count: nat
    var free: nat // free list head
    ghost var freeList: seq<nat>

    ghost predicate Valid()
      reads this
    {
      && |data| <= INVALID_ID
      && Threaded(data, free, freeList)
      && count + |freeList| == |data|
    }

    ghost function Contents(): map<nat, T>
      reads this
    {
      Stored(data)
    }

    constructor ()
      ensures Valid()
      ensures Contents() == map[] && data == [] && freeList == []
    {
      data, count, free := [], 0, INVALID_ID;
      freeList := [];
    }

    method Len() returns (n: nat)
      requires Valid()
      ensures n == |Contents()|
    {
      CountIsSize(this);
      n := count;
    }

    method CountFree() returns (n: nat)
      requires Valid()
      ensures n == |freeList| == |data| - |Contents()|
    {
      CountIsSize(this);
      n := |data| - count;
    }

    /** A fresh key, the most recently vacated slot if there is one. The slab
        never holds INVALID_ID slots, which a vector cannot reach. */
    method Add(val: T) returns (key: nat)
      requires Valid() && |data| < INVALID_ID
      modifies this
      ensures Valid()
      ensures key !in old(Contents()) && key != INVALID_ID
      ensures Contents() == old(Contents())[key := val]
      ensures old(freeList) == [] ==> key == old(|data|) && freeList == [] && |data| == old(|data|) + 1
      ensures old(freeList) != [] ==> [key] + freeList == old(freeList) && |data| == old(|data|)
    {
      hide Threaded, Stored;
      count := count + 1;
      HeadIsVacant(data, free, freeList);
      if free == INVALID_ID {
        AppendOccupied(data, val);
        data := data + [Occupied(val)];
        key := |data| - 1;
      } else {
        key := free;
        OccupyHead(data, freeList, val);
        match data[key] {
          case Vacant(next) => free := next;
          case Occupied(_) => assert false; // the source's panic
        }
        data := data[key := Occupied(val)];
        freeList := freeList[1..];
      }
    }

    /** Empties a slot; a key that is out of range or vacant is left alone. */
    method Remove(key: nat) returns (r: Option<T>)
      requires Valid()
      modifies this
      ensures Valid() && |data| == old(|data|)
      ensures key in old(Contents()) ==>
        r == Some(old(Contents())[key]) && Contents() == old(Contents()) - {key} && freeList == [key] + old(freeList)
      ensures key !in old(Contents()) ==>
        r == None && Contents() == old(Contents()) && freeList == old(freeList)
    {
      StoredAt(data, key);
      if key < |data| {
        match data[key] {
          case Vacant(_) => return None;
          case Occupied(val) =>
            CountPositive(this, key);
            hide Threaded, Stored;
            VacateSlot(data, free, freeList, key);
            data := data[key := Vacant(free)];
            free := key;
            count := count - 1;
            freeList := [key] + freeList;
            return Some(val);
        }
      }
      r := None;
    }

    method Get(key: nat) returns (r: Option<T>)
      requires Valid()
      ensures r == if key in Contents() then Some(Contents()[key]) else None
    {
      if key < |data| && data[key].Occupied? {
        return Some(data[key].val);
      }
      r := None;
    }

    /** Writing through the reference that get_mut hands out: the value of an
        occupied slot changes and nothing else does. */
    method Set(key: nat, val: T)
      requires Valid() && key in Contents()
      modifies this
      ensures Valid() && |data| == old(|data|) && freeList == old(freeList)
      ensures Contents() == old(Contents())[key := val]
    {
      ReplaceOccupied(data, free, freeList, key, val);
      hide Threaded, Stored;
      data := data[key := Occupied(val)];
    }
  }

  // ------------------------------------------------------- one slot changes

  lemma StoredAt<T>(data: seq<AllocNode<T>>, key: nat)
    ensures key in Stored(data) <==> key < |data| && data[key].Occupied?
    ensures key in Stored(data) ==> Stored(data)[key] == data[key].val
  {}

  lemma HeadIsVacant<T>(data: seq<AllocNode<T>>, head: nat, list: seq<nat>)
    requires Threaded(data, head, list) && |data| <= INVALID_ID
    ensures head == INVALID_ID <==> list == []
    ensures list != [] ==> head == list[0] < |data| && data[head] == Vacant(At(list, 1)) && head !in Stored(data)
  {}

  lemma AppendOccupied<T>(data: seq<AllocNode<T>>, val: T)
    ensures |data| !in Stored(data) && Stored(data + [Occupied(val)]) == Stored(data)[|data| := val]
    ensures Threaded(data, INVALID_ID, []) ==> Threaded(data + [Occupied(val)], INVALID_ID, [])
  {
    var more, none: seq<nat> := data + [Occupied(val)], [];
    if Threaded(data, INVALID_ID, none) {
      forall k | 0 <= k < |more| ensures !more[k].Vacant? {
        assert k < |data| ==> (data[k].Vacant? <==> k in none);
      }
    }
  }

  lemma OccupyHead<T>(data: seq<AllocNode<T>>, list: seq<nat>, val: T)
    requires Threaded(data, At(list, 0), list) && list != []
    ensures list[0] < |data|
    ensures Threaded(data[list[0] := Occupied(val)], At(list, 1), list[1..])
    ensures Stored(data[list[0] := Occupied(val)]) == Stored(data)[list[0] := val]
  {
    var key := list[0];
    var data' := data[key := Occupied(val)];
    forall i | 0 <= i < |list| - 1
      ensures list[1..][i] < |data'| && data'[list[1..][i]] == Vacant(At(list[1..], i + 1))
    {
      assert list[i + 1] != key && data[list[i + 1]] == Vacant(At(list, i + 2));
    }
    forall k | 0 <= k < |data'| ensures data'[k].Vacant? <==> k in list[1..] {
      assert k in list <==> k == key || k in list[1..];
    }
  }

  lemma VacateSlot<T>(data: seq<AllocNode<T>>, head: nat, list: seq<nat>, key: nat)
    requires Threaded(data, head, list) && key < |data| && data[key].Occupied?
    ensures Threaded(data[key := Vacant(head)], key, [key] + list)
    ensures Stored(data[key := Vacant(head)]) == Stored(data) - {key}
  {
    var data', list' := data[key := Vacant(head)], [key] + list;
    assert key !in list;
    forall i | 0 <= i < |list'| ensures list'[i] < |data'| && data'[list'[i]] == Vacant(At(list', i + 1)) {
      if i > 0 {
        assert list'[i] == list[i - 1] && data[list[i - 1]] == Vacant(At(list, i));
      }
    }
  }

  lemma ReplaceOccupied<T>(data: seq<AllocNode<T>>, head: nat, list: seq<nat>, key: nat, val: T)
    requires Threaded(data, head, list) && key in Stored(data)
    ensures Threaded(data[key := Occupied(val)], head, list)
    ensures Stored(data[key := Occupied(val)]) == Stored(data)[key := val]
  {
    assert key !in list;
  }

  // ---------------------------------------------------------------- counting

  lemma {:induction false} DistinctSize<X>(s: seq<X>)
    requires Distinct(s)
    ensures |set x | x in s| == |s|
  {
    if s != [] {
      var rest := s[..|s| - 1];
      DistinctSize(rest);
      assert (set x | x in s) == (set x | x in rest) + {s[|s| - 1]};
    }
  }

  ghost predicate Below(k: nat, n: nat) { k < n }

  ghost function Slots(n: nat): set<nat> { set k: nat | 0 <= k < n && Below(k, n) }

  lemma {:induction false} SlotsSize(n: nat)
    ensures |Slots(n)| == n
  {
    if n > 0 {
      SlotsSize(n - 1);
      assert Slots(n) == Slots(n - 1) + {n - 1} by {
        assert forall k :: Below(k, n) <==> Below(k, n - 1) || k == n - 1;
      }
    }
  }

  ghost function Vacancies<T>(s: FlatStorage<T>): set<nat>
    reads s
  {
    set k | k in s.freeList
  }

  lemma SlotsSplit<T>(s: FlatStorage<T>)
    requires s.Valid()
    ensures s.Contents().Keys + Vacancies(s) == Slots(|s.data|) && s.Contents().Keys !! Vacancies(s)
  {
    forall k: nat
      ensures k in s.Contents().Keys + Vacancies(s) <==> k in Slots(|s.data|)
    {
      assert Below(k, |s.data|) <==> k < |s.data|;
      assert k < |s.data| ==> (s.data[k].Vacant? <==> k in s.freeList);
      assert k in s.freeList ==> k < |s.data|;
    }
  }

  /** `count` is the number of stored elements. */
  lemma CountIsSize<T>(s: FlatStorage<T>)
    requires s.Valid()
    ensures s.count == |s.Contents()|
  {
    var keys, vacant := s.Contents().Keys, Vacancies(s);
    DistinctSize(s.freeList);
    SlotsSize(|s.data|);
    SlotsSplit(s);
    assert |keys + vacant| == |keys| + |vacant|;
    assert |s.Contents()| == |keys|;
  }

  lemma CountPositive<T>(s: FlatStorage<T>, key: nat)
    requires s.Valid() && key in s.Contents()
    ensures s.count > 0
  {
    CountIsSize(s);
    assert s.Contents().Keys != {};
  }

  // ------------------------------------------------------- the intrusive list

  lemma {:induction false} WalkFollowsList<T>(data: seq<AllocNode<T>>, list: seq<nat>, j: nat, n: nat)
    requires Linked(data, At(list, 0), list) && j + n <= |list|
    ensures Walk(data, At(list, j), n) == At(list, j + n)
    decreases n
  {
    if n > 0 {
      assert data[list[j]] == Vacant(At(list, j + 1)) && At(list, j) == list[j];
      hide Linked, At;
      WalkFollowsList(data, list, j + 1, n - 1);
      assert Walk(data, At(list, j), n) == At(list, j + n);
    } else {
      assert Walk(data, At(list, j), n) == At(list, j);
    }
  }

  /** The first `n` slots met by following the links from `id`. */
  ghost function Trail<T>(data: seq<AllocNode<T>>, id: nat, n: nat): seq<nat> {
    seq(n, i requires 0 <= i => Walk(data, id, i))
  }

  lemma TrailIsList<T>(data: seq<AllocNode<T>>, list: seq<nat>)
    requires Linked(data, At(list, 0), list)
    ensures Trail(data, At(list, 0), |list|) == list
    ensures Walk(data, At(list, 0), |list|) == INVALID_ID
  {
    forall i | 0 <= i <= |list|
      ensures Walk(data, At(list, 0), i) == At(list, i)
    {
      WalkFollowsList(data, list, 0, i);
    }
  }

  /** Following the links from `free`, as often as there are vacant slots, meets
      every vacant slot exactly once, and the next link is the end marker: the
      free list has no cycle and loses no slot. */
  lemma FreeListIsAcyclic<T>(s: FlatStorage<T>)
    requires s.Valid()
    ensures var trail := Trail(s.data, s.free, |s.data| - s.count);
      && Distinct(trail)
      && (forall k :: 0 <= k < |s.data| ==> (s.data[k].Vacant? <==> k in trail))
      && Walk(s.data, s.free, |trail|) == INVALID_ID
  {
    TrailIsList(s.data, s.freeList);
  }
}
