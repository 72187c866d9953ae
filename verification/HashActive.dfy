/**
 The active-bucket index of xhash.h (xhashActive): a dense list of the non-empty buckets with the
 inverse array of positions, so that a bucket is added or removed in constant time.
 */
module HashActive {
  import opened Common

  // The numbers below n.
  function Below(n: nat): (s: set<int>)
    ensures forall k :: k in s <==> 0 <= k < n
    ensures |s| == n
  {
    if n == 0 then {} else Below(n - 1) + {n - 1}
  }

  // list[..count] holds distinct buckets, and where[] is its inverse, -1 elsewhere.
  ghost predicate Inverse(list: seq<int>, where: seq<int>, count: nat) {
    && count <= |list| == |where|
    && (forall i :: 0 <= i < count ==> 0 <= list[i] < |where| && where[list[i]] == i)
    && (forall b :: 0 <= b < |where| ==> where[b] == -1 || (0 <= where[b] < count && list[where[b]] == b))
  }

  ghost function Listed(where: seq<int>): (s: set<int>) {
    set b | 0 <= b < |where| && where[b] >= 0
  }

  // The list is as long as the set it stands for.
  lemma {:induction false} ListedSize(list: seq<int>, where: seq<int>, count: nat)
    requires Inverse(list, where, count)
    ensures |Listed(where)| == count
    decreases count
  {
    if count == 0 {
      assert Listed(where) == {};
    } else {
      var b := list[count - 1];
      var w := where[b := -1];
      assert Inverse(list, w, count - 1);
      ListedSize(list, w, count - 1);
      assert Listed(where) == Listed(w) + {b};
    }
  }

  // A bucket that is not listed finds room at the end.
  lemma AddedInverse(list: seq<int>, where: seq<int>, count: nat, idx: nat)
    requires Inverse(list, where, count) && idx < |where| && idx !in Listed(where)
    ensures count < |where|
    ensures Inverse(list[count := idx], where[idx := count], count + 1)
    ensures Listed(where[idx := count]) == Listed(where) + {idx}
  {
    ListedSize(list, where, count);
    assert |Listed(where) + {idx}| == count + 1;
    SubsetSize(Listed(where) + {idx}, Below(|where|));
    hide Below;
  }

  class Active {
    const indices: array<int>
    const pos: array<int>
    var count: nat

    ghost predicate Valid()
      reads this, indices, pos
    {
      indices != pos && Inverse(indices[..], pos[..], count)
    }

    ghost function Members(): set<int>
      reads this, pos
    {
      Listed(pos[..])
    }

    // xhash_active_init
    constructor (size: nat)
      ensures Valid() && Members() == {} && count == 0 && pos.Length == size
      ensures fresh(indices) && fresh(pos)
    {
      indices := new int[size](_ => 0);
      pos := new int[size](_ => -1);
      count := 0;
    }

    // xhash_active_add
    method Add(idx: nat)
      requires Valid() && idx < pos.Length && idx !in Members()
      modifies this`count, indices, pos
      ensures Valid() && Members() == old(Members()) + {idx}
      ensures pos[..] == old(pos[..])[idx := old(count)] && count == old(count) + 1
    {
      AddedInverse(indices[..], pos[..], count, idx);
      pos[idx] := count;
      indices[count] := idx;
      count := count + 1;
      assert indices[..] == old(indices[..])[old(count) := idx];
      assert pos[..] == old(pos[..])[idx := old(count)];
    }

    // xhash_active_remove: the last of the list takes the place of the one removed.
    method Remove(idx: nat)
      requires Valid() && idx < pos.Length && idx in Members()
      modifies this`count, indices, pos
      ensures Valid() && Members() == old(Members()) - {idx} && count == old(count) - 1
      ensures forall b :: 0 <= b < pos.Length && b != idx && old(pos[b]) != old(count) - 1 ==> pos[b] == old(pos[b])
      ensures forall b :: 0 <= b < pos.Length && b != idx && old(pos[b]) == old(count) - 1 ==> pos[b] == old(pos[idx])
    {
      var p := pos[idx];
      var last := indices[count - 1];
      indices[p] := last;
      pos[last] := p;
      pos[idx] := -1;
      count := count - 1;
      assert Members() == old(Members()) - {idx};
    }
  }
}
