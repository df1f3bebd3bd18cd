/** Listing a finite set of numbers by increasing key. */
module Ordering {

  function Members(order: seq<nat>): set<nat> {
    set id | id in order
  }

  predicate Distinct(order: seq<nat>) {
    forall i, j :: 0 <= i < j < |order| ==> order[i] != order[j]
  }

  predicate SortedBy(order: seq<nat>, key: nat -> nat) {
    forall i, j :: 0 <= i < j < |order| ==> key(order[i]) <= key(order[j])
  }

  /** The set listed once each, smallest key first; ties in any order. */
  predicate Lists(order: seq<nat>, ids: set<nat>, key: nat -> nat) {
    Members(order) == ids && Distinct(order) && SortedBy(order, key)
  }

  lemma {:induction false} MembersCount(order: seq<nat>)
    requires Distinct(order)
    ensures |Members(order)| == |order|
  {
    if order != [] {
      var n := |order| - 1;
      MembersCount(order[..n]);
      assert Members(order) == Members(order[..n]) + {order[n]};
      assert order[n] !in order[..n];
    }
  }

  lemma SplitMembers(order: seq<nat>, k: nat)
    requires Distinct(order) && k <= |order|
    ensures Members(order[..k]) + Members(order[k..]) == Members(order)
    ensures Members(order[..k]) !! Members(order[k..])
    ensures |Members(order[..k])| == k && |Members(order[k..])| == |order| - k
  {
    MembersCount(order[..k]);
    MembersCount(order[k..]);
    assert order == order[..k] + order[k..];
  }

  method Smallest(ids: set<nat>, key: nat -> nat) returns (least: nat)
    requires ids != {}
    ensures least in ids && forall id :: id in ids ==> key(least) <= key(id)
  {
    least :| least in ids;
    var todo := ids - {least};
    while todo != {}
      invariant todo <= ids && least in ids
      invariant forall id :: id in ids - todo ==> key(least) <= key(id)
    {
      var id :| id in todo;
      if key(id) < key(least) {
        least := id;
      }
      todo := todo - {id};
    }
  }

  method OldestFirst(ids: set<nat>, key: nat -> nat) returns (order: seq<nat>)
    ensures Lists(order, ids, key)
  {
    order := [];
    var rest := ids;
    while rest != {}
      invariant rest <= ids && Members(order) == ids - rest
      invariant Distinct(order) && SortedBy(order, key)
      invariant forall i, id :: 0 <= i < |order| && id in rest ==> key(order[i]) <= key(id)
    {
      var least := Smallest(rest, key);
      assert least !in Members(order);
      assert Members(order + [least]) == Members(order) + {least};
      order := order + [least];
      rest := rest - {least};
    }
  }

  /** `picked` are `count` members with the smallest keys. */
  ghost predicate Oldest(ids: set<nat>, key: nat -> nat, count: nat, picked: set<nat>) {
    && picked <= ids && |picked| == count
    && forall a, b :: a in picked && b in ids - picked ==> key(a) <= key(b)
  }

  lemma PrefixIsOldest(order: seq<nat>, ids: set<nat>, key: nat -> nat, count: nat)
    requires Lists(order, ids, key) && count <= |order|
    ensures Oldest(ids, key, count, Members(order[..count]))
  {
    SplitMembers(order, count);
    assert order == order[..count] + order[count..];
    forall a, b | a in Members(order[..count]) && b in ids - Members(order[..count])
      ensures key(a) <= key(b)
    {
      var i :| 0 <= i < count && order[i] == a;
      var j :| count <= j < |order| && order[j] == b;
    }
  }

  /** Sort by key and take the first `count`. */
  method PickOldest(ids: set<nat>, key: nat -> nat, count: nat) returns (picked: seq<nat>)
    requires count <= |ids|
    ensures Distinct(picked) && Oldest(ids, key, count, Members(picked))
  {
    var order := OldestFirst(ids, key);
    MembersCount(order);
    PrefixIsOldest(order, ids, key, count);
    picked := order[..count];
  }
}
