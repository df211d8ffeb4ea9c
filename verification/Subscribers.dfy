/** app/app.go: the subscriber lists, sorted, free of duplicates and filtered in place.

    A Go slice is an array with a length; appending writes into spare capacity or moves to a
    new array, and the removal filter writes into the array it reads. */
module Subscribers {
  import opened Bytes
  import opened Slices

  datatype Slice = Slice(data: array<u32>, len: nat)

  ghost predicate Ascending(s: seq<u32>) {
    forall i, j | 0 <= i < j < |s| :: s[i] < s[j]
  }

  ghost predicate Sorted(s: seq<u32>) {
    forall i, j | 0 <= i < j < |s| :: s[i] <= s[j]
  }

  /** The list without one id. */
  function Without(s: seq<u32>, id: u32): seq<u32> {
    if s == [] then []
    else Without(s[..|s| - 1], id) + if s[|s| - 1] == id then [] else [s[|s| - 1]]
  }

  lemma {:induction false} WithoutElements(s: seq<u32>, id: u32)
    ensures forall x :: x in Without(s, id) <==> x in s && x != id
    ensures |Without(s, id)| <= |s|
  {
    if s != [] {
      WithoutElements(s[..|s| - 1], id);
      assert s == s[..|s| - 1] + [s[|s| - 1]];
    }
  }

  lemma {:induction false} WithoutAscending(s: seq<u32>, id: u32)
    requires Ascending(s)
    ensures Ascending(Without(s, id))
  {
    if s != [] {
      var front, last := s[..|s| - 1], s[|s| - 1];
      WithoutAscending(front, id);
      WithoutElements(front, id);
      forall i | 0 <= i < |Without(front, id)|
        ensures Without(front, id)[i] < last
      {
        assert Without(front, id)[i] in front;
      }
    }
  }

  /** append: in place when there is room, else into a new array. */
  method Append(s: Slice, x: u32) returns (r: Slice)
    requires s.len <= s.data.Length
    modifies s.data
    ensures r.len == s.len + 1 <= r.data.Length
    ensures r.data == s.data || fresh(r.data)
    ensures r.data[..r.len] == old(s.data[..s.len]) + [x]
  {
    if s.len < s.data.Length {
      s.data[s.len] := x;
      return Slice(s.data, s.len + 1);
    }
    var bigger := Grow(s.data, 0, s.len, x);
    r := Slice(bigger, s.len + 1);
  }

  ghost predicate SortedBelow(a: array<u32>, n: nat)
    requires n <= a.Length
    reads a
  {
    forall i, j | 0 <= i < j < n :: a[i] <= a[j]
  }

  /** Stands for sort.Slice: any sort of the first `n` elements in place. */
  method SortSlice(a: array<u32>, n: nat)
    requires n <= a.Length
    modifies a
    ensures Sorted(a[..n])
    ensures multiset(a[..n]) == multiset(old(a[..n]))
  {
    for i := 0 to n
      invariant SortedBelow(a, i)
      invariant multiset(a[..n]) == multiset(old(a[..n]))
    {
      SiftDown(a, i, n);
    }
  }

  /** Moves element `i` down into the sorted part below it. */
  method SiftDown(a: array<u32>, i: nat, n: nat)
    requires i < n <= a.Length && SortedBelow(a, i)
    modifies a
    ensures SortedBelow(a, i + 1)
    ensures multiset(a[..n]) == multiset(old(a[..n]))
  {
    var j := i;
    while j > 0 && a[j - 1] > a[j]
      invariant 0 <= j <= i
      invariant multiset(a[..n]) == multiset(old(a[..n]))
      invariant forall p, q | 0 <= p < q <= i && q != j :: a[p] <= a[q]
    {
      SwapDown(a, j, n);
      j := j - 1;
    }
  }

  method SwapDown(a: array<u32>, j: nat, n: nat)
    requires 0 < j < n <= a.Length
    modifies a
    ensures a[j] == old(a[j - 1]) && a[j - 1] == old(a[j])
    ensures forall k | 0 <= k < a.Length && k != j && k != j - 1 :: a[k] == old(a[k])
    ensures multiset(a[..n]) == multiset(old(a[..n]))
  {
    ghost var before := a[..n];
    a[j - 1], a[j] := a[j], a[j - 1];
    assert a[..n] == before[j - 1 := before[j]][j := before[j - 1]];
  }

  /** dedupe: always a new array, unless the list is empty. */
  method Dedupe(s: Slice) returns (r: Slice)
    requires s.len <= s.data.Length && Sorted(s.data[..s.len])
    ensures r.len <= r.data.Length
    ensures if s.len == 0 then r == s else fresh(r.data)
    ensures Ascending(r.data[..r.len])
    ensures forall x :: x in r.data[..r.len] <==> x in s.data[..s.len]
  {
    if s.len == 0 {
      return s;
    }
    var first := new u32[1](i => 0);
    first[0] := s.data[0];
    r := Slice(first, 1);
    for i := 1 to s.len
      invariant 0 < r.len <= r.data.Length && fresh(r.data)
      invariant Ascending(r.data[..r.len])
      invariant forall x :: x in r.data[..r.len] <==> x in s.data[..i]
      invariant r.data[r.len - 1] == s.data[i - 1]
      invariant s.data[..] == old(s.data[..])
    {
      var v := s.data[i];
      ghost var before := r.data[..r.len];
      if v != r.data[r.len - 1] {
        assert s.data[i - 1] == s.data[..s.len][i - 1] && v == s.data[..s.len][i];
        r := Append(r, v);
      }
      assert s.data[..i + 1] == s.data[..i] + [v];
    }
  }

  /** `list[:0]` filled from `list` itself: the writer never passes the reader. */
  method FilterInPlace(list: Slice, client: u32) returns (out: Slice)
    requires list.len <= list.data.Length
    modifies list.data
    ensures out.data == list.data && out.len <= list.len
    ensures out.data[..out.len] == Without(old(list.data[..list.len]), client)
  {
    ghost var before := list.data[..list.len];
    var k := 0;
    for i := 0 to list.len
      invariant k <= i
      invariant list.data[..k] == Without(before[..i], client)
      invariant forall m | i <= m < list.len :: list.data[m] == before[m]
    {
      var id := list.data[i];
      assert before[..i + 1][..i] == before[..i];
      if id != client {
        list.data[k] := id;
        k := k + 1;
      }
    }
    assert before[..list.len] == before;
    out := Slice(list.data, k);
  }

  /** Append, sort, dedupe: the list with one more client, in an array of its own. */
  method WithClient(list: Slice, client: u32) returns (r: Slice)
    requires list.len <= list.data.Length
    modifies list.data
    ensures r.len <= r.data.Length && fresh(r.data)
    ensures Ascending(r.data[..r.len])
    ensures forall x :: x in r.data[..r.len] <==> x in old(list.data[..list.len]) || x == client
  {
    ghost var before := list.data[..list.len];
    var longer := Append(list, client);
    SortSlice(longer.data, longer.len);
    SameElements(longer.data[..longer.len], before, client);
    r := Dedupe(longer);
  }

  /** The lists are strictly ascending and hold exactly the subscribed clients. */
  ghost predicate Represents(lists: map<u32, seq<u32>>, subscribed: set<(u32, u32)>) {
    && (forall c | c in lists :: Ascending(lists[c]))
    && (forall c, id | c in lists && id in lists[c] :: (c, id) in subscribed)
    && (forall x | x in subscribed :: x.0 in lists && x.1 in lists[x.0])
  }

  lemma RepresentsAdd(lists: map<u32, seq<u32>>, subscribed: set<(u32, u32)>,
                      channel: u32, client: u32, list: seq<u32>)
    requires Represents(lists, subscribed) && Ascending(list)
    requires forall x :: x in list <==> (channel in lists && x in lists[channel]) || x == client
    ensures Represents(lists[channel := list], subscribed + {(channel, client)})
  {}

  lemma RepresentsRemove(lists: map<u32, seq<u32>>, subscribed: set<(u32, u32)>,
                         channel: u32, client: u32, list: seq<u32>)
    requires Represents(lists, subscribed) && Ascending(list)
    requires forall x :: x in list <==> (channel in lists && x in lists[channel]) && x != client
    ensures Represents(lists[channel := list], subscribed - {(channel, client)})
  {}

  datatype Change = Subscribe(channel: u32, client: u32) | Unsubscribe(channel: u32, client: u32) {
    /** What the change does to the set of subscriptions. */
    function On(subscribed: set<(u32, u32)>): set<(u32, u32)> {
      if Subscribe? then subscribed + {(channel, client)} else subscribed - {(channel, client)}
    }
  }

  class StableSubscriberSet {
    var subs: map<u32, Slice>
    ghost var lists: map<u32, seq<u32>>    // what each slice holds
    ghost var subscribed: set<(u32, u32)>  // channel and client

    ghost function Arrays(): set<array<u32>>
      reads this
    {
      set c | c in subs :: subs[c].data
    }

    /** The list of a channel; empty for a channel never used. */
    ghost function Listed(channel: u32): seq<u32>
      reads this
    {
      if channel in lists then lists[channel] else []
    }

    /** No two channels share an array, and the lists represent the set of subscriptions. */
    ghost predicate Valid()
      reads this, Arrays()
    {
      && subs.Keys == lists.Keys
      && (forall c | c in subs :: subs[c].len <= subs[c].data.Length && subs[c].data[..subs[c].len] == lists[c])
      && (forall c, d | c in subs && d in subs && c != d :: subs[c].data != subs[d].data)
      && Represents(lists, subscribed)
    }

    constructor ()
      ensures Valid() && subscribed == {} && Arrays() == {}
    {
      subs, lists := map[], map[];
      subscribed := {};
    }

    /** The slice of a channel; a channel never used has an empty one of its own. */
    method Lookup(channel: u32) returns (s: Slice)
      requires Valid()
      ensures s.len <= s.data.Length && s.data[..s.len] == Listed(channel) && Ascending(Listed(channel))
      ensures if channel in subs then s == subs[channel] else fresh(s.data)
    {
      if channel in subs {
        return subs[channel];
      }
      var empty := new u32[0](i => 0);
      s := Slice(empty, 0);
    }

    /** Valid, but for what the array of one channel holds. */
    ghost predicate OthersValid(channel: u32)
      reads this, Arrays()
    {
      && subs.Keys == lists.Keys
      && (forall c | c in subs && c != channel ::
            subs[c].len <= subs[c].data.Length && subs[c].data[..subs[c].len] == lists[c])
      && (forall c, d | c in subs && d in subs && c != d :: subs[c].data != subs[d].data)
    }

    /** Stores the new slice of a channel. */
    method Store(channel: u32, list: Slice, ghost subscribed': set<(u32, u32)>)
      requires OthersValid(channel) && list.len <= list.data.Length
      requires forall c | c in subs && c != channel :: subs[c].data != list.data
      requires Represents(lists[channel := list.data[..list.len]], subscribed')
      modifies this
      ensures Valid() && subscribed == subscribed'
      ensures lists == old(lists)[channel := list.data[..list.len]]
      ensures subs == old(subs)[channel := list]
    {
      subs := subs[channel := list];
      lists := lists[channel := list.data[..list.len]];
      subscribed := subscribed';
    }

    method Add(channel: u32, client: u32)
      requires Valid()
      modifies this, Arrays()
      ensures Valid() && fresh(Arrays() - old(Arrays()))
      ensures subscribed == old(subscribed) + {(channel, client)}
      ensures forall other: u32 | other != channel :: Listed(other) == old(Listed(other))
    {
      hide Represents, Ascending, Without;
      var list := Lookup(channel);
      ghost var before := Listed(channel);
      list := WithClient(list, client);
      assert OthersValid(channel);
      RepresentsAdd(lists, subscribed, channel, client, list.data[..list.len]);
      Store(channel, list, subscribed + {(channel, client)});
    }

    method Remove(channel: u32, client: u32)
      requires Valid()
      modifies this, Arrays()
      ensures Valid() && fresh(Arrays() - old(Arrays()))
      ensures subscribed == old(subscribed) - {(channel, client)}
      ensures Listed(channel) == Without(old(Listed(channel)), client)
      ensures forall other: u32 | other != channel :: Listed(other) == old(Listed(other))
    {
      hide Represents, Ascending, Without;
      var list := Lookup(channel);
      ghost var before := Listed(channel);
      list := FilterInPlace(list, client);
      assert OthersValid(channel);
      WithoutElements(before, client);
      WithoutAscending(before, client);
      RepresentsRemove(lists, subscribed, channel, client, list.data[..list.len]);
      Store(channel, list, subscribed - {(channel, client)});
    }

    method Apply(change: Change)
      requires Valid()
      modifies this, Arrays()
      ensures Valid() && fresh(Arrays() - old(Arrays()))
      ensures subscribed == change.On(old(subscribed))
    {
      hide Represents, Ascending, Without;
      match change
      case Subscribe(channel, client) => Add(channel, client);
      case Unsubscribe(channel, client) => Remove(channel, client);
    }

    method Subscribers(channel: u32) returns (out: array<u32>)
      requires Valid()
      ensures Valid() && fresh(out) && out[..] == Listed(channel)
    {
      var list := Lookup(channel);
      out := new u32[list.len](i => 0);
      for i := 0 to list.len
        invariant out[..i] == list.data[..i]
        invariant list.data[..list.len] == Listed(channel)
      {
        out[i] := list.data[i];
      }
    }
  }

  lemma SameElements(sorted: seq<u32>, before: seq<u32>, client: u32)
    requires multiset(sorted) == multiset(before + [client])
    ensures forall x :: x in sorted <==> x in before || x == client
  {
    forall x
      ensures x in sorted <==> x in before || x == client
    {
      assert x in sorted <==> x in multiset(sorted);
      assert x in before + [client] <==> x in multiset(before + [client]);
    }
  }

  function Changed(subscribed: set<(u32, u32)>, changes: seq<Change>): set<(u32, u32)> {
    if changes == [] then subscribed
    else changes[|changes| - 1].On(Changed(subscribed, changes[..|changes| - 1]))
  }

  /** A list handed out earlier is not altered by any later run of additions and removals,
      and after the run the set is the one the changes describe. */
  method SnapshotSurvives(s: StableSubscriberSet, channel: u32, changes: seq<Change>) returns (out: array<u32>)
    requires s.Valid()
    modifies s, s.Arrays()
    ensures s.Valid() && out[..] == old(s.Listed(channel))
    ensures s.subscribed == Changed(old(s.subscribed), changes)
  {
    hide Represents, Ascending, Without;
    out := s.Subscribers(channel);
    for i := 0 to |changes|
      invariant s.Valid() && out !in s.Arrays()
      invariant fresh(s.Arrays() - old(s.Arrays()))
      invariant out[..] == old(s.Listed(channel))
      invariant s.subscribed == Changed(old(s.subscribed), changes[..i])
    {
      s.Apply(changes[i]);
      assert changes[..i + 1][..i] == changes[..i];
    }
    assert changes[..|changes|] == changes;
  }
}
