/**
 * The ledger of listings (`market_data['listings']`) and the grouping of
 * `update_market_board`: a dict from item name to that item's listings, filled
 * in one pass, whose keys keep the order in which the items first appear.
 */
module Listings {
  import opened PySorted

  /** One entry of `market_data['listings']`, as `on_message` builds it. */
  datatype Listing = Listing(
    sellerId: string,
    sellerName: string,
    itemName: string,
    quantity: int,
    priceItem: string,
    priceAmount: int,
    timestamp: string)

  /** The listings of one item, in the order they were appended. */
  function Group(ls: seq<Listing>, item: string): (g: seq<Listing>)
    ensures |g| <= |ls|
  {
    if ls == [] then []
    else (if ls[0].itemName == item then [ls[0]] else []) + Group(ls[1..], item)
  }

  /** A group holds exactly the listings of its item. */
  lemma {:induction false} GroupMembers(ls: seq<Listing>, item: string)
    ensures forall l :: l in Group(ls, item) <==> l in ls && l.itemName == item
  {
    if ls != [] {
      GroupMembers(ls[1..], item);
      assert ls == [ls[0]] + ls[1..];
    }
  }

  /** A listing appended to the ledger lands at the end of its own item's group and nowhere else. */
  lemma {:induction false} GroupAppend(ls: seq<Listing>, l: Listing, item: string)
    ensures Group(ls + [l], item) == Group(ls, item) + (if l.itemName == item then [l] else [])
  {
    var tail := if l.itemName == item then [l] else [];
    if ls == [] {
      assert [l][1..] == [];
      assert Group([l], item) == tail + Group([], item);
    } else {
      var head := if ls[0].itemName == item then [ls[0]] else [];
      assert (ls + [l])[0] == ls[0];
      assert (ls + [l])[1..] == ls[1..] + [l];
      GroupAppend(ls[1..], l, item);
      calc {
        Group(ls + [l], item);
        head + Group(ls[1..] + [l], item);
        head + (Group(ls[1..], item) + tail);
        (head + Group(ls[1..], item)) + tail;
        Group(ls, item) + tail;
      }
    }
  }

  /** The indices of the listings of `item`, ascending. */
  function Positions(ls: seq<Listing>, item: string): (ps: seq<nat>)
    ensures forall k :: 0 <= k < |ps| ==> ps[k] < |ls| && ls[ps[k]].itemName == item
    ensures forall k, m :: 0 <= k < m < |ps| ==> ps[k] < ps[m]
    ensures forall p :: 0 <= p < |ls| && ls[p].itemName == item ==> p in ps
  {
    if ls == [] then []
    else
      var ps := Positions(ls[..|ls| - 1], item);
      if ls[|ls| - 1].itemName == item then ps + [|ls| - 1] else ps
  }

  /**
   * A group is the subsequence of the ledger at the positions of its item:
   * grouping keeps every listing of the item and their insertion order.
   */
  lemma {:induction false} GroupIsSubsequence(ls: seq<Listing>, item: string)
    ensures |Group(ls, item)| == |Positions(ls, item)|
    ensures forall k :: 0 <= k < |Group(ls, item)| ==> Group(ls, item)[k] == ls[Positions(ls, item)[k]]
  {
    if ls != [] {
      var init := ls[..|ls| - 1];
      assert ls == init + [ls[|ls| - 1]];
      GroupIsSubsequence(init, item);
      SubsequenceStep(init, ls[|ls| - 1], item);
    }
  }

  /** The step of `GroupIsSubsequence`: appending a listing keeps the group the ledger at its positions. */
  lemma SubsequenceStep(init: seq<Listing>, l: Listing, item: string)
    requires |Group(init, item)| == |Positions(init, item)|
    requires forall k :: 0 <= k < |Group(init, item)| ==> Group(init, item)[k] == init[Positions(init, item)[k]]
    ensures |Group(init + [l], item)| == |Positions(init + [l], item)|
    ensures forall k :: 0 <= k < |Group(init + [l], item)| ==> Group(init + [l], item)[k] == (init + [l])[Positions(init + [l], item)[k]]
  {
    var ls := init + [l];
    assert ls[..|ls| - 1] == init;
    GroupAppend(init, l, item);
    var g, ps := Group(ls, item), Positions(ls, item);
    forall k | 0 <= k < |g| ensures g[k] == ls[ps[k]] {
      if k < |Group(init, item)| {
        assert g[k] == Group(init, item)[k];
        assert ps[k] == Positions(init, item)[k];
      }
    }
  }

  /** The item names that occur in the ledger. */
  function ItemNames(ls: seq<Listing>): set<string> {
    set l | l in ls :: l.itemName
  }

  /** The dict's keys in insertion order: each item name once, where it first occurs. */
  function Names(ls: seq<Listing>): (ns: seq<string>)
    ensures NoDuplicates(ns)
  {
    if ls == [] then []
    else
      var init := ls[..|ls| - 1];
      var l := ls[|ls| - 1];
      assert ls == init + [l];
      var ns := Names(init);
      if l.itemName in ns then ns else ns + [l.itemName]
  }

  /** The keys are exactly the item names that occur. */
  lemma {:induction false} NamesMembers(ls: seq<Listing>)
    ensures forall n :: n in Names(ls) <==> n in ItemNames(ls)
  {
    if ls != [] {
      var init := ls[..|ls| - 1];
      var l := ls[|ls| - 1];
      assert ls == init + [l];
      NamesMembers(init);
      assert forall x | x in ls :: x in init || x == l;
    }
  }

  /** There are no keys exactly when there are no listings. */
  lemma NamesEmpty(ls: seq<Listing>)
    ensures Names(ls) == [] <==> ls == []
  {
  }

  /** Appending a listing adds its item to the names, at the end, when the item is new. */
  lemma NamesAppend(ls: seq<Listing>, l: Listing)
    ensures ItemNames(ls + [l]) == ItemNames(ls) + {l.itemName}
    ensures Names(ls + [l]) == if l.itemName in Names(ls) then Names(ls) else Names(ls) + [l.itemName]
  {
    assert (ls + [l])[..|ls|] == ls;
    assert forall x | x in ls + [l] :: x in ls || x == l;
  }

  /** `NamesAppend` at the loop's index: the next listing adds its item at most once. */
  lemma NamesStep(ls: seq<Listing>, i: nat)
    requires i < |ls|
    ensures ItemNames(ls[..i + 1]) == ItemNames(ls[..i]) + {ls[i].itemName}
    ensures Names(ls[..i + 1]) == if ls[i].itemName in Names(ls[..i]) then Names(ls[..i]) else Names(ls[..i]) + [ls[i].itemName]
  {
    assert ls[..i + 1] == ls[..i] + [ls[i]];
    NamesAppend(ls[..i], ls[i]);
  }

  /** Only the items that occur get a group, and every one that occurs has a non-empty one. */
  lemma GroupNonEmpty(ls: seq<Listing>, item: string)
    ensures Group(ls, item) != [] <==> item in ItemNames(ls)
  {
    GroupMembers(ls, item);
    if item in ItemNames(ls) {
      var l :| l in ls && l.itemName == item;
      assert l in Group(ls, item);
    }
  }

  /** `groups` maps each of its keys to that item's group in `ls`. */
  predicate GroupsOf(groups: map<string, seq<Listing>>, ls: seq<Listing>) {
    forall item | item in groups :: groups[item] == Group(ls, item)
  }

  /**
   * One step of the grouping loop: when the listing's own group grows by the
   * listing and every other group stays, every group is its item's group in
   * the longer ledger.
   */
  lemma GroupsStep(before: map<string, seq<Listing>>, after: map<string, seq<Listing>>, ls: seq<Listing>, i: nat)
    requires i < |ls| && GroupsOf(before, ls[..i])
    requires ls[i].itemName in after && after[ls[i].itemName] == Group(ls[..i], ls[i].itemName) + [ls[i]]
    requires forall item | item in after && item != ls[i].itemName :: item in before && after[item] == before[item]
    ensures GroupsOf(after, ls[..i + 1])
  {
    assert ls[..i + 1] == ls[..i] + [ls[i]];
    forall item | item in after ensures after[item] == Group(ls[..i + 1], item) {
      GroupAppend(ls[..i], ls[i], item);
    }
  }

  /** The dict after one iteration: the item's list is created when missing, then the listing appended to it. */
  function AddToGroup(groups: map<string, seq<Listing>>, l: Listing): map<string, seq<Listing>> {
    var g := if l.itemName in groups then groups else groups[l.itemName := []];
    g[l.itemName := g[l.itemName] + [l]]
  }

  /** The loop invariant: the dict and its key order are those of the listings seen so far. */
  predicate Grouped(groups: map<string, seq<Listing>>, keys: seq<string>, seen: seq<Listing>) {
    && groups.Keys == ItemNames(seen)
    && GroupsOf(groups, seen)
    && keys == Names(seen)
  }

  /** The dict after one iteration has one more key at most, and only the listing's own list changes. */
  lemma AddToGroupShape(groups: map<string, seq<Listing>>, l: Listing)
    ensures AddToGroup(groups, l).Keys == groups.Keys + {l.itemName}
    ensures AddToGroup(groups, l)[l.itemName] == (if l.itemName in groups then groups[l.itemName] else []) + [l]
    ensures forall item | item in AddToGroup(groups, l) && item != l.itemName :: item in groups && AddToGroup(groups, l)[item] == groups[item]
  {
  }

  /** One iteration keeps the invariant. */
  lemma GroupedStep(groups: map<string, seq<Listing>>, keys: seq<string>, ls: seq<Listing>, i: nat)
    requires i < |ls| && Grouped(groups, keys, ls[..i])
    ensures Grouped(AddToGroup(groups, ls[i]), if ls[i].itemName in keys then keys else keys + [ls[i].itemName], ls[..i + 1])
  {
    NamesStep(ls, i);
    AddToGroupShape(groups, ls[i]);
    if ls[i].itemName !in groups {
      GroupNonEmpty(ls[..i], ls[i].itemName);
    }
    GroupsStep(groups, AddToGroup(groups, ls[i]), ls, i);
  }

  /**
   * The grouping loop: one pass over the ledger, appending each listing to the
   * list of its item and recording a key the first time an item is seen.
   */
  method GroupByItem(ls: seq<Listing>) returns (groups: map<string, seq<Listing>>, keys: seq<string>)
    ensures groups.Keys == ItemNames(ls)
    ensures forall item | item in groups :: groups[item] == Group(ls, item)
    ensures keys == Names(ls)
  {
    groups := map[];
    keys := [];
    assert Grouped(groups, keys, ls[..0]);
    for i := 0 to |ls|
      invariant Grouped(groups, keys, ls[..i])
    {
      var l := ls[i];
      GroupedStep(groups, keys, ls, i);
      if l.itemName !in groups {
        groups := groups[l.itemName := []];
      }
      groups := groups[l.itemName := groups[l.itemName] + [l]];
      keys := if l.itemName in keys then keys else keys + [l.itemName];
    }
    assert ls[..|ls|] == ls;
  }
}
