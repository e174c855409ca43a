/** The child list of a cJSON item: a doubly linked chain whose head's prev is the tail, and the
    operations that add, insert, detach, replace and duplicate. */
module ChildList {

  /** An item without its links. `kind` is the type without its two flags. */
  datatype Data = Data(kind: nat, reference: bool, constKey: bool, number: int, text: Text, key: Text)

  datatype Text = NoText | Text(chars: string)

  class Item {
    var next: Item?
    var prev: Item?
    var child: Item?
    var data: Data
    /** The children in order, and all items below and including this one. */
    ghost var kids: seq<Item>
    ghost var repr: set<Item>

    constructor (d: Data)
      ensures data == d && next == null && prev == null && child == null && kids == [] && repr == {this}
    {
      data := d;
      next, prev, child := null, null, null;
      kids, repr := [], {this};
    }

    /** The chain is the abstract list of children. */
    ghost predicate ListOk()
      reads this`child, this`kids, Nodes(kids)
    {
      child == Head(kids) && Chained(kids)
    }
  }

  ghost function Nodes(s: seq<Item>): set<Item> {
    set n | n in s
  }

  ghost function Head(s: seq<Item>): Item? {
    if s == [] then null else s[0]
  }

  ghost predicate Distinct(s: seq<Item>) {
    forall i, j :: 0 <= i < j < |s| ==> s[i] != s[j]
  }

  ghost function NextOf(s: seq<Item>, i: nat): Item?
    requires i < |s|
  {
    if i + 1 < |s| then s[i + 1] else null
  }

  /** The item before, or at the head the tail. */
  ghost function PrevOf(s: seq<Item>, i: nat): Item
    requires i < |s|
  {
    if i > 0 then s[i - 1] else s[|s| - 1]
  }

  /** next leads to the following item or to null, prev to the one before or, at the head, to the tail. */
  ghost predicate Linked(s: seq<Item>, i: nat)
    requires i < |s|
    reads s[i]
  {
    s[i].next == NextOf(s, i) && s[i].prev == PrevOf(s, i)
  }

  ghost predicate Chained(s: seq<Item>)
    reads Nodes(s)
  {
    Distinct(s) && forall i :: 0 <= i < |s| ==> Linked(s, i)
  }

  lemma LinksOf(s: seq<Item>)
    requires Chained(s)
    ensures Distinct(s) && forall i :: 0 <= i < |s| ==> s[i].next == NextOf(s, i) && s[i].prev == PrevOf(s, i)
  {
    forall i | 0 <= i < |s|
      ensures s[i].next == NextOf(s, i) && s[i].prev == PrevOf(s, i)
    {
      assert Linked(s, i);
    }
  }

  lemma DistinctAt(s: seq<Item>, i: nat, j: nat)
    requires Distinct(s) && i < |s| && j < |s| && i != j
    ensures s[i] != s[j]
  {
    if i < j {
      assert s[i] != s[j];
    } else {
      assert s[j] != s[i];
    }
  }

  lemma FromLinks(s: seq<Item>)
    requires Distinct(s) && forall i :: 0 <= i < |s| ==> s[i].next == NextOf(s, i) && s[i].prev == PrevOf(s, i)
    ensures Chained(s)
  {
  }

  // ---- walking

  /** get_array_item */
  method GetArrayItem(parent: Item, index: nat) returns (item: Item?)
    requires parent.ListOk()
    ensures item == if index < |parent.kids| then parent.kids[index] else null
  {
    var current := parent.child;
    var left: nat := index;
    ghost var k := 0;
    while current != null && left > 0
      invariant k + left == index && k <= |parent.kids|
      invariant current == if k < |parent.kids| then parent.kids[k] else null
      decreases left
    {
      assert Linked(parent.kids, k);
      left := left - 1;
      current := current.next;
      k := k + 1;
    }
    item := current;
  }

  /** cJSON_GetArraySize, without the conversion to int */
  method GetArraySize(parent: Item) returns (size: nat)
    requires parent.ListOk()
    ensures size == |parent.kids|
  {
    size := 0;
    var child := parent.child;
    while child != null
      invariant size <= |parent.kids| && child == (if size < |parent.kids| then parent.kids[size] else null)
      decreases |parent.kids| - size
    {
      assert Linked(parent.kids, size);
      size := size + 1;
      child := child.next;
    }
  }

  // ---- the four list changes, on sequences

  ghost function Inserted(s: seq<Item>, k: nat, item: Item): seq<Item>
    requires k <= |s|
  {
    s[..k] + [item] + s[k..]
  }

  ghost function Without(s: seq<Item>, k: nat): seq<Item>
    requires k < |s|
  {
    s[..k] + s[k + 1..]
  }

  lemma InsertedDistinct(s: seq<Item>, k: nat, item: Item)
    requires Distinct(s) && k <= |s| && item !in s
    ensures Distinct(Inserted(s, k, item))
  {
    var t := Inserted(s, k, item);
    forall i, j | 0 <= i < j < |t|
      ensures t[i] != t[j]
    {
      if i != k && j != k {
        DistinctAt(s, if i < k then i else i - 1, if j < k then j else j - 1);
      }
    }
  }

  lemma AppendedDistinct(s: seq<Item>, item: Item)
    requires Distinct(s) && item !in s
    ensures Distinct(s + [item])
  {
    InsertedDistinct(s, |s|, item);
    assert Inserted(s, |s|, item) == s + [item];
  }

  lemma WithoutDistinct(s: seq<Item>, k: nat)
    requires Distinct(s) && k < |s|
    ensures Distinct(Without(s, k)) && s[k] !in Without(s, k) && |Without(s, k)| == |s| - 1
    ensures Head(Without(s, k)) == if k == 0 then NextOf(s, 0) else s[0]
  {
    var t := Without(s, k);
    forall i | 0 <= i < |t|
      ensures t[i] != s[k]
    {
      DistinctAt(s, if i < k then i else i + 1, k);
    }
    forall i, j | 0 <= i < j < |t|
      ensures t[i] != t[j]
    {
      DistinctAt(s, if i < k then i else i + 1, if j < k then j else j + 1);
    }
  }

  lemma UpdatedDistinct(s: seq<Item>, k: nat, item: Item)
    requires Distinct(s) && k < |s| && item !in s
    ensures Distinct(s[k := item])
  {
    var t := s[k := item];
    forall i, j | 0 <= i < j < |t|
      ensures t[i] != t[j]
    {
      if i != k && j != k {
        DistinctAt(s, i, j);
      }
    }
  }

  /** The item linked before place k. */
  lemma HeadPrev(s: seq<Item>, k: nat)
    requires Distinct(s) && k < |s|
    ensures k > 0 ==> s[k] != s[0] && PrevOf(s, k) == s[k - 1]
    ensures k == 0 ==> PrevOf(s, k) == s[|s| - 1]
  {
    if k > 0 {
      DistinctAt(s, 0, k);
    }
  }

  /** The neighbours in the list with an item inserted before place k. */
  lemma InsertedAt(s: seq<Item>, k: nat, item: Item, i: nat)
    requires k < |s| && i <= |s|
    ensures |Inserted(s, k, item)| == |s| + 1
    ensures i < k ==> Inserted(s, k, item)[i] == s[i]
    ensures i > k ==> Inserted(s, k, item)[i] == s[i - 1]
    ensures Inserted(s, k, item)[k] == item
    ensures NextOf(Inserted(s, k, item), i) == if i + 1 == k then item else if i < k then NextOf(s, i)
            else if i == k then s[k] else NextOf(s, i - 1)
    ensures PrevOf(Inserted(s, k, item), i) == if i == k + 1 then item else if i <= k then PrevOf(s, i)
            else PrevOf(s, i - 1)
  {
  }

  /** The neighbours in the list with an item added at the end. */
  lemma AddedAt(s: seq<Item>, item: Item, i: nat)
    requires Distinct(s) && i <= |s|
    ensures NextOf(s + [item], i) == if i == |s| then null else if i == |s| - 1 then item else NextOf(s, i)
    ensures PrevOf(s + [item], i) == if i == 0 then item else if i == |s| then s[i - 1] else PrevOf(s, i)
    ensures i < |s| ==> (s[i] == s[0] <==> i == 0) && (s[i] == s[|s| - 1] <==> i == |s| - 1)
    ensures |s| > 0 ==> PrevOf(s, 0) == s[|s| - 1]
  {
    if i < |s| {
      if i > 0 { DistinctAt(s, 0, i); }
      if i < |s| - 1 { DistinctAt(s, i, |s| - 1); }
    }
  }

  // ---- adding

  /** add_item_to_array. suffix_object leaves the added item's own next as it was. */
  method AddItemToArray(parent: Item, item: Item) returns (ok: bool)
    requires parent.ListOk() && item !in parent.kids
    modifies parent, item, Nodes(parent.kids)
    ensures ok <==> parent != item
    ensures parent.kids == if ok then old(parent.kids) + [item] else old(parent.kids)
    ensures !ok ==> parent.ListOk()
    ensures ok ==> (parent.ListOk() <==> old(parent.kids) == [] || old(item.next) == null)
  {
    if parent == item {
      return false;
    }
    hide Chained, Distinct, Inserted, NextOf, PrevOf;
    ghost var s := parent.kids;
    LinksOf(s);
    AppendedDistinct(s, item);
    AddedAt(s, item, 0);
    var child := parent.child;
    if child == null {
      parent.child := item;
      item.prev := item;
      item.next := null;
    } else {
      if child.prev != null {
        var tail := child.prev;
        tail.next := item;
        item.prev := tail;
        parent.child.prev := item;
      }
    }
    parent.kids := s + [item];
    ok := true;
    ghost var t := parent.kids;
    AddedAt(s, item, |s|);
    if item.next == null {
      forall i | 0 <= i < |t|
        ensures t[i].next == NextOf(t, i) && t[i].prev == PrevOf(t, i)
      {
        AddedAt(s, item, i);
      }
      FromLinks(t);
    } else if parent.ListOk() {
      LinksOf(t);
    }
  }

  /** cJSON_InsertItemInArray */
  method InsertItemInArray(parent: Item, which: int, newitem: Item) returns (ok: bool)
    requires parent.ListOk() && newitem !in parent.kids && parent != newitem
    modifies parent, newitem, Nodes(parent.kids)
    ensures ok <==> which >= 0
    ensures parent.kids == if which < 0 then old(parent.kids)
                           else if which >= |old(parent.kids)| then old(parent.kids) + [newitem]
                           else Inserted(old(parent.kids), which, newitem)
    ensures parent.ListOk() <==> (0 < |old(parent.kids)| <= which ==> old(newitem.next) == null)
  {
    hide Chained, Distinct, Inserted, NextOf, PrevOf;
    if which < 0 {
      return false;
    }
    var after := GetArrayItem(parent, which);
    if after == null {
      ok := AddItemToArray(parent, newitem);
      return;
    }
    ghost var s := parent.kids;
    LinksOf(s);
    InsertedDistinct(s, which, newitem);
    HeadPrev(s, which);
    newitem.next := after;
    newitem.prev := after.prev;
    after.prev := newitem;
    if after == parent.child {
      parent.child := newitem;
    } else {
      newitem.prev.next := newitem;
    }
    parent.kids := Inserted(s, which, newitem);
    ok := true;
    ghost var t := parent.kids;
    InsertedAt(s, which, newitem, 0);
    forall i | 0 <= i < |t|
      ensures t[i].next == NextOf(t, i) && t[i].prev == PrevOf(t, i)
    {
      InsertedAt(s, which, newitem, i);
      if i != which {
        var j: nat := if i < which then i else i - 1;
        if j != which { DistinctAt(s, j, which); }
        if which > 0 && j != which - 1 { DistinctAt(s, j, which - 1); }
      }
    }
    FromLinks(t);
  }

  // ---- detaching and replacing

  /** The neighbours in the list without place k. */
  lemma WithoutAt(s: seq<Item>, k: nat, i: nat)
    requires k < |s| && i < |s| - 1
    ensures |Without(s, k)| == |s| - 1
    ensures Without(s, k)[i] == if i < k then s[i] else s[i + 1]
    ensures NextOf(Without(s, k), i) == if i + 1 == k then NextOf(s, k) else NextOf(s, if i < k then i else i + 1)
    ensures PrevOf(Without(s, k), i) == if i == k || (i == 0 && k == |s| - 1) then PrevOf(s, k)
            else PrevOf(s, if i < k then i else i + 1)
  {
  }

  /** Who the neighbours of the item at place k are, and that they are others than the items elsewhere. */
  lemma Neighbours(s: seq<Item>, k: nat, i: nat)
    requires Distinct(s) && k < |s| && i < |s|
    ensures s[i] == s[k] <==> i == k
    ensures s[i] == s[0] <==> i == 0
    ensures NextOf(s, k) != null ==> (s[i] == NextOf(s, k) <==> i == k + 1)
    ensures k > 0 ==> (s[i] == PrevOf(s, k) <==> i == k - 1)
    ensures k == 0 ==> (s[i] == PrevOf(s, k) <==> i == |s| - 1)
    ensures NextOf(s, k) == null <==> k == |s| - 1
    ensures PrevOf(s, k) in s && (NextOf(s, k) != null ==> NextOf(s, k) in s)
  {
    if i != k { DistinctAt(s, i, k); }
    if i != 0 { DistinctAt(s, i, 0); }
    if i != k + 1 && k + 1 < |s| { DistinctAt(s, i, k + 1); }
    if k > 0 && i != k - 1 { DistinctAt(s, i, k - 1); }
    if k == 0 && i != |s| - 1 { DistinctAt(s, i, |s| - 1); }
  }

  /** cJSON_DetachItemViaPointer, for a child of the parent */
  method DetachItem(parent: Item, item: Item, ghost k: nat)
    requires parent.ListOk() && k < |parent.kids| && item == parent.kids[k]
    modifies parent, Nodes(parent.kids)
    ensures parent.ListOk() && parent.kids == Without(old(parent.kids), k)
    ensures item.next == null && item.prev == null && item !in parent.kids
  {
    hide Chained, Distinct, Without, NextOf, PrevOf;
    ghost var s := parent.kids;
    LinksOf(s);
    WithoutDistinct(s, k);
    Neighbours(s, k, 0);
    Neighbours(s, k, k);
    if item != parent.child {
      item.prev.next := item.next;
    }
    if item.next != null {
      item.next.prev := item.prev;
    }
    if item == parent.child {
      parent.child := item.next;
    } else if item.next == null {
      parent.child.prev := item.prev;
    }
    item.prev := null;
    item.next := null;
    parent.kids := Without(s, k);
    ghost var t := parent.kids;
    forall i | 0 <= i < |t|
      ensures t[i].next == NextOf(t, i) && t[i].prev == PrevOf(t, i)
    {
      WithoutAt(s, k, i);
      Neighbours(s, k, if i < k then i else i + 1);
    }
    FromLinks(t);
  }

  lemma UpdatedAt(s: seq<Item>, k: nat, item: Item, i: nat)
    requires k < |s| && i < |s|
    ensures NextOf(s[k := item], i) == if i + 1 == k then item else NextOf(s, i)
    ensures PrevOf(s[k := item], i) == if i == k + 1 || (i == 0 && k == |s| - 1) then item else PrevOf(s, i)
  {
  }

  /** cJSON_ReplaceItemViaPointer, for a child of the parent; the old item ends unlinked */
  method ReplaceItem(parent: Item, item: Item, replacement: Item, ghost k: nat) returns (ok: bool)
    requires parent.ListOk() && k < |parent.kids| && item == parent.kids[k] && parent != replacement
    requires replacement == item || replacement !in parent.kids
    modifies parent, replacement, Nodes(parent.kids)
    ensures ok && parent.ListOk() && parent.kids == old(parent.kids)[k := replacement]
    ensures replacement != item ==> item.next == null && item.prev == null && item !in parent.kids
  {
    hide Chained, Distinct, NextOf, PrevOf;
    ghost var s := parent.kids;
    if replacement == item {
      return true;
    }
    LinksOf(s);
    UpdatedDistinct(s, k, replacement);
    Neighbours(s, k, 0);
    Neighbours(s, k, k);
    replacement.next := item.next;
    replacement.prev := item.prev;
    if replacement.next != null {
      replacement.next.prev := replacement;
    }
    if parent.child == item {
      if parent.child.prev == parent.child {
        replacement.prev := replacement;
      }
      parent.child := replacement;
    } else {
      if replacement.prev != null {
        replacement.prev.next := replacement;
      }
      if replacement.next == null {
        parent.child.prev := replacement;
      }
    }
    item.next := null;
    item.prev := null;
    parent.kids := s[k := replacement];
    ghost var t := parent.kids;
    forall i | 0 <= i < |t|
      ensures t[i].next == NextOf(t, i) && t[i].prev == PrevOf(t, i)
    {
      UpdatedAt(s, k, replacement, i);
      Neighbours(s, k, i);
    }
    FromLinks(t);
    assert item !in t by {
      forall i | 0 <= i < |t|
        ensures t[i] != item
      {
        Neighbours(s, k, i);
      }
    }
    ok := true;
  }

  /** cJSON_DetachItemFromArray */
  method DetachItemFromArray(parent: Item, which: int) returns (item: Item?)
    requires parent.ListOk()
    modifies parent, Nodes(parent.kids)
    ensures parent.ListOk()
    ensures 0 <= which < |old(parent.kids)| ==>
              item == old(parent.kids)[which] && parent.kids == Without(old(parent.kids), which) && item.next == null
                  && item.prev == null
    ensures !(0 <= which < |old(parent.kids)|) ==> item == null && parent.kids == old(parent.kids)
  {
    if which < 0 {
      return null;
    }
    item := GetArrayItem(parent, which);
    if item != null {
      DetachItem(parent, item, which);
    }
  }

  /** cJSON_ReplaceItemInArray */
  method ReplaceItemInArray(parent: Item, which: int, newitem: Item) returns (ok: bool)
    requires parent.ListOk() && parent != newitem && newitem !in parent.kids
    modifies parent, newitem, Nodes(parent.kids)
    ensures parent.ListOk() && (ok <==> 0 <= which < |old(parent.kids)|)
    ensures parent.kids == if ok then old(parent.kids)[which := newitem] else old(parent.kids)
  {
    if which < 0 {
      return false;
    }
    var item := GetArrayItem(parent, which);
    if item == null {
      return false;
    }
    ok := ReplaceItem(parent, item, newitem, which);
  }

  // ---- duplicating

  /** The value below an item: the item without its links, and its children. */
  datatype Json = Node(data: Data, kids: seq<Json>)

  /** The copy owns what it points to. */
  ghost function Owned(j: Json): Json {
    Node(j.data.(reference := false), seq(|j.kids|, i requires 0 <= i < |j.kids| => Owned(j.kids[i])))
  }

  /** The items below `item` form the tree `j`; how `item` itself is linked to its siblings is left open. */
  ghost predicate Tree(item: Item, j: Json)
    reads item`data, item`child, item`kids, item`repr, item.repr - {item}
    decreases j
  {
    && item in item.repr && item.data == j.data
    && |item.kids| == |j.kids|
    && Nodes(item.kids) <= item.repr - {item}
    && item.ListOk()
    && Apart(item.kids)
    && forall i :: 0 <= i < |j.kids| ==> Below(item, i) && Tree(item.kids[i], j.kids[i])
  }

  /** All below child i is below the item. */
  ghost predicate Below(item: Item, i: nat)
    requires i < |item.kids|
    reads item`repr, item`kids, Nodes(item.kids)`repr
  {
    item.kids[i].repr <= item.repr - {item}
  }

  /** No two of the items share anything below them. */
  ghost predicate Apart(s: seq<Item>)
    reads Nodes(s)`repr
  {
    forall i, j :: 0 <= i < j < |s| ==> s[i].repr !! s[j].repr
  }

  /** All items of the given subtrees. */
  ghost function All(s: seq<Item>): set<Item>
    reads Nodes(s)`repr
  {
    set n, m | n in s && m in n.repr :: m
  }

  /** The item before, if there is one. */
  ghost function BackOf(s: seq<Item>, i: nat): Item?
    requires i < |s|
  {
    if i == 0 then null else s[i - 1]
  }

  lemma BackAdded(s: seq<Item>, item: Item, i: nat)
    requires i <= |s|
    ensures BackOf(s + [item], i) == if i < |s| then BackOf(s, i) else if s == [] then null else s[|s| - 1]
  {
  }

  /** next leads to the following item, prev to the one before; the head's prev is null. */
  ghost predicate HalfLinked(s: seq<Item>)
    reads Nodes(s)`next, Nodes(s)`prev
  {
    forall i :: 0 <= i < |s| ==> s[i].next == NextOf(s, i) && s[i].prev == BackOf(s, i)
  }

  /** The items are the roots of separate trees. */
  ghost predicate Forest(s: seq<Item>, js: seq<Json>)
    requires |s| <= |js|
    reads Nodes(s)`data, Nodes(s)`child, Nodes(s)`kids, Nodes(s)`repr, All(s) - Nodes(s)
  {
    && (forall i :: 0 <= i < |s| ==> s[i] in s[i].repr)
    && Apart(s)
    && forall i :: 0 <= i < |s| ==> Tree(s[i], js[i])
  }

  /** The links of a list of copies before the head's prev is set. */
  lemma HalfLinksOf(s: seq<Item>)
    requires HalfLinked(s)
    ensures forall i :: 0 <= i < |s| ==> s[i].next == NextOf(s, i) && s[i].prev == BackOf(s, i)
  {
  }

  lemma FromHalfLinks(s: seq<Item>)
    requires forall i :: 0 <= i < |s| ==> s[i].next == NextOf(s, i) && s[i].prev == BackOf(s, i)
    ensures HalfLinked(s)
  {
  }

  lemma TreeKids(item: Item, j: Json, i: nat)
    requires Tree(item, j)
    ensures item.child == (if |item.kids| == 0 then null else item.kids[0]) && |item.kids| == |j.kids|
    ensures i < |item.kids| ==>
              Tree(item.kids[i], j.kids[i]) && item.kids[i].next == if i + 1 < |item.kids| then item.kids[i + 1]
              else null
  {
    if i < |item.kids| {
      assert Below(item, i);
      assert Linked(item.kids, i);
    }
  }

  lemma TreeOf(item: Item, j: Json)
    requires item.data == j.data && |item.kids| == |j.kids|
    requires item.child == Head(item.kids) && Chained(item.kids)
    requires Forest(item.kids, j.kids) && item.repr == {item} + All(item.kids) && item !in All(item.kids)
    ensures Tree(item, j)
  {
    hide Chained;
    forall i | 0 <= i < |j.kids|
      ensures Below(item, i) && Tree(item.kids[i], j.kids[i])
    {
    }
  }

  /** An item is the root of one value only. */
  lemma {:induction false} TreeUnique(item: Item, j: Json, other: Json)
    requires Tree(item, j) && Tree(item, other)
    ensures j == other
  {
    forall i | 0 <= i < |j.kids|
      ensures j.kids[i] == other.kids[i]
    {
      TreeUnique(item.kids[i], j.kids[i], other.kids[i]);
    }
  }

  lemma Root(item: Item, j: Json)
    requires Tree(item, j)
    ensures item in item.repr
  {
  }

  lemma NodesBelow(s: seq<Item>, js: seq<Json>)
    requires |s| <= |js| && Forest(s, js)
    ensures Nodes(s) <= All(s)
  {
    hide Tree, Apart;
  }

  lemma ForestGrows(s: seq<Item>, js: seq<Json>, n: Item)
    requires |s| < |js| && Forest(s, js) && Tree(n, js[|s|]) && n.repr !! All(s)
    ensures Forest(s + [n], js) && All(s + [n]) == All(s) + n.repr && n !in s
  {
    Root(n, js[|s|]);
    NodesBelow(s, js);
    hide Tree;
    var t := s + [n];
    forall i, k | 0 <= i < k < |t|
      ensures t[i].repr !! t[k].repr
    {
      if k == |s| {
        assert s[i].repr <= All(s);
      }
    }
    assert All(t) == All(s) + n.repr by {
      forall m | m in n.repr
        ensures m in All(t)
      {
        assert t[|s|] == n;
      }
      forall m | m in All(s)
        ensures m in All(t)
      {
        var q: Item :| q in s && m in q.repr;
        assert q in t;
      }
    }
  }

  lemma AllocatedBelow(s: seq<Item>)
    ensures forall n :: n in All(s) ==> allocated(n)
    ensures forall n :: n in Nodes(s) ==> allocated(n)
  {
  }

  /** After some copied children: `next` is the last of them, and the first one's prev is still null. */
  ghost predicate Copied(copy: Item, next: Item?, c: seq<Item>, js: seq<Json>)
    requires |c| <= |js|
    reads copy, Nodes(c), All(c)
  {
    && Forest(c, js) && HalfLinked(c) && Distinct(c)
    && next == (if c == [] then null else c[|c| - 1]) && copy.child == Head(c) && copy !in All(c)
  }

  lemma CopiedNodes(copy: Item, next: Item?, c: seq<Item>, js: seq<Json>)
    requires |c| <= |js| && Copied(copy, next, c, js)
    ensures Nodes(c) <= All(c) && copy !in All(c)
  {
    NodesBelow(c, js);
  }

  /** The loop body of cJSON_Duplicate: a copied child goes after the one before, or becomes the first. */
  method LinkCopy(copy: Item, next: Item?, newchild: Item, ghost c: seq<Item>, ghost js: seq<Json>)
    requires |c| < |js| && Copied(copy, next, c, js) && Tree(newchild, js[|c|])
    requires newchild.repr !! {copy} + All(c) && newchild.next == null && newchild.prev == null
    modifies copy`child, newchild`prev, Nodes(c)`next
    ensures Copied(copy, newchild, c + [newchild], js)
    ensures All(c + [newchild]) == old(All(c)) + newchild.repr
  {
    hide Tree, Forest, HalfLinked, Distinct, NextOf, PrevOf, BackOf, All;
    ForestGrows(c, js, newchild);
    HalfLinksOf(c);
    AppendedDistinct(c, newchild);
    var t := c + [newchild];
    NodesBelow(t, js);
    NodesBelow(c, js);
    AddedAt(c, newchild, |c|);
    if next != null {
      assert next in Nodes(c);
      next.next := newchild;
      newchild.prev := next;
    } else {
      copy.child := newchild;
    }
    forall i | 0 <= i < |t|
      ensures t[i].next == NextOf(t, i) && t[i].prev == BackOf(t, i)
    {
      AddedAt(c, newchild, i);
      BackAdded(c, newchild, i);
      if i < |c| {
        assert c[i] in c && t[i] == c[i];
      }
    }
    FromHalfLinks(t);
  }

  lemma OwnedKid(j: Json, i: nat)
    requires i < |j.kids|
    ensures |Owned(j).kids| == |j.kids| && Owned(j).kids[i] == Owned(j.kids[i])
  {
  }

  lemma PrevIs(s: seq<Item>, i: nat)
    requires i < |s|
    ensures PrevOf(s, i) == if i == 0 then s[|s| - 1] else BackOf(s, i)
  {
  }

  /** The end of cJSON_Duplicate: the first copied child's prev becomes the last one. */
  method CloseCopy(copy: Item, newchild: Item?, ghost c: seq<Item>, ghost j: Json)
    requires |c| == |j.kids| && Copied(copy, newchild, c, j.kids) && copy.data == j.data
    modifies copy`kids, copy`repr, Nodes(c)`prev
    ensures Tree(copy, j) && copy.repr == {copy} + old(All(c))
  {
    hide Tree, Forest, HalfLinked, Chained, Distinct, NextOf, PrevOf, BackOf, Apart, All;
    NodesBelow(c, j.kids);
    copy.kids := c;
    copy.repr := {copy} + All(c);
    HalfLinksOf(c);
    if copy.child != null {
      assert copy.child in Nodes(c);
      copy.child.prev := newchild;
    }
    forall i | 0 <= i < |c|
      ensures c[i].next == NextOf(c, i) && c[i].prev == PrevOf(c, i)
    {
      Neighbours(c, 0, i);
      PrevIs(c, i);
    }
    FromLinks(c);
    TreeOf(copy, j);
  }

  /** cJSON_Duplicate */
  method Duplicate(item: Item, recurse: bool, ghost j: Json) returns (copy: Item)
    requires Tree(item, j)
    ensures fresh(copy.repr) && copy.next == null && copy.prev == null
    ensures Tree(copy, if recurse then Owned(j) else Node(Owned(j).data, []))
    decreases j
  {
    hide Copied, Tree, Forest, HalfLinked, Chained, Distinct, NextOf, PrevOf, Apart, All, Owned, Below, Linked;
    copy := new Item(item.data.(reference := false));
    Start(copy, item, j);
    if !recurse {
      return;
    }
    var child := item.child;
    var next: Item? := null;
    var newchild: Item? := null;
    ghost var c: seq<Item> := [];
    ghost var js := Owned(j).kids;
    ghost var from := item.kids;
    assert forall n :: n in from ==> old(allocated(n));
    TreeKids(item, j, 0);
    while child != null
      invariant |c| <= |item.kids| && child == if |c| < |item.kids| then item.kids[|c|] else null
      invariant Tree(item, j) && item.kids == from
      invariant Copied(copy, next, c, js) && next == newchild
      invariant copy.next == null && copy.prev == null && copy.data == Owned(j).data
      invariant fresh(copy) && fresh(All(c))
      decreases |item.kids| - |c|
    {
      TreeKids(item, j, |c|);
      AllocatedBelow(c);
      CopiedNodes(copy, next, c, js);
      newchild := Duplicate(child, true, j.kids[|c|]);
      OwnedKid(j, |c|);
      Root(newchild, js[|c|]);
      LinkCopy(copy, next, newchild, c, js);
      next := newchild;
      c := c + [newchild];
      assert child in from;
      child := child.next;
      TreeKids(item, j, |c|);
    }
    CopiedNodes(copy, next, c, js);
    CloseCopy(copy, newchild, c, Owned(j));
  }

  lemma Start(copy: Item, item: Item, j: Json)
    requires Tree(item, j) && copy.data == item.data.(reference := false) && copy.kids == [] && copy.child == null
             && copy.repr == {copy}
    ensures copy.data == Owned(j).data && |Owned(j).kids| == |item.kids|
    ensures Tree(copy, Node(Owned(j).data, []))
    ensures All([]) == {} && Copied(copy, null, [], Owned(j).kids)
  {
  }
}
