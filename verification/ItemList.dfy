/**
 The item list of the list view: a chain of items linked by their own pointers, with a
 count kept beside it.
 */
module ItemList {

  class Item {
    var next: Item?

    constructor ()
      ensures next == null
    {
      next := null;
    }
  }

  // ---------------------------------------------------------------------------
  // The same operations on sequences
  // ---------------------------------------------------------------------------

  datatype Op<T> = Append(item: T) | Insert(item: T, index: int) | Remove(item: T) | RemoveAt(index: int)
                 | RemoveRange(index: int, count: int)

  function Inserted<T>(s: seq<T>, k: nat, v: T): (t: seq<T>)
    requires k <= |s|
    ensures |t| == |s| + 1
  {
    s[..k] + [v] + s[k..]
  }

  function Without<T>(s: seq<T>, k: int): seq<T> {
    if 0 <= k < |s| then s[..k] + s[k + 1..] else s
  }

  function IndexOf<T(==)>(s: seq<T>, x: T): (k: int)
    ensures k < |s|
    ensures k >= 0 ==> s[k] == x && x !in s[..k]
    ensures k < 0 ==> x !in s
  {
    if s == [] then -1
    else if s[0] == x then 0
    else
      var k := IndexOf(s[1..], x);
      if k < 0 then -1 else k + 1
  }

  /** What of a range lies in the list. */
  function InList(length: nat, index: int, count: int): (n: nat)
    ensures 0 < n ==> 0 <= index && index + n <= length
  {
    if index < 0 || index >= length || count <= 0 then 0
    else if count < length - index then count
    else length - index
  }

  function Cut<T>(s: seq<T>, index: int, count: int): seq<T> {
    var n := InList(|s|, index, count);
    if n == 0 then s else s[..index] + s[index + n..]
  }

  /** The list after an operation. */
  function Act<T(==)>(s: seq<T>, op: Op<T>): seq<T> {
    match op
    case Append(x) => s + [x]
    case Insert(x, k) => if 0 <= k <= |s| then Inserted(s, k, x) else s
    case Remove(x) => Without(s, IndexOf(s, x))
    case RemoveAt(k) => Without(s, k)
    case RemoveRange(k, n) => Cut(s, k, n)
  }

  /** No item is added that is in the list already. */
  predicate Allowed<T(==)>(s: seq<T>, op: Op<T>) {
    match op
    case Append(x) => x !in s
    case Insert(x, k) => x !in s || !(0 <= k <= |s|)
    case _ => true
  }

  function After<T(==)>(s: seq<T>, ops: seq<Op<T>>): seq<T> {
    if ops == [] then s else Act(After(s, ops[..|ops| - 1]), ops[|ops| - 1])
  }

  predicate AllAllowed<T(==)>(s: seq<T>, ops: seq<Op<T>>) {
    ops == [] || (AllAllowed(s, ops[..|ops| - 1]) && Allowed(After(s, ops[..|ops| - 1]), ops[|ops| - 1]))
  }

  lemma {:induction false} PrefixAllowed<T>(s: seq<T>, ops: seq<Op<T>>, i: nat)
    requires AllAllowed(s, ops) && i <= |ops|
    ensures AllAllowed(s, ops[..i])
  {
    if i < |ops| {
      PrefixAllowed(s, ops[..|ops| - 1], i);
      assert ops[..|ops| - 1][..i] == ops[..i];
    } else {
      assert ops[..i] == ops;
    }
  }

  /** The item an operation adds. */
  ghost function Mentioned<T>(op: Op<T>): set<T> {
    match op
    case Append(x) => {x}
    case Insert(x, _) => {x}
    case _ => {}
  }

  lemma {:induction false} ActMembers<T>(s: seq<T>, op: Op<T>)
    ensures forall x <- Act(s, op) :: x in s || x in Mentioned(op)
  {
    hide IndexOf;
  }

  ghost predicate Distinct<T>(s: seq<T>) {
    forall i, j :: 0 <= i < j < |s| ==> s[i] != s[j]
  }

  /** x comes before y. */
  ghost predicate Precedes<T(!new)>(s: seq<T>, x: T, y: T) {
    exists i, j :: 0 <= i < j < |s| && s[i] == x && s[j] == y
  }

  /** Items that stay in the list keep their order. */
  ghost predicate OrderKept<T(!new)>(s: seq<T>, t: seq<T>) {
    forall x, y :: x in s && y in s && x in t && y in t && Precedes(t, x, y) ==> Precedes(s, x, y)
  }

  lemma {:induction false} DistinctAfterChange<T>(s: seq<T>, a: nat, b: nat, v: T)
    requires Distinct(s) && a <= b <= |s|
    ensures Distinct(s[..a] + s[b..])
    ensures v !in s ==> Distinct(s[..a] + [v] + s[a..])
  {
    var t := s[..a] + [v] + s[a..];
    assert t[a] == v;
    assert forall i :: 0 <= i < |t| && i != a ==> t[i] == s[if i < a then i else i - 1];
  }

  lemma {:induction false} CutIsDistinct<T(!new)>(s: seq<T>, a: nat, b: nat)
    requires Distinct(s) && a <= b <= |s|
    ensures Distinct(s[..a] + s[b..]) && OrderKept(s, s[..a] + s[b..])
  {
    var t := s[..a] + s[b..];
    assert forall i :: 0 <= i < |t| ==> t[i] == s[if i < a then i else i + (b - a)];
    forall x, y | x in s && y in s && x in t && y in t && Precedes(t, x, y) ensures Precedes(s, x, y) {
      var i, j :| 0 <= i < j < |t| && t[i] == x && t[j] == y;
      var i', j' := if i < a then i else i + (b - a), if j < a then j else j + (b - a);
      assert s[i'] == x && s[j'] == y;
    }
  }

  lemma {:induction false} InsertionIsDistinct<T(!new)>(s: seq<T>, k: nat, v: T)
    requires Distinct(s) && k <= |s| && v !in s
    ensures Distinct(s[..k] + [v] + s[k..]) && OrderKept(s, s[..k] + [v] + s[k..])
  {
    var t := s[..k] + [v] + s[k..];
    assert t[k] == v;
    assert forall i :: 0 <= i < |t| && i != k ==> t[i] == s[if i < k then i else i - 1];
    forall x, y | x in s && y in s && x in t && y in t && Precedes(t, x, y) ensures Precedes(s, x, y) {
      var i, j :| 0 <= i < j < |t| && t[i] == x && t[j] == y;
      var i', j' := if i < k then i else i - 1, if j < k then j else j - 1;
      assert s[i'] == x && s[j'] == y;
    }
  }

  lemma {:induction false} CutKeepsOrder<T(!new)>(s: seq<T>, k: int, n: int)
    requires Distinct(s)
    ensures Distinct(Cut(s, k, n)) && OrderKept(s, Cut(s, k, n))
  {
    hide Distinct, OrderKept;
    assert s[..|s|] + s[|s|..] == s;
    CutIsDistinct(s, |s|, |s|);
    var m := InList(|s|, k, n);
    if m > 0 { CutIsDistinct(s, k, k + m); }
  }

  lemma {:induction false} WithoutIsCut<T>(s: seq<T>, k: int)
    ensures Without(s, k) == Cut(s, k, 1)
  {
  }

  /** Cutting one at a time from the same index cuts a range. */
  lemma {:induction false} CutStep<T>(s: seq<T>, k: int, n: nat)
    ensures Without(Cut(s, k, n), k) == Cut(s, k, n + 1)
    ensures 0 <= k < |Cut(s, k, n)| ==> InList(|s|, k, n + 1) == n + 1
    ensures !(0 <= k < |Cut(s, k, n)|) ==> Cut(s, k, n + 1) == Cut(s, k, n) && InList(|s|, k, n + 1) <= n
    ensures !(0 <= k < |Cut(s, k, n)|) ==> forall m :: m > n ==> Cut(s, k, m) == Cut(s, k, n) && InList(|s|, k, m) <= n
  {
  }

  /** t is s with x at place k, and what was there and behind it one place further. */
  ghost predicate Grown<T(!new)>(s: seq<T>, k: nat, x: T, t: seq<T>)
    requires k <= |s|
  {
    && |t| == |s| + 1 && t[k] == x
    && (forall i :: 0 <= i < k ==> t[i] == s[i]) && (forall i :: k < i < |t| ==> t[i] == s[i - 1])
  }

  /** t is s without the n places from k on. */
  ghost predicate Shrunk<T(!new)>(s: seq<T>, k: nat, n: nat, t: seq<T>)
    requires k + n <= |s|
  {
    && |t| == |s| - n
    && (forall i :: 0 <= i < k ==> t[i] == s[i]) && (forall i :: k <= i < |t| ==> t[i] == s[i + n])
  }

  /** Place by place: what the list holds after an operation. */
  lemma {:induction false} PlacesAfter<T(!new)>(s: seq<T>, op: Op<T>)
    ensures var t := Act(s, op);
            match op
            case Append(x) => Grown(s, |s|, x, t)
            case Insert(x, k) => if 0 <= k <= |s| then Grown(s, k, x, t) else t == s
            case Remove(x) =>
              if x in s then multiset(t) == multiset(s) - multiset{x} && |t| == |s| - 1 else t == s
            case RemoveAt(k) => if 0 <= k < |s| then Shrunk(s, k, 1, t) else t == s
            case RemoveRange(k, n) =>
              if 0 <= k < |s| && n > 0 then Shrunk(s, k, if n < |s| - k then n else |s| - k, t) else t == s
  {
    match op
    case Append(x) => AppendedPlaces(s, x);
    case Insert(x, k) => if 0 <= k <= |s| { InsertedPlaces(s, k, x); }
    case Remove(x) => RemovedFrom(s, x);
    case RemoveAt(k) => RemovedPlaces(s, k);
    case RemoveRange(k, n) => CutAt(s, k, n);
    hide Grown, Shrunk, Inserted, Without, Cut, IndexOf;
  }

  lemma {:induction false} AppendedPlaces<T(!new)>(s: seq<T>, x: T)
    ensures Grown(s, |s|, x, s + [x])
  {
  }

  lemma {:induction false} InsertedPlaces<T(!new)>(s: seq<T>, k: nat, x: T)
    requires k <= |s|
    ensures Grown(s, k, x, Inserted(s, k, x))
  {
  }

  lemma {:induction false} RemovedPlaces<T(!new)>(s: seq<T>, k: int)
    ensures if 0 <= k < |s| then Shrunk(s, k, 1, Without(s, k)) else Without(s, k) == s
  {
  }

  lemma {:induction false} RemovedFrom<T>(s: seq<T>, x: T)
    ensures var t := Act(s, Remove(x));
            if x in s then multiset(t) == multiset(s) - multiset{x} && |t| == |s| - 1 else t == s
  {
    var k := IndexOf(s, x);
    hide IndexOf;
    if x in s {
      assert s == s[..k] + [s[k]] + s[k + 1..];
    }
  }

  lemma {:induction false} CutAt<T(!new)>(s: seq<T>, k: int, n: int)
    ensures var t := Cut(s, k, n);
            if 0 <= k < |s| && n > 0 then Shrunk(s, k, if n < |s| - k then n else |s| - k, t) else t == s
  {
  }

  /** Removing what was just inserted, by its place or by itself, gives the list back. */
  lemma {:induction false} RemovingUndoesInserting<T>(s: seq<T>, k: nat, x: T)
    requires k <= |s|
    ensures Act(Act(s, Insert(x, k)), RemoveAt(k)) == s
    ensures x !in s ==> Act(Act(s, Insert(x, k)), Remove(x)) == s
  {
    var t := Act(s, Insert(x, k));
    assert t[k] == x && t[..k] == s[..k] && t[k + 1..] == s[k..];
    if x !in s {
      forall i | 0 <= i < |t| && i != k ensures t[i] in s {
        assert t[i] == s[if i < k then i else i - 1];
      }
      assert IndexOf(t, x) == k;
    }
    hide IndexOf;
  }

  /** No operation makes an item appear twice, or changes the order of those that stay. */
  lemma {:induction false} ActKeepsOrder<T(!new)>(s: seq<T>, op: Op<T>)
    requires Distinct(s) && Allowed(s, op)
    ensures Distinct(Act(s, op)) && OrderKept(s, Act(s, op))
  {
    hide OrderKept, Distinct, Cut, Without, IndexOf;
    match op
    case Append(x) =>
      InsertionIsDistinct(s, |s|, x);
      assert s[..|s|] + [x] + s[|s|..] == s + [x];
    case Insert(x, k) =>
      CutKeepsOrder(s, 0, 0);
      NothingCut(s);
      if 0 <= k <= |s| { InsertionIsDistinct(s, k, x); }
    case Remove(x) =>
      WithoutIsCut(s, IndexOf(s, x));
      CutKeepsOrder(s, IndexOf(s, x), 1);
    case RemoveAt(k) =>
      WithoutIsCut(s, k);
      CutKeepsOrder(s, k, 1);
    case RemoveRange(k, n) =>
      CutKeepsOrder(s, k, n);
  }

  lemma {:induction false} CutToNothing<T>(s: seq<T>, k: int)
    ensures Cut(s, k, 0) == s && InList(|s|, k, 0) == 0
    ensures forall n :: n <= 0 ==> Cut(s, k, n) == s && InList(|s|, k, n) == 0
  {
  }

  lemma {:induction false} CutMembers<T>(s: seq<T>, k: int, n: int)
    ensures forall i :: 0 <= i < |Cut(s, k, n)| ==> Cut(s, k, n)[i] in s
  {
  }

  lemma {:induction false} NothingCut<T>(s: seq<T>)
    ensures Cut(s, 0, 0) == s
  {
  }

  lemma {:induction false} RunKeepsDistinct<T(!new)>(s: seq<T>, ops: seq<Op<T>>)
    requires Distinct(s) && AllAllowed(s, ops)
    ensures Distinct(After(s, ops))
  {
    if ops != [] {
      RunKeepsDistinct(s, ops[..|ops| - 1]);
      ActKeepsOrder(After(s, ops[..|ops| - 1]), ops[|ops| - 1]);
    }
  }

  // ---------------------------------------------------------------------------
  // The chain
  // ---------------------------------------------------------------------------

  /** Element k, or null past the end. */
  ghost function At(s: seq<Item>, k: nat): Item? {
    if k < |s| then s[k] else null
  }

  ghost predicate Chained(s: seq<Item>)
    reads s
  {
    forall k: nat :: k < |s| ==> s[k].next == At(s, k + 1)
  }

  lemma {:induction false} PlacesAreItems(s: seq<Item>)
    ensures forall j: nat :: At(s, j) == null || At(s, j) in s
  {
    forall j: nat ensures At(s, j) == null || At(s, j) in s {
      if j < |s| { assert s[j] in s; }
    }
  }

  lemma {:induction false} InsertedFirst(s: seq<Item>, k: nat, v: Item)
    requires 0 < k <= |s|
    ensures At(Inserted(s, k, v), 0) == At(s, 0)
  {
  }

  /** Every place of the longer list, and what follows it. */
  lemma {:induction false} InsertedAt(s: seq<Item>, k: nat, v: Item, j: nat)
    requires 0 < k <= |s| && j <= |s|
    ensures var t := Inserted(s, k, v);
            && t[j] == (if j < k then s[j] else if j == k then v else s[j - 1])
            && At(t, j + 1) == (if j + 1 < k then At(s, j + 1) else if j + 1 == k then v else At(s, j))
  {
  }

  lemma {:induction false} OnlyOneIs(s: seq<Item>, k: nat)
    requires Distinct(s) && k < |s|
    ensures forall j: nat :: j < |s| && j != k ==> s[j] != s[k]
    ensures At(s, 0) == s[0] && s[0] in s
  {
  }

  /** A chain, but for the links of the item at k and of v. */
  ghost predicate ChainedBut(s: seq<Item>, k: nat, v: Item)
    reads s
  {
    forall j: nat :: j < |s| && j != k && s[j] != v ==> s[j].next == At(s, j + 1)
  }

  /** What was linked in behind place k of a chain is part of the chain. */
  lemma {:induction false} LinkedChain(was: seq<Item>, k: nat, v: Item)
    requires Distinct(was) && v !in was && k < |was| && was[k].next == v && v.next == At(was, k + 1)
    requires ChainedBut(was, k, v)
    ensures var now := Inserted(was, k + 1, v);
            Distinct(now) && Chained(now) && At(now, 0) == At(was, 0)
  {
    var now := Inserted(was, k + 1, v);
    DistinctAfterChange(was, k + 1, k + 1, v);
    InsertedFirst(was, k + 1, v);
    hide Distinct, At;
    forall j: nat | j < |now| ensures now[j].next == At(now, j + 1) {
      InsertedAt(was, k + 1, v, j);
    }
  }

  /** If it was in the list, nothing new can be reached. */
  lemma {:induction false} LinkedTrap(was: seq<Item>, k: nat, v: Item)
    requires v in was && k < |was| && was[k].next == v && (v != was[k] ==> v.next == At(was, k + 1))
    requires ChainedBut(was, k, v)
    ensures forall i :: 0 <= i < |was| ==> was[i].next == null || was[i].next in was
  {
    PlacesAreItems(was);
    hide At;
    forall i | 0 <= i < |was| ensures was[i].next == null || was[i].next in was {
      assert i == k || was[i] == v || was[i].next == At(was, i + 1);
    }
  }

  class ListView {
    var firstItem: Item?
    var itemCount: int
    ghost var items: seq<Item>

    /** The chain from the first item is s, all of it, and the count is its length. */
    ghost predicate Represents(s: seq<Item>)
      reads this, s
    {
      && itemCount == |s|
      && Distinct(s)
      && firstItem == At(s, 0)
      && Chained(s)
    }

    ghost predicate Valid()
      reads this, items
    {
      Represents(items)
    }

    /** All that can be reached are the items of s, fewer than the count says. */
    ghost predicate Trapped(s: seq<Item>)
      reads this, s
    {
      && itemCount > |s| && firstItem in s
      && forall i :: 0 <= i < |s| ==> s[i].next == null || s[i].next in s
    }

    constructor ()
      ensures Valid() && items == []
    {
      firstItem, itemCount, items := null, 0, [];
    }

    /** Lookup by index. */
    method GetItemAt(nIndex: int) returns (r: Item?)
      requires Valid()
      ensures r == if 0 <= nIndex < |items| then items[nIndex] else null
    {
      if nIndex >= 0 {
        var left := nIndex;
        var pcItem := firstItem;
        ghost var k: nat := 0;
        while pcItem != null
          invariant 0 <= k <= |items| && left == nIndex - k >= 0
          invariant pcItem == At(items, k)
          decreases |items| - k
        {
          if left == 0 {
            return pcItem;
          }
          left := left - 1;
          pcItem := pcItem.next;
          k := k + 1;
        }
      }
      return null;
    }

    method LastItem() returns (last: Item?)
      requires Valid()
      ensures last == if items == [] then null else items[|items| - 1]
    {
      last := firstItem;
      if last != null {
        ghost var k: nat := 0;
        assert items[k].next == At(items, k + 1);
        while last.next != null
          invariant 0 <= k < |items| && last == items[k] && items[k].next == At(items, k + 1)
          decreases |items| - k
        {
          last := last.next;
          k := k + 1;
        }
      }
    }

    /** Appends, after walking to the last item.  An item that is in the list already loses the
        items behind it, and the list its shape. */
    method AddItem(pcItem: Item)
      requires Valid()
      modifies this, items, pcItem
      ensures pcItem !in old(items) ==> Valid() && items == Act(old(items), Append(pcItem))
      ensures pcItem in old(items) ==> Trapped(old(items))
    {
      ghost var was := items;
      var pcPrev := LastItem();
      assert forall j: nat :: j < |was| ==> was[j].next == At(was, j + 1);
      if pcPrev == null {
        firstItem := pcItem;
      } else {
        pcPrev.next := pcItem;
      }
      pcItem.next := null;
      itemCount := itemCount + 1;
      if pcItem !in was {
        items := was + [pcItem];
        forall j: nat | j < |items| ensures items[j].next == At(items, j + 1) {
          if j < |was| - 1 {
            assert items[j] == was[j] && was[j] != was[|was| - 1];
          }
        }
      } else {
        forall j | 0 <= j < |was| ensures was[j].next == null || was[j].next in was {
          assert was[j].next == null || was[j].next == pcItem || was[j].next == At(was, j + 1);
        }
      }
    }

    /** Links an item in behind the one at k of the chain s. */
    method LinkBehind(prev: Item, pcItem: Item, ghost s: seq<Item>, ghost k: nat)
      requires Chained(s) && Distinct(s) && k < |s| && prev == s[k]
      modifies this`itemCount, prev, pcItem
      ensures itemCount == old(itemCount) + 1 && prev.next == pcItem
      ensures pcItem != prev ==> pcItem.next == At(s, k + 1)
      ensures ChainedBut(s, k, pcItem)
    {
      OnlyOneIs(s, k);
      assert prev.next == At(s, k + 1);
      assert forall j: nat :: j < |s| ==> s[j].next == At(s, j + 1);
      hide At, Distinct;
      pcItem.next := prev.next;
      prev.next := pcItem;
      itemCount := itemCount + 1;
    }

    /** Links an item in behind the one at k. */
    method LinkAfter(prev: Item, pcItem: Item, ghost k: nat)
      requires Valid() && k < |items| && prev == items[k]
      modifies this, prev, pcItem
      ensures pcItem !in old(items) ==> Valid() && items == Inserted(old(items), k + 1, pcItem)
      ensures pcItem in old(items) ==> Trapped(old(items))
    {
      ghost var was := items;
      OnlyOneIs(was, k);
      hide At, Distinct, Chained, ChainedBut, Inserted;
      LinkBehind(prev, pcItem, was, k);
      if pcItem !in was {
        LinkedChain(was, k, pcItem);
        items := Inserted(was, k + 1, pcItem);
      } else {
        LinkedTrap(was, k, pcItem);
      }
    }

    method InsertItem(pcItem: Item, nIndex: int) returns (ok: bool)
      requires Valid()
      modifies this, items, pcItem
      ensures ok <==> 0 <= nIndex <= |old(items)|
      ensures !ok || pcItem !in old(items) ==> Valid() && items == Act(old(items), Insert(pcItem, nIndex))
      ensures ok && pcItem in old(items) ==> Trapped(old(items))
    {
      if nIndex == 0 {
        LinkFirst(pcItem);
        return true;
      }
      var pcPrev := GetItemAt(nIndex - 1);
      if pcPrev != null {
        LinkAfter(pcPrev, pcItem, nIndex - 1);
        return true;
      }
      return false;
    }

    method LinkFirst(pcItem: Item)
      requires Valid()
      modifies this, pcItem
      ensures pcItem !in old(items) ==> Valid() && items == Inserted(old(items), 0, pcItem)
      ensures pcItem in old(items) ==> Trapped(old(items))
    {
      ghost var was := items;
      assert forall j: nat :: j < |was| ==> was[j].next == At(was, j + 1);
      pcItem.next := firstItem;
      firstItem := pcItem;
      itemCount := itemCount + 1;
      if pcItem !in was {
        items := Inserted(was, 0, pcItem);
        forall j: nat | j < |items| ensures items[j].next == At(items, j + 1) {
          if j > 0 {
            assert items[j] == was[j - 1];
          }
        }
      } else {
        forall j | 0 <= j < |was| ensures was[j].next == null || was[j].next in was {
          assert was[j].next == At(was, 0) || was[j].next == At(was, j + 1);
        }
      }
    }

    /** Unlinks the item after prev, or the first when prev is null. */
    method Unlink(prev: Item?, ghost k: nat)
      requires Valid() && k < |items| && prev == (if k == 0 then null else items[k - 1])
      modifies this, items
      ensures Valid() && items == Without(old(items), k)
    {
      ghost var was := items;
      DistinctAfterChange(was, k, k + 1, was[k]);
      assert forall j: nat :: j < |was| && j != k - 1 ==> was[j] != prev;
      hide Distinct;
      assert was[k].next == At(was, k + 1);
      if prev == null {
        firstItem := firstItem.next;
      } else {
        assert prev.next == At(was, k);
        prev.next := prev.next.next;
      }
      itemCount := itemCount - 1;
      items := was[..k] + was[k + 1..];
      forall j: nat | j < |items| ensures items[j].next == At(items, j + 1) {
        if j >= k {
          assert items[j] == was[j + 1] && was[j + 1].next == At(was, j + 2);
        } else if j + 1 < k {
          assert items[j] == was[j] && was[j].next == At(was, j + 1);
        }
      }
    }

    /** Removal by pointer: the walk keeps the link that leads to the item. */
    method RemoveItem(pcItem: Item) returns (ok: bool)
      requires Valid()
      modifies this, items
      ensures Valid() && items == Act(old(items), Remove(pcItem)) && (ok <==> pcItem in old(items))
    {
      var prev: Item?, cur := null, firstItem;
      ghost var k: nat := 0;
      while cur != null
        invariant 0 <= k <= |items| && pcItem !in items[..k]
        invariant cur == At(items, k)
        invariant prev == (if k == 0 then null else items[k - 1])
        decreases |items| - k
      {
        if cur == pcItem {
          assert IndexOf(items, pcItem) == k;
          Unlink(prev, k);
          return true;
        }
        prev, cur := cur, cur.next;
        k := k + 1;
      }
      assert items[..k] == items;
      return false;
    }

    method RemoveItemAt(nIndex: int) returns (r: Item?)
      requires Valid()
      modifies this, items
      ensures Valid() && items == Act(old(items), RemoveAt(nIndex))
      ensures r == if 0 <= nIndex < |old(items)| then old(items)[nIndex] else null
    {
      if nIndex == 0 {
        r := firstItem;
        if r != null {
          Unlink(null, 0);
        }
        return;
      }
      var pcPrev := GetItemAt(nIndex - 1);
      r := null;
      if pcPrev != null {
        r := pcPrev.next;
        if r != null {
          Unlink(pcPrev, nIndex);
        }
      }
    }

    /** Removes up to nCount items; false when the list ends before that. */
    method RemoveItems(nIndex: int, nCount: int) returns (ok: bool)
      requires Valid()
      modifies this, items
      ensures Valid() && items == Act(old(items), RemoveRange(nIndex, nCount))
      ensures ok <==> nCount <= InList(|old(items)|, nIndex, nCount)
    {
      var i := 0;
      ghost var was := items;
      hide Cut, Without, InList, ListView.Valid;
      CutToNothing(was, nIndex);
      while i < nCount
        invariant 0 <= i && (i <= nCount || i == 0) && i == InList(|was|, nIndex, i)
        invariant Valid() && items == Cut(was, nIndex, i)
        decreases nCount - i
      {
        CutStep(was, nIndex, i);
        CutMembers(was, nIndex, i);
        var r := RemoveItemAt(nIndex);
        if r == null {
          return false;
        }
        i := i + 1;
      }
      return true;
    }

    /** One operation; adding an item that is in the list already spoils the list. */
    method Perform(op: Op<Item>, ghost universe: set<Item>)
      requires Valid() && (forall x <- items :: x in universe) && Mentioned(op) <= universe
      modifies this, universe
      ensures Allowed(old(items), op) ==> Valid() && items == Act(old(items), op)
      ensures !Allowed(old(items), op) ==> Trapped(old(items))
    {
      var ok, r;
      match op
      case Append(x) => AddItem(x);
      case Insert(x, k) => ok := InsertItem(x, k);
      case Remove(x) => ok := RemoveItem(x);
      case RemoveAt(k) => r := RemoveItemAt(k);
      case RemoveRange(k, n) => ok := RemoveItems(k, n);
    }

    /** Any operations, up to and with the first that spoils the list, do to the chain what
        they do to the sequence; that first one spoils it for good. */
    method Run(ops: seq<Op<Item>>, ghost universe: set<Item>)
      requires Valid() && forall x <- items :: x in universe
      requires forall op <- ops :: Mentioned(op) <= universe
      requires ops == [] || AllAllowed(items, ops[..|ops| - 1])
      modifies this, universe
      ensures AllAllowed(old(items), ops) ==> Valid() && items == After(old(items), ops)
      ensures !AllAllowed(old(items), ops) ==> Trapped(After(old(items), ops[..|ops| - 1]))
    {
      if ops == [] { return; }
      RunAllowed(ops[..|ops| - 1], universe);
      Perform(ops[|ops| - 1], universe);
    }

    method RunAllowed(ops: seq<Op<Item>>, ghost universe: set<Item>)
      requires Valid() && AllAllowed(items, ops) && forall x <- items :: x in universe
      requires forall op <- ops :: Mentioned(op) <= universe
      modifies this, universe
      ensures Valid() && items == After(old(items), ops) && forall x <- items :: x in universe
    {
      ghost var was := items;
      hide Act, Valid, Allowed, Mentioned;
      for i := 0 to |ops|
        invariant Valid() && items == After(was, ops[..i]) && forall x <- items :: x in universe
      {
        PrefixAllowed(was, ops, i + 1);
        assert ops[..i + 1][..i] == ops[..i];
        ActMembers(items, ops[i]);
        Perform(ops[i], universe);
      }
      assert ops[..|ops|] == ops;
    }
  }

  // ---------------------------------------------------------------------------
  // Adding an item twice
  // ---------------------------------------------------------------------------

  lemma {:induction false} NoMoreDistinct<T>(s: seq<T>, t: seq<T>)
    requires Distinct(s) && forall i :: 0 <= i < |s| ==> s[i] in t
    ensures |s| <= |t|
  {
    if s != [] {
      var n := |s| - 1;
      var k :| 0 <= k < |t| && t[k] == s[n];
      var u := t[..k] + t[k + 1..];
      forall i | 0 <= i < n ensures s[i] in u {
        var j :| 0 <= j < |t| && t[j] == s[i];
        assert u[if j < k then j else j - 1] == s[i];
      }
      NoMoreDistinct(s[..n], u);
    }
  }

  lemma {:induction false} StaysTrapped(list: ListView, was: seq<Item>, s: seq<Item>, k: nat)
    requires list.Trapped(was) && list.Represents(s) && k < |s|
    ensures s[k] in was
  {
    if k > 0 {
      StaysTrapped(list, was, s, k - 1);
      assert s[k - 1].next == At(s, k);
    }
  }

  /** A trapped list is no list any more: no chain has as many items as its count says. */
  lemma {:induction false} TrappedIsNoList(list: ListView, was: seq<Item>, s: seq<Item>)
    requires list.Trapped(was)
    ensures !list.Represents(s)
  {
    if list.Represents(s) {
      forall i | 0 <= i < |s| ensures s[i] in was {
        StaysTrapped(list, was, s, i);
      }
      NoMoreDistinct(s, was);
      assert false;
    }
  }
}
