// vma.c: the areas of a process in a search tree keyed by their start. Keys change in place while
// the nodes stay linked, so the tree holds references to the areas.

module VmaTrees {
  import opened Sequences
  import opened Regions

  class VmArea {
    var start: nat
    var end: nat
    var file: Option<File>  // VMA_FILE with this file, or VMA_ANON
    var pgoff: nat
    var pages: seq<PhysPage>

    constructor (start: nat, end: nat, file: Option<File>, pgoff: nat)
      ensures Value() == Vma(start, end, file, pgoff, [])
    {
      this.start, this.end, this.file, this.pgoff, this.pages := start, end, file, pgoff, [];
    }

    ghost function Value(): Vma
      reads this
    {
      Vma(start, end, file, pgoff, pages)
    }
  }

  // The bstree library's nodes; any shape.
  datatype Tree = Leaf | Node(left: Tree, vma: VmArea, right: Tree)

  function InOrder(t: Tree): seq<VmArea> {
    match t
    case Leaf => []
    case Node(l, v, r) => InOrder(l) + [v] + InOrder(r)
  }

  function NodeSet(t: Tree): set<VmArea> {
    match t
    case Leaf => {}
    case Node(l, v, r) => NodeSet(l) + {v} + NodeSet(r)
  }

  ghost function Values(s: seq<VmArea>): seq<Vma>
    reads s
  {
    seq(|s|, i requires 0 <= i < |s| reads s => s[i].Value())
  }

  lemma ValuesConcat(a: seq<VmArea>, b: seq<VmArea>)
    ensures Values(a + b) == Values(a) + Values(b)
  {
  }

  lemma ValuesDrop(s: seq<VmArea>, j: nat)
    requires j < |s|
    ensures Values(s[..j] + s[j + 1..]) == Values(s)[..j] + Values(s)[j + 1..]
  {
  }

  ghost predicate AtMost(s: seq<VmArea>, key: nat)
    reads s
  {
    forall v :: v in s ==> v.start <= key
  }

  ghost predicate Above(s: seq<VmArea>, key: nat)
    reads s
  {
    forall v :: v in s ==> v.start > key
  }

  lemma KeysConcat(a: seq<VmArea>, b: seq<VmArea>, key: nat)
    ensures AtMost(a + b, key) <==> AtMost(a, key) && AtMost(b, key)
    ensures Above(a + b, key) <==> Above(a, key) && Above(b, key)
  {
    assert forall v :: v in a + b <==> v in a || v in b;
  }

  lemma KeysMonotonic(s: seq<VmArea>, low: nat, high: nat)
    requires low <= high
    ensures AtMost(s, low) ==> AtMost(s, high)
    ensures Above(s, high) ==> Above(s, low)
  {
  }

  // Search order; all that searching by key needs.
  ghost predicate KeysSorted(s: seq<VmArea>)
    reads s
  {
    forall i, j :: 0 <= i < j < |s| ==> s[i].start < s[j].start
  }

  lemma KeysSortedParts(a: seq<VmArea>, v: VmArea, b: seq<VmArea>)
    requires KeysSorted(a + [v] + b)
    ensures KeysSorted(a) && KeysSorted(b) && AtMost(a, v.start) && Above(b, v.start)
  {
    var s := a + [v] + b;
    assert s[|a|] == v;
    forall i, j | 0 <= i < j < |a| ensures a[i].start < a[j].start { assert s[i] == a[i] && s[j] == a[j]; }
    forall i, j | 0 <= i < j < |b| ensures b[i].start < b[j].start {
      assert s[|a| + 1 + i] == b[i] && s[|a| + 1 + j] == b[j];
    }
    forall x | x in a ensures x.start <= v.start {
      var i :| 0 <= i < |a| && a[i] == x;
      assert s[i] == x;
    }
    forall x | x in b ensures x.start > v.start {
      var i :| 0 <= i < |b| && b[i] == x;
      assert s[|a| + 1 + i] == x;
    }
  }

  lemma OneKey(m: VmArea, key: nat)
    ensures AtMost([m], key) <==> m.start <= key
    ensures Above([m], key) <==> key < m.start
    ensures AtMost([], key) && Above([], key)
  {
    assert m in [m];
  }

  lemma JoinRight(l: seq<VmArea>, m: VmArea, before: seq<VmArea>, after: seq<VmArea>, key: nat)
    requires AtMost(l, m.start) && m.start <= key && AtMost(before, key)
    ensures l + [m] + (before + after) == (l + [m] + before) + after && AtMost(l + [m] + before, key)
  {
    hide AtMost;
    KeysMonotonic(l, m.start, key);
    OneKey(m, key);
    KeysConcat(l, [m], key);
    KeysConcat(l + [m], before, key);
  }

  lemma JoinLeft(before: seq<VmArea>, after: seq<VmArea>, m: VmArea, r: seq<VmArea>, key: nat)
    requires Above(after, key) && key < m.start && Above(r, m.start)
    ensures (before + after) + [m] + r == before + (after + [m] + r) && Above(after + [m] + r, key)
  {
    hide Above;
    KeysMonotonic(r, key, m.start);
    OneKey(m, key);
    KeysConcat(after, [m], key);
    KeysConcat(after + [m], r, key);
  }

  // bstree_search with BST_SEARCH_TYPE_NEAREST_LTE.
  function SearchLte(t: Tree, key: nat): VmArea?
    reads NodeSet(t)
  {
    match t
    case Leaf => null
    case Node(l, m, r) =>
      if m.start <= key then
        var v := SearchLte(r, key);
        if v == null then m else v
      else SearchLte(l, key)
  }

  // It finds the last of the areas that start at or before key.
  lemma {:induction false} SearchLteIsLast(t: Tree, key: nat) returns (before: seq<VmArea>, after: seq<VmArea>)
    requires KeysSorted(InOrder(t))
    ensures InOrder(t) == before + after && AtMost(before, key) && Above(after, key)
    ensures var v := SearchLte(t, key); if v == null then before == [] else before != [] && before[|before| - 1] == v
  {
    match t
    case Leaf => before, after := [], [];
    case Node(l, m, r) =>
      KeysSortedParts(InOrder(l), m, InOrder(r));
      if m.start <= key {
        before, after := SearchLteIsLast(r, key);
        JoinRight(InOrder(l), m, before, after, key);
        before := InOrder(l) + [m] + before;
      } else {
        before, after := SearchLteIsLast(l, key);
        JoinLeft(before, after, m, InOrder(r), key);
        after := after + [m] + InOrder(r);
      }
  }

  // bstree_insert: a new leaf.
  function InsertNode(t: Tree, v: VmArea): Tree
    reads v, NodeSet(t)
  {
    match t
    case Leaf => Node(Leaf, v, Leaf)
    case Node(l, m, r) =>
      if v.start < m.start then Node(InsertNode(l, v), m, r) else Node(l, m, InsertNode(r, v))
  }

  lemma ConcatLeft<T>(a: seq<T>, v: T, b: seq<T>, m: T, r: seq<T>)
    ensures (a + [v] + b) + [m] + r == a + [v] + (b + [m] + r)
  {
  }

  lemma ConcatRight<T>(l: seq<T>, m: T, a: seq<T>, v: T, b: seq<T>)
    ensures l + [m] + (a + [v] + b) == (l + [m] + a) + [v] + b
  {
  }

  lemma {:induction false} InsertNodeOrder(t: Tree, v: VmArea) returns (before: seq<VmArea>, after: seq<VmArea>)
    requires KeysSorted(InOrder(t))
    ensures InOrder(t) == before + after && AtMost(before, v.start) && Above(after, v.start)
    ensures InOrder(InsertNode(t, v)) == before + [v] + after
  {
    hide AtMost, Above;
    OneKey(v, v.start);
    match t
    case Leaf => before, after := [], [];
    case Node(l, m, r) =>
      KeysSortedParts(InOrder(l), m, InOrder(r));
      if v.start < m.start {
        before, after := InsertNodeOrder(l, v);
        JoinLeft(before, after, m, InOrder(r), v.start);
        ConcatLeft(before, v, after, m, InOrder(r));
        after := after + [m] + InOrder(r);
      } else {
        before, after := InsertNodeOrder(r, v);
        JoinRight(InOrder(l), m, before, after, v.start);
        ConcatRight(InOrder(l), m, before, v, after);
        before := InOrder(l) + [m] + before;
      }
  }

  // bstree_remove of a node given by identity.
  function Merge(l: Tree, r: Tree): Tree {
    match l
    case Leaf => r
    case Node(ll, m, lr) => Node(ll, m, Merge(lr, r))
  }

  lemma {:induction false} MergeOrder(l: Tree, r: Tree)
    ensures InOrder(Merge(l, r)) == InOrder(l) + InOrder(r)
  {
    if l.Node? {
      MergeOrder(l.right, r);
    }
  }

  function RemoveNode(t: Tree, v: VmArea): Tree {
    match t
    case Leaf => Leaf
    case Node(l, m, r) => if m == v then Merge(l, r) else Node(RemoveNode(l, v), m, RemoveNode(r, v))
  }

  lemma {:induction false} RemoveAbsent(t: Tree, v: VmArea)
    requires v !in InOrder(t)
    ensures RemoveNode(t, v) == t
  {
    if t.Node? {
      assert InOrder(t)[|InOrder(t.left)|] == t.vma;
      assert forall x :: x in InOrder(t.left) || x in InOrder(t.right) ==> x in InOrder(t);
      RemoveAbsent(t.left, v);
      RemoveAbsent(t.right, v);
    }
  }

  lemma {:induction false} RemoveOrder(t: Tree, a: seq<VmArea>, v: VmArea, b: seq<VmArea>)
    requires InOrder(t) == a + [v] + b && NoDup(a + [v] + b)
    ensures InOrder(RemoveNode(t, v)) == a + b
  {
    var l, m, r := InOrder(t.left), t.vma, InOrder(t.right);
    NoDupSplit(l, m, r);
    NoDupSplit(a, v, b);
    if |a| == |l| {
      SameSplit(l, m, r, a, v, b);
      MergeOrder(t.left, t.right);
    } else if |a| < |l| {
      var b' := SplitLeft(l, m, r, a, v, b);
      RemoveOrder(t.left, a, v, b');
      assert v in a + [v] + b';
      RemoveAbsent(t.right, v);
    } else {
      var a' := SplitLeft(a, v, b, l, m, r);
      assert a' + [v] + b == r;
      NoDupConcat(l + [m], r);
      RemoveOrder(t.right, a', v, b);
      assert v in a' + [v] + b;
      RemoveAbsent(t.left, v);
    }
  }

  lemma NoDupSplit<T>(a: seq<T>, v: T, b: seq<T>)
    requires NoDup(a + [v] + b)
    ensures NoDup(a) && NoDup(b) && v !in a && v !in b && Disjoint(a, b)
  {
    NoDupConcat(a + [v], b);
    NoDupConcat(a, [v]);
    assert v in a + [v] && forall x :: x in a ==> x in a + [v];
  }

  lemma SameSplit<T>(l: seq<T>, m: T, r: seq<T>, a: seq<T>, v: T, b: seq<T>)
    requires l + [m] + r == a + [v] + b && |l| == |a|
    ensures l == a && m == v && r == b
  {
    var s := l + [m] + r;
    assert s[..|l|] == l && s[..|a|] == a && s[|l|] == m && s[|a|] == v && s[|l| + 1..] == r && s[|a| + 1..] == b;
  }

  lemma SplitLeft<T>(l: seq<T>, m: T, r: seq<T>, a: seq<T>, v: T, b: seq<T>) returns (b': seq<T>)
    requires l + [m] + r == a + [v] + b && |a| < |l|
    ensures l == a + [v] + b' && b == b' + [m] + r
  {
    var s := l + [m] + r;
    b' := l[|a| + 1..];
    assert s[..|a|] == a && s[|a|] == v && s[|a| + 1..] == b;
    assert l == s[..|l|] && b == s[|a| + 1..];
  }

  // scan: the in-order sweep, recursive, with last_end and result as in-out parameters. After a hit
  // in the left subtree the node is tested again; it hits again, with the same answer.
  method Scan(t: Tree, lastEnd: nat, result: nat, length: nat) returns (lastEnd': nat, result': nat)
    requires Good(Values(InOrder(t))) && After(Values(InOrder(t)), lastEnd)
    ensures result != 0 ==> lastEnd' == lastEnd && result' == result
    ensures result == 0 ==> (lastEnd', result') == Sweep(Values(InOrder(t)), lastEnd, length)
  {
    lastEnd', result' := lastEnd, result;
    if t.Leaf? || result != 0 {
      return;
    }
    ghost var l, v, r := Values(InOrder(t.left)), t.vma.Value(), Values(InOrder(t.right));
    TreeValues(t);
    ScanParts(l, v, r, lastEnd, length);
    lastEnd', result' := Scan(t.left, lastEnd', result', length);
    var vma := t.vma;
    if Wrap(vma.start - lastEnd') >= length {
      result' := lastEnd';
      return;
    }
    lastEnd' := vma.end;
    lastEnd', result' := Scan(t.right, lastEnd', result', length);
  }

  lemma TreeValues(t: Tree)
    requires t.Node?
    ensures Values(InOrder(t)) == Values(InOrder(t.left)) + [t.vma.Value()] + Values(InOrder(t.right))
  {
    ValuesConcat(InOrder(t.left), [t.vma]);
    ValuesConcat(InOrder(t.left) + [t.vma], InOrder(t.right));
    assert Values([t.vma]) == [t.vma.Value()];
  }

  lemma SortedParts(l: seq<Vma>, v: Vma, r: seq<Vma>, lastEnd: nat)
    requires Good(l + [v] + r) && After(l + [v] + r, lastEnd)
    ensures Good(l) && Good(l + [v]) && Good(r) && After(l, lastEnd) && After(l + [v], lastEnd) && After(r, v.end)
  {
    var s := l + [v] + r;
    GoodPart(s, 0, |l|);
    GoodPart(s, 0, |l| + 1);
    GoodPart(s, |l| + 1, |s|);
    assert s[0..|l|] == l && s[0..|l| + 1] == l + [v] && s[|l| + 1..|s|] == r && s[|l|] == v;
    assert forall i :: 0 <= i < |l| + 1 ==> (l + [v])[i] == s[i];
    assert forall i :: 0 <= i < |l| ==> l[i] == s[i];
    assert forall i :: 0 <= i < |r| ==> r[i] == s[|l| + 1 + i];
  }

  lemma ScanParts(l: seq<Vma>, v: Vma, r: seq<Vma>, lastEnd: nat, length: nat)
    requires Good(l + [v] + r) && After(l + [v] + r, lastEnd)
    ensures Good(l) && After(l, lastEnd) && Good(r) && After(r, v.end)
    ensures var (e, hit) := Sweep(l, lastEnd, length);
      (hit != 0 ==> e == hit && Wrap(v.start - e) >= length) &&
      Sweep(l + [v] + r, lastEnd, length) ==
        (if hit != 0 then (e, hit) else if Wrap(v.start - e) >= length then (e, e) else Sweep(r, v.end, length))
  {
    SortedParts(l, v, r, lastEnd);
    hide Good, After, Wrap;
    RetestHits(l, v, lastEnd, length);
    assert l + [v] + r == l + ([v] + r);
    SweepConcat(l, [v] + r, lastEnd, length);
    assert ([v] + r)[1..] == r;
  }

  // p->vma_tree and the operations on it.
  class VmaTree {
    var tree: Tree

    constructor ()
      ensures Valid() && Areas() == []
    {
      tree := Leaf;
    }

    ghost function Nodes(): seq<VmArea>
      reads this
    {
      InOrder(tree)
    }

    ghost function Areas(): seq<Vma>
      reads this, InOrder(tree)
    {
      Values(InOrder(tree))
    }

    ghost predicate Valid()
      reads this, InOrder(tree)
    {
      NoDup(InOrder(tree)) && Good(Values(InOrder(tree)))
    }

    // Only areas made since have joined the tree.
    twostate predicate OnlyNewJoined()
      reads this
    {
      forall v :: v in Nodes() ==> v in old(Nodes()) || fresh(v)
    }

    lemma AreasGood()
      requires Valid()
      ensures Good(Areas())
    {
    }

    lemma StillValid(vs: seq<Vma>)
      requires NoDup(Nodes()) && Areas() == vs && Good(vs)
      ensures Valid()
    {
    }

    twostate lemma NothingJoined()
      requires unchanged(this)
      ensures OnlyNewJoined()
    {
    }

    twostate lemma SameAreas()
      requires unchanged(this) && forall v :: v in InOrder(tree) ==> old(allocated(v)) && unchanged(v)
      ensures Areas() == old(Areas()) && (old(Valid()) ==> Valid())
    {
      var s := InOrder(tree);
      forall i | 0 <= i < |s| ensures Areas()[i] == old(Areas())[i] { assert s[i] in s; }
    }

    lemma Sorted()
      requires Valid()
      ensures KeysSorted(InOrder(tree))
    {
      var s, vs := InOrder(tree), Values(InOrder(tree));
      forall i, j | 0 <= i < j < |s| ensures s[i].start < s[j].start {
        assert vs[i] == s[i].Value() && vs[j] == s[j].Value();
      }
    }

    // vma_find: the area that holds the address, if one does.
    method Find(addr: nat) returns (v: VmArea?, ghost k: nat)
      requires Valid()
      ensures v == null <==> !Covers(Areas(), addr)
      ensures v != null ==> k < |Nodes()| && Nodes()[k] == v && v.start <= addr < v.end
    {
      Sorted();
      var node := SearchLte(tree, addr);
      ghost var before, after := SearchLteIsLast(tree, addr);
      k := if before == [] then 0 else |before| - 1;
      FoundOrNot(before, after, addr);
      if node != null && addr >= node.start && addr < node.end {
        return node, k;
      }
      v := null;
    }

    lemma FoundOrNot(before: seq<VmArea>, after: seq<VmArea>, addr: nat)
      requires Valid() && InOrder(tree) == before + after && AtMost(before, addr) && Above(after, addr)
      ensures Covers(Areas(), addr) <==> before != [] && addr < before[|before| - 1].end
    {
      var s, vs := InOrder(tree), Areas();
      forall i | 0 <= i < |vs| ensures vs[i] == s[i].Value() && (i < |before| <==> vs[i].start <= addr) {
        if i < |before| { assert s[i] == before[i] && before[i] in before; }
        else { assert s[i] == after[i - |before|] && after[i - |before|] in after; }
      }
      if before != [] {
        var last := |before| - 1;
        assert vs[last] == before[last].Value();
      }
    }

    // vma_overlaps: walk on from the last area that starts at or before `start`, or from the first.
    method OverlapsAny(start: nat, end: nat) returns (found: bool)
      requires Valid()
      ensures found <==> Overlaps(Areas(), start, end)
    {
      if tree.Leaf? {
        return false;
      }
      assert allocated(InOrder(tree));
      var i := StartIndex(start);
      var order := InOrder(tree);
      NoneBefore(i, start, end);
      hide Good, Overlap, Values;
      while i < |order|
        invariant 0 <= i <= |order| == |Areas()|
        invariant forall j :: 0 <= j < i ==> !Overlap(Areas()[j], start, end)
      {
        var vma := order[i];
        AreaAt(i);
        if vma.start >= end {
          NoneFrom(i, start, end);
          return false;
        }
        if start < vma.end && end > vma.start {
          return true;
        }
        i := i + 1;
      }
      found := false;
    }

    // Where the walk starts: at the last area that starts at or before `start`, or at the first.
    method StartIndex(start: nat) returns (i: nat)
      requires Valid() && tree.Node?
      ensures i < |Areas()| && (Areas()[i].start <= start || i == 0)
    {
      Sorted();
      var order := InOrder(tree);
      var node := SearchLte(tree, start);
      ghost var before, after := SearchLteIsLast(tree, start);
      i := 0;
      if node != null {
        assert order[|before| - 1] == node && node in before;
        i :| 0 <= i < |order| && order[i] == node;
        AreaAt(i);
      }
    }

    lemma AreaAt(i: nat)
      requires i < |Nodes()|
      ensures i < |Areas()| && Areas()[i] == Nodes()[i].Value()
      ensures forall start: nat, end: nat ::
        Overlap(Areas()[i], start, end) <==> start < Nodes()[i].end && end > Nodes()[i].start
    {
    }

    lemma NoneBefore(i: nat, start: nat, end: nat)
      requires Valid() && i < |Areas()| && (Areas()[i].start <= start || i == 0)
      ensures forall j :: 0 <= j < i ==> !Overlap(Areas()[j], start, end)
    {
      forall j | 0 <= j < i ensures !Overlap(Areas()[j], start, end) { EndsBefore(Areas(), j, i); }
    }

    lemma NoneFrom(i: nat, start: nat, end: nat)
      requires Valid() && i < |Areas()| && Areas()[i].start >= end
      requires forall j :: 0 <= j < i ==> !Overlap(Areas()[j], start, end)
      ensures !Overlaps(Areas(), start, end)
    {
      forall j | i <= j < |Areas()| ensures !Overlap(Areas()[j], start, end) { EndsBefore(Areas(), i, j); }
    }

    // vma_find_free_region: first fit; the final overlap test never refuses what the sweep found.
    method FindFreeRegion(length: nat) returns (r: int)
      requires Valid() && 0 < length < 0x1_0000_0000_0000_0000
      ensures r == FirstFit(Areas(), length)
    {
      AfterBase();
      assert allocated(InOrder(tree));
      var lastEnd, result := Scan(tree, 0x1000_0000, 0, length);
      ghost var k := SweepStops(Areas(), 0x1000_0000, length);
      SweptIsFree(Areas(), lastEnd, length, k);
      var taken := OverlapsAny(lastEnd, Wrap(lastEnd + length));
      if taken {
        return 0;
      }
      r := if result != 0 then result else lastEnd;
    }

    lemma AfterBase()
      requires Valid()
      ensures After(Areas(), 0x1000_0000)
    {
    }

    // vma_add_page: at the end of the area's list.
    method AddPage(v: VmArea, ghost k: nat, page: PhysPage)
      requires NoDup(Nodes()) && k < |Nodes()| && Nodes()[k] == v
      modifies v`pages
      ensures v.pages == old(v.pages) + [page]
      ensures NoDup(Nodes()) && Areas() == old(Areas())[k := old(Areas())[k].(pages := old(v.pages) + [page])]
    {
      v.pages := v.pages + [page];
    }

    // vma_insert
    method InsertArea(v: VmArea) returns (ghost at: nat)
      requires Valid() && v !in Nodes()
      modifies this
      ensures at <= |old(Nodes())| == |old(Areas())| && Nodes() == old(Nodes())[..at] + [v] + old(Nodes())[at..]
      ensures NoDup(Nodes()) && Areas() == Insert(old(Areas()), v.Value())
      ensures Areas() == old(Areas())[..at] + [v.Value()] + old(Areas())[at..]
      ensures forall i :: 0 <= i < |old(Areas())| ==> (i < at <==> old(Areas())[i].start <= v.start)
    {
      Sorted();
      ghost var a, b := InsertNodeOrder(tree, v);
      InsertDistinct(a, v, b);
      InsertValues(a, v, b);
      at := |a|;
      assert Nodes()[..at] == a && Nodes()[at..] == b;
      tree := InsertNode(tree, v);
    }

    // mmap_region
    method MmapRegion(file: Option<File>, addr: nat, len: nat, pgoff: nat) returns (r: int)
      requires Valid()
      modifies this
      ensures NoDup(Nodes()) && OnlyNewJoined()
      ensures file != None && !file.value.canFault ==>
        r == 0xFFFF_FFFF_FFFF_FFED && Nodes() == old(Nodes()) && Areas() == old(Areas())
      ensures file == None || file.value.canFault ==>
        r == addr && Areas() ==
          Insert(old(Areas()), Vma(addr, Wrap(addr + len), file, if file == None then 0 else pgoff, []))
    {
      assert allocated(InOrder(tree));
      var vma := new VmArea(addr, Wrap(addr + len), None, 0);
      if file != None {
        if !file.value.canFault {
          return ENODEV();
        }
        vma.file := file;
        vma.pgoff := pgoff;
      }
      ghost var _ := InsertArea(vma);
      r := addr;
    }

    // do_sys_mmap
    method SysMmap(length: nat, file: Option<File>, offset: nat) returns (r: int)
      requires Valid() && length < 0x1_0000_0000_0000_0000
      modifies this
      ensures NoDup(Nodes()) && OnlyNewJoined()
      ensures IsError(r) <==> AlignUp64(length) == 0 || (file != None && !file.value.canFault)
      ensures AlignUp64(length) == 0 ==> r == 0xFFFF_FFFF_FFFF_FFEA && Areas() == old(Areas())
      ensures AlignUp64(length) != 0 && file != None && !file.value.canFault ==>
        r == 0xFFFF_FFFF_FFFF_FFED && Areas() == old(Areas())
      ensures AlignUp64(length) != 0 && (file == None || file.value.canFault) ==>
        r == FirstFit(old(Areas()), length) &&
          Areas() == Insert(old(Areas()), NewArea(old(Areas()), length, file, offset))
    {
      var len := AlignUp64(length);
      if len == 0 {
        return EINVAL();
      }
      PositiveLength(length);
      FirstFitIsLowest(Areas(), length);
      NoError(length);
      hide AlignUp64, Wrap, FirstFit, Good, Insert;
      assert allocated(InOrder(tree));
      var addr := FindFreeRegion(length);
      if addr == 0 {
        return ENOMEM();
      }
      r := MmapRegion(file, addr, len, offset);
    }

    lemma NoError(length: nat)
      requires Valid() && length > 0
      ensures !IsError(FirstFit(Areas(), length))
    {
      if IsError(FirstFit(Areas(), length)) { ErrorsAreNoAreas(Areas(), length, FirstFit(Areas(), length)); }
    }

    // munmap_region once it has found the area and checked the bounds: split, trim or remove it.
    method Unmap(v: VmArea, ghost k: nat, addr: nat, len: nat) returns (emptied: bool)
      requires Valid() && k < |Nodes()| && Nodes()[k] == v && v.start <= addr < v.end
      requires 0 < len < 0x1_0000_0000_0000_0000 && Wrap(addr + len) <= v.end
      modifies this, v
      ensures addr + len < 0x1_0000_0000_0000_0000 ==>
        NoDup(Nodes()) && Areas() == Unmapped(old(Areas()), k, addr, len) &&
          (emptied <==> Pieces(old(v.Value()), addr, len) == [])
      ensures addr + len >= 0x1_0000_0000_0000_0000 ==> !emptied && Covers(Areas(), addr)
      ensures v.pages == old(v.pages) && OnlyNewJoined() && v.Value() == Trimmed(old(v.Value()), addr, len)
      ensures addr % 4096 == 0 && len % 4096 == 0 && addr + len < 0x1_0000_0000_0000_0000 ==> Valid()
    {
      ghost var vs := Areas();
      UnmapOutcome(vs, v, k, addr, len);
      hide Good, Unmapped, UpperPiece, Pieces, Covers, NoDup, Trimmed, Wrap, Splits, SplitAt, TrimAt, IndexAfter;
      hide Values;
      ghost var at := SplitUpper(v, k, addr, len);
      ghost var j := IndexAfter(vs, k, addr, len, at);
      UnmapIsTrim(vs, k, addr, len, at);
      emptied := Trim(v, j, addr, len);
    }

    lemma UnmapOutcome(vs: seq<Vma>, v: VmArea, k: nat, addr: nat, len: nat)
      requires Valid() && vs == Areas() && k < |Nodes()| && Nodes()[k] == v && v.start <= addr < v.end
      requires 0 < len && Wrap(addr + len) <= v.end
      ensures Good(vs) && k < |vs| && vs[k] == v.Value()
      ensures addr % 4096 == 0 && len % 4096 == 0 && addr + len < 0x1_0000_0000_0000_0000 ==>
        Good(Unmapped(vs, k, addr, len))
    {
      if addr + len < 0x1_0000_0000_0000_0000 && len % 4096 == 0 { UnmapKeepsGood(vs, k, addr, len); }
    }

    // The split: the part above the hole becomes an area of its own, while v still covers it.
    method SplitUpper(v: VmArea, ghost k: nat, addr: nat, len: nat) returns (ghost at: nat)
      requires Valid() && k < |Nodes()| && Nodes()[k] == v && v.start <= addr < v.end
      requires 0 < len < 0x1_0000_0000_0000_0000 && Wrap(addr + len) <= v.end
      modifies this
      ensures at <= |old(Nodes())| && NoDup(Nodes()) && k < |old(Areas())|
      ensures Areas() == SplitAt(old(Areas()), k, addr, len, at) && OnlyNewJoined()
      ensures var j := IndexAfter(old(Areas()), k, addr, len, at); j < |Nodes()| && Nodes()[j] == v
      ensures Splits(v.Value(), addr, len) ==> |Nodes()| == |old(Nodes())| + 1 && fresh(Nodes()[at])
      ensures Splits(v.Value(), addr, len) && addr + len < 0x1_0000_0000_0000_0000 ==> at == k + 1
    {
      hide UpperPiece, Wrap, Good, NoDup, Values, Trimmed, Insert;
      AreaValue(v, k);
      ghost var vs := Areas();
      at := 0;
      AreaStays(vs, k, addr, len, at);
      if addr > v.start && Wrap(addr + len) < v.end {
        assert allocated(InOrder(tree));
        var upper := UpperArea(v, addr, len);
        assert Areas() == vs;
        at := InsertArea(upper);
        if addr + len < 0x1_0000_0000_0000_0000 { UpperPlace(vs, k, addr, len, at); }
      }
    }

    lemma AreaValue(v: VmArea, k: nat)
      requires k < |Nodes()| && Nodes()[k] == v
      ensures k < |Areas()| && Areas()[k] == v.Value() && v in Nodes()
    {
    }

    // The new area of the split, not linked yet.
    static method UpperArea(v: VmArea, addr: nat, len: nat) returns (upper: VmArea)
      ensures fresh(upper) && upper.Value() == UpperPiece(v.Value(), addr, len) && upper.start == Wrap(addr + len)
    {
      upper := new VmArea(Wrap(addr + len), v.end, None, 0);
      if v.file != None {
        upper.file := v.file;
        upper.pgoff := Wrap(v.pgoff + (upper.start - v.start));
      }
    }

    // Moving the start or the end of a linked area, and unlinking it when nothing is left.
    method Trim(v: VmArea, ghost j: nat, addr: nat, len: nat) returns (emptied: bool)
      requires NoDup(Nodes()) && j < |Nodes()| && Nodes()[j] == v
      modifies this, v
      ensures j < |old(Areas())| && Areas() == TrimAt(old(Areas()), j, addr, len)
      ensures emptied <==> Trimmed(old(v.Value()), addr, len).start >= Trimmed(old(v.Value()), addr, len).end
      ensures NoDup(Nodes()) && v.pages == old(v.pages) && forall x :: x in Nodes() ==> x in old(Nodes())
      ensures v.Value() == Trimmed(old(v.Value()), addr, len)
    {
      AreaValue(v, j);
      ghost var vs := Areas();
      MoveBound(v, j, addr, len);
      hide Trimmed, NoDup, Values;
      emptied := v.start >= v.end;
      if emptied {
        RemoveArea(v, j);
      }
    }

    method MoveBound(v: VmArea, ghost j: nat, addr: nat, len: nat)
      requires NoDup(Nodes()) && j < |Nodes()| && Nodes()[j] == v && j < |Areas()|
      modifies v
      ensures v.Value() == Trimmed(old(v.Value()), addr, len)
      ensures Areas() == old(Areas())[j := v.Value()]
    {
      if addr == v.start {
        v.start := Wrap(v.start + len);
        if v.file != None {
          v.pgoff := Wrap(v.pgoff + len);
        }
      } else {
        v.end := addr;
      }
    }

    // vma_remove
    method RemoveArea(v: VmArea, ghost j: nat)
      requires NoDup(Nodes()) && j < |Nodes()| && Nodes()[j] == v
      modifies this
      ensures Nodes() == old(Nodes())[..j] + old(Nodes())[j + 1..] && NoDup(Nodes())
      ensures j < |old(Areas())| && Areas() == old(Areas())[..j] + old(Areas())[j + 1..]
    {
      ghost var s := Nodes();
      assert s == s[..j] + [v] + s[j + 1..];
      RemoveOrder(tree, s[..j], v, s[j + 1..]);
      DropDistinct(s[..j], v, s[j + 1..]);
      ValuesDrop(s, j);
      hide NoDup;
      tree := RemoveNode(tree, v);
    }

    lemma PositiveLength(length: nat)
      ensures AlignUp64(length) != 0 ==> length > 0
    {
    }
  }

  lemma DropDistinct<T>(a: seq<T>, v: T, b: seq<T>)
    requires NoDup(a + [v] + b)
    ensures NoDup(a + b)
  {
    NoDupSplit(a, v, b);
    NoDupConcat(a, b);
  }

  lemma InsertDistinct<T>(a: seq<T>, v: T, b: seq<T>)
    requires NoDup(a + b) && v !in a + b
    ensures NoDup(a + [v] + b)
  {
    NoDupConcat(a, b);
    NoDupConcat(a, [v]);
    NoDupConcat(a + [v], b);
    assert forall x :: x in a || x in b ==> x in a + b;
  }

  lemma InsertValues(a: seq<VmArea>, v: VmArea, b: seq<VmArea>)
    requires AtMost(a, v.start) && Above(b, v.start)
    ensures Values(a + [v] + b) == Insert(Values(a + b), v.Value())
    ensures Values(a + [v] + b) == Values(a + b)[..|a|] + [v.Value()] + Values(a + b)[|a|..]
    ensures forall i :: 0 <= i < |a + b| ==> (i < |a| <==> Values(a + b)[i].start <= v.start)
  {
    var vs := Values(a + b);
    forall i | 0 <= i < |vs| ensures i < |a| <==> vs[i].start <= v.start {
      if i < |a| { assert (a + b)[i] == a[i] && a[i] in a; }
      else { assert (a + b)[i] == b[i - |a|] && b[i - |a|] in b; }
    }
    assert Values([v]) == [v.Value()];
    ValuesConcat(a, b);
    ValuesConcat(a, [v]);
    ValuesConcat(a + [v], b);
    LengthOf(a);
    hide Values, AtMost, Above;
    InsertAt(vs, v.Value(), |a|);
    assert vs[..|a|] == Values(a) && vs[|a|..] == Values(b);
  }

  lemma LengthOf(s: seq<VmArea>)
    ensures |Values(s)| == |s|
  {
  }

  lemma SweptIsFree(vs: seq<Vma>, e: nat, length: nat, k: nat)
    requires Good(vs) && 0 < length < 0x1_0000_0000_0000_0000 && k <= |vs|
    requires (k > 0 ==> e == vs[k - 1].end) && (k < |vs| ==> e + length <= vs[k].start)
    requires k == 0 ==> e == 0x1000_0000
    ensures !Overlaps(vs, e, Wrap(e + length))
  {
    forall i | 0 <= i < |vs| ensures !Overlap(vs[i], e, Wrap(e + length)) {
      if i < k { EndsBefore(vs, i, k - 1); } else { EndsBefore(vs, k, i); }
    }
  }
}
