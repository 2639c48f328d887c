// Taking an address space apart: the frames paging_destroy_address_space gives back, in the order
// it gives them back, and why they are the frames the address space holds, each once.

module Teardown {
  import opened PageFormat
  import opened Sequences
  import opened PageTables

  // The frames freed while the first k slots of a table are processed. A table of height 1 is a
  // page table: its slots are pages. A slot's frame is freed after everything below it.
  function Pushes(m: Memory, table: Frame, height: nat, k: nat): seq<Frame>
    requires height > 0
    decreases height, k
  {
    if k == 0 then [] else Pushes(m, table, height, k - 1) + SlotPushes(m, Entry(m, table, k - 1), height)
  }

  function SlotPushes(m: Memory, e: Word, height: nat): seq<Frame>
    requires height > 0
    decreases height, 0
  {
    if !e.present then []
    else if height == 1 then [e.frame]
    else Pushes(m, e.frame, height - 1, 512) + [e.frame]
  }

  lemma {:induction false} PushesPrefix(m: Memory, table: Frame, height: nat, i: nat, k: nat)
    requires height > 0 && i <= k
    ensures Pushes(m, table, height, i) <= Pushes(m, table, height, k)
  {
    if i < k { PushesPrefix(m, table, height, i, k - 1); }
  }

  // What is freed depends only on the table and on the frames that are freed.
  lemma {:induction false} PushesFrame(m: Memory, m': Memory, table: Frame, height: nat, k: nat)
    requires height > 0 && |m'| == |m|
    requires forall f :: (f == table || f in Pushes(m, table, height, k)) && f as nat < |m| ==> m'[f] == m[f]
    ensures Pushes(m', table, height, k) == Pushes(m, table, height, k)
    decreases height, k
  {
    if k > 0 {
      var e := Entry(m, table, k - 1);
      assert Pushes(m, table, height, k) == Pushes(m, table, height, k - 1) + SlotPushes(m, e, height);
      PushesFrame(m, m', table, height, k - 1);
      assert Entry(m', table, k - 1) == e;
      if e.present && height > 1 {
        assert SlotPushes(m, e, height) == Pushes(m, e.frame, height - 1, 512) + [e.frame];
        PushesFrame(m, m', e.frame, height - 1, 512);
      }
    }
  }

  // ---- Who holds a frame ----

  // The frame at a place: a table's, or that of a page mapped by a page table.
  function Held(m: Memory, tabs: Tables, d: Node): Option<Frame> {
    if d in tabs then Some(tabs[d])
    else if d.Sub? && d.up in tabs && Depth(d.up) == 3 && d.index < 512 && Entry(m, tabs[d.up], d.index).present
    then Some(Entry(m, tabs[d.up], d.index).frame)
    else None
  }

  // No two places of this address space hold the same frame: its pages are mapped once each, and
  // none of them is a table.
  ghost predicate HeldOnce(m: Memory, tabs: Tables, s: Space) {
    forall d, d' | SpaceOf(d) == s && SpaceOf(d') == s && Held(m, tabs, d).Some? ::
      Held(m, tabs, d) == Held(m, tabs, d') ==> d == d'
  }

  // The slot of n through which d lies strictly below n, or -1.
  function SlotUnder(d: Node, n: Node): int {
    if d.Root? || d == n then -1 else if d.up == n then d.index else SlotUnder(d.up, n)
  }

  lemma {:induction false} UnderChild(d: Node, n: Node, i: nat)
    requires d == Sub(n, i) || SlotUnder(d, Sub(n, i)) >= 0
    ensures SlotUnder(d, n) == i
    ensures Depth(d) > Depth(n)
  {
    if d != Sub(n, i) {
      UnderChild(d.up, n, i);
      assert Depth(d) == Depth(d.up) + 1;
    } else {
      assert Depth(d) == Depth(n) + 1;
    }
  }

  lemma {:induction false} UnderDeeper(d: Node, n: Node)
    requires SlotUnder(d, n) >= 0
    ensures Depth(d) > Depth(n) && SpaceOf(d) == SpaceOf(n)
  {
    if d.up != n { UnderDeeper(d.up, n); }
  }

  // A node and how many of its slots count as its own.
  ghost predicate Tearing(m: Memory, tabs: Tables, kernel: Frame, n: Node, k: nat) {
    TablesOk(m, tabs, kernel) && n in tabs && SpaceOf(n).User? && Depth(n) < 4 && k <= if n.Root? then 256 else 512
  }

  lemma SlotHeld(m: Memory, tabs: Tables, kernel: Frame, n: Node, k: nat)
    requires Tearing(m, tabs, kernel, n, k) && k > 0
    ensures var e := Entry(m, tabs[n], k - 1);
      (e.present <==> Held(m, tabs, Sub(n, k - 1)).Some?) &&
      (e.present ==> Held(m, tabs, Sub(n, k - 1)) == Some(e.frame)) &&
      (e.present && Depth(n) < 3 ==> Tearing(m, tabs, kernel, Sub(n, k - 1), 512))
  {
    NodeWithin(m, tabs, kernel, n);
    if Depth(n) < 3 {
      SlotsOkAt(m, tabs, n, k - 1);
      if Sub(n, k - 1) in tabs { NodeWithin(m, tabs, kernel, Sub(n, k - 1)); }
    } else if Sub(n, k - 1) in tabs {
      NodeWithin(m, tabs, kernel, Sub(n, k - 1));
    }
  }

  // Every frame freed is held somewhere below the table, ..
  lemma {:induction false} PushedIsHeld(m: Memory, tabs: Tables, kernel: Frame, n: Node, k: nat,
                                        f: Frame) returns (d: Node)
    requires Tearing(m, tabs, kernel, n, k) && f in Pushes(m, tabs[n], 4 - Depth(n), k)
    ensures Held(m, tabs, d) == Some(f) && 0 <= SlotUnder(d, n) < k
    decreases 4 - Depth(n), k
  {
    hide TablesOk, Held;
    SlotHeld(m, tabs, kernel, n, k);
    var e := Entry(m, tabs[n], k - 1);
    if f in Pushes(m, tabs[n], 4 - Depth(n), k - 1) {
      d := PushedIsHeld(m, tabs, kernel, n, k - 1, f);
    } else {
      assert f in SlotPushes(m, e, 4 - Depth(n));
      if f == e.frame {
        d := Sub(n, k - 1);
      } else {
        assert tabs[Sub(n, k - 1)] == e.frame by { HeldTable(m, tabs, Sub(n, k - 1)); }
        d := PushedIsHeld(m, tabs, kernel, Sub(n, k - 1), 512, f);
      }
      UnderChild(d, n, k - 1);
    }
  }

  lemma HeldTable(m: Memory, tabs: Tables, d: Node)
    requires d in tabs
    ensures Held(m, tabs, d) == Some(tabs[d])
  {
  }

  // .. and every frame held below the table is freed.
  lemma {:induction false} HeldIsPushed(m: Memory, tabs: Tables, kernel: Frame, n: Node, k: nat, d: Node)
    requires Tearing(m, tabs, kernel, n, k) && Held(m, tabs, d).Some? && 0 <= SlotUnder(d, n) < k
    ensures Held(m, tabs, d).value in Pushes(m, tabs[n], 4 - Depth(n), k)
    decreases 4 - Depth(n), k, 1
  {
    hide TablesOk, Held, SlotPushes;
    if SlotUnder(d, n) < k - 1 {
      HeldIsPushed(m, tabs, kernel, n, k - 1, d);
    } else {
      HeldInSlot(m, tabs, kernel, n, k, d);
    }
  }

  lemma {:induction false} HeldInSlot(m: Memory, tabs: Tables, kernel: Frame, n: Node, k: nat, d: Node)
    requires Tearing(m, tabs, kernel, n, k) && Held(m, tabs, d).Some? && 0 <= SlotUnder(d, n) == k - 1
    ensures Held(m, tabs, d).value in SlotPushes(m, Entry(m, tabs[n], k - 1), 4 - Depth(n))
    decreases 4 - Depth(n), k, 0
  {
    hide TablesOk, Held, Pushes;
    SlotHeld(m, tabs, kernel, n, k);
    ThroughChild(m, tabs, kernel, d, n);
    if d != Sub(n, k - 1) {
      HeldTable(m, tabs, Sub(n, k - 1));
      UnderDeeper(d, Sub(n, k - 1));
      HeldIsPushed(m, tabs, kernel, Sub(n, k - 1), 512, d);
    }
  }

  // The way down to a held frame leads through tables.
  lemma {:induction false} ThroughChild(m: Memory, tabs: Tables, kernel: Frame, d: Node, n: Node)
    requires TablesOk(m, tabs, kernel) && Held(m, tabs, d).Some? && SlotUnder(d, n) >= 0
    ensures var c := Sub(n, SlotUnder(d, n));
      d == c || (c in tabs && 0 <= SlotUnder(d, c) < 512)
    ensures Depth(d) <= 4
  {
    hide SlotsOk, Injective;
    UpHeld(m, tabs, kernel, d);
    if d.up != n {
      UnderDeeper(d.up, n);
      ThroughChild(m, tabs, kernel, d.up, n);
      var c := Sub(n, SlotUnder(d, n));
      if d.up != c { UnderDeeper(d.up, c); }
    }
  }

  lemma UpHeld(m: Memory, tabs: Tables, kernel: Frame, d: Node)
    requires TablesOk(m, tabs, kernel) && Held(m, tabs, d).Some? && d.Sub?
    ensures d.up in tabs && Held(m, tabs, d.up).Some? && d.index < 512 && Depth(d) <= 4
  {
    if d in tabs { NodeWithin(m, tabs, kernel, d); }
  }

  // Held once, freed once.
  lemma {:induction false} PushesNoDup(m: Memory, tabs: Tables, kernel: Frame, n: Node, k: nat)
    requires Tearing(m, tabs, kernel, n, k) && HeldOnce(m, tabs, SpaceOf(n))
    ensures NoDup(Pushes(m, tabs[n], 4 - Depth(n), k))
    ensures tabs[n] !in Pushes(m, tabs[n], 4 - Depth(n), k)
    decreases 4 - Depth(n), k
  {
    hide TablesOk, Held, HeldOnce;
    var h := 4 - Depth(n);
    NotBelowItself(m, tabs, kernel, n, k);
    if k > 0 {
      PushesNoDup(m, tabs, kernel, n, k - 1);
      SlotNoDup(m, tabs, kernel, n, k);
      SlotsApart(m, tabs, kernel, n, k);
      NoDupConcat(Pushes(m, tabs[n], h, k - 1), SlotPushes(m, Entry(m, tabs[n], k - 1), h));
    }
  }

  lemma SameHolder(m: Memory, tabs: Tables, s: Space, d: Node, d': Node)
    requires HeldOnce(m, tabs, s) && SpaceOf(d) == s && SpaceOf(d') == s
    requires Held(m, tabs, d).Some? && Held(m, tabs, d) == Held(m, tabs, d')
    ensures d == d'
  {
  }

  lemma NotBelowItself(m: Memory, tabs: Tables, kernel: Frame, n: Node, k: nat)
    requires Tearing(m, tabs, kernel, n, k) && HeldOnce(m, tabs, SpaceOf(n))
    ensures tabs[n] !in Pushes(m, tabs[n], 4 - Depth(n), k)
  {
    hide TablesOk, Held, HeldOnce;
    if tabs[n] in Pushes(m, tabs[n], 4 - Depth(n), k) {
      var d := PushedIsHeld(m, tabs, kernel, n, k, tabs[n]);
      HeldTable(m, tabs, n);
      UnderDeeper(d, n);
      SameHolder(m, tabs, SpaceOf(n), d, n);
    }
  }

  // The holder of a frame freed through slot k - 1 lies below that slot.
  lemma SlotHolder(m: Memory, tabs: Tables, kernel: Frame, n: Node, k: nat, f: Frame) returns (d: Node)
    requires Tearing(m, tabs, kernel, n, k) && k > 0
    requires f in SlotPushes(m, Entry(m, tabs[n], k - 1), 4 - Depth(n))
    ensures Held(m, tabs, d) == Some(f) && SlotUnder(d, n) == k - 1
  {
    hide TablesOk, Held;
    SlotHeld(m, tabs, kernel, n, k);
    if f == Entry(m, tabs[n], k - 1).frame {
      d := Sub(n, k - 1);
    } else {
      HeldTable(m, tabs, Sub(n, k - 1));
      d := PushedIsHeld(m, tabs, kernel, Sub(n, k - 1), 512, f);
    }
    UnderChild(d, n, k - 1);
  }

  lemma SlotsApart(m: Memory, tabs: Tables, kernel: Frame, n: Node, k: nat)
    requires Tearing(m, tabs, kernel, n, k) && k > 0 && HeldOnce(m, tabs, SpaceOf(n))
    ensures Disjoint(Pushes(m, tabs[n], 4 - Depth(n), k - 1), SlotPushes(m, Entry(m, tabs[n], k - 1), 4 - Depth(n)))
  {
    hide TablesOk, Held, HeldOnce, Pushes, SlotPushes;
    var before, now := Pushes(m, tabs[n], 4 - Depth(n), k - 1), SlotPushes(m, Entry(m, tabs[n], k - 1), 4 - Depth(n));
    forall f | f in before ensures f !in now {
      if f in now {
        var d := PushedIsHeld(m, tabs, kernel, n, k - 1, f);
        var d' := SlotHolder(m, tabs, kernel, n, k, f);
        UnderDeeper(d, n);
        UnderDeeper(d', n);
        SameHolder(m, tabs, SpaceOf(n), d, d');
      }
    }
  }

  lemma {:induction false} SlotNoDup(m: Memory, tabs: Tables, kernel: Frame, n: Node, k: nat)
    requires Tearing(m, tabs, kernel, n, k) && k > 0 && HeldOnce(m, tabs, SpaceOf(n))
    ensures NoDup(SlotPushes(m, Entry(m, tabs[n], k - 1), 4 - Depth(n)))
    decreases 4 - Depth(n), k, 0
  {
    hide TablesOk, Held, HeldOnce, Pushes;
    SlotHeld(m, tabs, kernel, n, k);
    var e, c := Entry(m, tabs[n], k - 1), Sub(n, k - 1);
    if e.present && Depth(n) < 3 {
      HeldTable(m, tabs, c);
      PushesNoDup(m, tabs, kernel, c, 512);
      NoDupConcat(Pushes(m, e.frame, 3 - Depth(n), 512), [e.frame]);
    }
  }

  // ---- The whole address space ----

  // What paging_destroy_address_space frees, in order.
  function AllPushes(m: Memory, pml4: Frame): seq<Frame> {
    Pushes(m, pml4, 4, 256) + [pml4]
  }

  lemma {:induction false} BelowRoot(m: Memory, tabs: Tables, kernel: Frame, d: Node)
    requires TablesOk(m, tabs, kernel) && Held(m, tabs, d).Some? && SpaceOf(d).User? && d.Sub?
    ensures 0 <= SlotUnder(d, Root(SpaceOf(d))) < 256
  {
    UpHeld(m, tabs, kernel, d);
    if d.up.Sub? {
      BelowRoot(m, tabs, kernel, d.up);
    } else {
      RootSlot(m, tabs, kernel, d);
    }
  }

  lemma RootSlot(m: Memory, tabs: Tables, kernel: Frame, d: Node)
    requires TablesOk(m, tabs, kernel) && Held(m, tabs, d).Some? && d.Sub? && d.up.Root? && SpaceOf(d).User?
    ensures d.index < 256
  {
    if d in tabs { NodeWithin(m, tabs, kernel, d); }
  }

  // Exactly the frames the address space holds are freed: its PML4, its tables and its pages, each once.
  lemma AllPushesExact(m: Memory, tabs: Tables, kernel: Frame, pml4: Frame, f: Frame)
    requires TablesOk(m, tabs, kernel) && Root(User(pml4)) in tabs
    ensures f in AllPushes(m, pml4) <==> exists d :: SpaceOf(d) == User(pml4) && Held(m, tabs, d) == Some(f)
  {
    hide TablesOk, Held, Pushes;
    var root := Root(User(pml4));
    RootTears(m, tabs, kernel, pml4);
    HeldTable(m, tabs, root);
    if f in Pushes(m, pml4, 4, 256) {
      var d := PushedIsHeld(m, tabs, kernel, root, 256, f);
      UnderDeeper(d, root);
    }
    forall d | SpaceOf(d) == User(pml4) && Held(m, tabs, d) == Some(f) ensures f in AllPushes(m, pml4) {
      if d.Sub? {
        BelowRoot(m, tabs, kernel, d);
        HeldIsPushed(m, tabs, kernel, root, 256, d);
      }
    }
  }

  lemma RootTears(m: Memory, tabs: Tables, kernel: Frame, pml4: Frame)
    requires TablesOk(m, tabs, kernel) && Root(User(pml4)) in tabs
    ensures tabs[Root(User(pml4))] == pml4 && Tearing(m, tabs, kernel, Root(User(pml4)), 256)
  {
    NodeWithin(m, tabs, kernel, Root(User(pml4)));
  }

  lemma AllPushesNoDup(m: Memory, tabs: Tables, kernel: Frame, pml4: Frame)
    requires TablesOk(m, tabs, kernel) && Root(User(pml4)) in tabs && HeldOnce(m, tabs, User(pml4))
    ensures NoDup(AllPushes(m, pml4))
  {
    hide TablesOk, HeldOnce, Pushes;
    RootTears(m, tabs, kernel, pml4);
    PushesNoDup(m, tabs, kernel, Root(User(pml4)), 256);
    NoDupConcat(Pushes(m, pml4, 4, 256), [pml4]);
  }

  // ---- Freeing ----

  // The allocator's free list, its available frames and memory, before and after freeing `p` in order.
  ghost predicate FreedFrom(p: seq<Frame>, free0: seq<Frame>, avail0: set<Frame>, m0: Memory,
                            free: seq<Frame>, avail: set<Frame>, m: Memory) {
    free == Reverse(p) + free0 && avail == avail0 + Elements(p) && |m| == |m0| &&
    forall f: Frame :: f as nat < |m| && f !in p ==> m[f] == m0[f]
  }

  lemma FreedNothing(free: seq<Frame>, avail: set<Frame>, m: Memory)
    ensures FreedFrom([], free, avail, m, free, avail, m)
  {
  }

  lemma FreedThenFreed(p: seq<Frame>, q: seq<Frame>, free0: seq<Frame>, avail0: set<Frame>, m0: Memory,
                       free1: seq<Frame>, avail1: set<Frame>, m1: Memory, free: seq<Frame>, avail: set<Frame>,
                       m: Memory)
    requires FreedFrom(p, free0, avail0, m0, free1, avail1, m1) && FreedFrom(q, free1, avail1, m1, free, avail, m)
    ensures FreedFrom(p + q, free0, avail0, m0, free, avail, m)
  {
    ReverseAppend(p, q);
    assert Reverse(q) + (Reverse(p) + free0) == (Reverse(q) + Reverse(p)) + free0;
  }

  ghost predicate Freeable(p: seq<Frame>, usable: set<Frame>, avail: set<Frame>) {
    NoDup(p) && forall f :: f in p ==> f in usable && f !in avail
  }

  lemma FreeableParts(p: seq<Frame>, q: seq<Frame>, usable: set<Frame>, avail: set<Frame>)
    requires Freeable(p + q, usable, avail)
    ensures Freeable(p, usable, avail) && Freeable(q, usable, avail + Elements(p)) && Disjoint(p, q)
  {
    NoDupConcat(p, q);
    assert forall f :: f in p ==> f in p + q;
    assert forall f :: f in q ==> f in p + q;
  }

  lemma LastFreeable(p: seq<Frame>, f: Frame, usable: set<Frame>, avail: set<Frame>)
    requires Freeable(p + [f], usable, avail)
    ensures f !in p && f in usable && f !in avail
  {
    NoDupConcat(p, [f]);
    assert f in p + [f];
  }

  lemma NoPushes(m: Memory, table: Frame, height: nat)
    requires height > 0
    ensures Pushes(m, table, height, 0) == []
  {
  }

  // Before slot i: what is already freed, what this slot frees, and that this slot still reads as it did.
  lemma NextSlot(m0: Memory, table: Frame, height: nat, i: nat, width: nat, usable: set<Frame>, free0: seq<Frame>,
                 avail0: set<Frame>, free: seq<Frame>, avail: set<Frame>, m: Memory)
    requires height > 0 && i < width <= 512 && table as nat < |m0|
    requires Freeable(Pushes(m0, table, height, width), usable, avail0) && table !in Pushes(m0, table, height, width)
    requires FreedFrom(Pushes(m0, table, height, i), free0, avail0, m0, free, avail, m)
    ensures table as nat < |m| && m[table] == m0[table]
    ensures var e := m[table][i];
      Pushes(m0, table, height, i + 1) == Pushes(m0, table, height, i) + SlotPushes(m, e, height) &&
      Freeable(SlotPushes(m, e, height), usable, avail)
  {
    var p, all := Pushes(m0, table, height, i), Pushes(m0, table, height, width);
    var q := SlotPushes(m0, m0[table][i], height);
    PushesPrefix(m0, table, height, i, width);
    PushesPrefix(m0, table, height, i + 1, width);
    assert Pushes(m0, table, height, i + 1) == p + q;
    assert all == (p + q) + all[|p + q|..];
    hide Pushes, SlotPushes;
    FreeableParts(p + q, all[|p + q|..], usable, avail0);
    FreeableParts(p, q, usable, avail0);
    assert table !in p;
    SlotPushesFrame(m0, m, m0[table][i], height);
  }

  lemma SlotPushesFrame(m: Memory, m': Memory, e: Word, height: nat)
    requires height > 0 && |m'| == |m|
    requires forall f :: f in SlotPushes(m, e, height) && f as nat < |m| ==> m'[f] == m[f]
    ensures SlotPushes(m', e, height) == SlotPushes(m, e, height)
  {
    if e.present && height > 1 {
      assert SlotPushes(m, e, height) == Pushes(m, e.frame, height - 1, 512) + [e.frame];
      PushesFrame(m, m', e.frame, height - 1, 512);
    }
  }

  // ---- What is left ----

  function Without(tabs: Tables, s: Space): Tables {
    map n | n in tabs && SpaceOf(n) != s :: tabs[n]
  }

  // The pages of s are frames that were handed out: in use, and not tables.
  ghost predicate PagesIn(m: Memory, tabs: Tables, s: Space, out: set<Frame>) {
    forall d :: SpaceOf(d) == s && d !in tabs && Held(m, tabs, d).Some? ==> Held(m, tabs, d).value in out
  }

  lemma FreedFramesFreeable(m: Memory, tabs: Tables, kernel: Frame, pml4: Frame, usable: set<Frame>, avail: set<Frame>)
    requires TablesOk(m, tabs, kernel) && Root(User(pml4)) in tabs && HeldOnce(m, tabs, User(pml4))
    requires PagesIn(m, tabs, User(pml4), usable - avail - tabs.Values)
    requires tabs.Values !! avail && forall n :: n in tabs && SpaceOf(n).User? ==> tabs[n] in usable
    ensures Freeable(AllPushes(m, pml4), usable, avail)
  {
    hide TablesOk, HeldOnce, AllPushes;
    AllPushesNoDup(m, tabs, kernel, pml4);
    forall f | f in AllPushes(m, pml4) ensures f in usable && f !in avail {
      AllPushesExact(m, tabs, kernel, pml4, f);
    }
  }

  // No table of another address space is freed.
  lemma OthersNotFreed(m: Memory, tabs: Tables, kernel: Frame, pml4: Frame, out: set<Frame>, n: Node)
    requires TablesOk(m, tabs, kernel) && Root(User(pml4)) in tabs
    requires PagesIn(m, tabs, User(pml4), out) && tabs.Values !! out
    requires n in tabs && SpaceOf(n) != User(pml4)
    ensures tabs[n] !in AllPushes(m, pml4)
  {
    hide AllPushes, SlotsOk;
    AllPushesExact(m, tabs, kernel, pml4, tabs[n]);
    assert tabs[n] in tabs.Values;
  }

  lemma WithoutSlot(m: Memory, m': Memory, tabs: Tables, kernel: Frame, s: Space, n: Node, i: nat)
    requires TablesOk(m, tabs, kernel) && s.User? && n in tabs && SpaceOf(n) != s && Depth(n) < 3 && i < 512
    requires |m'| == |m| && m'[tabs[n]] == m[tabs[n]]
    ensures tabs[n] as nat < |m'| && SlotOk(m', Without(tabs, s), n, i)
  {
    SlotsOkAt(m, tabs, n, i);
    assert SpaceOf(Child(n, i)) != s;
  }

  lemma WithoutSpace(m: Memory, m': Memory, tabs: Tables, kernel: Frame, s: Space)
    requires TablesOk(m, tabs, kernel) && s.User? && |m'| == |m|
    requires forall n :: n in tabs && SpaceOf(n) != s ==> m'[tabs[n]] == m[tabs[n]]
    ensures TablesOk(m', Without(tabs, s), kernel)
  {
    var tabs' := Without(tabs, s);
    forall n | n in tabs' ensures NodeOk(m', tabs', n) { NodeWithin(m, tabs, kernel, n); }
    forall n, i: nat | n in tabs' && Depth(n) < 3 && i < 512 ensures SlotOk(m', tabs', n, i) {
      WithoutSlot(m, m', tabs, kernel, s, n, i);
    }
  }

  lemma WithoutLookup(m: Memory, m': Memory, tabs: Tables, kernel: Frame, s: Space, x: Space, q: Path)
    requires TablesOk(m, tabs, kernel) && s.User? && |m'| == |m|
    requires forall n :: n in tabs && SpaceOf(n) != s ==> m'[tabs[n]] == m[tabs[n]]
    requires x != s && Root(x) in tabs && PathOk(q)
    ensures Lookup(m', tabs[Root(x)], q) == Lookup(m, tabs[Root(x)], q)
  {
    WithoutSpace(m, m', tabs, kernel, s);
    hide TablesOk, Lookup;
    LookupIsFlat(m, tabs, kernel, x, q);
    LookupIsFlat(m', Without(tabs, s), kernel, x, q);
    SpaceOfTable(x, q);
  }

  lemma SpaceOfTable(x: Space, q: Path)
    ensures SpaceOf(TableOf(x, q)) == if Shared(Root(x), q.i4) then Kernel else x
  {
    var n3 := Child(Root(x), q.i4);
    assert SpaceOf(n3) == if Shared(Root(x), q.i4) then Kernel else x;
    assert SpaceOf(Sub(n3, q.i3)) == SpaceOf(n3);
  }

  lemma WithoutOpen(m: Memory, m': Memory, tabs: Tables, kernel: Frame, s: Space)
    requires TablesOk(m, tabs, kernel) && |m'| == |m|
    requires forall n :: n in tabs && SpaceOf(n) != s ==> m'[tabs[n]] == m[tabs[n]]
    ensures StaysOpen(m, tabs, m', Without(tabs, s), true)
  {
    forall n, i | n in Without(tabs, s) && OpenSlot(m, tabs, n, i) ensures OpenSlot(m', Without(tabs, s), n, i) {
    }
  }

  // After the address space is gone every other one translates as before.
  ghost predicate Destroyed(m: Memory, tabs: Tables, m': Memory, tabs': Tables, s: Space) {
    tabs' == Without(tabs, s) &&
    (forall x, j :: Root(x) in tabs && x != s ==> Entry(m', tabs[Root(x)], j) == Entry(m, tabs[Root(x)], j)) &&
    forall x, q :: Root(x) in tabs && x != s && PathOk(q) ==>
      Root(x) in tabs' && tabs'[Root(x)] == tabs[Root(x)] && Lookup(m', tabs[Root(x)], q) == Lookup(m, tabs[Root(x)], q)
  }

  lemma ValueIn(tabs: Tables, n: Node)
    requires n in tabs
    ensures tabs[n] in tabs.Values
  {
  }

  // Which frames are tables, available and handed out afterwards.
  lemma FramesAfter(m: Memory, tabs: Tables, kernel: Frame, pml4: Frame, usable: set<Frame>, avail: set<Frame>)
    requires TablesOk(m, tabs, kernel) && Root(User(pml4)) in tabs && tabs.Values !! avail
    requires PagesIn(m, tabs, User(pml4), usable - avail - tabs.Values)
    ensures var freed := Elements(AllPushes(m, pml4)); var tabs' := Without(tabs, User(pml4));
      tabs'.Values !! avail + freed &&
      usable - (avail + freed) - tabs'.Values == usable - avail - tabs.Values - freed
  {
    hide TablesOk, AllPushes;
    var s := User(pml4);
    var freed, tabs' := Elements(AllPushes(m, pml4)), Without(tabs, s);
    forall f | f in tabs'.Values ensures f !in avail + freed && f in tabs.Values {
      var n :| n in tabs' && tabs'[n] == f;
      assert tabs[n] in tabs.Values;
      OthersNotFreed(m, tabs, kernel, pml4, usable - avail - tabs.Values, n);
    }
    forall f | f in tabs.Values && f !in tabs'.Values ensures f in freed {
      var n :| n in tabs && tabs[n] == f;
      if SpaceOf(n) != s { ValueIn(tabs', n); }
      HeldTable(m, tabs, n);
      AllPushesExact(m, tabs, kernel, pml4, f);
    }
  }

  lemma DestroyedFrom(m: Memory, m': Memory, tabs: Tables, kernel: Frame, pml4: Frame, out: set<Frame>,
                      free0: seq<Frame>, avail0: set<Frame>, free: seq<Frame>, avail: set<Frame>)
    requires TablesOk(m, tabs, kernel) && Root(User(pml4)) in tabs
    requires PagesIn(m, tabs, User(pml4), out) && tabs.Values !! out
    requires FreedFrom(AllPushes(m, pml4), free0, avail0, m, free, avail, m')
    ensures TablesOk(m', Without(tabs, User(pml4)), kernel)
    ensures Destroyed(m, tabs, m', Without(tabs, User(pml4)), User(pml4))
    ensures StaysOpen(m, tabs, m', Without(tabs, User(pml4)), true)
  {
    hide Lookup, SlotsOk, Injective, AllPushes, PagesIn, StaysOpen;
    var s := User(pml4);
    forall n | n in tabs && SpaceOf(n) != s ensures m'[tabs[n]] == m[tabs[n]] {
      OthersNotFreed(m, tabs, kernel, pml4, out, n);
      NodeWithin(m, tabs, kernel, n);
    }
    WithoutSpace(m, m', tabs, kernel, s);
    WithoutOpen(m, m', tabs, kernel, s);
    forall x, q | Root(x) in tabs && x != s && PathOk(q)
      ensures Lookup(m', tabs[Root(x)], q) == Lookup(m, tabs[Root(x)], q)
    {
      WithoutLookup(m, m', tabs, kernel, s, x, q);
    }
  }

  // ---- When a process's pages are its own ----

  // In terms of the walk alone: every page of the lower half is a frame from `out`, and no two
  // pages share one.
  ghost predicate PrivatePages(m: Memory, pml4: Frame, out: set<Frame>) {
    (forall p :: OwnPage(m, pml4, p) ==> Lookup(m, pml4, p).value.frame in out) &&
    forall p, q | OwnPage(m, pml4, p) && OwnPage(m, pml4, q) ::
      (Lookup(m, pml4, p).value.frame == Lookup(m, pml4, q).value.frame ==> p == q)
  }

  predicate OwnPage(m: Memory, pml4: Frame, p: Path) {
    PathOk(p) && p.i4 < 256 && Lookup(m, pml4, p).Some?
  }

  lemma LeafPath(m: Memory, tabs: Tables, kernel: Frame, pml4: Frame, d: Node) returns (p: Path)
    requires TablesOk(m, tabs, kernel) && SpaceOf(d) == User(pml4) && d !in tabs && Held(m, tabs, d).Some?
    ensures OwnPage(m, pml4, p) && d == Sub(TableOf(User(pml4), p), p.i1)
    ensures Lookup(m, pml4, p).value.frame == Held(m, tabs, d).value
  {
    hide SlotsOk, Injective, Lookup;
    var n1 := d.up;
    NodeWithin(m, tabs, kernel, n1);
    NodeWithin(m, tabs, kernel, n1.up);
    NodeWithin(m, tabs, kernel, n1.up.up);
    var root := n1.up.up.up;
    assert Depth(n1.up) == 2 && Depth(n1.up.up) == 1 && Depth(root) == 0;
    assert SpaceOf(n1) == SpaceOf(n1.up) == SpaceOf(n1.up.up) == SpaceOf(root);
    NodeWithin(m, tabs, kernel, root);
    p := Path(n1.up.up.index, n1.up.index, n1.index, d.index);
    LookupIsFlat(m, tabs, kernel, User(pml4), p);
    LeafIsHeld(m, tabs, d);
  }

  lemma LeafIsHeld(m: Memory, tabs: Tables, d: Node)
    requires d !in tabs && Held(m, tabs, d).Some?
    ensures d.Sub? && LeafAt(m, tabs, d.up, d.index).Some?
    ensures LeafAt(m, tabs, d.up, d.index).value.frame == Held(m, tabs, d).value
  {
  }

  lemma PrivateIsHeldOnce(m: Memory, tabs: Tables, kernel: Frame, pml4: Frame, out: set<Frame>)
    requires TablesOk(m, tabs, kernel) && tabs.Values !! out && PrivatePages(m, pml4, out)
    ensures HeldOnce(m, tabs, User(pml4)) && PagesIn(m, tabs, User(pml4), out)
  {
    hide SlotsOk, Lookup;
    var s := User(pml4);
    forall d | SpaceOf(d) == s && d !in tabs && Held(m, tabs, d).Some? ensures Held(m, tabs, d).value in out {
      var p := LeafPath(m, tabs, kernel, pml4, d);
    }
    forall d, d' | SpaceOf(d) == s && SpaceOf(d') == s && Held(m, tabs, d).Some? &&
      Held(m, tabs, d) == Held(m, tabs, d')
      ensures d == d'
    {
      if d in tabs { ValueIn(tabs, d); }
      if d' in tabs { ValueIn(tabs, d'); }
      if d !in tabs && d' !in tabs {
        var p := LeafPath(m, tabs, kernel, pml4, d);
        var q := LeafPath(m, tabs, kernel, pml4, d');
      } else if d in tabs && d' in tabs {
        InjectiveAt(tabs, d, d');
      }
    }
  }
}
