// Whole histories of pmm_alloc_page and pmm_free_page, over the sets of frames the allocator has.

module FrameRuns {
  import opened PageFormat
  import opened Sequences
  import opened PhysicalMemory

  datatype Event = Alloc(frame: Frame) | Free(frame: Frame) | Nothing

  // What becomes of the frames available.
  ghost predicate Step(e: Event, usable: set<Frame>, a: set<Frame>, b: set<Frame>) {
    match e
    case Alloc(f) => f in a && b == a - {f}
    case Free(f) => f in usable && f !in a && b == a + {f}
    case Nothing => b == a
  }

  // A history that starts with every usable frame available.
  ghost predicate Run(es: seq<Event>, states: seq<set<Frame>>, usable: set<Frame>) {
    |states| == |es| + 1 && states[0] == usable &&
    forall i :: 0 <= i < |es| ==> Step(es[i], usable, states[i], states[i + 1])
  }

  // The frames handed out and not given back.
  function Taken(es: seq<Event>): set<Frame> {
    if es == [] then {}
    else
      match es[|es| - 1]
      case Alloc(f) => Taken(es[..|es| - 1]) + {f}
      case Free(f) => Taken(es[..|es| - 1]) - {f}
      case Nothing => Taken(es[..|es| - 1])
  }

  // Conservation: every usable frame is either available or handed out, never both.
  lemma {:induction false} Conserved(es: seq<Event>, states: seq<set<Frame>>, usable: set<Frame>)
    requires Run(es, states, usable)
    ensures states[|es|] + Taken(es) == usable && states[|es|] !! Taken(es)
    decreases |es|
  {
    if es != [] {
      var last := |es| - 1;
      Conserved(es[..last], states[..last + 1], usable);
      assert Step(es[last], usable, states[last], states[last + 1]);
    }
  }

  lemma {:induction false} StaysTaken(es: seq<Event>, states: seq<set<Frame>>, usable: set<Frame>, i: nat, k: nat)
    requires Run(es, states, usable) && i < k <= |es| && es[i].Alloc?
    requires forall j :: i < j < k ==> es[j] != Free(es[i].frame)
    ensures es[i].frame !in states[k]
    decreases k
  {
    assert Step(es[k - 1], usable, states[k - 1], states[k]);
    if i < k - 1 { StaysTaken(es, states, usable, i, k - 1); }
  }

  // No frame is handed out twice without being given back in between.
  lemma NoDoubleHandOut(es: seq<Event>, states: seq<set<Frame>>, usable: set<Frame>, i: nat, j: nat)
    requires Run(es, states, usable) && i < j < |es| && es[i].Alloc? && es[j] == es[i]
    ensures exists k :: i < k < j && es[k] == Free(es[i].frame)
  {
    assert Step(es[j], usable, states[j], states[j + 1]);
    if forall k :: i < k < j ==> es[k] != Free(es[i].frame) {
      StaysTaken(es, states, usable, i, j);
    }
  }

  // The allocator's callers: allocate, or give back the frame of an earlier allocation.
  datatype Call = Take | GiveBack(frame: Frame)

  // What becomes of a call; only a panic leaves an allocation unanswered.
  ghost predicate Becomes(c: Call, taken: set<Frame>, avail: set<Frame>, e: Event) {
    match c
    case Take => if avail == {} then e == Nothing else e.Alloc?
    case GiveBack(f) => e == if f in taken then Free(f) else Nothing
  }

  ghost predicate Answers(calls: seq<Call>, es: seq<Event>, states: seq<set<Frame>>) {
    |es| <= |calls| && |es| < |states| &&
    forall i :: 0 <= i < |es| ==> Becomes(calls[i], Taken(es[..i]), states[i], es[i])
  }

  lemma OneMore(calls: seq<Call>, es: seq<Event>, states: seq<set<Frame>>, usable: set<Frame>, e: Event,
                next: set<Frame>)
    requires Run(es, states, usable) && Answers(calls, es, states) && |es| < |calls|
    requires Step(e, usable, states[|es|], next) && Becomes(calls[|es|], Taken(es), states[|es|], e)
    ensures Run(es + [e], states + [next], usable) && Answers(calls, es + [e], states + [next])
    ensures (es + [e])[..|es|] == es
  {
    hide Step, Becomes, Taken;
    var es' := es + [e];
    assert es'[..|es|] == es;
    forall i | 0 <= i < |es'| ensures Becomes(calls[i], Taken(es'[..i]), (states + [next])[i], es'[i]) {
      assert es'[..i] == es[..i];
    }
  }

  // pmm.c at work on a fresh allocator: whatever is asked of it makes one of these histories, as long
  // as callers give back only what they were given.
  method Serve(pmm: Pmm, calls: seq<Call>) returns (ghost es: seq<Event>, ghost states: seq<set<Frame>>)
    requires pmm.Valid() && pmm.Avail() == pmm.Usable()
    modifies pmm
    ensures pmm.Valid() && Run(es, states, pmm.Usable()) && states[|es|] == pmm.Avail()
    ensures |es| == |calls| && Answers(calls, es, states)
  {
    hide Step, Becomes, Pmm.Valid, Pmm.Avail, Taken;
    es, states := [], [pmm.Avail()];
    NoneTaken();
    var taken: set<Frame> := {};
    for i := 0 to |calls|
      invariant pmm.Valid() && Run(es, states, pmm.Usable()) && states[|es|] == pmm.Avail() && |es| == i
      invariant taken == Taken(es) && Answers(calls, es, states)
    {
      Conserved(es, states, pmm.Usable());
      ghost var e;
      taken, e := ServeOne(pmm, calls[i], taken);
      OneMore(calls, es, states, pmm.Usable(), e, pmm.Avail());
      es, states := es + [e], states + [pmm.Avail()];
      TakenNext(es);
    }
  }

  lemma NoneTaken()
    ensures Taken([]) == {}
  {
  }

  lemma TakenNext(es: seq<Event>)
    requires es != []
    ensures var e := es[|es| - 1];
      Taken(es) == match e
                   case Alloc(f) => Taken(es[..|es| - 1]) + {f}
                   case Free(f) => Taken(es[..|es| - 1]) - {f}
                   case Nothing => Taken(es[..|es| - 1])
  {
  }

  method ServeOne(pmm: Pmm, c: Call, taken: set<Frame>) returns (taken': set<Frame>, ghost e: Event)
    requires pmm.Valid() && taken <= pmm.Usable() && taken !! pmm.Avail()
    modifies pmm
    ensures pmm.Valid() && Step(e, pmm.Usable(), old(pmm.Avail()), pmm.Avail())
    ensures Becomes(c, taken, old(pmm.Avail()), e)
    ensures taken' == match e case Alloc(f) => taken + {f} case Free(f) => taken - {f} case Nothing => taken
  {
    hide Pmm.Valid, Pmm.Avail;
    taken', e := taken, Nothing;
    match c
    case Take =>
      var f := pmm.AllocPage();
      if f != None { taken', e := taken + {f.value}, Alloc(f.value); }
    case GiveBack(f) =>
      if f in taken {
        pmm.FreePage(f);
        taken', e := taken - {f}, Free(f);
      }
  }
}
