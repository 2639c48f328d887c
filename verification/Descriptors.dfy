// fd.c: the table of open files and the descriptor tables of the processes.

module Descriptors {
  import opened Sequences

  datatype OpenFile = OpenFile(vnode: nat, flags: int, offset: nat, refcount: nat)

  // global_file_table, and for each process its table of descriptors, each with its of_idx.
  datatype Tables = Tables(files: seq<Option<OpenFile>>, fds: map<nat, seq<Option<nat>>>)

  // The slot a descriptor number stands for, if it is open.
  function Slot(t: Tables, p: nat, n: int): Option<nat> {
    if p in t.fds && 0 <= n < |t.fds[p]| then t.fds[p][n] else None
  }

  predicate Occupied(files: seq<Option<OpenFile>>, s: nat) { s < |files| && files[s].Some? }

  ghost predicate Opened(t: Tables, s: nat) { exists p, n :: Slot(t, p, n) == Some(s) }

  // Every descriptor has an occupied slot of its own, whose count is one.
  ghost predicate Exact(t: Tables) {
    (forall p, n :: Slot(t, p, n).Some? ==>
      Occupied(t.files, Slot(t, p, n).value) && t.files[Slot(t, p, n).value].value.refcount == 1) &&
    forall p, n, q, k | Slot(t, p, n).Some? && Slot(t, q, k).Some? ::
      (Slot(t, p, n) == Slot(t, q, k) ==> p == q && n == k)
  }

  // No slot is occupied without a descriptor, except perhaps one.
  ghost predicate Onto(t: Tables, except: Option<nat>) {
    forall s: nat :: Occupied(t.files, s) && Some(s) != except ==> Opened(t, s)
  }

  // Tables can be doubled.
  ghost predicate Sized(t: Tables) { |t.files| > 0 && forall p :: p in t.fds ==> |t.fds[p]| > 0 }

  // Descriptors and occupied slots are in bijection.
  ghost predicate Ok(t: Tables) { Sized(t) && Exact(t) && Onto(t, None) }

  // process_unpack_fd
  function FileOf(t: Tables, p: nat, n: int): Option<OpenFile> {
    match Slot(t, p, n)
    case None => None
    case Some(s) => if s < |t.files| then t.files[s] else None
  }

  // Descriptor n of process p is what it is now; all others are as they were.
  ghost predicate OnlyChanged(t: Tables, t': Tables, p: nat, n: int, f: Option<OpenFile>) {
    forall q, k :: FileOf(t', q, k) == if q == p && k == n then f else FileOf(t, q, k)
  }

  ghost predicate SameFiles(t: Tables, t': Tables) { forall q, k :: FileOf(t', q, k) == FileOf(t, q, k) }

  // What stands in a slot, however long the table.
  function FileAt(t: Tables, s: nat): Option<OpenFile> { if s < |t.files| then t.files[s] else None }

  // Tables may have grown; no descriptor and no slot changed.
  ghost predicate SameSlots(t: Tables, t': Tables) {
    (forall q, k :: Slot(t', q, k) == Slot(t, q, k)) && forall s: nat :: FileAt(t', s) == FileAt(t, s)
  }

  // The file went to the lowest free slot s, and the slot to the lowest free number n of the process.
  ghost predicate Gains(t: Tables, t': Tables, p: nat, n: int, s: nat, f: OpenFile) {
    FileAt(t, s) == None && (forall i: nat :: i < s ==> FileAt(t, i).Some?) && f.refcount == 1 &&
    0 <= n && Slot(t, p, n) == None && (forall k :: 0 <= k < n ==> Slot(t, p, k).Some?) &&
    (forall q, k :: Slot(t', q, k) == if q == p && k == n then Some(s) else Slot(t, q, k)) &&
    forall i: nat :: FileAt(t', i) == if i == s then Some(f) else FileAt(t, i)
  }

  // The first half of that: the file stands in the lowest free slot.
  ghost predicate Entered(t: Tables, t': Tables, s: nat, f: OpenFile) {
    FileAt(t, s) == None && (forall i: nat :: i < s ==> FileAt(t, i).Some?) && t'.fds == t.fds &&
    forall i: nat :: FileAt(t', i) == if i == s then Some(f) else FileAt(t, i)
  }

  // The slot became the descriptor's.
  ghost predicate Named(t: Tables, t': Tables, p: nat, n: nat, s: nat) {
    Slot(t, p, n) == None && (forall k :: 0 <= k < n ==> Slot(t, p, k).Some?) && t'.files == t.files &&
    forall q, k :: Slot(t', q, k) == if q == p && k == n then Some(s) else Slot(t, q, k)
  }

  lemma EnteredAndNamed(t: Tables, t1: Tables, t2: Tables, t': Tables, p: nat, n: nat, s: nat, f: OpenFile)
    requires Entered(t, t1, s, f) && SameSlots(t1, t2) && Named(t2, t', p, n, s) && f.refcount == 1
    ensures Gains(t, t', p, n, s, f)
  {
    assert forall q, k :: Slot(t1, q, k) == Slot(t, q, k);
    assert forall i: nat :: FileAt(t', i) == FileAt(t2, i);
    hide Slot, FileAt;
  }

  lemma EnteredAndUndone(t: Tables, t1: Tables, t2: Tables, s: nat, f: OpenFile)
    requires Entered(t, t1, s, f) && SameSlots(t1, t2) && s < |t2.files|
    ensures SameSlots(t, t2.(files := t2.files[s := None]))
  {
    var t' := t2.(files := t2.files[s := None]);
    assert forall q, k :: Slot(t1, q, k) == Slot(t, q, k) && Slot(t', q, k) == Slot(t2, q, k);
    assert forall i: nat :: FileAt(t', i) == if i == s then None else FileAt(t2, i);
    hide Slot, FileAt;
  }

  // One count less; the slot is emptied when none is left.
  function Dropped(f: Option<OpenFile>): Option<OpenFile> {
    if f.Some? && f.value.refcount > 1 then Some(f.value.(refcount := f.value.refcount - 1)) else None
  }

  // The number was given back, and its slot lost a count.
  ghost predicate Loses(t: Tables, t': Tables, p: nat, n: int) {
    Slot(t, p, n).Some? &&
    (forall q, k :: Slot(t', q, k) == if q == p && k == n then None else Slot(t, q, k)) &&
    forall i: nat :: FileAt(t', i) == if Some(i) == Slot(t, p, n) then Dropped(FileAt(t, i)) else FileAt(t, i)
  }

  // ---- The lowest free entry ----

  function LowestFree<T>(s: seq<Option<T>>): nat {
    if s == [] || s[0] == None then 0 else 1 + LowestFree(s[1..])
  }

  lemma {:induction false} LowestFreeAt<T>(s: seq<Option<T>>, i: nat)
    requires i <= |s| && (i < |s| ==> s[i] == None) && forall j :: 0 <= j < i ==> s[j] != None
    ensures LowestFree(s) == i
    decreases |s|
  {
    if i > 0 { LowestFreeAt(s[1..], i - 1); }
  }

  // The search loops of of_open and process_fd_open.
  method FindFree<T>(s: seq<Option<T>>) returns (i: nat)
    ensures i <= |s| && i == LowestFree(s) && (i < |s| ==> s[i] == None)
    ensures forall j :: 0 <= j < i ==> s[j] != None
  {
    i := 0;
    while i < |s| && s[i].Some?
      invariant i <= |s| && forall j :: 0 <= j < i ==> s[j] != None
    {
      i := i + 1;
    }
    LowestFreeAt(s, i);
  }

  function Doubled<T>(s: seq<Option<T>>): seq<Option<T>> { s + seq(|s|, _ => None) }

  // A doubled table has its first free entry where the old one had it, or just behind the old end.
  lemma DoubledFree<T>(s: seq<Option<T>>)
    requires s != []
    ensures LowestFree(Doubled(s)) == LowestFree(s) < |Doubled(s)|
  {
    var i := 0;
    while i < |s| && s[i].Some?
      invariant i <= |s| && forall j :: 0 <= j < i ==> s[j] != None
    {
      i := i + 1;
    }
    LowestFreeAt(s, i);
    LowestFreeAt(Doubled(s), i);
  }

  // The table after x took the lowest free entry, doubled first if there was none.
  function Put<T>(s: seq<Option<T>>, x: T): seq<Option<T>>
    requires s != []
  {
    DoubledFree(s);
    var r := if LowestFree(s) < |s| then s else Doubled(s);
    r[LowestFree(r) := Some(x)]
  }

  lemma PutIs<T>(s: seq<Option<T>>, r: seq<Option<T>>, n: nat, x: T)
    requires s != [] && n == LowestFree(s) == LowestFree(r) < |r| && r == if n < |s| then s else Doubled(s)
    ensures Put(s, x) == r[n := Some(x)]
  {
    hide LowestFree, Doubled;
  }

  // How many entries are free.
  function Free<T>(s: seq<Option<T>>): nat {
    if s == [] then 0 else Free(s[1..]) + if s[0] == None then 1 else 0
  }

  lemma {:induction false} FreeSome<T(!new)>(s: seq<Option<T>>)
    ensures LowestFree(s) <= |s| && (LowestFree(s) < |s| ==> s[LowestFree(s)] == None)
    ensures Free(s) > 0 <==> LowestFree(s) < |s|
    ensures Free(s) > 0 <==> None in s
    decreases |s|
  {
    if s != [] { FreeSome(s[1..]); }
  }

  lemma {:induction false} FreeConcat<T>(s: seq<Option<T>>, t: seq<Option<T>>)
    ensures Free(s + t) == Free(s) + Free(t)
    decreases |s|
  {
    if s == [] {
      assert s + t == t;
    } else {
      assert (s + t)[1..] == s[1..] + t;
      FreeConcat(s[1..], t);
    }
  }

  lemma {:induction false} FreeEmpty<T>(n: nat)
    ensures Free<T>(seq(n, _ => None)) == n
  {
    if n > 0 {
      assert seq<Option<T>>(n, _ => None)[1..] == seq(n - 1, _ => None);
      FreeEmpty<T>(n - 1);
    }
  }

  lemma {:induction false} FreeTaken<T>(s: seq<Option<T>>, i: nat, x: T)
    requires i < |s| && s[i] == None
    ensures Free(s[i := Some(x)]) == Free(s) - 1
    decreases |s|
  {
    var t := s[i := Some(x)];
    if i == 0 {
      assert t[1..] == s[1..];
    } else {
      assert t[1..] == s[1..][i - 1 := Some(x)];
      FreeTaken(s[1..], i - 1, x);
    }
  }

  // One entry less is free; a full table has become twice as long.
  lemma PutCounts<T(!new)>(s: seq<Option<T>>, x: T)
    requires s != []
    ensures Free(Put(s, x)) == if Free(s) > 0 then Free(s) - 1 else |s| - 1
    ensures |Put(s, x)| == if Free(s) > 0 then |s| else 2 * |s|
  {
    FreeSome(s);
    DoubledFree(s);
    var r := if LowestFree(s) < |s| then s else Doubled(s);
    FreeSome(r);
    FreeConcat(s, seq(|s|, _ => None));
    FreeEmpty<T>(|s|);
    FreeTaken(r, LowestFree(r), x);
  }

  // ---- Growing, opening, closing ----

  lemma GrowFiles(t: Tables, except: Option<nat>)
    requires Sized(t) && Exact(t) && Onto(t, except)
    ensures var t' := t.(files := Doubled(t.files)); Sized(t') && Exact(t') && Onto(t', except) && SameFiles(t, t')
  {
    var t' := t.(files := Doubled(t.files));
    assert forall p, n :: Slot(t', p, n) == Slot(t, p, n);
    forall s: nat | Occupied(t'.files, s) && Some(s) != except ensures Opened(t', s) {
      assert Occupied(t.files, s);
      var p, n :| Slot(t, p, n) == Some(s);
      assert Slot(t', p, n) == Some(s);
    }
  }

  lemma GrowFds(t: Tables, p: nat, except: Option<nat>)
    requires Sized(t) && Exact(t) && Onto(t, except) && p in t.fds
    ensures var t' := t.(fds := t.fds[p := Doubled(t.fds[p])]);
      Sized(t') && Exact(t') && Onto(t', except) && SameFiles(t, t')
  {
    var t' := t.(fds := t.fds[p := Doubled(t.fds[p])]);
    assert forall q, n :: Slot(t', q, n) == Slot(t, q, n);
    forall s: nat | Occupied(t'.files, s) && Some(s) != except ensures Opened(t', s) {
      assert Occupied(t.files, s);
      var q, n :| Slot(t, q, n) == Some(s);
      assert Slot(t', q, n) == Some(s);
    }
  }

  // of_open's step: a file enters a free slot no descriptor names.
  lemma PutFile(t: Tables, s: nat, f: OpenFile)
    requires Ok(t) && s < |t.files| && t.files[s] == None
    ensures var t' := t.(files := t.files[s := Some(f)]);
      Sized(t') && Exact(t') && Onto(t', Some(s)) && SameFiles(t, t') && !Opened(t', s)
  {
    var t' := t.(files := t.files[s := Some(f)]);
    assert forall p, n :: Slot(t', p, n) == Slot(t, p, n);
    forall i: nat | Occupied(t'.files, i) && i != s ensures Opened(t', i) {
      assert Occupied(t.files, i);
      var p, n :| Slot(t, p, n) == Some(i);
      assert Slot(t', p, n) == Some(i);
    }
  }

  // process_fd_open's step: a free descriptor takes the slot.
  lemma PutFd(t: Tables, p: nat, n: nat, s: nat)
    requires Sized(t) && Exact(t) && Onto(t, Some(s)) && !Opened(t, s)
    requires Occupied(t.files, s) && t.files[s].value.refcount == 1
    requires p in t.fds && n < |t.fds[p]| && t.fds[p][n] == None
    ensures var t' := t.(fds := t.fds[p := t.fds[p][n := Some(s)]]); Ok(t') && OnlyChanged(t, t', p, n, t.files[s])
  {
    var t' := t.(fds := t.fds[p := t.fds[p][n := Some(s)]]);
    assert forall q, k :: Slot(t', q, k) == if q == p && k == n then Some(s) else Slot(t, q, k);
    forall i: nat | Occupied(t'.files, i) ensures Opened(t', i) {
      if i == s {
        assert Slot(t', p, n) == Some(s);
      } else {
        var q, k :| Slot(t, q, k) == Some(i);
        assert Slot(t', q, k) == Some(i);
      }
    }
  }

  // of_close on a file nobody names: the way back after a failure.
  lemma DropFile(t: Tables, s: nat)
    requires Sized(t) && Exact(t) && Onto(t, Some(s)) && !Opened(t, s) && s < |t.files|
    ensures var t' := t.(files := t.files[s := None]); Ok(t') && SameFiles(t, t')
  {
    var t' := t.(files := t.files[s := None]);
    assert forall p, n :: Slot(t', p, n) == Slot(t, p, n);
    forall i: nat | Occupied(t'.files, i) ensures Opened(t', i) {
      assert Occupied(t.files, i);
      var p, n :| Slot(t, p, n) == Some(i);
      assert Slot(t', p, n) == Some(i);
    }
  }

  // process_fd_close: the slot is emptied and the descriptor taken back.
  lemma Close(t: Tables, p: nat, n: nat)
    requires Ok(t) && Slot(t, p, n).Some?
    ensures var t' := Tables(t.files[Slot(t, p, n).value := None], t.fds[p := t.fds[p][n := None]]);
      Ok(t') && OnlyChanged(t, t', p, n, None)
  {
    var s := Slot(t, p, n).value;
    var t' := Tables(t.files[s := None], t.fds[p := t.fds[p][n := None]]);
    assert forall q, k :: Slot(t', q, k) == if q == p && k == n then None else Slot(t, q, k);
    forall i: nat | Occupied(t'.files, i) ensures Opened(t', i) {
      assert Occupied(t.files, i);
      var q, k :| Slot(t, q, k) == Some(i);
      assert Slot(t', q, k) == Some(i);
    }
  }

  lemma DoubledSlots(t: Tables, p: nat)
    requires p in t.fds
    ensures SameSlots(t, t.(fds := t.fds[p := Doubled(t.fds[p])]))
  {
  }

  lemma PutIsNamed(t: Tables, p: nat, n: nat, s: nat)
    requires p in t.fds && n < |t.fds[p]| && t.fds[p][n] == None && forall k :: 0 <= k < n ==> t.fds[p][k] != None
    ensures Named(t, t.(fds := t.fds[p := t.fds[p][n := Some(s)]]), p, n, s)
  {
  }

  // The lowest number not in use (POSIX.1-2017, XSH section 2.14).
  ghost predicate IsLowest(t: Tables, p: nat, n: int) {
    0 <= n && FileOf(t, p, n) == None && forall k :: 0 <= k < n ==> FileOf(t, p, k).Some?
  }

  lemma LowestIsLowest(t: Tables, p: nat)
    requires Ok(t) && p in t.fds
    ensures IsLowest(t, p, LowestFree(t.fds[p]))
  {
    var s, i := t.fds[p], 0;
    while i < |s| && s[i].Some?
      invariant i <= |s| && forall j :: 0 <= j < i ==> s[j] != None && FileOf(t, p, j).Some?
    {
      assert Slot(t, p, i).Some?;
      i := i + 1;
    }
    LowestFreeAt(s, i);
  }

  ghost predicate Unused(t: Tables, p: nat) { forall n :: FileOf(t, p, n) == None }

  // A process that has the numbers below n gets n next.
  lemma NextNumber(t: Tables, t': Tables, p: nat, r: int, n: nat)
    requires IsLowest(t, p, r) && forall k :: (FileOf(t, p, k).Some? <==> 0 <= k < n)
    requires forall k :: k != r ==> FileOf(t', p, k) == FileOf(t, p, k)
    ensures r == n && (FileOf(t', p, r).Some? ==> forall k :: (FileOf(t', p, k).Some? <==> 0 <= k < n + 1))
  {
    hide FileOf;
    assert FileOf(t, p, n) == None;
  }

  lemma SameThenChanged(t: Tables, t1: Tables, t': Tables, p: nat, n: int, f: Option<OpenFile>)
    requires SameFiles(t, t1) && OnlyChanged(t1, t', p, n, f)
    ensures OnlyChanged(t, t', p, n, f)
  {
    hide FileOf;
  }

  lemma SameThenSame(t: Tables, t1: Tables, t': Tables)
    requires SameFiles(t, t1) && SameFiles(t1, t')
    ensures SameFiles(t, t')
  {
    hide FileOf;
  }

  // What an open, a close, or a call that failed or only made room has done.
  datatype Event = DidOpen(p: nat, n: int, file: OpenFile) | DidClose(p: nat, n: int) | Nothing

  ghost predicate Step(e: Event, a: Tables, b: Tables) {
    match e
    case DidOpen(p, n, f) => exists s :: Gains(a, b, p, n, s, f)
    case DidClose(p, n) => Loses(a, b, p, n)
    case Nothing => SameSlots(a, b)
  }

  // What the kernel's allocator and the file system answer during one open.
  datatype Answers = Answers(file: bool, vnode: Option<nat>, moreFiles: bool, fd: bool, moreFds: bool)

  // When process_fd_open finds a slot and a number.
  predicate OpenSucceeds(t: Tables, p: nat, a: Answers)
    requires p in t.fds
  {
    a.file && a.vnode.Some? && a.fd && (None in t.files || a.moreFiles) && (None in t.fds[p] || a.moreFds)
  }

  // How many of these opens succeed until one fails, when so many entries of so many are free in the table
  // of files and in the process's own. A full table that can grow is doubled.
  function Successes(freeFiles: nat, files: nat, freeFds: nat, fds: nat, answers: seq<Answers>): nat
    requires files > 0 && fds > 0
    decreases |answers|
  {
    if answers == [] then 0
    else
      var a := answers[0];
      if a.file && a.vnode.Some? && a.fd && (freeFiles > 0 || a.moreFiles) && (freeFds > 0 || a.moreFds)
      then 1 + Successes(if freeFiles > 0 then freeFiles - 1 else files - 1, if freeFiles > 0 then files else 2 * files,
                         if freeFds > 0 then freeFds - 1 else fds - 1, if freeFds > 0 then fds else 2 * fds,
                         answers[1..])
      else 0
  }

  // All of them if every answer is yes, or if there is room from the start and the other answers are.
  predicate AllYes(freeFiles: nat, freeFds: nat, answers: seq<Answers>) {
    forall i :: 0 <= i < |answers| ==>
      answers[i].file && answers[i].vnode.Some? && answers[i].fd &&
      (freeFiles >= |answers| || answers[i].moreFiles) && (freeFds >= |answers| || answers[i].moreFds)
  }

  lemma {:induction false} AllSucceed(freeFiles: nat, files: nat, freeFds: nat, fds: nat, answers: seq<Answers>)
    requires files > 0 && fds > 0 && AllYes(freeFiles, freeFds, answers)
    ensures Successes(freeFiles, files, freeFds, fds, answers) == |answers|
    decreases |answers|
  {
    if answers != [] {
      AllSucceed(if freeFiles > 0 then freeFiles - 1 else files - 1, if freeFiles > 0 then files else 2 * files,
                 if freeFds > 0 then freeFds - 1 else fds - 1, if freeFds > 0 then fds else 2 * fds, answers[1..]);
    }
  }

  class FileTables {
    var files: seq<Option<OpenFile>>
    var fds: map<nat, seq<Option<nat>>>

    ghost function State(): Tables
      reads this
    {
      Tables(files, fds)
    }

    ghost predicate Valid()
      reads this
    {
      Ok(State())
    }

    // fd_init
    constructor ()
      ensures Valid() && files == seq(32, _ => None) && fds == map[]
    {
      files := seq(32, _ => None);
      fds := map[];
    }

    // process_fd_init
    method Init(p: nat, ok: bool) returns (r: bool)
      requires Valid() && p !in fds
      modifies this
      ensures Valid() && r == ok && files == old(files)
      ensures ok ==> fds == old(fds)[p := seq(16, _ => None)] && SameFiles(old(State()), State())
      ensures Step(Nothing, old(State()), State())
      ensures !ok ==> fds == old(fds)
    {
      r := ok;
      if ok {
        ghost var t := State();
        fds := fds[p := seq(16, _ => None)];
        NewProcess(t, p);
      }
    }

    // of_open: the index of the slot, or -1.
    method OfOpen(a: Answers, flags: int) returns (i: int)
      requires Valid()
      modifies `files
      ensures i >= 0 <==> a.file && a.vnode.Some? && (LowestFree(old(files)) < |old(files)| || a.moreFiles)
      ensures i >= 0 ==>
        i == LowestFree(old(files)) < |files| && files[i] == Some(OpenFile(a.vnode.value, flags, 0, 1)) &&
        Sized(State()) && Exact(State()) && Onto(State(), Some(i)) && !Opened(State(), i)
      ensures i < 0 ==> i == -1 && files == old(files)
      ensures SameFiles(old(State()), State())
      ensures i >= 0 ==> Entered(old(State()), State(), i, OpenFile(a.vnode.value, flags, 0, 1))
      ensures i >= 0 ==> files == Put(old(files), OpenFile(a.vnode.value, flags, 0, 1))
    {
      if !a.file || a.vnode == None {
        return -1;
      }
      hide LowestFree, Put;
      ghost var t := State();
      i := FindFree(files);
      while i == |files|
        invariant i == LowestFree(files) == LowestFree(t.files) <= |files| && (i < |files| ==> files[i] == None)
        invariant Ok(State()) && SameFiles(t, State())
        invariant if i == |files| then files == t.files else i < |t.files| || a.moreFiles
        invariant files == if i < |t.files| || i == |files| then t.files else Doubled(t.files)
        invariant fds == t.fds && forall s: nat :: FileAt(State(), s) == FileAt(t, s)
        decreases if i == |files| then 1 else 0
      {
        if !a.moreFiles {
          return -1;
        }
        GrowFiles(State(), None);
        DoubledFree(files);
        files := Doubled(files);
        i := FindFree(files);
      }
      ghost var t1 := State();
      PutFile(t1, i, OpenFile(a.vnode.value, flags, 0, 1));
      PutIs(t.files, files, i, OpenFile(a.vnode.value, flags, 0, 1));
      files := files[i := Some(OpenFile(a.vnode.value, flags, 0, 1))];
      SameThenSame(t, t1, State());
    }

    // of_close
    method OfClose(i: nat) returns (r: int)
      requires i < |files| && (files[i].Some? ==> files[i].value.refcount > 0)
      modifies `files
      ensures r == if old(files[i]) == None then -1 else 0
      ensures old(files[i]) == None ==> files == old(files)
      ensures old(files[i]).Some? ==>
        var f := old(files[i]).value;
        files == old(files)[i := if f.refcount == 1 then None else Some(f.(refcount := f.refcount - 1))]
    {
      if files[i] == None {
        return -1;
      }
      var f := files[i].value;
      f := f.(refcount := f.refcount - 1);
      files := files[i := Some(f)];
      if f.refcount == 0 {
        files := files[i := None];
      }
      r := 0;
    }

    // The way out when no descriptor can be had: of_close.
    method Undo(i: nat)
      requires Sized(State()) && Exact(State()) && Onto(State(), Some(i)) && !Opened(State(), i)
      requires Occupied(files, i) && files[i].value.refcount == 1
      modifies `files
      ensures Valid() && SameFiles(old(State()), State()) && files == old(files)[i := None]
    {
      DropFile(State(), i);
      var _ := OfClose(i);
    }

    // process_fd_open's search for a number, which extends a full table.
    method FindNumber(p: nat, moreFds: bool, ghost i: nat) returns (n: nat, ok: bool)
      requires p in fds && Sized(State()) && Exact(State()) && Onto(State(), Some(i)) && !Opened(State(), i)
      modifies `fds
      ensures fds.Keys == old(fds).Keys && forall q :: q in fds && q != p ==> fds[q] == old(fds)[q]
      ensures ok <==> None in old(fds)[p] || moreFds
      ensures fds[p] == if None in old(fds)[p] || !ok then old(fds)[p] else Doubled(old(fds)[p])
      ensures ok ==> n < |fds[p]| && fds[p][n] == None && forall k :: 0 <= k < n ==> fds[p][k] != None
      ensures n == LowestFree(fds[p]) == LowestFree(old(fds)[p])
      ensures Sized(State()) && Exact(State()) && Onto(State(), Some(i)) && !Opened(State(), i)
      ensures SameFiles(old(State()), State()) && SameSlots(old(State()), State())
    {
      hide Slot, FileOf, FileAt, Opened, Exact, Onto, SameSlots, LowestFree;
      ghost var t := State();
      SameReflexive(t);
      FreeSome(fds[p]);
      n := FindFree(fds[p]);
      while n == |fds[p]|
        invariant fds.Keys == t.fds.Keys && forall q :: q in fds && q != p ==> fds[q] == t.fds[q]
        invariant n == LowestFree(fds[p]) == LowestFree(t.fds[p]) <= |fds[p]| && (n < |fds[p]| ==> fds[p][n] == None)
        invariant forall k :: 0 <= k < n ==> fds[p][k] != None
        invariant Sized(State()) && Exact(State()) && Onto(State(), Some(i)) && !Opened(State(), i)
        invariant SameFiles(t, State()) && SameSlots(t, State())
        invariant if n == |fds[p]| then fds == t.fds else n < |t.fds[p]| || moreFds
        invariant fds[p] == if n < |t.fds[p]| || n == |fds[p]| then t.fds[p] else Doubled(t.fds[p])
        decreases if n == |fds[p]| then 1 else 0
      {
        if !moreFds {
          return n, false;
        }
        GrowFds(State(), p, Some(i));
        DoubledFree(fds[p]);
        StillUnopened(State(), p, i);
        DoubledSlots(State(), p);
        fds := fds[p := Doubled(fds[p])];
        n := FindFree(fds[p]);
      }
      ok := true;
    }

    // process_fd_open: the lowest free number, or -1 and no descriptor of any process has changed.
    method FdOpen(p: nat, a: Answers, flags: int) returns (r: int)
      requires Valid() && p in fds
      modifies this
      ensures Valid() && fds.Keys == old(fds).Keys && forall q :: q in fds && q != p ==> fds[q] == old(fds)[q]
      ensures r >= 0 <==> a.file && a.vnode.Some? && a.fd && (None in old(files) || a.moreFiles) &&
                          (None in old(fds)[p] || a.moreFds)
      ensures r >= 0 ==> files == Put(old(files), OpenFile(a.vnode.value, flags, 0, 1))
      ensures r >= 0 ==> fds == old(fds)[p := Put(old(fds)[p], LowestFree(old(files)))]
      ensures r >= 0 ==> IsLowest(old(State()), p, r)
      ensures r >= 0 ==> OnlyChanged(old(State()), State(), p, r, Some(OpenFile(a.vnode.value, flags, 0, 1)))
      ensures r < 0 ==> r == -1 && SameFiles(old(State()), State())
      ensures Step(if r >= 0 then DidOpen(p, r, OpenFile(a.vnode.value, flags, 0, 1)) else Nothing, old(State()),
                   State())
    {
      hide Slot, FileOf, FileAt, Opened, Exact, Onto, OnlyChanged, Entered, Named, IsLowest, Gains, SameSlots;
      hide LowestFree, Put, Free;
      ghost var t := State();
      SameReflexive(t);
      FreeSome(files);
      FreeSome(fds[p]);
      var i := OfOpen(a, flags);
      if i < 0 {
        return -1;
      }
      ghost var t1, f := State(), OpenFile(a.vnode.value, flags, 0, 1);
      SameReflexive(t1);
      if !a.fd {
        EnteredAndUndone(t, t1, t1, i, f);
        Undo(i);
        return -1;
      }
      var n, ok := FindNumber(p, a.moreFds, i);
      SameThenSame(t, t1, State());
      if !ok {
        EnteredAndUndone(t, t1, State(), i, f);
        Undo(i);
        return -1;
      }
      ghost var t2 := State();
      PutFd(t2, p, n, i);
      PutIs(t.fds[p], fds[p], n, i as nat);
      fds := fds[p := fds[p][n := Some(i)]];
      SameThenChanged(t, t2, State(), p, n, files[i]);
      LowestIsLowest(t, p);
      PutIsNamed(t2, p, n, i);
      EnteredAndNamed(t, t1, t2, State(), p, n, i, f);
      r := n;
    }

    // process_fd_close
    method FdClose(p: nat, n: int) returns (r: int)
      requires Valid() && p in fds
      modifies this
      ensures Valid() && fds.Keys == old(fds).Keys
      ensures r == if old(FileOf(State(), p, n)).Some? then 0 else -1
      ensures OnlyChanged(old(State()), State(), p, n, None)
      ensures Step(if r == 0 then DidClose(p, n) else Nothing, old(State()), State())
    {
      if n < 0 || n >= |fds[p]| {
        return -1;
      }
      if fds[p][n] == None {
        return -1;
      }
      ghost var t := State();
      Close(t, p, n);
      var i := fds[p][n].value;
      assert Slot(t, p, n) == Some(i);
      var _ := OfClose(i);
      fds := fds[p := fds[p][n := None]];
      r := 0;
    }

    // process_unpack_fd
    method Unpack(p: nat, n: int) returns (f: Option<OpenFile>)
      requires Valid() && p in fds
      ensures f == FileOf(State(), p, n)
    {
      if n < 0 || n >= |fds[p]| {
        return None;
      }
      if fds[p][n] == None {
        return None;
      }
      assert Slot(State(), p, n) == fds[p][n];
      f := files[fds[p][n].value];
    }

    // process_fd_base: standard input, output and error, one after the other. It succeeds exactly when all
    // three opens do; those before the first that fails stay. A process without descriptors gets 0, 1 and 2.
    method FdBase(p: nat, a0: Answers, a1: Answers, a2: Answers, rdonly: int, wronly: int)
      returns (r: int, ghost es: seq<Event>, ghost states: seq<Tables>)
      requires Valid() && p in fds
      modifies this
      ensures Valid() && p in fds && Run(es, states) && states[0] == old(State()) && states[|es|] == State()
      ensures var n := Successes(Free(old(files)), |old(files)|, Free(old(fds)[p]), |old(fds)[p]|, [a0, a1, a2]);
        r == (if n == 3 then 0 else -1) && OpensOf(es, p, n, [a0, a1, a2], [rdonly, wronly, wronly]) &&
        (old(Unused(State(), p)) ==>
          forall k :: FileOf(State(), p, k) ==
            if 0 <= k < n then FileFor([a0, a1, a2][k], [rdonly, wronly, wronly][k]) else None)
      ensures AllYes(Free(old(files)), Free(old(fds)[p]), [a0, a1, a2]) ==> r == 0
      ensures old(Unused(State(), p)) && r == 0 ==> forall n :: (FileOf(State(), p, n).Some? <==> n in {0, 1, 2})
      ensures forall n :: old(FileOf(State(), p, n)).Some? ==> FileOf(State(), p, n) == old(FileOf(State(), p, n))
      ensures forall q, n :: q != p ==> FileOf(State(), q, n) == FileOf(old(State()), q, n)
    {
      hide *;
      StateIs();
      ValidIs();
      ghost var t, answers, flags := State(), [a0, a1, a2], [rdonly, wronly, wronly];
      Opening(t, p, answers, flags);
      r := -1;
      es, states := [], [t];
      var fd;
      fd, es, states := BaseOpen(t, p, 0, a0, rdonly, answers, flags, es, states);
      if fd < 0 {
        BaseFailed(t, State(), p, 0, answers, flags, es, states);
        StateIs();
        return;
      }
      fd, es, states := BaseOpen(t, p, 1, a1, wronly, answers, flags, es, states);
      if fd < 0 {
        BaseFailed(t, State(), p, 1, answers, flags, es, states);
        StateIs();
        return;
      }
      fd, es, states := BaseOpen(t, p, 2, a2, wronly, answers, flags, es, states);
      if fd < 0 {
        BaseFailed(t, State(), p, 2, answers, flags, es, states);
        StateIs();
        return;
      }
      BaseOpened(t, State(), p, answers, flags, es, states);
      StateIs();
      r := 0;
    }

    // One of the three, after k that succeeded.
    method BaseOpen(ghost t: Tables, p: nat, ghost k: nat, a: Answers, flags: int, ghost answers: seq<Answers>,
                    ghost given: seq<int>, ghost es: seq<Event>, ghost states: seq<Tables>)
      returns (r: int, ghost es': seq<Event>, ghost states': seq<Tables>)
      requires Valid() && Begun(t, State(), p, k, answers, given, es, states) && k < |answers| == |given|
      requires a == answers[k] && flags == given[k]
      modifies this
      ensures Valid() && if r >= 0 then Begun(t, State(), p, k + 1, answers, given, es', states')
                         else Ended(t, State(), p, k, answers, given, es', states')
    {
      hide *;
      BegunParts(t, State(), p, k, answers, given, es, states);
      StateIs();
      Given(State(), p, a, flags);
      ghost var t1 := State();
      r := FdOpen(p, a, flags);
      StateIs();
      if r >= 0 {
        es' := es + [DidOpen(p, r, OpenFile(a.vnode.value, flags, 0, 1))];
        BegunMore(t, t1, State(), p, k, answers, given, es, states, r, OpenFile(a.vnode.value, flags, 0, 1));
      } else {
        es' := es + [Nothing];
        BegunStops(t, t1, State(), p, k, answers, given, es, states);
      }
      states' := states + [State()];
    }

    lemma ValidIs()
      ensures Valid() <==> Ok(State())
    {
    }

    lemma StateIs()
      ensures State() == Tables(files, fds)
    {
    }
  }

  // The file an open with these answers is given.
  function FileFor(a: Answers, flags: int): Option<OpenFile> {
    if a.vnode == None then None else Some(OpenFile(a.vnode.value, flags, 0, 1))
  }

  // n opens of the process with these files, and after them nothing.
  ghost predicate OpensOf(es: seq<Event>, p: nat, n: nat, answers: seq<Answers>, flags: seq<int>) {
    n <= |es| && n <= |answers| && n <= |flags| &&
    forall i :: 0 <= i < |es| ==>
      if i < n then es[i].DidOpen? && es[i].p == p && Some(es[i].file) == FileFor(answers[i], flags[i])
      else es[i] == Nothing
  }

  // How many of the opens succeed from these tables on.
  function SuccessesFrom(t: Tables, p: nat, answers: seq<Answers>): nat
    requires p in t.fds && |t.files| > 0 && |t.fds[p]| > 0
  {
    Successes(Free(t.files), |t.files|, Free(t.fds[p]), |t.fds[p]|, answers)
  }

  // What n successful opens have made of the descriptors.
  ghost predicate FilesGiven(t: Tables, t': Tables, p: nat, n: nat, answers: seq<Answers>, flags: seq<int>) {
    n <= |answers| && n <= |flags| &&
    (Unused(t, p) ==>
      forall k :: FileOf(t', p, k) == if 0 <= k < n then FileFor(answers[k], flags[k]) else None) &&
    (forall k :: FileOf(t, p, k).Some? ==> FileOf(t', p, k) == FileOf(t, p, k)) &&
    forall q, k :: q != p ==> FileOf(t', q, k) == FileOf(t, q, k)
  }

  // n opens have succeeded, from t to t'; the others are to come.
  ghost predicate Begun(t: Tables, t': Tables, p: nat, n: nat, answers: seq<Answers>, flags: seq<int>, es: seq<Event>,
                        states: seq<Tables>) {
    p in t.fds && p in t'.fds && |t.files| > 0 && |t.fds[p]| > 0 && |t'.files| > 0 && |t'.fds[p]| > 0 &&
    Run(es, states) && states[0] == t && states[|es|] == t' && |es| == n && OpensOf(es, p, n, answers, flags) &&
    FilesGiven(t, t', p, n, answers, flags) &&
    SuccessesFrom(t, p, answers) == n + SuccessesFrom(t', p, answers[n..])
  }

  // n opens have succeeded and the next has failed.
  ghost predicate Ended(t: Tables, t': Tables, p: nat, n: nat, answers: seq<Answers>, flags: seq<int>, es: seq<Event>,
                        states: seq<Tables>) {
    p in t.fds && p in t'.fds && |t.files| > 0 && |t.fds[p]| > 0 &&
    Run(es, states) && states[0] == t && states[|es|] == t' && OpensOf(es, p, n, answers, flags) &&
    FilesGiven(t, t', p, n, answers, flags) && SuccessesFrom(t, p, answers) == n
  }

  lemma Opening(t: Tables, p: nat, answers: seq<Answers>, flags: seq<int>)
    requires Ok(t) && p in t.fds && |answers| == |flags|
    ensures Begun(t, t, p, 0, answers, flags, [], [t])
  {
    OkMatched(t);
    assert answers[0..] == answers;
    hide Successes, Matched, FileOf, Ok;
    OkSizes(t, p);
  }

  lemma OkSizes(t: Tables, p: nat)
    requires Ok(t) && p in t.fds
    ensures |t.files| > 0 && |t.fds[p]| > 0
  {
  }

  lemma BegunParts(t: Tables, t': Tables, p: nat, n: nat, answers: seq<Answers>, flags: seq<int>, es: seq<Event>,
                   states: seq<Tables>)
    requires Begun(t, t', p, n, answers, flags, es, states)
    ensures p in t'.fds && |t'.files| > 0 && |t'.fds[p]| > 0
  {
  }

  lemma Given(t: Tables, p: nat, a: Answers, flags: int)
    requires p in t.fds
    ensures OpenSucceeds(t, p, a) <==>
      a.file && a.vnode.Some? && a.fd && (None in t.files || a.moreFiles) && (None in t.fds[p] || a.moreFds)
    ensures a.vnode.Some? ==> FileFor(a, flags) == Some(OpenFile(a.vnode.value, flags, 0, 1))
  {
  }

  lemma RunLonger(es: seq<Event>, states: seq<Tables>, e: Event, t: Tables)
    requires Run(es, states) && Step(e, states[|es|], t)
    ensures Run(es + [e], states + [t])
  {
    hide Step, Matched;
    var es', states' := es + [e], states + [t];
    forall i | 0 <= i < |es'| ensures Step(es'[i], states'[i], states'[i + 1]) {
      if i < |es| { assert es'[i] == es[i] && states'[i] == states[i] && states'[i + 1] == states[i + 1]; }
    }
  }

  // The next of the opens has succeeded.
  lemma BegunMore(t: Tables, t1: Tables, t': Tables, p: nat, n: nat, answers: seq<Answers>, flags: seq<int>,
                  es: seq<Event>, states: seq<Tables>, r: int, f: OpenFile)
    requires Begun(t, t1, p, n, answers, flags, es, states) && n < |answers| == |flags|
    requires Some(f) == FileFor(answers[n], flags[n]) && OpenSucceeds(t1, p, answers[n])
    requires Step(DidOpen(p, r, f), t1, t') && IsLowest(t1, p, r) && OnlyChanged(t1, t', p, r, Some(f))
    requires |t1.files| > 0 && p in t1.fds && |t1.fds[p]| > 0 && t'.files == Put(t1.files, f)
    requires t'.fds == t1.fds[p := Put(t1.fds[p], LowestFree(t1.files))]
    ensures Begun(t, t', p, n + 1, answers, flags, es + [DidOpen(p, r, f)], states + [t'])
  {
    SuccessesMore(t1, t', p, answers[n..], f, LowestFree(t1.files));
    assert answers[n..][1..] == answers[n + 1..];
    hide SuccessesFrom, Put, LowestFree, FilesGiven, Step, OpenSucceeds, OnlyChanged, IsLowest;
    FilesMore(t, t1, t', p, n, answers, flags, r, f);
    RunLonger(es, states, DidOpen(p, r, f), t');
  }

  lemma SuccessesMore(t1: Tables, t': Tables, p: nat, answers: seq<Answers>, f: OpenFile, s: nat)
    requires answers != [] && p in t1.fds && OpenSucceeds(t1, p, answers[0]) && |t1.files| > 0 && |t1.fds[p]| > 0
    requires t'.files == Put(t1.files, f) && t'.fds == t1.fds[p := Put(t1.fds[p], s)]
    ensures |t'.files| > 0 && |t'.fds[p]| > 0
    ensures SuccessesFrom(t1, p, answers) == 1 + SuccessesFrom(t', p, answers[1..])
  {
    hide Put, Free;
    PutCounts(t1.files, f);
    PutCounts(t1.fds[p], s);
    FreeSome(t1.files);
    FreeSome(t1.fds[p]);
  }

  lemma FilesMore(t: Tables, t1: Tables, t': Tables, p: nat, n: nat, answers: seq<Answers>, flags: seq<int>, r: int,
                  f: OpenFile)
    requires FilesGiven(t, t1, p, n, answers, flags) && n < |answers| && n < |flags|
    requires forall k :: 0 <= k < n ==> FileFor(answers[k], flags[k]).Some?
    requires Some(f) == FileFor(answers[n], flags[n]) && IsLowest(t1, p, r) && OnlyChanged(t1, t', p, r, Some(f))
    ensures FilesGiven(t, t', p, n + 1, answers, flags)
  {
    hide FileOf, FileFor;
    if Unused(t, p) {
      assert FileOf(t1, p, n) == None;
      assert r == n;
    }
    forall k | FileOf(t, p, k).Some? ensures FileOf(t', p, k) == FileOf(t, p, k) {
      assert FileOf(t1, p, k).Some?;
    }
  }

  // The next of the opens has failed.
  lemma BegunStops(t: Tables, t1: Tables, t': Tables, p: nat, n: nat, answers: seq<Answers>, flags: seq<int>,
                   es: seq<Event>, states: seq<Tables>)
    requires Begun(t, t1, p, n, answers, flags, es, states) && n < |answers| == |flags|
    requires p in t1.fds && !OpenSucceeds(t1, p, answers[n]) && p in t'.fds
    requires Step(Nothing, t1, t') && SameFiles(t1, t')
    ensures Ended(t, t', p, n, answers, flags, es + [Nothing], states + [t'])
  {
    SuccessesStop(t1, p, answers[n..]);
    hide SuccessesFrom, Step, OpenSucceeds, FileOf;
    RunLonger(es, states, Nothing, t');
  }

  lemma SuccessesStop(t: Tables, p: nat, answers: seq<Answers>)
    requires answers != [] && p in t.fds && !OpenSucceeds(t, p, answers[0]) && |t.files| > 0 && |t.fds[p]| > 0
    ensures SuccessesFrom(t, p, answers) == 0
  {
    FreeSome(t.files);
    FreeSome(t.fds[p]);
    hide Free;
  }

  lemma BaseFailed(t: Tables, t': Tables, p: nat, n: nat, answers: seq<Answers>, flags: seq<int>, es: seq<Event>,
                   states: seq<Tables>)
    requires Ended(t, t', p, n, answers, flags, es, states) && n < |answers| == |flags|
    ensures p in t.fds && |t.files| > 0 && |t.fds[p]| > 0 && p in t'.fds && Run(es, states)
    ensures states[0] == t && states[|es|] == t' && OpensOf(es, p, n, answers, flags)
    ensures Successes(Free(t.files), |t.files|, Free(t.fds[p]), |t.fds[p]|, answers) == n
    ensures !AllYes(Free(t.files), Free(t.fds[p]), answers)
    ensures Unused(t, p) ==>
      forall k :: FileOf(t', p, k) == if 0 <= k < n then FileFor(answers[k], flags[k]) else None
    ensures forall k :: FileOf(t, p, k).Some? ==> FileOf(t', p, k) == FileOf(t, p, k)
    ensures forall q, k :: q != p ==> FileOf(t', q, k) == FileOf(t, q, k)
  {
    hide Successes, AllYes, Free, Run, OpensOf, FileOf, FileFor;
    if AllYes(Free(t.files), Free(t.fds[p]), answers) {
      AllSucceed(Free(t.files), |t.files|, Free(t.fds[p]), |t.fds[p]|, answers);
    }
  }

  lemma BaseOpened(t: Tables, t': Tables, p: nat, answers: seq<Answers>, flags: seq<int>, es: seq<Event>,
                   states: seq<Tables>)
    requires |answers| == |flags| && Begun(t, t', p, |answers|, answers, flags, es, states)
    ensures p in t.fds && |t.files| > 0 && |t.fds[p]| > 0 && p in t'.fds && Run(es, states)
    ensures states[0] == t && states[|es|] == t' && OpensOf(es, p, |answers|, answers, flags)
    ensures Successes(Free(t.files), |t.files|, Free(t.fds[p]), |t.fds[p]|, answers) == |answers|
    ensures Unused(t, p) ==>
      forall k :: FileOf(t', p, k) == if 0 <= k < |answers| then FileFor(answers[k], flags[k]) else None
    ensures Unused(t, p) ==> forall k :: (FileOf(t', p, k).Some? <==> 0 <= k < |answers|)
    ensures forall k :: FileOf(t, p, k).Some? ==> FileOf(t', p, k) == FileOf(t, p, k)
    ensures forall q, k :: q != p ==> FileOf(t', q, k) == FileOf(t, q, k)
  {
    hide Free, Run, FileOf, FileFor;
    assert answers[|answers|..] == [];
    forall k | 0 <= k < |answers| ensures FileFor(answers[k], flags[k]).Some? { assert es[k].DidOpen?; }
  }

  lemma StillUnopened(t: Tables, p: nat, s: nat)
    requires p in t.fds && !Opened(t, s)
    ensures !Opened(t.(fds := t.fds[p := Doubled(t.fds[p])]), s)
  {
    var t' := t.(fds := t.fds[p := Doubled(t.fds[p])]);
    assert forall q, k :: Slot(t', q, k) == Slot(t, q, k);
  }

  lemma NewProcess(t: Tables, p: nat)
    requires Ok(t) && p !in t.fds
    ensures var t' := t.(fds := t.fds[p := seq(16, _ => None)]); Ok(t') && SameFiles(t, t')
  {
    var t' := t.(fds := t.fds[p := seq(16, _ => None)]);
    assert forall q, k :: Slot(t', q, k) == Slot(t, q, k);
    forall i: nat | Occupied(t'.files, i) ensures Opened(t', i) {
      var q, k :| Slot(t, q, k) == Some(i);
      assert Slot(t', q, k) == Some(i);
    }
  }

  // ---- Whole histories ----

  // A history from tables in order; that they stay so is proved, not assumed.
  ghost predicate Run(es: seq<Event>, states: seq<Tables>) {
    |states| == |es| + 1 && Matched(states[0]) && forall i :: 0 <= i < |es| ==> Step(es[i], states[i], states[i + 1])
  }

  // Descriptors and occupied slots are in bijection, and every count is one.
  ghost predicate Matched(t: Tables) { Exact(t) && Onto(t, None) }

  // The same, read off slots and what stands in them.
  ghost predicate Paired(t: Tables) {
    (forall p, n :: Slot(t, p, n).Some? ==>
      FileAt(t, Slot(t, p, n).value).Some? && FileAt(t, Slot(t, p, n).value).value.refcount == 1) &&
    (forall p, n, q, k | Slot(t, p, n).Some? && Slot(t, q, k).Some? ::
      (Slot(t, p, n) == Slot(t, q, k) ==> p == q && n == k)) &&
    forall s: nat :: FileAt(t, s).Some? ==> Opened(t, s)
  }

  lemma MatchedIsPaired(t: Tables)
    ensures Matched(t) <==> Paired(t)
    ensures forall p, n :: FileOf(t, p, n) == if Slot(t, p, n) == None then None else FileAt(t, Slot(t, p, n).value)
  {
    hide Opened, Slot;
    assert forall s: nat :: Occupied(t.files, s) <==> FileAt(t, s).Some?;
  }

  lemma GainsMatched(t: Tables, t': Tables, p: nat, n: int, s: nat, f: OpenFile)
    requires Matched(t) && Gains(t, t', p, n, s, f)
    ensures Matched(t') && IsLowest(t, p, n) && OnlyChanged(t, t', p, n, Some(f))
  {
    MatchedIsPaired(t);
    MatchedIsPaired(t');
    hide Slot, FileAt, FileOf, Matched;
    forall i: nat | FileAt(t', i).Some? ensures Opened(t', i) {
      if i == s {
        assert Slot(t', p, n) == Some(s);
      } else {
        var q, k :| Slot(t, q, k) == Some(i);
        assert Slot(t', q, k) == Some(i);
      }
    }
  }

  lemma LosesMatched(t: Tables, t': Tables, p: nat, n: int)
    requires Matched(t) && Loses(t, t', p, n)
    ensures Matched(t') && FileOf(t, p, n).Some? && OnlyChanged(t, t', p, n, None)
  {
    MatchedIsPaired(t);
    MatchedIsPaired(t');
    hide Slot, FileAt, FileOf, Matched;
    forall i: nat | FileAt(t', i).Some? ensures Opened(t', i) {
      var q, k :| Slot(t, q, k) == Some(i);
      assert Slot(t', q, k) == Some(i);
    }
  }

  lemma SameMatched(t: Tables, t': Tables)
    requires Matched(t) && SameSlots(t, t')
    ensures Matched(t') && SameFiles(t, t')
  {
    MatchedIsPaired(t);
    MatchedIsPaired(t');
    hide Slot, FileAt, FileOf, Matched;
    forall i: nat | FileAt(t', i).Some? ensures Opened(t', i) {
      var q, k :| Slot(t, q, k) == Some(i);
      assert Slot(t', q, k) == Some(i);
    }
  }

  // What the last event that names a descriptor says of it.
  function LastFile(es: seq<Event>, p: nat, n: int, before: Option<OpenFile>): Option<OpenFile> {
    if es == [] then before
    else
      match es[|es| - 1]
      case DidOpen(q, k, f) => if q == p && k == n then Some(f) else LastFile(es[..|es| - 1], p, n, before)
      case DidClose(q, k) => if q == p && k == n then None else LastFile(es[..|es| - 1], p, n, before)
      case Nothing => LastFile(es[..|es| - 1], p, n, before)
  }

  lemma StepMatched(e: Event, a: Tables, b: Tables, p: nat, n: int)
    requires Matched(a) && Step(e, a, b)
    ensures Matched(b) && FileOf(b, p, n) == LastFile([e], p, n, FileOf(a, p, n))
    ensures e.DidOpen? ==> IsLowest(a, e.p, e.n)
  {
    hide Matched, FileOf, Gains, Loses, SameSlots;
    assert [e][..0] == [];
    match e
    case DidOpen(q, k, f) =>
      var s :| Gains(a, b, q, k, s, f);
      GainsMatched(a, b, q, k, s, f);
    case DidClose(q, k) => LosesMatched(a, b, q, k);
    case Nothing => SameMatched(a, b);
  }

  // After any history descriptors and files still match, and a descriptor's file is what the last
  // event naming it says.
  lemma {:induction false} RunFiles(es: seq<Event>, states: seq<Tables>, p: nat, n: int)
    requires Run(es, states)
    ensures Matched(states[|es|]) && FileOf(states[|es|], p, n) == LastFile(es, p, n, FileOf(states[0], p, n))
    decreases |es|
  {
    hide FileOf, Matched, Step;
    if es != [] {
      var last := |es| - 1;
      RunFiles(es[..last], states[..last + 1], p, n);
      StepMatched(es[last], states[last], states[last + 1], p, n);
      assert [es[last]][..0] == [];
    }
  }

  // An open number is never handed out again, and two descriptors never share a slot.
  lemma RunDistinct(es: seq<Event>, states: seq<Tables>, p: nat, n: int, q: nat, k: int)
    requires Run(es, states) && (p != q || n != k)
    ensures var t := states[|es|];
      Slot(t, p, n).Some? ==>
        Slot(t, p, n) != Slot(t, q, k) && FileOf(t, p, n).Some? && FileOf(t, p, n).value.refcount == 1
    ensures es != [] && es[|es| - 1].DidOpen? && es[|es| - 1].p == p && es[|es| - 1].n == n ==>
      LastFile(es[..|es| - 1], p, n, FileOf(states[0], p, n)) == None
  {
    RunFiles(es, states, p, n);
    if es != [] {
      hide FileOf, Matched, Step;
      var last := |es| - 1;
      RunFiles(es[..last], states[..last + 1], p, n);
      StepMatched(es[last], states[last], states[last + 1], p, n);
    }
  }

  // What a process asks for. Opens and closes by a process that has no table yet do not occur.
  datatype Call = StartUp(p: nat, ok: bool) | OpenPath(p: nat, answers: Answers, flags: int) | CloseFd(p: nat, n: int)

  // What becomes of a call.
  predicate Becomes(c: Call, t: Tables, e: Event) {
    match c
    case StartUp(_, _) => e == Nothing
    case OpenPath(p, a, flags) =>
      if p in t.fds && OpenSucceeds(t, p, a)
      then e.DidOpen? && e.p == p && e.file == OpenFile(a.vnode.value, flags, 0, 1)
      else e == Nothing
    case CloseFd(p, n) => e == if FileOf(t, p, n).Some? then DidClose(p, n) else Nothing
  }

  // fd.c at work: whatever is asked of it, in whatever order, makes one of these histories.
  method Serve(t: FileTables, calls: seq<Call>) returns (ghost es: seq<Event>, ghost states: seq<Tables>)
    requires t.Valid()
    modifies t
    ensures t.Valid() && Run(es, states) && states[0] == old(t.State()) && states[|es|] == t.State()
    ensures |es| == |calls| && forall i :: 0 <= i < |calls| ==> Becomes(calls[i], states[i], es[i])
  {
    OkMatched(t.State());
    hide Ok, Step, Matched, FileOf, Becomes;
    es, states := [], [t.State()];
    for i := 0 to |calls|
      invariant t.Valid() && Run(es, states) && states[0] == old(t.State()) && states[|es|] == t.State()
      invariant |es| == i && forall j :: 0 <= j < i ==> Becomes(calls[j], states[j], es[j])
    {
      ghost var e := ServeOne(t, calls[i]);
      es, states := es + [e], states + [t.State()];
    }
  }

  method ServeOne(t: FileTables, c: Call) returns (ghost e: Event)
    requires t.Valid()
    modifies t
    ensures t.Valid() && Step(e, old(t.State()), t.State()) && Becomes(c, old(t.State()), e)
  {
    SameReflexive(t.State());
    NoTable(t.State());
    hide Ok, Gains, Loses, SameSlots, FileOf, OpenSucceeds;
    e := Nothing;
    match c
    case StartUp(p, ok) =>
      if p !in t.fds {
        var _ := t.Init(p, ok);
      }
    case OpenPath(p, a, flags) =>
      if p in t.fds {
        var r := t.FdOpen(p, a, flags);
        if r >= 0 { e := DidOpen(p, r, OpenFile(a.vnode.value, flags, 0, 1)); }
      }
    case CloseFd(p, n) =>
      if p in t.fds {
        var r := t.FdClose(p, n);
        if r == 0 { e := DidClose(p, n); }
      }
  }

  lemma SameReflexive(t: Tables)
    ensures SameSlots(t, t)
  {
  }

  lemma NoTable(t: Tables)
    ensures forall p, n :: p !in t.fds ==> FileOf(t, p, n) == None
  {
  }

  lemma OkMatched(t: Tables)
    requires Ok(t)
    ensures Matched(t)
  {
  }
}
