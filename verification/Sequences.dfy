// Sequences without repetition, and the order in which a stack gives back what was pushed.

module Sequences {
  datatype Option<+T> = None | Some(value: T)

  ghost predicate NoDup<T>(s: seq<T>) {
    forall i, j :: 0 <= i < j < |s| ==> s[i] != s[j]
  }

  ghost predicate Disjoint<T>(s: seq<T>, t: seq<T>) {
    forall x :: x in s ==> x !in t
  }

  function Elements<T>(s: seq<T>): set<T> {
    set x | x in s
  }

  // The stack that results from pushing s[0], s[1], ... onto an empty one, top first.
  function Reverse<T>(s: seq<T>): seq<T> {
    if s == [] then [] else [s[|s| - 1]] + Reverse(s[..|s| - 1])
  }

  lemma {:induction false} ReverseElements<T(!new)>(s: seq<T>)
    ensures |Reverse(s)| == |s|
    ensures forall x :: x in Reverse(s) <==> x in s
  {
    if s != [] {
      ReverseElements(s[..|s| - 1]);
      assert s == s[..|s| - 1] + [s[|s| - 1]];
    }
  }

  lemma {:induction false} ReverseAppend<T>(s: seq<T>, t: seq<T>)
    ensures Reverse(s + t) == Reverse(t) + Reverse(s)
  {
    if t == [] {
      assert s + t == s;
    } else {
      var init, x := t[..|t| - 1], t[|t| - 1];
      ReverseAppend(s, init);
      assert (s + t)[..|s + t| - 1] == s + init && (s + t)[|s + t| - 1] == x;
      assert [x] + (Reverse(init) + Reverse(s)) == ([x] + Reverse(init)) + Reverse(s);
    }
  }

  lemma ReverseNext<T>(s: seq<T>, n: nat)
    requires n < |s|
    ensures Reverse(s[..n + 1]) == [s[n]] + Reverse(s[..n])
  {
    assert s[..n + 1][..n] == s[..n];
  }

  lemma {:induction false} ReverseNoDup<T(!new)>(s: seq<T>)
    requires NoDup(s)
    ensures NoDup(Reverse(s))
  {
    if s != [] {
      ReverseNoDup(s[..|s| - 1]);
      ReverseElements(s[..|s| - 1]);
      assert s[|s| - 1] !in s[..|s| - 1];
      var tail := Reverse(s[..|s| - 1]);
      forall i, j | 0 <= i < j < |s| ensures Reverse(s)[i] != Reverse(s)[j] {
        assert Reverse(s)[j] == tail[j - 1];
        assert tail[j - 1] in tail;
      }
    }
  }

  lemma NoDupConcat<T>(s: seq<T>, t: seq<T>)
    ensures NoDup(s + t) <==> NoDup(s) && NoDup(t) && Disjoint(s, t)
  {
    var st := s + t;
    if NoDup(s + t) {
      forall i, j | 0 <= i < j < |s| ensures s[i] != s[j] { assert st[i] != st[j]; }
      forall i, j | 0 <= i < j < |t| ensures t[i] != t[j] { assert st[|s| + i] != st[|s| + j]; }
      forall x | x in s ensures x !in t {
        var i :| 0 <= i < |s| && s[i] == x;
        forall j | 0 <= j < |t| ensures t[j] != x { assert st[i] != st[|s| + j]; }
      }
    }
    if NoDup(s) && NoDup(t) && Disjoint(s, t) {
      forall i, j | 0 <= i < j < |st| ensures st[i] != st[j] {
        if i < |s| <= j { assert s[i] in s && t[j - |s|] in t; }
      }
    }
  }
}
