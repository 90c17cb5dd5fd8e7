/** Moving elements inside an array, as the stacks of the compiler do. */
module Arrays {

  /** The element at depth d (0 is the top) moved to the top. */
  function Rolled<T>(s: seq<T>, d: nat): (r: seq<T>)
    requires d < |s|
    ensures |r| == |s|
  {
    s[..|s| - 1 - d] + s[|s| - d..] + [s[|s| - 1 - d]]
  }

  lemma RolledSame<T>(s: seq<T>, d: nat, x: T)
    requires d < |s|
    ensures x in s <==> x in Rolled(s, d)
  {
    assert s == s[..|s| - 1 - d] + [s[|s| - 1 - d]] + s[|s| - d..];
  }

  /** The element at depth d is the top now; those below it stand where they stood, those above it one lower. */
  lemma RolledAt<T>(s: seq<T>, d: nat, i: nat)
    requires d < |s| && i < |s|
    ensures Rolled(s, d)[i] == if i == |s| - 1 then s[|s| - 1 - d] else if i < |s| - 1 - d then s[i] else s[i + 1]
  {
  }

  /** The elements from `at` + 1 to n moved one place down. */
  function ShiftedDown<T>(s: seq<T>, at: nat, n: nat): (r: seq<T>)
    requires at <= n < |s|
    ensures |r| == |s|
  {
    s[..at] + s[at + 1..n + 1] + s[n..]
  }

  /** The elements from `at` to n - 1 moved one place up. */
  function ShiftedUp<T>(s: seq<T>, at: nat, n: nat): (r: seq<T>)
    requires at <= n < |s|
    ensures |r| == |s|
  {
    s[..at + 1] + s[at..n] + s[n + 1..]
  }

  lemma DownNext<T>(s: seq<T>, at: nat, n: nat)
    requires at <= n < |s| - 1
    ensures ShiftedDown(s, at, n)[n + 1] == s[n + 1]
    ensures ShiftedDown(s, at, n)[n := s[n + 1]] == ShiftedDown(s, at, n + 1)
  {
  }

  lemma UpNext<T>(s: seq<T>, at: nat, n: nat)
    requires 1 <= at <= n < |s|
    ensures ShiftedUp(s, at, n)[at - 1] == s[at - 1]
    ensures ShiftedUp(s, at, n)[at := s[at - 1]] == ShiftedUp(s, at - 1, n)
  {
  }

  /** Array.Copy, one place down. */
  method ShiftDown<T>(a: array<T>, at: nat, n: nat)
    requires at <= n < a.Length
    modifies a
    ensures a[..] == ShiftedDown(old(a[..]), at, n)
  {
    ghost var was := a[..];
    assert ShiftedDown(was, at, at) == was;
    var i := at;
    while i < n
      invariant at <= i <= n && a[..] == ShiftedDown(was, at, i)
    {
      DownNext(was, at, i);
      assert a[..][i + 1] == was[i + 1];
      a[i] := a[i + 1];
      i := i + 1;
    }
  }

  /** Array.Copy, one place up. */
  method ShiftUp<T>(a: array<T>, at: nat, n: nat)
    requires at <= n < a.Length
    modifies a
    ensures a[..] == ShiftedUp(old(a[..]), at, n)
  {
    ghost var was := a[..];
    assert ShiftedUp(was, n, n) == was;
    var i := n;
    while i > at
      invariant at <= i <= n && a[..] == ShiftedUp(was, i, n)
    {
      UpNext(was, i, n);
      assert a[..][i - 1] == was[i - 1];
      a[i] := a[i - 1];
      i := i - 1;
    }
  }

  /** Shifting down and putting the lost element on top is rolling, for a stack of n elements in a longer array. */
  lemma DownIsRolled<T>(slots: seq<T>, d: nat, n: nat)
    requires d < n <= |slots|
    ensures ShiftedDown(slots, n - 1 - d, n - 1)[n - 1 := slots[n - 1 - d]][..n] == Rolled(slots[..n], d)
  {
  }

  /** Shifting up and putting the lost element below is the inverse. */
  lemma UpUnrolls<T>(slots: seq<T>, d: nat, n: nat)
    requires d < n <= |slots|
    ensures Rolled(ShiftedUp(slots, n - 1 - d, n - 1)[n - 1 - d := slots[n - 1]][..n], d) == slots[..n]
  {
  }
}
