/** The generator's first passes: which words the output needs, and where its data blocks stand. */
module Gather {
  import opened Machine

  /** GetReferences: the words that a word's opcodes call. */
  function References(w: Word): (refs: seq<nat>)
    ensures forall v :: v in refs <==> w.body.Interp? && Call(v) in w.body.code
  {
    if w.body.Interp? then CallTargets(w.body.code) else []
  }

  function CallTargets(code: seq<Op>): (refs: seq<nat>)
    ensures forall v :: v in refs <==> Call(v) in code
  {
    if code == [] then []
    else
      var rest := CallTargets(code[1..]);
      assert code == [code[0]] + code[1..];
      if code[0].Call? then [code[0].w] + rest else rest
  }

  /** A set of words that holds all references of its members. */
  ghost predicate ClosedSet(p: Program, s: set<nat>) {
    forall w, v :: w in s && w < |p| && v in References(p[w]) ==> v in s
  }

  /** A choice of words that can be generated: in the dictionary, with the entry points, closed under references. */
  ghost predicate Generatable(p: Program, entryPoints: seq<nat>, s: set<nat>) {
    ClosedSet(p, s) && (forall e :: e in entryPoints ==> e in s) && (forall w :: w in s ==> w < |p|)
  }

  /** Every closed set with the entry points contains these words. */
  ghost predicate Needed(p: Program, entryPoints: seq<nat>, s: set<nat>) {
    forall t: set<nat> :: ClosedSet(p, t) && (forall e :: e in entryPoints ==> e in t) ==> s <= t
  }

  /** The words reached so far: all needed; the references of those no longer waiting are there. */
  ghost predicate Gathering(p: Program, entryPoints: seq<nat>, wordSet: set<nat>, waiting: seq<nat>) {
    (forall w :: w in wordSet ==> w < |p|) && (forall w :: w in waiting ==> w in wordSet)
    && Needed(p, entryPoints, wordSet)
    && (forall w, v :: w in wordSet && w !in waiting && v in References(p[w]) ==> v in wordSet)
  }

  /** The closure: the least set of words that contains the entry points and all references of its members.
      It is an error, found exactly when there is no such set, if a name is met that the dictionary does not hold. */
  method GatherWords(p: Program, entryPoints: seq<nat>) returns (ok: bool, wordSet: set<nat>)
    ensures ok ==> Generatable(p, entryPoints, wordSet) && Needed(p, entryPoints, wordSet)
    ensures !ok ==> forall s: set<nat> :: !Generatable(p, entryPoints, s)
  {
    wordSet := {};
    var tx: seq<nat> := [];
    var i := 0;
    while i < |entryPoints|
      invariant i <= |entryPoints| && Gathering(p, entryPoints, wordSet, tx)
      invariant forall w :: w in wordSet ==> w in tx
      invariant forall j :: 0 <= j < i ==> entryPoints[j] in wordSet
    {
      var e := entryPoints[i];
      assert e in entryPoints;
      if e >= |p| {
        return false, wordSet;
      }
      if e !in wordSet {
        wordSet, tx := wordSet + {e}, tx + [e];
      }
      i := i + 1;
    }
    while tx != []
      invariant Gathering(p, entryPoints, wordSet, tx)
      invariant forall e :: e in entryPoints ==> e in wordSet
      decreases Missing(p, wordSet), |tx|
    {
      var w := tx[0];
      ok, wordSet, tx := Visit(p, entryPoints, wordSet, tx);
      if !ok {
        return;
      }
    }
    ok := true;
  }

  /** How many words of the dictionary have not been reached. */
  ghost function Missing(p: Program, s: set<nat>): nat {
    |Below(|p|) - s|
  }

  ghost function Below(n: nat): (s: set<nat>)
    ensures forall w: nat :: w in s <==> w < n
  {
    if n == 0 then {} else Below(n - 1) + {n - 1}
  }

  lemma MissingLess(p: Program, s: set<nat>, t: set<nat>)
    requires s <= t
    ensures Missing(p, t) <= Missing(p, s)
    ensures (forall w :: w in t ==> w < |p|) && t != s ==> Missing(p, t) < Missing(p, s)
  {
    var a, b := Below(|p|) - t, Below(|p|) - s;
    assert b == a + (b - a);
    if (forall w :: w in t ==> w < |p|) && t != s {
      var w :| w in t && w !in s;
      assert w in b - a;
    }
  }

  /** One turn: the front of the queue leaves it, its references that are new join it. */
  method Visit(p: Program, ghost entryPoints: seq<nat>, wordSet0: set<nat>, tx0: seq<nat>)
    returns (ok: bool, wordSet: set<nat>, tx: seq<nat>)
    requires tx0 != [] && Gathering(p, entryPoints, wordSet0, tx0)
    ensures ok ==> Gathering(p, entryPoints, wordSet, tx) && wordSet0 <= wordSet
    ensures ok ==> Missing(p, wordSet) < Missing(p, wordSet0) || (wordSet == wordSet0 && |tx| < |tx0|)
    ensures !ok ==> forall s: set<nat> :: !Generatable(p, entryPoints, s)
  {
    hide Needed, Generatable, References, Missing;
    var w := tx0[0];
    assert w in tx0;
    var refs := References(p[w]);
    wordSet, tx := wordSet0, tx0[1..];
    assert tx0 == [w] + tx;
    var i := 0;
    while i < |refs|
      invariant i <= |refs| && wordSet0 <= wordSet
      invariant forall v :: v in wordSet ==> v < |p|
      invariant forall v :: v in tx ==> v in wordSet
      invariant Needed(p, entryPoints, wordSet)
      invariant forall x, v :: x in wordSet && x !in tx && x != w && v in References(p[x]) ==> v in wordSet
      invariant forall j :: 0 <= j < i ==> refs[j] in wordSet
      invariant wordSet == wordSet0 ==> |tx| < |tx0|
    {
      var v := refs[i];
      assert v in refs;
      if v >= |p| {
        NoChoice(p, entryPoints, wordSet, w, v);
        return false, wordSet, tx;
      }
      if v !in wordSet {
        NeededNext(p, entryPoints, wordSet, w, v);
        wordSet, tx := wordSet + {v}, tx + [v];
      }
      i := i + 1;
    }
    MissingLess(p, wordSet0, wordSet);
    ok := true;
  }

  lemma NeededNext(p: Program, entryPoints: seq<nat>, s: set<nat>, w: nat, v: nat)
    requires Needed(p, entryPoints, s) && w in s && w < |p| && v in References(p[w])
    ensures Needed(p, entryPoints, s + {v})
  {
  }

  lemma NoChoice(p: Program, entryPoints: seq<nat>, s: set<nat>, w: nat, v: nat)
    requires Needed(p, entryPoints, s) && w in s && w < |p| && v in References(p[w]) && v >= |p|
    ensures forall t: set<nat> :: !Generatable(p, entryPoints, t)
  {
    forall t: set<nat> | ClosedSet(p, t) && (forall e :: e in entryPoints ==> e in t)
      ensures v in t
    {
      assert s <= t;
      assert w in t;
    }
  }

  // ----- data blocks -----

  /** The number of bytes of the first i blocks. */
  function SizeOf(lengths: seq<nat>, i: nat): (n: nat)
    requires i <= |lengths|
  {
    if i == 0 then 0 else SizeOf(lengths, i - 1) + lengths[i - 1]
  }

  lemma {:induction false} SizeGrows(lengths: seq<nat>, i: nat, j: nat)
    requires i <= j <= |lengths|
    ensures SizeOf(lengths, i) <= SizeOf(lengths, j)
    ensures i < j ==> SizeOf(lengths, i) + lengths[i] <= SizeOf(lengths, j)
    decreases j
  {
    if i < j {
      SizeGrows(lengths, i, j - 1);
    }
  }

  /** Addresses of the data blocks: one after the other, none at 0, which stays the null pointer. */
  method PlaceBlocks(lengths: seq<nat>) returns (addresses: seq<nat>, dataLen: nat)
    ensures |addresses| == |lengths| && dataLen == 1 + SizeOf(lengths, |lengths|)
    ensures forall i :: 0 <= i < |lengths| ==> 0 < addresses[i] <= addresses[i] + lengths[i] <= dataLen
    ensures forall i, j :: 0 <= i < j < |lengths| ==> addresses[i] + lengths[i] <= addresses[j]
    ensures forall i :: 0 <= i < |lengths| ==> addresses[i] == 1 + SizeOf(lengths, i)
  {
    addresses := [];
    dataLen := 1;
    while |addresses| < |lengths|
      invariant |addresses| <= |lengths| && dataLen == 1 + SizeOf(lengths, |addresses|)
      invariant forall i :: 0 <= i < |addresses| ==> addresses[i] == 1 + SizeOf(lengths, i)
    {
      addresses := addresses + [dataLen];
      dataLen := dataLen + lengths[|addresses| - 1];
    }
    forall i, j | 0 <= i < j <= |lengths|
      ensures SizeOf(lengths, i) + lengths[i] <= SizeOf(lengths, j)
    {
      SizeGrows(lengths, i, j);
    }
  }
}
