/** The allocation tracker (`vi::memory::alloctrack`): a wrapper around
    malloc/free that, when tracking is on, keeps the list of blocks handed out
    and not yet freed, so that `report` can name the leaks at shutdown. */
module AllocTrack {
  import opened Base

  /** `allocations` lists live blocks oldest first; `track` is set by the
      validation build. */
  datatype Tracker = Tracker(allocations: seq<Ptr>, track: bool)

  /** A tracker with nothing recorded. */
  function Empty(track: bool): (t: Tracker)
    ensures t.allocations == [] && t.track == track
  {
    Tracker([], track)
  }

  /** Index of the first occurrence of `p` in `s`. */
  function FirstIndex(s: seq<Ptr>, p: Ptr): (i: nat)
    requires p in s
    ensures i < |s| && s[i] == p
    ensures forall j :: 0 <= j < i ==> s[j] != p
  {
    if s[0] == p then 0 else 1 + FirstIndex(s[1..], p)
  }

  /** The tracker's erase loop: drop the first entry equal to `p`, keep the
      rest in order; a pointer that is not listed leaves the list alone. */
  function RemoveFirst(s: seq<Ptr>, p: Ptr): (r: seq<Ptr>)
    ensures p !in s ==> r == s
  {
    if |s| == 0 then s
    else if s[0] == p then s[1..]
    else
      [s[0]] + RemoveFirst(s[1..], p)
  }

  /** Removing the first occurrence cuts the list around that occurrence. */
  lemma {:induction false} RemoveFirstSplits(s: seq<Ptr>, p: Ptr)
    requires p in s
    ensures RemoveFirst(s, p) == s[..FirstIndex(s, p)] + s[FirstIndex(s, p) + 1..]
    decreases |s|
  {
    if s[0] != p {
      var i := FirstIndex(s[1..], p);
      assert FirstIndex(s, p) == i + 1;
      RemoveFirstSplits(s[1..], p);
      ConsSlices(s, i);
    }
  }

  /** Cutting the tail at `i` and putting the head back is cutting the whole
      at `i + 1`. */
  lemma ConsSlices(s: seq<Ptr>, i: nat)
    requires i + 1 < |s|
    ensures [s[0]] + (s[1..][..i] + s[1..][i + 1..]) == s[..i + 1] + s[i + 2..]
  {
    assert s[..i + 1] == [s[0]] + s[1..][..i];
    assert s[i + 2..] == s[1..][i + 1..];
  }

  /** Removing the first occurrence takes exactly one instance of `p` out of
      the multiset of entries. */
  lemma {:induction false} RemoveFirstMultiset(s: seq<Ptr>, p: Ptr)
    ensures multiset(RemoveFirst(s, p)) == multiset(s) - multiset{p}
    ensures p in s ==> |RemoveFirst(s, p)| == |s| - 1
    decreases |s|
  {
    if |s| == 0 {
    } else if s[0] == p {
      assert s == [s[0]] + s[1..];
    } else {
      RemoveFirstMultiset(s[1..], p);
      assert s == [s[0]] + s[1..];
    }
  }

  /** `alloc<T>(size)`: `block` is what malloc returned. In the validation
      build a zero size is refused with a null result and nothing recorded.
      Otherwise the block is returned and, when tracking, appended. */
  function Alloc(t: Tracker, size: nat, block: Ptr, validate: bool): (res: (Tracker, Ptr))
    ensures validate && size == 0 ==> res.1 == NULL && res.0 == t
    ensures !(validate && size == 0) ==> res.1 == block
    ensures !(validate && size == 0) && t.track ==> res.0.allocations == t.allocations + [block]
    ensures !t.track ==> res.0 == t
    ensures res.0.track == t.track
  {
    if validate && size == 0 then (t, NULL)
    else if t.track then (t.(allocations := t.allocations + [block]), block)
    else (t, block)
  }

  /** `free(block)`: when tracking, forget the first matching entry. */
  function Free(t: Tracker, block: Ptr): (r: Tracker)
    ensures r.track == t.track
    ensures !t.track || block !in t.allocations ==> r == t
    ensures t.track && block in t.allocations ==> |r.allocations| == |t.allocations| - 1
  {
    if !t.track then t
    else
      RemoveFirstMultiset(t.allocations, block);
      t.(allocations := RemoveFirst(t.allocations, block))
  }

  /** A tracked block is cut out at its first occurrence: the entries before
      and after it stay, in order. */
  lemma FreeCutsFirst(t: Tracker, block: Ptr)
    requires t.track && block in t.allocations
    ensures Free(t, block).allocations == t.allocations[..FirstIndex(t.allocations, block)]
                                          + t.allocations[FirstIndex(t.allocations, block) + 1..]
  {
    RemoveFirstSplits(t.allocations, block);
  }

  /** `report()`: one "Not freed" line per live block, in list order. */
  function Report(t: Tracker): (lines: seq<Ptr>)
    ensures |lines| == |t.allocations|
    ensures forall p :: p in lines <==> p in t.allocations
  {
    t.allocations
  }

  /** Freeing a block straight after allocating it restores the tracker,
      provided malloc handed out a block that was not already live. */
  lemma FreeUndoesAlloc(t: Tracker, size: nat, block: Ptr, validate: bool)
    requires block !in t.allocations
    requires !(validate && size == 0)
    ensures Free(Alloc(t, size, block, validate).0, block) == t
  {
    if t.track {
      var a := t.allocations + [block];
      assert a[|t.allocations|] == block;
      assert FirstIndex(a, block) == |t.allocations|;
      assert a[..|t.allocations|] == t.allocations;
      FreeCutsFirst(t.(allocations := a), block);
    }
  }

  /** Freeing removes one instance of the block from the multiset of live
      blocks, and nothing else. */
  lemma FreeRemovesOne(t: Tracker, block: Ptr)
    requires t.track
    ensures multiset(Free(t, block).allocations) == multiset(t.allocations) - multiset{block}
  {
    RemoveFirstMultiset(t.allocations, block);
  }

  lemma MultisetDiffAssoc(A: multiset<Ptr>, B: multiset<Ptr>, C: multiset<Ptr>)
    ensures (A - B) - C == A - (B + C)
  {
    forall x ensures ((A - B) - C)[x] == (A - (B + C))[x] {
    }
  }

  /** Frees every pointer of `ps` in order. */
  function FreeAll(t: Tracker, ps: seq<Ptr>): (r: Tracker)
    ensures r.track == t.track
    ensures !t.track ==> r == t
    decreases |ps|
  {
    if |ps| == 0 then t else FreeAll(Free(t, ps[0]), ps[1..])
  }

  /** Freeing a list of blocks takes exactly those blocks out of the
      multiset of live blocks (one instance per occurrence). */
  lemma {:induction false} FreeAllMultiset(t: Tracker, ps: seq<Ptr>)
    requires t.track
    ensures multiset(FreeAll(t, ps).allocations) == multiset(t.allocations) - multiset(ps)
    decreases |ps|
  {
    if |ps| > 0 {
      FreeAllMultiset(Free(t, ps[0]), ps[1..]);
      FreeAllMultisetStep(t, ps);
    }
  }

  /** A non-empty list's multiset is its head's plus its tail's. */
  lemma MultisetHeadTail(ps: seq<Ptr>)
    requires |ps| > 0
    ensures multiset(ps) == multiset{ps[0]} + multiset(ps[1..])
  {
    assert ps == [ps[0]] + ps[1..];
  }

  /** The inductive step of `FreeAllMultiset`: freeing the head, then the tail. */
  lemma FreeAllMultisetStep(t: Tracker, ps: seq<Ptr>)
    requires t.track && |ps| > 0
    requires multiset(FreeAll(Free(t, ps[0]), ps[1..]).allocations)
             == multiset(Free(t, ps[0]).allocations) - multiset(ps[1..])
    ensures multiset(FreeAll(t, ps).allocations) == multiset(t.allocations) - multiset(ps)
  {
    var X := multiset(FreeAll(t, ps).allocations);
    assert X == multiset(FreeAll(Free(t, ps[0]), ps[1..]).allocations);
    FreeRemovesOne(t, ps[0]);
    DiffHeadTail(multiset(t.allocations), ps, X);
  }

  /** Taking out the head and then the tail is taking out the whole list. */
  lemma DiffHeadTail(A: multiset<Ptr>, ps: seq<Ptr>, X: multiset<Ptr>)
    requires |ps| > 0
    requires X == (A - multiset{ps[0]}) - multiset(ps[1..])
    ensures X == A - multiset(ps)
  {
    MultisetDiffAssoc(A, multiset{ps[0]}, multiset(ps[1..]));
    MultisetHeadTail(ps);
  }

  /** Allocates the blocks of `bs` in order (size 1 each, as the registry does). */
  function AllocAll(t: Tracker, bs: seq<Ptr>, validate: bool): (r: Tracker)
    ensures r.track == t.track
    ensures t.track ==> r.allocations == t.allocations + bs
    ensures !t.track ==> r == t
    decreases |bs|
  {
    if |bs| == 0 then t
    else
      var r := AllocAll(Alloc(t, 1, bs[0], validate).0, bs[1..], validate);
      assert t.allocations + [bs[0]] + bs[1..] == t.allocations + bs;
      r
  }

  /** Freeing a block whose first occurrence splits the list into `pre` and `post`. */
  lemma FreeSplit(pre: seq<Ptr>, block: Ptr, post: seq<Ptr>)
    requires block !in pre
    ensures Free(Tracker(pre + [block] + post, true), block) == Tracker(pre + post, true)
  {
    var s := pre + [block] + post;
    assert s[|pre|] == block;
    var i := FirstIndex(s, block);
    assert forall j :: 0 <= j < |pre| ==> s[j] == pre[j];
    assert i == |pre|;
    assert s[..i] == pre;
    assert s[i + 1..] == post;
    FreeCutsFirst(Tracker(s, true), block);
  }

  /** Freeing the oldest live block drops the head of the list. */
  lemma FreeHead(x: Ptr, rest: seq<Ptr>)
    ensures Free(Tracker([x] + rest, true), x) == Tracker(rest, true)
  {
    var s := [x] + rest;
    assert s[0] == x;
    assert s[1..] == rest;
  }

  /** The leak report scenario: five allocations, three of them freed,
      leaves exactly the other two reported, in allocation order. */
  lemma FiveAllocsThreeFrees(a: Ptr, b: Ptr, c: Ptr, d: Ptr, e: Ptr, validate: bool)
    requires a != b && a != c && a != d && a != e && b != c && b != d && b != e
    requires c != d && c != e && d != e
    ensures Report(FreeAll(AllocAll(Empty(true), [a, b, c, d, e], validate), [b, d, a])) == [c, e]
  {
    var t0 := AllocAll(Empty(true), [a, b, c, d, e], validate);
    assert t0 == Tracker([a, b, c, d, e], true) by {
      assert [] + [a, b, c, d, e] == [a, b, c, d, e];
    }
    FreeAllSteps(t0, b, d, a);
    FreeSecondOfFive(a, b, c, d, e);
    FreeThirdOfFour(a, c, d, e);
    FreeFirstOfThree(a, c, e);
  }

  /** The scenario's first free: the second block goes. */
  lemma FreeSecondOfFive(a: Ptr, b: Ptr, c: Ptr, d: Ptr, e: Ptr)
    requires a != b
    ensures Free(Tracker([a, b, c, d, e], true), b) == Tracker([a, c, d, e], true)
  {
    FreeSplit([a], b, [c, d, e]);
    assert [a] + [b] + [c, d, e] == [a, b, c, d, e];
    assert [a] + [c, d, e] == [a, c, d, e];
  }

  /** The scenario's second free: the third of the four remaining goes. */
  lemma FreeThirdOfFour(a: Ptr, c: Ptr, d: Ptr, e: Ptr)
    requires a != d && c != d
    ensures Free(Tracker([a, c, d, e], true), d) == Tracker([a, c, e], true)
  {
    FreeSplit([a, c], d, [e]);
    assert [a, c] + [d] + [e] == [a, c, d, e];
    assert [a, c] + [e] == [a, c, e];
  }

  /** The scenario's last free: the oldest block goes. */
  lemma FreeFirstOfThree(a: Ptr, c: Ptr, e: Ptr)
    ensures Free(Tracker([a, c, e], true), a) == Tracker([c, e], true)
  {
    FreeHead(a, [c, e]);
    assert [a] + [c, e] == [a, c, e];
  }

  /** Freeing three blocks one after the other. */
  lemma FreeAllSteps(t: Tracker, x: Ptr, y: Ptr, z: Ptr)
    ensures FreeAll(t, [x, y, z]) == Free(Free(Free(t, x), y), z)
  {
    var t1 := Free(t, x);
    var t2 := Free(t1, y);
    assert [x, y, z][1..] == [y, z];
    assert FreeAll(t, [x, y, z]) == FreeAll(t1, [y, z]);
    assert [y, z][1..] == [z];
    assert FreeAll(t1, [y, z]) == FreeAll(t2, [z]);
    assert [z][1..] == [];
    assert FreeAll(t2, [z]) == FreeAll(Free(t2, z), []);
  }
}
