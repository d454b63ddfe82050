/** `res::resources`: the registry that owns textures and fonts by value and
    the engine objects allocated through the tracker, and frees the latter
    all at once. */
module Resources {
  import opened Base
  import opened AllocTrack

  /** A registered texture; of its fields only the registry index matters
      here. */
  datatype Texture = Texture(index: nat)

  /** The kinds of object the registry allocates. */
  datatype Kind = AnimationKind | TextKind | DynamicKind | SpriteKind | RoutineKind

  datatype Registry = Registry(
    a: Tracker,
    textures: seq<Texture>,
    fonts: nat,
    sprites: seq<Ptr>,
    animations: seq<Ptr>,
    texts: seq<Ptr>,
    dynamics: seq<Ptr>,
    routines: seq<Ptr>)

  function Empty(a: Tracker): (r: Registry)
    ensures r.textures == [] && r.fonts == 0 && Owned(r) == []
  {
    Registry(a, [], 0, [], [], [], [], [])
  }

  function List(r: Registry, k: Kind): seq<Ptr>
  {
    match k
    case AnimationKind => r.animations
    case TextKind => r.texts
    case DynamicKind => r.dynamics
    case SpriteKind => r.sprites
    case RoutineKind => r.routines
  }

  /** Everything the registry has allocated, in the order `free` releases
      it. */
  function Owned(r: Registry): seq<Ptr>
  {
    r.animations + (r.dynamics + (r.routines + (r.sprites + r.texts)))
  }

  /** Every texture's index is its position in the list. */
  predicate IndexedTextures(r: Registry)
  {
    forall i :: 0 <= i < |r.textures| ==> r.textures[i].index == i
  }

  /** `addTexture`: a new entry at the end whose index is its position. */
  function AddTexture(r: Registry): (res: (Registry, nat))
    ensures res.1 == |r.textures| && res.0 == r.(textures := r.textures + [Texture(res.1)])
    ensures res.0.textures[res.1].index == res.1
    ensures IndexedTextures(r) ==> IndexedTextures(res.0)
  {
    (r.(textures := r.textures + [Texture(|r.textures|)]), |r.textures|)
  }

  /** `addFont`: a new font at the end; returns its position. */
  function AddFont(r: Registry): (res: (Registry, nat))
    ensures res.1 == r.fonts && res.0 == r.(fonts := r.fonts + 1)
  {
    (r.(fonts := r.fonts + 1), r.fonts)
  }

  /** `addAnimation`, `addText`, `addDynamic`, `addSprite`, `addRoutine`: one
      object is allocated through the tracker (`block` is what malloc
      returned) and appended to its kind's list; the other lists, the
      textures and the fonts are unchanged. */
  function Add(r: Registry, k: Kind, block: Ptr, validate: bool): (res: (Registry, Ptr))
    ensures res.1 == block
    ensures res.0.a == Alloc(r.a, 1, block, validate).0
    ensures List(res.0, k) == List(r, k) + [block]
    ensures forall k2 :: k2 != k ==> List(res.0, k2) == List(r, k2)
    ensures res.0.textures == r.textures && res.0.fonts == r.fonts
  {
    var (a, p) := Alloc(r.a, 1, block, validate);
    var r1 := r.(a := a);
    var r2 := match k
      case AnimationKind => r1.(animations := r.animations + [p])
      case TextKind => r1.(texts := r.texts + [p])
      case DynamicKind => r1.(dynamics := r.dynamics + [p])
      case SpriteKind => r1.(sprites := r.sprites + [p])
      case RoutineKind => r1.(routines := r.routines + [p]);
    (r2, p)
  }

  /** `free`: the tracker frees every animation, dynamic, routine, sprite and
      text, list by list in that order, and those five lists are emptied.
      Textures and fonts stay. */
  function Free(r: Registry): (r2: Registry)
    ensures r2.a == FreeAll(r.a, Owned(r))
    ensures Owned(r2) == [] && forall k :: List(r2, k) == []
    ensures r2.textures == r.textures && r2.fonts == r.fonts
  {
    var a1 := FreeAll(r.a, r.animations);
    var a2 := FreeAll(a1, r.dynamics);
    var a3 := FreeAll(a2, r.routines);
    var a4 := FreeAll(a3, r.sprites);
    var a5 := FreeAll(a4, r.texts);
    FreeAllConcat(a3, r.sprites, r.texts);
    FreeAllConcat(a2, r.routines, r.sprites + r.texts);
    FreeAllConcat(a1, r.dynamics, r.routines + (r.sprites + r.texts));
    FreeAllConcat(r.a, r.animations, r.dynamics + (r.routines + (r.sprites + r.texts)));
    Registry(a5, r.textures, r.fonts, [], [], [], [], [])
  }

  /** Freeing two lists one after the other is freeing their concatenation. */
  lemma {:induction false} FreeAllConcat(t: Tracker, ps: seq<Ptr>, qs: seq<Ptr>)
    ensures FreeAll(t, ps + qs) == FreeAll(FreeAll(t, ps), qs)
    decreases |ps|
  {
    if |ps| == 0 {
      assert ps + qs == qs;
    } else {
      assert (ps + qs)[1..] == ps[1..] + qs;
      FreeAllConcat(AllocTrack.Free(t, ps[0]), ps[1..], qs);
    }
  }

  /** The tracker's live blocks are exactly what the registry owns. */
  predicate Accounted(r: Registry)
  {
    r.a.track && multiset(r.a.allocations) == multiset(Owned(r))
  }

  /** Allocating through the registry keeps the books balanced. */
  lemma AddAccounted(r: Registry, k: Kind, block: Ptr, validate: bool)
    requires Accounted(r)
    ensures Accounted(Add(r, k, block, validate).0)
  {
    var r2 := Add(r, k, block, validate).0;
    assert multiset(r2.a.allocations) == multiset(r.a.allocations) + multiset{block} by {
      assert r2.a.allocations == r.a.allocations + [block];
    }
    AddOwns(r, k, block, validate);
  }

  /** The registry owns one more instance of the new block, and nothing
      else changes in what it owns. */
  lemma AddOwns(r: Registry, k: Kind, block: Ptr, validate: bool)
    ensures multiset(Owned(Add(r, k, block, validate).0)) == multiset(Owned(r)) + multiset{block}
  {
    var an, dy, ro, sp, te := r.animations, r.dynamics, r.routines, r.sprites, r.texts;
    var b, x := [block], multiset{block};
    match k
    case AnimationKind =>
      Grow(an, dy + (ro + (sp + te)), block);
    case DynamicKind =>
      Grow(dy, ro + (sp + te), block);
      Lift(an, dy + (ro + (sp + te)), (dy + b) + (ro + (sp + te)), x);
    case RoutineKind =>
      Grow(ro, sp + te, block);
      Lift(dy, ro + (sp + te), (ro + b) + (sp + te), x);
      Lift(an, dy + (ro + (sp + te)), dy + ((ro + b) + (sp + te)), x);
    case SpriteKind =>
      Grow(sp, te, block);
      Lift(ro, sp + te, (sp + b) + te, x);
      Lift(dy, ro + (sp + te), ro + ((sp + b) + te), x);
      Lift(an, dy + (ro + (sp + te)), dy + (ro + ((sp + b) + te)), x);
    case TextKind =>
      Grow(te, [], block);
      assert te + [] == te && (te + b) + [] == te + b;
      Lift(sp, te, te + b, x);
      Lift(ro, sp + te, sp + (te + b), x);
      Lift(dy, ro + (sp + te), ro + (sp + (te + b)), x);
      Lift(an, dy + (ro + (sp + te)), dy + (ro + (sp + (te + b))), x);
  }

  /** Appending a block to a list adds one instance of it, whatever follows. */
  lemma Grow(l: seq<Ptr>, rest: seq<Ptr>, block: Ptr)
    ensures multiset((l + [block]) + rest) == multiset(l + rest) + multiset{block}
  {
  }

  /** What a list gains, the list with something in front gains. */
  lemma Lift(front: seq<Ptr>, rest: seq<Ptr>, rest2: seq<Ptr>, x: multiset<Ptr>)
    requires multiset(rest2) == multiset(rest) + x
    ensures multiset(front + rest2) == multiset(front + rest) + x
  {
  }

  /** No leaks: when every tracked block came through the registry, `free`
      leaves the tracker with nothing to report. */
  lemma FreeLeavesNothing(r: Registry)
    requires Accounted(r)
    ensures Report(Free(r).a) == []
    ensures Accounted(Free(r))
  {
    FreeAllMultiset(r.a, Owned(r));
    assert multiset(Free(r).a.allocations) == multiset{};
  }
}
