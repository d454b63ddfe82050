/** The renderer's draw-mode switch (`vi::gl::renderer` in viva_impl.h).
    Sprites and meshes use different vertex shaders and constant buffers; the
    renderer remembers which set is bound in one flag, `drawingSprites`, and
    rebinds only when a draw call of the other kind comes in. The graphics
    device is abstracted to the log of calls the renderer makes on it; what is
    bound on the device is read off that log. */
module Renderer {
  import opened Base
  import opened Sprites

  /** Bits of `mesh::data` the mesh vertex shader tests. */
  const APPLY_TRANSFORM: bv32 := 4
  const DYNAMIC_VERTICES: bv32 := 8

  /** The pixel-shader flag word `drawLine` uploads: only "no texture". */
  const LINE_FLAGS: bv32 := 2

  /** Constant-buffer slots of the vertex stage the renderer uses. */
  const SLOTS: nat := 3

  datatype Shader = SpriteShader | MeshShader

  /** The renderer's constant buffers: the sprite record, the 2D camera, and
      the mesh world record, 3D view and caller transform. */
  datatype CBuffer = SpriteConstants | Camera2D | World | View | Transform

  datatype Vec3 = Vec3(x: real, y: real, z: real)

  /** The part of a mesh uploaded to the world buffer (`&m->pos` onwards). */
  datatype MeshConstants = MeshConstants(pos: Vec3, rot: Vec3, sca: Vec3, data: bv32, color: Color)

  /** A call the renderer makes on the device context. */
  datatype Event =
    | SetShader(shader: Shader)
    | SetConstants(slot: nat, buffer: CBuffer)
    | SetTexture(texture: Ptr)
    | UploadSprite(sprite: Sprite)
    | UploadPixelFlags(flags: bv32)
    | UploadWorld(constants: MeshConstants)
    | UploadTransform(matrix: seq<real>)
    | SetVertexBuffer(vertices: Ptr)
    | SetIndexBuffer(indices: Ptr)
    | WriteDynamicVertices(source: Ptr, count: nat)
    | Draw(vertexCount: nat)
    | DrawIndexed(indexCount: nat)

  datatype Renderer = Renderer(drawingSprites: bool, dynamicVertexBuffer: Ptr, log: seq<Event>)

  datatype Mesh = Mesh(
    v: Ptr, index: Ptr, t: Ptr,
    vertexBuffer: Ptr, indexBuffer: Ptr,
    vertexCount: nat, indexCount: nat,
    pos: Vec3, rot: Vec3, sca: Vec3,
    data: bv32,
    color: Color)

  /** What is bound on the vertex stage. */
  datatype Binding = Binding(shader: Option<Shader>, slots: seq<Option<CBuffer>>)


  const UNBOUND: Binding := Binding(None, [None, None, None])

  predicate Binds(e: Event)
  {
    e.SetShader? || e.SetConstants?
  }

  /** No call in `es` changes the vertex-stage binding. */
  predicate Inert(es: seq<Event>)
  {
    forall e :: e in es ==> !Binds(e)
  }

  /** Some call in `es` changes the vertex-stage binding. */
  predicate Rebinds(es: seq<Event>)
  {
    exists e :: e in es && Binds(e)
  }

  function Apply(b: Binding, e: Event): Binding
  {
    match e
    case SetShader(sh) => b.(shader := Some(sh))
    case SetConstants(i, c) => if i < |b.slots| then b.(slots := b.slots[i := Some(c)]) else b
    case _ => b
  }

  /** The binding after a sequence of calls. */
  function Replay(b: Binding, es: seq<Event>): Binding
    decreases |es|
  {
    if |es| == 0 then b else Apply(Replay(b, es[..|es| - 1]), es[|es| - 1])
  }

  function Bound(r: Renderer): Binding
  {
    Replay(UNBOUND, r.log)
  }

  /** The calls made by `r2` after those of `r`. */
  function Added(r: Renderer, r2: Renderer): seq<Event>
    requires |r.log| <= |r2.log|
  {
    r2.log[|r.log|..]
  }

  /** The calls of one draw: some that bind nothing, the mode switch, and
      some more that bind nothing. */
  function Call(pre: seq<Event>, binds: seq<Event>, post: seq<Event>): seq<Event>
  {
    pre + binds + post
  }

  lemma CallRebinds(pre: seq<Event>, binds: seq<Event>, post: seq<Event>)
    requires Inert(pre) && Inert(post)
    ensures Rebinds(Call(pre, binds, post)) <==> Rebinds(binds)
  {
    if Rebinds(Call(pre, binds, post)) {
      var e :| e in Call(pre, binds, post) && Binds(e);
      assert e in binds;
    }
  }

  const SPRITE_BINDS: seq<Event> :=
    [SetShader(SpriteShader), SetConstants(0, SpriteConstants), SetConstants(1, Camera2D)]

  const MESH_BINDS: seq<Event> :=
    [SetShader(MeshShader), SetConstants(0, World), SetConstants(1, View), SetConstants(2, Transform)]

  /** What `drawMeshDynamic` binds when it leaves sprite mode: world only. */
  const DYNAMIC_BINDS: seq<Event> := [SetShader(MeshShader), SetConstants(0, World)]

  /** The mode switch a draw makes: `switch` when the renderer is in the other
      mode, nothing otherwise. */
  function Switch(needed: bool, switch: seq<Event>): (binds: seq<Event>)
    requires |switch| > 0 && Binds(switch[0])
    ensures Rebinds(binds) <==> needed
  {
    assert switch[0] in switch;
    if needed then switch else []
  }

  /** `renderer::init`, the draw-mode part: sprite mode, with the sprite
      shader and its two buffers bound. */
  function Init(dynamicVertexBuffer: Ptr): (r: Renderer)
    ensures r.drawingSprites && r.dynamicVertexBuffer == dynamicVertexBuffer
    ensures r.log == SPRITE_BINDS
  {
    Renderer(true, dynamicVertexBuffer, SPRITE_BINDS)
  }

  /** The sprite's bit-field word as the pixel shader reads it. */
  function PixelFlags(s: Sprite): (f: bv32)
    ensures f & 1 != 0 <==> s.nodraw
    ensures f & 2 != 0 <==> s.notexture
  {
    (if s.nodraw then 1 else 0) | (if s.notexture then 2 else 0)
  }

  function TextureEvents(t: Ptr): (es: seq<Event>)
    ensures Inert(es)
    ensures SetTexture(t) in es <==> t != NULL
  {
    if t != NULL then [SetTexture(t)] else []
  }

  function SpritePost(s2: Sprite): (es: seq<Event>)
    ensures Inert(es)
  {
    TextureEvents(s2.t) + [UploadSprite(s2), UploadPixelFlags(PixelFlags(s2)), Draw(6)]
  }

  /** `drawSprite`. A hidden sprite is skipped outright. Otherwise the
      renderer ends in sprite mode, rebinding exactly when it was in mesh
      mode; the sprite's "no texture" bit records whether it has a texture;
      the texture is bound exactly when there is one; the sprite is uploaded
      with that bit and drawn as six vertices. */
  function DrawSprite(r: Renderer, s: Sprite): (res: (Renderer, Sprite))
    ensures s.nodraw ==> res == (r, s)
    ensures !s.nodraw ==>
      && res.0.drawingSprites && res.0.dynamicVertexBuffer == r.dynamicVertexBuffer
      && res.1 == s.(notexture := s.t == NULL)
      && |r.log| < |res.0.log| && res.0.log[..|r.log|] == r.log
      && (Rebinds(Added(r, res.0)) <==> !r.drawingSprites)
      && (SetTexture(s.t) in Added(r, res.0) <==> s.t != NULL)
      && UploadSprite(res.1) in Added(r, res.0)
      && res.0.log[|res.0.log| - 1] == Draw(6)
  {
    if s.nodraw then (r, s)
    else
      var s2 := s.(notexture := s.t == NULL);
      (Emit(r, true, SpriteCalls(s2, !r.drawingSprites)), s2)
  }

  /** The calls of a sprite draw: the mode switch when `needed`, the
      texture if there is one, the upload and six vertices. */
  function SpriteCalls(s2: Sprite, needed: bool): (es: seq<Event>)
    ensures |es| > 0 && es[|es| - 1] == Draw(6)
    ensures Rebinds(es) <==> needed
    ensures SetTexture(s2.t) in es <==> s2.t != NULL
    ensures UploadSprite(s2) in es
  {
    var binds := Switch(needed, SPRITE_BINDS);
    CallRebinds([], binds, SpritePost(s2));
    assert SetTexture(s2.t) in binds + SpritePost(s2) ==> SetTexture(s2.t) in TextureEvents(s2.t);
    Call([], binds, SpritePost(s2))
  }

  function LinePost(s: Sprite): (es: seq<Event>)
    ensures Inert(es)
  {
    [UploadSprite(s.(z := s.z - 1.0)), UploadPixelFlags(LINE_FLAGS), Draw(3)]
  }

  /** `drawLine`. Lines are drawn in sprite mode whether or not the sprite is
      marked hidden; the sprite is uploaded one unit nearer in depth with only
      the "no texture" flag, three vertices are drawn, and the sprite itself
      comes back unchanged. */
  function DrawLine(r: Renderer, s: Sprite): (res: (Renderer, Sprite))
    ensures res.1 == s
    ensures res.0.drawingSprites && res.0.dynamicVertexBuffer == r.dynamicVertexBuffer
    ensures |r.log| < |res.0.log| && res.0.log[..|r.log|] == r.log
    ensures Rebinds(Added(r, res.0)) <==> !r.drawingSprites
    ensures UploadSprite(s.(z := s.z - 1.0)) in Added(r, res.0)
    ensures UploadPixelFlags(LINE_FLAGS) in Added(r, res.0)
    ensures res.0.log[|res.0.log| - 1] == Draw(3)
  {
    var binds := Switch(!r.drawingSprites, SPRITE_BINDS);
    var lowered := s.(z := s.z - 1.0);
    CallRebinds([], binds, LinePost(s));
    (Emit(r, true, Call([], binds, LinePost(s))), lowered.(z := lowered.z + 1.0))
  }

  function Constants(m: Mesh): MeshConstants
  {
    MeshConstants(m.pos, m.rot, m.sca, m.data, m.color)
  }

  /** The draw call a mesh ends with: indexed when it has an index buffer. */
  function MeshDraw(m: Mesh): (es: seq<Event>)
    ensures Inert(es) && |es| > 0
    ensures es[|es| - 1] == if m.indexBuffer != NULL then DrawIndexed(m.indexCount) else Draw(m.vertexCount)
  {
    if m.indexBuffer != NULL then [SetIndexBuffer(m.indexBuffer), DrawIndexed(m.indexCount)]
    else [Draw(m.vertexCount)]
  }

  function TransformEvents(transform: Option<seq<real>>): (es: seq<Event>)
    ensures Inert(es)
    ensures forall e :: e in es ==> !e.UploadWorld?
  {
    if transform.Some? then [UploadTransform(transform.value)] else []
  }

  /** Flag bits are set with a bitwise or: the new bits are on, and no bit
      that was on goes off. */
  function AddBits(data: bv32, bits: bv32): (d: bv32)
    ensures d & bits == bits
    ensures d & data == data
  {
    data | bits
  }

  function WithTransformBit(m: Mesh, transform: Option<seq<real>>): (m2: Mesh)
    ensures transform.Some? ==> m2.data & APPLY_TRANSFORM == APPLY_TRANSFORM
    ensures transform.None? ==> m2 == m
    ensures m2.data & m.data == m.data
    ensures m2 == m.(data := m2.data)
  {
    if transform.Some? then m.(data := AddBits(m.data, APPLY_TRANSFORM)) else m
  }

  /** The calls of `drawMesh` after the mode switch, uploading `world`. */
  function MeshPost(m: Mesh, world: Mesh, transform: Option<seq<real>>): (es: seq<Event>)
    ensures Inert(es) && |es| > 0
    ensures UploadWorld(Constants(world)) in es
    ensures forall e :: e in es && e.UploadWorld? ==> e == UploadWorld(Constants(world))
    ensures es[|es| - 1] == if m.indexBuffer != NULL then DrawIndexed(m.indexCount) else Draw(m.vertexCount)
  {
    var es := TextureEvents(m.t) + [UploadWorld(Constants(world))] + TransformEvents(transform) + MeshDraw(m);
    assert es[|es| - 1] == MeshDraw(m)[|MeshDraw(m)| - 1];
    es
  }

  /** The renderer after a draw that makes the calls `es` and leaves it in
      sprite mode or not: the old log is a prefix, the added calls are
      exactly `es`, and the log ends with the last of them. */
  function Emit(r: Renderer, sprites: bool, es: seq<Event>): (r2: Renderer)
    requires |es| > 0
    ensures r2.drawingSprites == sprites && r2.dynamicVertexBuffer == r.dynamicVertexBuffer
    ensures |r.log| < |r2.log| && r2.log[..|r.log|] == r.log
    ensures Added(r, r2) == es && r2.log[|r2.log| - 1] == es[|es| - 1]
  {
    r.(drawingSprites := sprites, log := r.log + es)
  }

  /** The calls of a mesh draw that uploads `world`: vertex buffer, mode
      switch when `needed`, then texture, world record, transform and the
      draw. */
  function MeshCalls(m: Mesh, world: Mesh, transform: Option<seq<real>>, needed: bool): (es: seq<Event>)
    ensures |es| > 0
    ensures Rebinds(es) <==> needed
    ensures SetVertexBuffer(m.vertexBuffer) in es
    ensures forall e :: e in es && e.UploadWorld? ==> e == UploadWorld(Constants(world))
    ensures es[|es| - 1] == if m.indexBuffer != NULL then DrawIndexed(m.indexCount) else Draw(m.vertexCount)
  {
    var pre := [SetVertexBuffer(m.vertexBuffer)];
    var binds := Switch(needed, MESH_BINDS);
    var post := MeshPost(m, world, transform);
    CallRebinds(pre, binds, post);
    CallUploads(pre, binds, post, UploadWorld(Constants(world)));
    Call(pre, binds, post)
  }

  /** A draw's only world uploads are those after its mode switch. */
  lemma CallUploads(pre: seq<Event>, binds: seq<Event>, post: seq<Event>, upload: Event)
    requires forall e :: e in pre ==> !e.UploadWorld?
    requires forall e :: e in binds ==> Binds(e)
    requires forall e :: e in post && e.UploadWorld? ==> e == upload
    ensures forall e :: e in Call(pre, binds, post) && e.UploadWorld? ==> e == upload
  {
  }

  /** `drawMesh`, as written: the world buffer is uploaded BEFORE the
      transform bit is set, so the draw that first passes a transform still
      reaches the shader without the bit. */
  function DrawMesh(r: Renderer, m: Mesh, transform: Option<seq<real>>): (res: (Renderer, Mesh))
    ensures !res.0.drawingSprites && res.0.dynamicVertexBuffer == r.dynamicVertexBuffer
    ensures res.1 == WithTransformBit(m, transform)
    ensures |r.log| < |res.0.log| && res.0.log[..|r.log|] == r.log
    ensures Rebinds(Added(r, res.0)) <==> r.drawingSprites
    ensures SetVertexBuffer(m.vertexBuffer) in Added(r, res.0)
    ensures forall e :: e in Added(r, res.0) && e.UploadWorld? ==> e == UploadWorld(Constants(m))
    ensures res.0.log[|res.0.log| - 1] ==
      if m.indexBuffer != NULL then DrawIndexed(m.indexCount) else Draw(m.vertexCount)
  {
    (Emit(r, false, MeshCalls(m, m, transform, r.drawingSprites)), WithTransformBit(m, transform))
  }

  /** `drawMesh` with the transform bit set before the upload, as
      `drawMeshDynamic` already does for its own bit. */
  function DrawMeshCorrected(r: Renderer, m: Mesh, transform: Option<seq<real>>): (res: (Renderer, Mesh))
    ensures !res.0.drawingSprites && res.0.dynamicVertexBuffer == r.dynamicVertexBuffer
    ensures res.1 == WithTransformBit(m, transform)
    ensures |r.log| < |res.0.log| && res.0.log[..|r.log|] == r.log
    ensures Rebinds(Added(r, res.0)) <==> r.drawingSprites
    ensures SetVertexBuffer(m.vertexBuffer) in Added(r, res.0)
    ensures forall e :: e in Added(r, res.0) && e.UploadWorld? ==> e == UploadWorld(Constants(res.1))
    ensures res.0.log[|res.0.log| - 1] ==
      if m.indexBuffer != NULL then DrawIndexed(m.indexCount) else Draw(m.vertexCount)
  {
    var m2 := WithTransformBit(m, transform);
    (Emit(r, false, MeshCalls(m, m2, transform, r.drawingSprites)), m2)
  }

  function DynamicPost(r: Renderer, m2: Mesh, vertexCount: nat): (es: seq<Event>)
    ensures Inert(es)
    ensures UploadWorld(Constants(m2)) in es
    ensures SetVertexBuffer(r.dynamicVertexBuffer) in es
    ensures es[|es| - 1] == Draw(vertexCount)
  {
    TextureEvents(m2.t) + [UploadWorld(Constants(m2)), SetVertexBuffer(r.dynamicVertexBuffer), Draw(vertexCount)]
  }

  /** The dynamic-mesh draw with a given mode switch: the caller's vertices
      are copied into the shared dynamic buffer, the mesh is marked dynamic
      before its upload, and `vertexCount` vertices are drawn from the shared
      buffer. */
  function DynamicWith(r: Renderer, m: Mesh, vertexCount: nat, switch: seq<Event>): (res: (Renderer, Mesh))
    requires |switch| > 0 && Binds(switch[0])
    ensures !res.0.drawingSprites && res.0.dynamicVertexBuffer == r.dynamicVertexBuffer
    ensures res.1 == m.(data := AddBits(m.data, DYNAMIC_VERTICES))
    ensures |r.log| < |res.0.log| && res.0.log[..|r.log|] == r.log
    ensures Rebinds(Added(r, res.0)) <==> r.drawingSprites
    ensures WriteDynamicVertices(m.v, vertexCount) in Added(r, res.0)
    ensures UploadWorld(Constants(res.1)) in Added(r, res.0)
    ensures SetVertexBuffer(r.dynamicVertexBuffer) in Added(r, res.0)
    ensures res.0.log[|res.0.log| - 1] == Draw(vertexCount)
  {
    var m2 := m.(data := AddBits(m.data, DYNAMIC_VERTICES));
    var binds := Switch(r.drawingSprites, switch);
    var pre := [WriteDynamicVertices(m.v, vertexCount)];
    CallRebinds(pre, binds, DynamicPost(r, m2, vertexCount));
    (Emit(r, false, Call(pre, binds, DynamicPost(r, m2, vertexCount))), m2)
  }

  /** `drawMeshDynamic`, as written. Leaving sprite mode, it binds only the
      mesh shader and the world buffer. */
  function DrawMeshDynamic(r: Renderer, m: Mesh, vertexCount: nat): (res: (Renderer, Mesh))
    ensures !res.0.drawingSprites && res.0.dynamicVertexBuffer == r.dynamicVertexBuffer
    ensures res.1 == m.(data := AddBits(m.data, DYNAMIC_VERTICES))
    ensures res.1.data & DYNAMIC_VERTICES == DYNAMIC_VERTICES && res.1.data & m.data == m.data
    ensures |r.log| < |res.0.log| && res.0.log[..|r.log|] == r.log
    ensures Rebinds(Added(r, res.0)) <==> r.drawingSprites
    ensures WriteDynamicVertices(m.v, vertexCount) in Added(r, res.0)
    ensures UploadWorld(Constants(res.1)) in Added(r, res.0)
    ensures res.0.log[|res.0.log| - 1] == Draw(vertexCount)
  {
    DynamicWith(r, m, vertexCount, DYNAMIC_BINDS)
  }

  /** `drawMeshDynamic` binding the whole mesh set when it leaves sprite
      mode, as `drawMesh` does. */
  function DrawMeshDynamicCorrected(r: Renderer, m: Mesh, vertexCount: nat): (res: (Renderer, Mesh))
    ensures !res.0.drawingSprites && res.0.dynamicVertexBuffer == r.dynamicVertexBuffer
    ensures res.1 == m.(data := AddBits(m.data, DYNAMIC_VERTICES))
    ensures |r.log| < |res.0.log| && res.0.log[..|r.log|] == r.log
    ensures Rebinds(Added(r, res.0)) <==> r.drawingSprites
    ensures WriteDynamicVertices(m.v, vertexCount) in Added(r, res.0)
    ensures UploadWorld(Constants(res.1)) in Added(r, res.0)
    ensures res.0.log[|res.0.log| - 1] == Draw(vertexCount)
  {
    DynamicWith(r, m, vertexCount, MESH_BINDS)
  }

  const ZERO3: Vec3 := Vec3(0.0, 0.0, 0.0)

  /** `initMesh`. The two device buffers are what the device's buffer
      creation returned; the index buffer is created only for a non-null
      index array. Everything else is zero except unit scale and the colour
      (1, 1, 1) with alpha left at zero. */
  function InitMesh(v: Ptr, vertexCount: nat, index: Ptr, indexCount: nat, t: Ptr,
                    vertexBuffer: Ptr, indexBuffer: Ptr): (m: Mesh)
    ensures m.v == v && m.vertexCount == vertexCount && m.index == index
    ensures m.indexCount == indexCount && m.t == t
    ensures m.vertexBuffer == vertexBuffer
    ensures m.indexBuffer != NULL <==> index != NULL && indexBuffer != NULL
    ensures m.indexBuffer != NULL ==> m.indexBuffer == indexBuffer
    ensures m.pos == ZERO3 && m.rot == ZERO3 && m.sca == Vec3(1.0, 1.0, 1.0)
    ensures m.data == 0 && m.color == Color(1.0, 1.0, 1.0, 0.0)
  {
    Mesh(v, index, t, vertexBuffer, if index != NULL then indexBuffer else NULL,
         vertexCount, indexCount, ZERO3, ZERO3, Vec3(1.0, 1.0, 1.0), 0, Color(1.0, 1.0, 1.0, 0.0))
  }

  /** `destroyMesh`: releases the index buffer if there is one, then the
      vertex buffer, and clears both handles. The vertex buffer is released
      unconditionally, so it must exist. */
  function DestroyMesh(m: Mesh): (res: (Mesh, seq<Ptr>))
    requires m.vertexBuffer != NULL
    ensures res.0 == m.(vertexBuffer := NULL, indexBuffer := NULL)
    ensures forall p :: p in res.1 <==> p != NULL && (p == m.vertexBuffer || p == m.indexBuffer)
    ensures |res.1| > 0 && res.1[|res.1| - 1] == m.vertexBuffer
  {
    var released := (if m.indexBuffer != NULL then [m.indexBuffer] else []) + [m.vertexBuffer];
    (m.(vertexBuffer := NULL, indexBuffer := NULL), released)
  }

  // ---------------------------------------------------------------------
  // Binding facts

  lemma {:induction false} ReplayAppend(b: Binding, es: seq<Event>, fs: seq<Event>)
    ensures Replay(b, es + fs) == Replay(Replay(b, es), fs)
    decreases |fs|
  {
    if |fs| == 0 {
      assert es + fs == es;
    } else {
      var front := fs[..|fs| - 1];
      assert (es + fs)[..|es + fs| - 1] == es + front;
      assert (es + fs)[|es + fs| - 1] == fs[|fs| - 1];
      ReplayAppend(b, es, front);
    }
  }

  /** Calls that bind nothing leave the binding alone. */
  lemma {:induction false} ReplayInert(b: Binding, es: seq<Event>)
    requires Inert(es)
    ensures Replay(b, es) == b
    decreases |es|
  {
    if |es| > 0 {
      assert es[|es| - 1] in es;
      assert forall e :: e in es[..|es| - 1] ==> e in es;
      ReplayInert(b, es[..|es| - 1]);
    }
  }

  /** The vertex stage keeps its three slots. */
  lemma {:induction false} ReplaySlots(b: Binding, es: seq<Event>)
    requires |b.slots| == SLOTS
    ensures |Replay(b, es).slots| == SLOTS
    decreases |es|
  {
    if |es| > 0 {
      ReplaySlots(b, es[..|es| - 1]);
    }
  }

  /** A draw's calls leave what its mode switch binds. */
  lemma CallBinding(log: seq<Event>, pre: seq<Event>, binds: seq<Event>, post: seq<Event>)
    requires Inert(pre) && Inert(post)
    ensures Replay(UNBOUND, log + Call(pre, binds, post)) == Replay(Replay(UNBOUND, log), binds)
  {
    assert log + Call(pre, binds, post) == ((log + pre) + binds) + post;
    ReplayAppend(UNBOUND, (log + pre) + binds, post);
    ReplayInert(Replay(UNBOUND, (log + pre) + binds), post);
    ReplayAppend(UNBOUND, log + pre, binds);
    ReplayAppend(UNBOUND, log, pre);
    ReplayInert(Replay(UNBOUND, log), pre);
  }

  predicate SpriteReady(b: Binding)
  {
    b.shader == Some(SpriteShader) && |b.slots| == SLOTS
    && b.slots[0] == Some(SpriteConstants) && b.slots[1] == Some(Camera2D)
  }

  predicate MeshReady(b: Binding)
  {
    b.shader == Some(MeshShader) && |b.slots| == SLOTS
    && b.slots[0] == Some(World) && b.slots[1] == Some(View) && b.slots[2] == Some(Transform)
  }

  /** The flag tells the truth about the device: sprite mode has the sprite
      set bound, mesh mode the whole mesh set. */
  predicate Consistent(r: Renderer)
  {
    if r.drawingSprites then SpriteReady(Bound(r)) else MeshReady(Bound(r))
  }

  /** What the as-written code keeps: in mesh mode only the mesh shader and
      the world buffer are guaranteed. */
  predicate WeaklyConsistent(r: Renderer)
  {
    |Bound(r).slots| == SLOTS &&
    if r.drawingSprites then SpriteReady(Bound(r))
    else Bound(r).shader == Some(MeshShader) && Bound(r).slots[0] == Some(World)
  }

  lemma SpriteBindsReady(b: Binding)
    requires |b.slots| == SLOTS
    ensures SpriteReady(Replay(b, SPRITE_BINDS))
  {
    assert SPRITE_BINDS[..2] == [SetShader(SpriteShader), SetConstants(0, SpriteConstants)];
    assert SPRITE_BINDS[..2][..1] == [SetShader(SpriteShader)];
    assert [SetShader(SpriteShader)][..0] == [];
  }

  lemma MeshBindsReady(b: Binding)
    requires |b.slots| == SLOTS
    ensures MeshReady(Replay(b, MESH_BINDS))
  {
    assert MESH_BINDS[..3] == [SetShader(MeshShader), SetConstants(0, World), SetConstants(1, View)];
    assert MESH_BINDS[..3][..2] == [SetShader(MeshShader), SetConstants(0, World)];
    assert MESH_BINDS[..3][..2][..1] == [SetShader(MeshShader)];
    assert [SetShader(MeshShader)][..0] == [];
    var b1 := Replay(b, MESH_BINDS[..3][..2][..1]);
    assert b1 == b.(shader := Some(MeshShader));
    var b2 := Replay(b, MESH_BINDS[..3][..2]);
    assert b2 == b1.(slots := b1.slots[0 := Some(World)]);
    var b3 := Replay(b, MESH_BINDS[..3]);
    assert b3 == b2.(slots := b2.slots[1 := Some(View)]);
    assert Replay(b, MESH_BINDS) == b3.(slots := b3.slots[2 := Some(Transform)]);
  }

  lemma DynamicBindsWorld(b: Binding)
    requires |b.slots| == SLOTS
    ensures Replay(b, DYNAMIC_BINDS) == b.(shader := Some(MeshShader), slots := b.slots[0 := Some(World)])
  {
    assert DYNAMIC_BINDS[..1] == [SetShader(MeshShader)];
    assert [SetShader(MeshShader)][..0] == [];
  }

  /** A drawn sprite or line leaves the sprite set bound if the renderer was
      in mesh mode, and the binding untouched otherwise. */
  lemma SpriteBinding(r: Renderer, s: Sprite)
    ensures !s.nodraw ==> Bound(DrawSprite(r, s).0) == Replay(Bound(r), Switch(!r.drawingSprites, SPRITE_BINDS))
    ensures Bound(DrawLine(r, s).0) == Replay(Bound(r), Switch(!r.drawingSprites, SPRITE_BINDS))
  {
    var binds := Switch(!r.drawingSprites, SPRITE_BINDS);
    CallBinding(r.log, [], binds, SpritePost(s.(notexture := s.t == NULL)));
    CallBinding(r.log, [], binds, LinePost(s));
  }

  /** A mesh draw leaves its mode switch's bindings, as written and
      corrected alike. */
  lemma MeshBinding(r: Renderer, m: Mesh, transform: Option<seq<real>>)
    ensures Bound(DrawMesh(r, m, transform).0) == Replay(Bound(r), Switch(r.drawingSprites, MESH_BINDS))
    ensures Bound(DrawMeshCorrected(r, m, transform).0) == Replay(Bound(r), Switch(r.drawingSprites, MESH_BINDS))
  {
    var pre := [SetVertexBuffer(m.vertexBuffer)];
    var meshBinds := Switch(r.drawingSprites, MESH_BINDS);
    CallBinding(r.log, pre, meshBinds, MeshPost(m, m, transform));
    CallBinding(r.log, pre, meshBinds, MeshPost(m, WithTransformBit(m, transform), transform));
  }

  /** A dynamic mesh draw leaves its mode switch's bindings: the world
      buffer only as written, the whole mesh set corrected. */
  lemma DynamicBinding(r: Renderer, m: Mesh, vertexCount: nat)
    ensures Bound(DrawMeshDynamic(r, m, vertexCount).0) == Replay(Bound(r), Switch(r.drawingSprites, DYNAMIC_BINDS))
    ensures Bound(DrawMeshDynamicCorrected(r, m, vertexCount).0) == Replay(Bound(r), Switch(r.drawingSprites, MESH_BINDS))
  {
    var m2 := m.(data := AddBits(m.data, DYNAMIC_VERTICES));
    var dynPre := [WriteDynamicVertices(m.v, vertexCount)];
    CallBinding(r.log, dynPre, Switch(r.drawingSprites, DYNAMIC_BINDS), DynamicPost(r, m2, vertexCount));
    CallBinding(r.log, dynPre, Switch(r.drawingSprites, MESH_BINDS), DynamicPost(r, m2, vertexCount));
  }

  lemma InitConsistent(dynamicVertexBuffer: Ptr)
    ensures Consistent(Init(dynamicVertexBuffer))
  {
    SpriteBindsReady(UNBOUND);
  }

  /** Sprite and line draws keep the flag truthful. */
  lemma SpriteDrawsKeepConsistent(r: Renderer, s: Sprite)
    requires Consistent(r)
    ensures Consistent(DrawSprite(r, s).0)
    ensures Consistent(DrawLine(r, s).0)
  {
    SpriteBinding(r, s);
    if !r.drawingSprites { SpriteBindsReady(Bound(r)); }
  }

  /** With the corrected mesh calls every mesh, whatever came before it, is
      drawn with world, view and transform bound; with the sprite draws this
      keeps the flag truthful in every order of calls. */
  lemma CorrectedMeshDrawsReady(r: Renderer, m: Mesh, transform: Option<seq<real>>, vertexCount: nat)
    requires Consistent(r)
    ensures MeshReady(Bound(DrawMeshCorrected(r, m, transform).0))
    ensures MeshReady(Bound(DrawMeshDynamicCorrected(r, m, vertexCount).0))
  {
    MeshBinding(r, m, transform);
    DynamicBinding(r, m, vertexCount);
    if r.drawingSprites { MeshBindsReady(Bound(r)); }
  }

  /** The as-written calls keep only the weak form: in mesh mode the world
      buffer, but not necessarily view and transform, is bound. */
  lemma AsWrittenDrawsKeepWeak(r: Renderer, s: Sprite, m: Mesh,
                               transform: Option<seq<real>>, vertexCount: nat)
    requires WeaklyConsistent(r)
    ensures WeaklyConsistent(DrawSprite(r, s).0)
    ensures WeaklyConsistent(DrawLine(r, s).0)
    ensures WeaklyConsistent(DrawMesh(r, m, transform).0)
    ensures WeaklyConsistent(DrawMeshDynamic(r, m, vertexCount).0)
  {
    SpriteBinding(r, s);
    MeshBinding(r, m, transform);
    DynamicBinding(r, m, vertexCount);
    ReplaySlots(Bound(r), SPRITE_BINDS);
    if r.drawingSprites {
      MeshBindsReady(Bound(r));
      DynamicBindsWorld(Bound(r));
    } else {
      SpriteBindsReady(Bound(r));
    }
  }

  /** The stale-binding defect: a sprite, then a dynamic mesh, then a mesh.
      The dynamic mesh switches to mesh mode binding only the world buffer;
      the mesh sees mesh mode already set and binds nothing; so the mesh is
      drawn with the 2D camera in the view slot and, without a transform,
      the shader builds its view from the camera's bytes. */
  lemma StaleViewSlot(dynamicVertexBuffer: Ptr, s: Sprite, dyn: Mesh, vertexCount: nat, m: Mesh)
    requires !s.nodraw
    ensures var r1 := DrawSprite(Init(dynamicVertexBuffer), s).0;
            var r2 := DrawMeshDynamic(r1, dyn, vertexCount).0;
            var r3 := DrawMesh(r2, m, None).0;
            && |Bound(r3).slots| == SLOTS && Bound(r3).slots[1] == Some(Camera2D)
            && !MeshReady(Bound(r3))
  {
    var r0 := Init(dynamicVertexBuffer);
    InitConsistent(dynamicVertexBuffer);
    var r1 := DrawSprite(r0, s).0;
    SpriteDrawsKeepConsistent(r0, s);
    assert SpriteReady(Bound(r1));
    var r2 := DrawMeshDynamic(r1, dyn, vertexCount).0;
    DynamicBinding(r1, dyn, vertexCount);
    DynamicBindsWorld(Bound(r1));
    assert Bound(r2).slots[1] == Some(Camera2D);
    MeshBinding(r2, m, None);
    assert Switch(r2.drawingSprites, MESH_BINDS) == [];
    assert Bound(DrawMesh(r2, m, None).0) == Bound(r2);
    ReplaySlots(UNBOUND, r2.log);
  }

  /** The transform-bit defect: the first `drawMesh` that passes a transform
      uploads the mesh before setting the bit, so that draw reaches the
      shader without it, although the mesh now carries it. */
  lemma TransformBitLags(r: Renderer, m: Mesh, transform: seq<real>)
    requires m.data & APPLY_TRANSFORM == 0
    ensures var res := DrawMesh(r, m, Some(transform));
      && res.1.data & APPLY_TRANSFORM == APPLY_TRANSFORM
      && forall e :: e in Added(r, res.0) && e.UploadWorld? ==> e.constants.data & APPLY_TRANSFORM == 0
  {
  }

  /** Corrected, the draw that passes a transform uploads the bit with it. */
  lemma TransformBitUploaded(r: Renderer, m: Mesh, transform: seq<real>)
    ensures var res := DrawMeshCorrected(r, m, Some(transform));
      forall e :: e in Added(r, res.0) && e.UploadWorld? ==> e.constants.data & APPLY_TRANSFORM == APPLY_TRANSFORM
  {
  }

  /** A mesh initialised without an index array is drawn vertex by vertex;
      with one, by index. */
  lemma InitMeshDrawKind(r: Renderer, v: Ptr, vertexCount: nat, index: Ptr, indexCount: nat,
                         t: Ptr, vertexBuffer: Ptr, indexBuffer: Ptr)
    requires indexBuffer != NULL
    ensures var m := InitMesh(v, vertexCount, index, indexCount, t, vertexBuffer, indexBuffer);
            var log := DrawMesh(r, m, None).0.log;
            log[|log| - 1] == if index == NULL then Draw(vertexCount) else DrawIndexed(indexCount)
  {
  }

  /** Destroying a freshly initialised mesh releases exactly the buffers its
      initialisation obtained. */
  lemma DestroyReleasesInit(v: Ptr, vertexCount: nat, index: Ptr, indexCount: nat,
                            t: Ptr, vertexBuffer: Ptr, indexBuffer: Ptr)
    requires vertexBuffer != NULL && indexBuffer != NULL
    ensures var m := InitMesh(v, vertexCount, index, indexCount, t, vertexBuffer, indexBuffer);
            DestroyMesh(m).1 == if index != NULL then [indexBuffer, vertexBuffer] else [vertexBuffer]
  {
  }
}
