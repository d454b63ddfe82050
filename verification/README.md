# viva5 engine core, modelled in Dafny

viva5 is a small Direct3D 11 game engine written as two C++ headers. Two
revisions live side by side: the first in `viva.h` and the later one in
`viva_impl.h`. This project models the parts of both that do not depend on
the GPU or the operating system:

- the allocation tracker (`memory::alloctrack`): alloc, free and the leak report;
- sprite defaults:
  - the later `sprite::init`;
  - the older `initSprite`, with its `TEXTURE_INVISIBLE` / `TEXTURE_BLANK` sentinels;
  - the main loop's choice of texture;
- the frame-animation state machine (`animation`);
- the kinematic integrator: `dynamic::update` and `updateDynamicSprite`;
- bitmap-font text in both revisions: the fixed-capacity slot walk, and the `last`-pointer walk;
- the renderer's draw-mode switch (`drawingSprites`) for `drawSprite`,
  `drawLine`, `drawMesh` and `drawMeshDynamic`, plus the field effects of
  `initMesh` and `destroyMesh`;
- `uvSplit`, which cuts a sprite sheet into frames;
- the byte `stream`, with its validation-build overflow check;
- keyboard edge detection and the typed-character tables;
- the routine scheduler (`fn::queue`);
- the resource registry (`res::resources`), with bulk free.

How the engine's dependencies appear in the model:

- Clocks (`timer::getGameTimeSec`) become a `now` parameter.
- The pointers an operation reads or writes (the driven sprite, the sprite
  slots of a text) are passed in and returned.
- `malloc` results and device buffer handles are parameters.
- The device context is replaced by a log of the calls the renderer makes on it.
  What is bound on the vertex stage is read off that log by `Renderer.Replay`.
- `GetAsyncKeyState` becomes a snapshot of the 256 key states.
- A routine's `std::function` is represented by the value it returns.
- `float` is modelled as `real`, so there is no rounding.
- C `uint` wrap-around is written out (`% 2^32`) where the code depends on it: routine ids, and the stream's overflow sum.

Files:

| file | module | what it models |
|---|---|---|
| base.dfy | Base | shared values: `Option`, `Ptr`, `Uv`, `Color`, `UINT_MODULUS` |
| alloctrack.dfy | AllocTrack | `alloctrack` |
| sprite.dfy | Sprites, LegacySprites | `sprite::init`; `initSprite`, the sentinels, loop selection |
| animation.dfy | Animations | `animation` |
| dynamic.dfy | Dynamics | `dynamic`, `updateDynamicSprite` |
| text.dfy | Texts | `font`, `text::init`, `text::update` (later revision) |
| legacy_text.dfy | LegacyTexts | `text::update` (first revision) |
| renderer.dfy | Renderer | draw-mode switch, mesh flag bits, `initMesh`, `destroyMesh` |
| uvsplit.dfy | UvSplits | `uvSplit` (both copies are identical) |
| stream.dfy | Streams | `util::stream` |
| keyboard.dfy | Keyboards | `input::keyboard` |
| routines.dfy | Routines | `fn::queue` |
| resources.dfy | Resources | `res::resources` |

Two behaviours of the code worth knowing:

- **Integrator order.** `dynamic::update` gives the velocity its
  acceleration first and then moves the position by the new velocity.
  `Dynamics.Step` models that order; `Dynamics.OrderMatters` states how far
  it lands from the position-first order.
- **Newlines in text.** A newline returns the cursor to slot 0's x and
  moves it down one line.

## Model

| member | source | states |
|---|---|---|
| AllocTrack.Alloc | viva5/viva_impl.h:52-67 | a zero-size request in the validation build returns null and records nothing; otherwise returns the block and, when tracking, appends exactly that block |
| AllocTrack.Free | viva5/viva_impl.h:69-83 | when tracking, a live block's entry is removed and the list shrinks by one; an untracked tracker or an unknown block is left unchanged |
| AllocTrack.FreeCutsFirst | viva5/viva_impl.h:72-81 | free removes only the first entry equal to the block and keeps the entries before and after it in order |
| AllocTrack.Report | viva5/viva_impl.h:85-88 | one report entry per live block, naming exactly the live blocks |
| AllocTrack.RemoveFirstSplits | viva5/viva_impl.h:72-81 | the erase loop cuts the list around the first occurrence of the block |
| AllocTrack.RemoveFirstMultiset | viva5/viva_impl.h:72-81 | the erase loop removes exactly one instance of the block; the list shrinks by one when the block was present |
| AllocTrack.FreeUndoesAlloc | viva5/viva_impl.h:52-83 | freeing a block right after allocating it restores the tracker |
| AllocTrack.FreeRemovesOne | viva5/viva_impl.h:69-83 | free takes one instance of the block out of the multiset of live blocks |
| AllocTrack.FreeAllMultiset | viva5/viva_impl.h:69-83 | freeing a list of blocks takes exactly those blocks out of the multiset of live blocks |
| AllocTrack.AllocAll | viva5/viva_impl.h:52-67 | allocating a list of blocks while tracking appends them all, in order |
| AllocTrack.FiveAllocsThreeFrees | viva5/viva_impl.h:45-88 | five distinct allocations followed by three frees leave exactly the two survivors in the report, in allocation order |
| Sprites.Init | viva5/viva_impl.h:948-955 | the initialised sprite has texture `t`, opaque white, unit scale and the full UV; every other field is zero and it is drawable |
| Sprites.InitIndependentOfTexture | viva5/viva_impl.h:948-955 | two initialised sprites differ only in their texture, and are equal exactly when the textures are |
| LegacySprites.InitSprite | viva5/viva.h:1398-1405 | the sprite gets the texture index, white, unit scale and the full UV; everything else is zero |
| LegacySprites.SelectTexture | viva5/viva.h:2348-2353 | the main loop binds the texture at the sprite's index exactly when the index is below TEXTURE_BLANK, and no texture otherwise |
| LegacySprites.ShadingOf | viva5/viva.h:790-791 | the vertex shader discards exactly TEXTURE_INVISIBLE and draws exactly TEXTURE_BLANK as a flat colour |
| LegacySprites.SelectionMatchesShading | viva5/viva.h:2351-2352 | up to TEXTURE_INVISIBLE, the loop binds a texture exactly when the shaders sample one |
| LegacySprites.InitSpriteSelection | viva5/viva.h:1398-1405 | an initialised sprite with an ordinary index is drawn with that texture; one given TEXTURE_INVISIBLE is discarded |
| Animations.Init | viva5/viva_impl.h:1022-1038 | the animation starts stopped at frame 0 with cleared counters; the sprite shows frame 0 |
| Animations.Play | viva5/viva_impl.h:1041-1049 | a playing animation is untouched; a stopped one starts at `now` and shows its current frame |
| Animations.Pause | viva5/viva_impl.h:1052-1055 | the animation stops; nothing else changes |
| Animations.Reset | viva5/viva_impl.h:1058-1065 | stopped at frame 0 with counters and accumulator cleared; the time stamp and configuration are kept |
| Animations.Change | viva5/viva_impl.h:1069-1075 | nothing happens unless the source plays and the target does not; then the source is reset and the target plays, showing its current frame |
| Animations.ChangeIdempotent | viva5/viva_impl.h:1069-1075 | repeating `change` on the resulting pair changes nothing |
| Animations.FlipHorizontally | viva5/viva_impl.h:1077-1081 | left and right are swapped in each of the first `frameCount` frames; later frames and all other state are kept |
| Animations.FlipVertically | viva5/viva_impl.h:1083-1087 | top and bottom are swapped in each of the first `frameCount` frames; later frames and all other state are kept |
| Animations.FlipInvolution | viva5/viva_impl.h:1077-1087 | flipping twice restores every frame |
| Animations.Update | viva5/viva_impl.h:1093-1126 | a stopped animation is unchanged; a playing one accumulates elapsed time; past one period it moves one frame cyclically, takes one period off, counts the change and stops once the count passes a non-zero `stopAfter` |
| Animations.AtMostOneFramePerUpdate | viva5/viva_impl.h:1109-1124 | over any run of updates the change counter grows by at most one per call, and the frame is the start frame moved on that many places |
| Animations.StallMovesOneFrame | viva5/viva_impl.h:1109-1116 | a stall of several periods moves only one frame and leaves the rest of the time in the accumulator |
| Dynamics.Init | viva5/viva_impl.h:974-980 | every velocity and acceleration is zero, stamped with the current time |
| Dynamics.Step | viva5/viva_impl.h:988-989 | the velocity gains `acc*dt`, and the position moves by `vel*dt + acc*dt*dt`, that is, by the new velocity |
| Dynamics.Update | viva5/viva_impl.h:982-1000 | each of the six channels is integrated over the elapsed time, and the integrator is restamped; only the six transform fields and velocities change |
| Dynamics.UpdateWithoutAcceleration | viva5/viva_impl.h:982-1000 | with no acceleration, an update translates each channel by `v*dt` and keeps the velocities |
| Dynamics.RunChannelGlides | viva5/viva.h:1573-1591 | with no acceleration, `n` fixed-step updates move each channel step by step at constant velocity |
| Dynamics.RunClockGlides | viva5/viva.h:1575-1577 | with no acceleration, `n` fixed-step updates advance the stamp one step at a time and change nothing else in the integrator |
| Dynamics.ConstantVelocity | viva5/viva.h:1573-1591 | with no acceleration, `n` updates of step `dt` move each channel by exactly `n*v*dt` |
| Dynamics.ConstantVelocityClock | viva5/viva.h:1575-1577 | with no acceleration, `n` updates keep every velocity and advance the stamp by `n*dt` |
| Dynamics.OrderMatters | viva5/viva_impl.h:988-999 | the order the code uses lands `acc*dt*dt` beyond the position-first order |
| Texts.Init | viva5/viva_impl.h:1144-1173 | the validation build refuses a capacity below 1 or a textureless font; otherwise there are `capacity` slots, each an initialised sprite on the font's texture, coloured opaque black, with zero spacing |
| Texts.ExtentFrom | viva5/viva_impl.h:1181-1183 | the walk switches to hiding at the first terminator, or never, if none comes before the capacity |
| Texts.Update | viva5/viva_impl.h:1175-1209 | the loop computes the reference layout `Texts.Layout` slot for slot |
| Texts.LayoutSlots | viva5/viva_impl.h:1181-1207 | slots from the terminator on are only hidden; a newline slot is hidden with zero scale; every other slot shows its glyph at the cursor, with slot 0's scale and origin, and keeps its depth, rotation, colour and texture |
| Texts.PenGrid | viva5/viva_impl.h:1189-1206 | the cursor sits on a grid: one advance right per character since the last newline, one line down per newline |
| Texts.CursorIsPen | viva5/viva_impl.h:1177-1206 | while slot 0 keeps its x and scale, the layout's cursor is that grid cursor |
| Texts.AnchorKeepsGeometry | viva5/viva_impl.h:1196-1206 | unless the string starts with a newline, slot 0 keeps its position, scale and origin |
| Texts.LeadingNewlineCollapses | viva5/viva_impl.h:1189-1202 | a leading newline zeroes slot 0's scale during the walk, so every glyph is laid out with zero size |
| LegacyTexts.Terminated | viva5/viva.h:979-983 | the walk stops at the first terminator and at no earlier character |
| LegacyTexts.Update | viva5/viva.h:970-1013 | each glyph lands in the slot numbered by the glyphs before it, with the font's texture; past the glyphs, slots up to the old end become invisible and the rest are kept; the recorded end is the larger of the new end and the old one, so it never moves back |
| LegacyTexts.PlaceGlyphs | viva5/viva.h:979-1004 | the walk writes exactly `Filled` slots, each with a glyph character in string order at the grid cursor, and leaves the others |
| LegacyTexts.Blank | viva5/viva.h:1008-1011 | the slots from the new end up to the old end get TEXTURE_INVISIBLE; all others are kept |
| LegacyTexts.GlyphsMonotone | viva5/viva.h:1001-1002 | the slot pointer never moves back |
| LegacyTexts.GlyphsOrder | viva5/viva.h:993-1002 | earlier glyphs get lower slots, so no two glyphs share one |
| LegacyTexts.GlyphsCovered | viva5/viva.h:979-1004 | every glyph character of the string is placed, at its own slot |
| LegacyTexts.FirstGlyphAnchor | viva5/viva.h:985-991 | the first glyph goes to slot 0 at slot 0's x, pushed down one line per leading newline |
| LegacyTexts.LeadingNewlines | viva5/viva.h:985-991 | before the first glyph every character is a newline |
| Renderer.Init | viva5/viva_impl.h:1596-1598 | the renderer starts in sprite mode with the sprite shader and its two buffers bound |
| Renderer.Switch | viva5/viva_impl.h:1769-1775 | a draw rebinds exactly when the renderer is in the other mode |
| Renderer.PixelFlags | viva5/viva_impl.h:897-902 | bit 0 of the flag word is set exactly for a hidden sprite, and bit 1 exactly for one without a texture |
| Renderer.DrawSprite | viva5/viva_impl.h:1765-1782 | a hidden sprite is skipped; otherwise the renderer ends in sprite mode, rebinding exactly when it was in mesh mode; the sprite's no-texture bit records whether it has a texture; the texture is bound exactly when there is one; the sprite is uploaded and six vertices are drawn |
| Renderer.DrawLine | viva5/viva_impl.h:1791-1809 | a line is drawn in sprite mode, rebinding exactly when needed; it is uploaded one unit nearer with only the no-texture flag; three vertices are drawn; the sprite comes back unchanged |
| Renderer.AddBits | viva5/viva_impl.h:1833 | or-ing in flag bits sets them and clears none |
| Renderer.WithTransformBit | viva5/viva_impl.h:1831-1835 | passing a transform sets APPLY_TRANSFORM on the mesh; no other field changes and no bit is cleared |
| Renderer.MeshDraw | viva5/viva_impl.h:1837-1845 | a mesh with an index buffer ends in an indexed draw of `indexCount`; any other mesh ends in a draw of `vertexCount` |
| Renderer.DrawMesh | viva5/viva_impl.h:1811-1846 | as written: mesh mode, rebinding exactly when in sprite mode, the mesh's vertex buffer set; the only world upload carries the mesh as it was before the transform bit; the draw is indexed exactly when there is an index buffer |
| Renderer.DrawMeshCorrected | viva5/viva_impl.h:1829-1835 | corrected: the world upload carries the mesh with the transform bit already set |
| Renderer.DrawMeshDynamic | viva5/viva_impl.h:1855-1883 | as written: the vertices are copied to the shared buffer; the mesh is marked dynamic before its upload, and no other bit changes; `vertexCount` vertices are drawn; leaving sprite mode binds only shader and world |
| Renderer.DrawMeshDynamicCorrected | viva5/viva_impl.h:1866-1871 | corrected: leaving sprite mode binds the whole mesh set, as `drawMesh` does |
| Renderer.InitMesh | viva5/viva_impl.h:1970-2007 | the mesh keeps its arguments; an index buffer exists exactly when an index array was given; scale is 1, colour is (1,1,1) with alpha 0, and the flags are clear |
| Renderer.DestroyMesh | viva5/viva_impl.h:2019-2028 | exactly the existing buffers are released, the vertex buffer last; both handles end null |
| Renderer.SpriteBinding | viva5/viva_impl.h:1769-1775 | a drawn sprite or line leaves the sprite set bound after mesh mode, and the binding untouched otherwise |
| Renderer.MeshBinding | viva5/viva_impl.h:1817-1823 | a mesh draw, as written or corrected, leaves exactly what its mode switch binds: the whole mesh set when it leaves sprite mode, nothing new otherwise |
| Renderer.DynamicBinding | viva5/viva_impl.h:1866-1871 | a dynamic mesh draw leaves exactly what its mode switch binds: shader and world only as written, the whole mesh set corrected |
| Renderer.SpriteBindsReady | viva5/viva_impl.h:1772-1774 | the sprite switch binds the sprite shader, the sprite buffer and the 2D camera |
| Renderer.MeshBindsReady | viva5/viva_impl.h:1820-1823 | the mesh switch binds the mesh shader, world, view and transform |
| Renderer.DynamicBindsWorld | viva5/viva_impl.h:1869-1870 | the dynamic switch changes only the shader and slot 0 |
| Renderer.InitConsistent | viva5/viva_impl.h:1596-1598 | after init the mode flag matches what the device has bound |
| Renderer.SpriteDrawsKeepConsistent | viva5/viva_impl.h:1769-1775 | sprite and line draws keep the mode flag truthful |
| Renderer.CorrectedMeshDrawsReady | viva5/viva_impl.h:1817-1823 | with the corrected calls, every mesh is drawn with world, view and transform bound |
| Renderer.AsWrittenDrawsKeepWeak | viva5/viva_impl.h:1866-1871 | the calls as written keep only the weak form: in mesh mode only shader and world are certain |
| Renderer.StaleViewSlot | viva5/viva_impl.h:1866-1871 | a sprite, then a dynamic mesh, then a mesh: the mesh is drawn with the 2D camera in the view slot |
| Renderer.TransformBitLags | viva5/viva_impl.h:1829-1835 | the first `drawMesh` given a transform uploads the mesh without APPLY_TRANSFORM, although the mesh then carries it |
| Renderer.TransformBitUploaded | viva5/viva_impl.h:1829-1835 | corrected, that draw's upload carries the bit |
| Renderer.InitMeshDrawKind | viva5/viva_impl.h:1999-2006 | a mesh initialised without an index array is drawn vertex by vertex; with one, by index |
| Renderer.DestroyReleasesInit | viva5/viva_impl.h:2019-2028 | destroying a fresh mesh releases exactly the buffers its initialisation created |
| UvSplits.Cell | viva5/viva.h:1563-1569 | with wrapping, a frame's column is below the row length, and row times row length plus column is its number; without wrapping, each frame starts a new row |
| UvSplits.Frame | viva5/viva.h:1558-1561 | every rectangle is one frame wide and one frame high, in texture units |
| UvSplits.UvSplit | viva5/viva.h:1548-1571 | exactly `frameCount` rectangles; frame `i` is the grid rectangle at column `i mod rowLength` and row `i div rowLength`, measured from the offset |
| UvSplits.Advance | viva5/viva.h:1563-1569 | one step of the code's walk, moving one frame right and wrapping to the offset one row down when the wrap test fires, reaches the next frame's rectangle |
| UvSplits.NextCell | viva5/viva.h:1563-1569 | the next frame is one column right, or at column 0 of the next row after a row's last frame |
| UvSplits.WrapAt | viva5/viva.h:1565 | the code's wrap test fires exactly at the end of a row, or at every frame when there is no wrapping |
| UvSplits.RowNeighboursTouch | viva5/viva.h:1556-1570 | neighbouring frames in a row touch and share top and bottom |
| UvSplits.FontSheet | viva5/viva.h:1548-1571 | the 8x12 font sheet on a 256x36 texture fills three rows of 32 and stays inside [0, 1] |
| Streams.New | viva5/viva.h:237-241 | a new stream is empty and its capacity is the buffer size |
| Streams.OverflowTestsAgree | viva5/viva.h:246 | the test as written agrees with "does not fit" whenever the 32-bit sum does not wrap |
| Streams.WrappedPushPasses | viva5/viva.h:246 | pushing 2^32-2 bytes onto 4 in a 16-byte stream passes the test as written, though it does not fit |
| Streams.Push | viva5/viva.h:243-254 | a push that does not fit leaves the stream unchanged; one that fits writes the bytes exactly at the old length and touches no other byte |
| Streams.PushChars | viva5/viva.h:256-267 | pushing characters appends their low bytes, or changes nothing when they do not fit |
| Streams.CharBytes | viva5/viva.h:265 | each C character is stored as its low eight bits |
| Streams.DecodeEncode | viva5/viva.h:278 | the four bytes `push(uint)` writes read back as the integer |
| Streams.EncodeInjective | viva5/viva.h:278 | different integers are written as different bytes |
| Streams.PushUint | viva5/viva.h:269-280 | a fitting push appends the integer's four bytes, low byte first, to the contents; a push that does not fit leaves the stream unchanged |
| Streams.PushUintReadsBack | viva5/viva.h:269-280 | after a fitting push the four bytes at the old length decode to the integer, and the bytes past them are untouched |
| Streams.Clear | viva5/viva.h:282-285 | the stream is empty again and the buffer is not wiped |
| Streams.PushAppends | viva5/viva.h:252-253 | a push that fits appends to the contents |
| Streams.PushesAccumulate | viva5/viva.h:243-285 | pushes that fit accumulate in order; after a clear only later pushes remain |
| Keyboards.Copy | viva5/viva.h:1732-1736 | `memcpy` into a table overwrites exactly the target range |
| Keyboards.Init | viva5/viva.h:1720-1749 | no key is held in either snapshot and nothing is typed |
| Keyboards.FillLayout | viva5/viva.h:1730-1748 | where each block of a table lands; the modifier and mouse keys below space, other than tab, type nothing |
| Keyboards.Letters | viva5/viva.h:1733-1743 | letter keys type lower case without shift and upper case with it |
| Keyboards.Digits | viva5/viva.h:1732 | digit-row keys type their digit without shift |
| Keyboards.Update | viva5/viva.h:1751-1768 | the old state becomes the previous one and the snapshot the current one; the typed character is that of the highest newly pressed key with an entry, from the table shift selects |
| Keyboards.TypedIsHighest | viva5/viva.h:1760-1767 | the typed character is empty exactly when no newly pressed key has an entry, and is otherwise the entry of the highest such key |
| Keyboards.PressRelease | viva5/viva.h:1770-1785 | a key is pressed exactly when it is down now and was not before, released in the opposite case; never both, and pressed implies down |
| Keyboards.HeldKeyTypesOnce | viva5/viva.h:1751-1768 | a key held across two updates types its character once |
| Routines.Init | viva5/viva.h:2125-2129 | ids start at 0 |
| Routines.InitRoutine | viva5/viva.h:2132-2143 | the routine starts now with the next id, and the 32-bit id counter moves on |
| Routines.SetTimeout | viva5/viva.h:2145-2148 | a routine with only a timeout |
| Routines.SetInterval | viva5/viva.h:2150-2153 | a routine with only an interval |
| Routines.SetDuration | viva5/viva.h:2155-2158 | a routine with only a duration |
| Routines.DueTestsAgree | viva5/viva.h:2169-2172 | the test as written and the documented test agree on routines with an end; as written, no routine without an end ever runs |
| Routines.TimeoutNeverRunsAsWritten | viva5/viva.h:2169-2172 | as written, a timeout or interval routine never runs |
| Routines.TimeoutRuns | viva5/viva.h:2131 | corrected, a timeout or interval routine runs once more than its time has passed |
| Routines.Step | viva5/viva.h:2169-2182 | under the code's run test or the documented one, as chosen: a due routine is stamped and marked for destruction exactly when its function returns 0; a skipped routine only has its mark cleared |
| Routines.DueFrom | viva5/viva.h:2164 | calls are listed from the highest index down, each of a routine that passes the chosen run test |
| Routines.Update | viva5/viva.h:2160-2184 | with the code's run test (or, corrected, the documented one): every routine ends as one step leaves it, and the functions called are those of the routines that pass the test, last index first |
| Routines.EndlessSkippedAsWritten | viva5/viva.h:2169-2181 | as written, `update` never calls a routine whose duration is 0 and only clears its mark |
| Routines.TestsAgreeWithEnds | viva5/viva.h:2131-2172 | when every routine has a non-zero duration, the code's test and the documented one call the same functions and leave the same routines |
| Routines.CallsAreDue | viva5/viva.h:2164-2177 | a routine's function is called exactly when the routine passes the run test |
| Routines.IntervalRespected | viva5/viva.h:2171-2175 | under either run test, after running, a routine passes again only once more than its interval has passed |
| Routines.DestroyMarkLastsOneUpdate | viva5/viva.h:2169-2181 | under either run test, a 0 result makes the next update skip the routine and clear the mark, so the update after that can run it again |
| Routines.Ids | viva5/viva.h:2141-2142 | `k` initialisations hand out `k` ids and keep the counter in range |
| Routines.IdsConsecutive | viva5/viva.h:2141-2142 | the ids are consecutive modulo 2^32 |
| Routines.IdsUnique | viva5/viva.h:2141-2142 | up to 2^32 initialisations hand out distinct ids |
| Resources.Empty | viva5/viva.h:2190-2201 | a fresh registry owns nothing |
| Resources.AddTexture | viva5/viva.h:2203-2209 | a texture is appended whose index is its position, and the indexing stays consistent |
| Resources.AddFont | viva5/viva.h:2211-2216 | a font is appended and its position returned |
| Resources.Add | viva5/viva.h:2218-2251 | one tracked allocation is appended to its kind's list; the other lists, textures and fonts are kept |
| Resources.Free | viva5/viva.h:2253-2265 | the tracker frees every owned object, list by list in the code's order; the five lists are emptied; textures and fonts stay |
| Resources.FreeAllConcat | viva5/viva.h:2255-2263 | freeing the lists one after another equals freeing their concatenation |
| Resources.AddOwns | viva5/viva.h:2218-2251 | an allocation adds one instance of the new block to what the registry owns and changes nothing else in it |
| Resources.AddAccounted | viva5/viva.h:2218-2251 | allocating through the registry keeps the tracker's live blocks equal to what the registry owns |
| Resources.FreeLeavesNothing | viva5/viva.h:2253-2265 | when every tracked block came through the registry, `free` leaves the tracker nothing to report |

## Left out

- Window creation, the message pump, the timer's implementation, the mouse,
  networking, the random-number helper, texture loading and the main loop as
  a whole: these are operating-system or device I/O. Only the loop's texture
  selection is modelled.
- Shader source, device and swap-chain creation, samplers, blend and
  rasteriser state, `setSpriteVS` / `setDefaultSpriteVS`, `updateCamera`,
  `beginScene` / `endScene`: these are device calls. The draw functions'
  device calls appear as log events, and only vertex-stage bindings are
  interpreted.
- `float` rounding: the model computes over `real`.
  - `drawLine` restores `z` exactly in the model, which a float might not.
  - `uvSplit`'s accumulated `x` is compared exactly. With float error, the
    wrap test can fire one frame late.
- UvSplits.UvSplit: requires a non-zero texture width and height. The code divides by them, and a zero gives a float infinity, which `real` has no value for.
- Streams.Push: without validation, the caller must keep within the buffer. Writing past it is undefined behaviour in the code, so the model requires the push to fit.
- Keyboards.Update: the shift state and the key states come from one snapshot. The code reads shift separately, a moment before the loop.
- `keyboard::getKeyTyped` has an empty body and returns no value. It is not modelled.
- Animations.Update: requires a non-zero `frameCount` when a frame change is due. The code's `% frameCount` divides by zero there.
- Animations.Update: `_frameChanges` is a 32-bit counter. The model lets it grow unbounded, because it reaches 2^32 only after 2^32 frame changes.
- Routines.Update: the functions the routines call are reduced to their return values, so a function that changes other routines is not modelled.
- Routines.InitRoutine: the game time is a parameter.
- The validation build's null-pointer checks (`!f`, `!s`, `!str` in
  `text::init`) are left out, because the model has no null references.
  The checks for capacity and font texture are modelled.
- Texts.Update: requires each drawn character to be in `' '`..`0x7f`. The code subtracts `' '` from a signed `char` and indexes the 256-entry table, so other characters read outside it.
- LegacyTexts.Update: requires the caller's sprite array to hold every glyph and the old end. The code writes through a raw pointer with no bound.
- LegacyTexts.Update: requires each glyph character to be in `' '`..`0x7f`. The code subtracts `' '` from a signed `char` and indexes the UV table, so a character below `' '`, or above `0x7f` (negative as a signed `char`), reads outside it.
- Renderer.DestroyMesh: requires a vertex buffer. The code releases it unconditionally.
- The `resources` constructor's `this->a == nullptr` compares instead of
  assigning. The model passes the tracker in, so this is not modelled.

## Findings

| source | as written | input that shows it | evidently intended | confidence | as-written member | corrected member |
|---|---|---|---|---|---|---|
| viva5/viva_impl.h:1866-1871 | leaving sprite mode, `drawMeshDynamic` binds only the mesh shader and the world buffer, yet sets `drawingSprites = false` | `drawSprite`, then `drawMeshDynamic`, then `drawMesh(m)` with no transform: `drawMesh` sees mesh mode and binds nothing, so slot 1 still holds the 2D camera when the mesh is drawn | bind world, view and transform, as `drawMesh` does at lines 1817-1823 | not executed | Renderer.StaleViewSlot | Renderer.DrawMeshDynamicCorrected |
| viva5/viva_impl.h:1829-1835 | `drawMesh` uploads the world buffer before `m->data \|= APPLY_TRANSFORM` | the first `drawMesh(m, transform)` on a mesh whose data is 0 uploads data 0, so that draw ignores the transform | set the bit before the upload, as `drawMeshDynamic` does with its own bit at line 1876 | not executed | Renderer.TransformBitLags | Renderer.TransformBitUploaded |
| viva5/viva.h:246 | `this->len + len > this->capacity` on 32-bit `uint` wraps | len 4, capacity 16, push of 2^32-2 bytes: the sum wraps to 2, and the push passes the check | reject any push longer than the free space | not executed | Streams.WrappedPushPasses | Streams.Push |
| viva5/viva.h:2172 | `gameTime - r->started < r->duration` applies even when the duration is 0, contrary to the comment at line 2131 | `setTimeout(r, fn, 1)`: the duration is 0 and elapsed time is never negative, so `fn` never runs | a duration of 0 means no end | not executed | Routines.TimeoutNeverRunsAsWritten | Routines.TimeoutRuns |
