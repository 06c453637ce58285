# RetroPanda core, modelled in Dafny

RetroPanda (`game.py`) is a Panda3D demo of retro-style rendering. It draws
the scene into a square off-screen buffer of side `buf_size` (2048 texels).
A full-screen card then samples a small window of that buffer with
nearest-neighbour filtering, so the picture looks like a 256 x 144 console.
The scene holds three things:

- a grass field, generated once by a coin flip per cell of a
  `buf_size / 16`-square grid;
- the player sprite, a card that shows one of six textures (two animation
  frames for down, up and right) and mirrors the right-facing artwork when
  it faces left;
- an engine that turns arrow keys into facing changes, quits on escape, and
  flips every sprite's animation frame on a periodic tick.

The model has four modules:

- `Sprites` (`sprites.dfy`) models the sprite:
  - the `Sprite` class keeps the source's fields (texture table, facing,
    frame, bound texture, mirror flag) and updates them in place in `Face`
    and `Cycle`;
  - each method is proved against a specification function on a
    `SpriteState` value (`Faced`, `Cycled`);
  - lemmas state the properties of those functions and of any interleaving
    of key presses and ticks (`Run`).
- `TileField` (`tile_field.dfy`) models the field generator:
  - `GenerateField` is the nested loop: one row group per outer index x,
    then all groups merged;
  - it is proved equal to the recursive definitions `Rows`, `Concat` and
    `Field`;
  - lemmas give membership, size, order, bounds, and equality with an
    unbatched single pass (`Flat`).
  - Scene positions and the tile card size are exact rationals.
- `Presentation` (`presentation.dfy`) models the UV window of the
  full-screen card and the texture offset, in exact `real` arithmetic.
- `Engine` (`engine.dfy`) models the `RetroEngine` class:
  - the constructor wires up window, field and player;
  - `HandleInput` is the key handler, and `KeyBinding` maps key events to
    the handler's argument;
  - `CycleSprites` is the animation tick.

## Model

| member | source | states |
|---|---|---|
| Sprites.LoadTable | game.py:53-59 | the table has two frames for each of d, u, r, and frame i of direction k is the texture loaded from `texpath/<k><i + 1>.png` |
| Sprites.AssetPathInjective | game.py:53-58 | two asset paths of one directory are equal iff they name the same direction and the same frame |
| Sprites.LoadTableDistinct | game.py:53-59 | the six textures of a loaded table are pairwise different |
| Sprites.CoherentShowsOneArtwork | game.py:72-86 | with six different textures, two coherent states show the same texture iff they show the same direction's artwork at the same frame |
| Sprites.ArtworkKey | game.py:72-86 | artwork used by a facing: u shows u; r and l both show r; every other key shows d |
| Sprites.Initial | game.py:60-70 | a new sprite faces d, shows frame 0 of d, is not mirrored, and is coherent |
| Sprites.Faced | game.py:72-86 | after face(dir): facing is dir, frame unchanged, texture is the dir artwork at the current frame, mirrored exactly when dir is l, result coherent |
| Sprites.Flip | game.py:89 | the new frame is the other of {0, 1} |
| Sprites.Cycled | game.py:88-90 | after cycle(): facing kept, frame switched, texture is the same facing's artwork at the new frame, mirror set only for l |
| Sprites.FaceOverwrites | game.py:72-86 | facing is absolute: face(d1) then face(d2) equals face(d2) alone |
| Sprites.MirrorNotCumulative | game.py:79-82 | the mirror is set, not toggled: l,r,l equals l; l,l equals l; r after l clears the mirror |
| Sprites.FaceCurrentIsIdentity | game.py:72-86 | re-facing the current direction leaves a coherent state unchanged |
| Sprites.CycleTwiceRestores | game.py:88-90 | two cycles restore a coherent state exactly (frame, texture, mirror) |
| Sprites.CycleCommutesWithFace | game.py:72-90 | a tick and a key press give the same state in either order |
| Sprites.Run | game.py:72-90 | the frame stays in {0, 1} under any sequence of key presses and ticks |
| Sprites.RunInvariant | game.py:72-90 | after any sequence: frame = (start frame + number of ticks) mod 2, facing = last key pressed, and texture and mirror agree with them |
| Sprites.TicksAlternate | game.py:88-90 | three ticks from spawn show frames 1, 0, 1 and keep facing d |
| Sprites.UpRightLeftShowsMirroredRight | game.py:72-86 | keys u, r, l from spawn leave frame 0 of the r artwork, mirrored |
| Sprites.Sprite.constructor | game.py:51-70 | loads the table from texpath and starts in the initial state |
| Sprites.Sprite.Face | game.py:72-86 | the new state is `Faced` of the old one, and the sprite is valid (coherent) afterwards |
| Sprites.Sprite.Cycle | game.py:88-90 | the new state is `Cycled` of the old one, and the sprite stays valid |
| TileField.GridSide | game.py:163-168 | cells per side n satisfy 16n <= buf_size < 16(n + 1) |
| TileField.Offset | game.py:171 | a cell's offset is a multiple of 32, and dividing it by 32 gives the cell index back |
| TileField.RowTiles | game.py:168-173 | a row group holds at most one tile per visited cell |
| TileField.Rows | game.py:163-176 | k groups; group x is row x's tiles |
| TileField.MergedStep | game.py:163-179 | merging one more row group appends exactly that row's tiles after the rows merged so far |
| TileField.RowMember | game.py:168-173 | a tile is in row x's group iff it is in row x, among the visited cells, and its coin came up include |
| TileField.MergedMember | game.py:163-179 | a tile is among the first k merged rows iff its cell is in one of them and was included |
| TileField.FieldMembers | game.py:163-179 | the field holds a tile iff its cell is on the grid and was included |
| TileField.MergedSize | game.py:163-179 | the first k rows hold at most one tile per visited cell |
| TileField.FullRow | game.py:168-173 | with every coin include, a row of m cells holds m tiles |
| TileField.FullMergedSize | game.py:163-179 | with every coin include, k rows hold one tile per cell |
| TileField.FieldSize | game.py:163-179 | at most n*n tiles, and exactly n*n when every coin says include |
| TileField.RowOrdered | game.py:168-173 | a row group lists its tiles by increasing inner index |
| TileField.MergedOrdered | game.py:163-179 | merged rows list tiles by outer, then inner index |
| TileField.FieldNoDuplicates | game.py:163-179 | the field is in generation order, no cell appears twice, no two tiles share an offset |
| TileField.FieldBounds | game.py:163-171 | every tile offset lies below 2 * buf_size on both axes |
| TileField.FlatRow | game.py:168-173 | visiting a row's cells one by one in the flat pass appends exactly that row's group |
| TileField.MergedEqualsFlat | game.py:163-179 | merging k row groups equals the flat pass over the first k*n cells |
| TileField.BatchedEqualsFlat | game.py:163-179 | grouping by rows then merging gives tile for tile the list of a single pass over all n*n cells |
| TileField.GenerateField | game.py:163-179 | the loop builds exactly `Rows` and `Field`; the field contains only placed tiles, is ordered, has no duplicates, has at most n*n tiles, and its offsets are in bounds |
| TileField.ScenePosition | game.py:171 | scene coordinate = offset / buf_size - 1 on each axis |
| TileField.TileScale | game.py:43 | a tile card's side times buf_size is 32 |
| TileField.SceneBounds | game.py:163-171 | every generated tile lies in the camera's [-1, 1) square |
| TileField.TilesAbut | game.py:171 | neighbouring cells are exactly one tile card apart on each axis |
| TileField.FullField | game.py:163-179 | with every coin include, the field holds n * n tiles, exactly the cells of the grid |
| TileField.SmallFullGrid | game.py:163-179 | a 64-texel buffer with every coin include gives 16 tiles at offsets {0, 32, 64, 96} on both axes |
| Presentation.CropWindow | game.py:145-147 | the window is centred at (0.5, 0.5) and spans 2w/B by 2h/B |
| Presentation.CameraOffset | game.py:200 | the texture offset is 16/B on U and 0 on V |
| Presentation.Shifted | game.py:200 | an offset moves the window by its amount and keeps its size |
| Presentation.CropInsideTexture | game.py:145-147 | for w, h >= 0 the window lies in [0,1]^2 iff w <= B/2 and h <= B/2 |
| Presentation.CameraShift | game.py:200 | the camera offset moves U by 16 texels and leaves V and the width unchanged |
| Presentation.ShiftedInsideTexture | game.py:200 | the shifted window lies in [0,1]^2 iff w + 16 <= B/2 and h <= B/2 |
| Presentation.ConfiguredWindow | game.py:145-147 | 256 x 144 on 2048 gives U [0.375, 0.625], V [0.4296875, 0.5703125]; after the offset U becomes [0.3828125, 0.6328125], still inside |
| Engine.ShippedConfiguration | game.py:16 | a 2048 buffer gives a 128-cell grid, and its shifted window is inside the texture |
| Engine.KeyBinding | game.py:193-197 | exactly the five bound events give a key; arrow_up gives u, arrow_down d, arrow_left l and arrow_right r, each iff; only escape gives b |
| Engine.RetroEngine.constructor | game.py:96-202 | window = `CropWindow(256, 144, B)`; offset = `CameraOffset(B)`; rows and field = `Rows`, `Field` of the grid; one fresh player sprite in its initial state, also the only sprite |
| Engine.RetroEngine.HandleInput | game.py:204-208 | key b gives `Exit(0)` and changes nothing; any other key gives `Continue`, turns the player by `Faced`, and leaves every other sprite unchanged |
| Engine.RetroEngine.CycleSprites | game.py:210-213 | each sprite is cycled exactly once; sprites that shared a frame still share one; the task asks to run again |

## Left out

- Panda3D itself is not modelled: window and buffer creation, the orthographic
  camera, scene-graph nodes, `flattenStrong`, `CardMaker`, transparency,
  magnification filters and the buffer viewer bound to v and V
  (game.py:98-141). The batching that `flattenStrong` serves is modelled only
  as the order-preserving concatenation of row groups.
- Texture loading is not modelled. A texture is its asset path, and a missing
  file (which Panda3D reports at load time) is not modelled.
- `MakeBackground` (game.py:20-30) is not modelled. Its solid colour card has
  no logic to model.
- `MakeTile` (game.py:33-47) is modelled only through its card scale
  (`TileScale`). Sprite cards use the same scale (game.py:64).
- `random.randint(1, 2) == 2` is a parameter `coin(x, y)`, an arbitrary
  oracle. The model says nothing about the distribution.
- The 0.25 s timer that schedules `cycleSprites` is not modelled. The model
  covers the effect of one tick, and `task.again` becomes the result `true`.
- `sys.exit(0)` is modelled as the outcome `Exit(0)`.
- Floating point is modelled as exact `real`. Tile and sprite positions are
  integer offsets, and their scene coordinates are exact ratios.
- The sprite card's placement (`setPos(0, -1, 0)`, game.py:187) is not
  modelled.
- Python's `not self.frame` turns the integer 0 into `True`, and `True`
  indexes the list like 1. The model keeps the frame as 0 or 1 (`Flip`).
- `buf_size` is a module constant (2048) in the source. The constructor takes
  it as a positive parameter; `ShippedConfiguration` checks 2048.
- A tile is identified by its cell (x, y). Its offset on each axis is
  `Offset` = 32 times the cell index, the value the source divides by
  `buf_size`.
- The window's half-extent is w / B on U and h / B on V (game.py:145-147), so
  the window covers 2w x 2h texels: 512 x 288 for the shipped settings. The
  comments at game.py:106 ("256x144 is the nearest 16:9 resolution") and
  game.py:143 ("not-quite GBA-sized viewport") suggest a 256 x 144 texel
  window instead. On the 1280 x 720 window (game.py:98) the code as written
  gives a 2.5x upscale, not a whole-number 5x one. The intent is not certain,
  so the model follows the code and does not claim a finding.
- The scene position `(x*32)/buf_size - 1` (game.py:171) is read with
  Python 3's true division, as exact `real` division. Under Python 2 the
  quotient of two integers floors, and on a 2048 buffer every tile would
  land on one of four positions; that reading is not modelled.
