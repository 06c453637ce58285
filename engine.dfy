/** RetroEngine of game.py: builds the presentation window, the tile field
    and the player sprite once, then reacts to key presses and to the
    periodic animation tick. */
module Engine {
  import opened Sprites
  import opened TileField
  import opened Presentation

  /** Side of the square off-screen buffer, in texels, as the game ships. */
  const ShippedBufSize: nat := 2048

  /** The shipped buffer holds a 128 x 128 grid of 16-texel cells, and its
      presentation window with the camera offset stays inside the texture. */
  lemma ShippedConfiguration()
    ensures GridSide(ShippedBufSize) == 128
    ensures InsideTexture(Shifted(CropWindow(256.0, 144.0, ShippedBufSize as real),
                                  CameraOffset(ShippedBufSize as real)))
  {
    ConfiguredWindow();
  }

  /** What a key handler asks of the process. */
  datatype Outcome = Continue | Exit(status: int)

  /** The key string each bound key event passes to the input handler;
      unbound events never reach it. */
  function KeyBinding(event: string): (k: Option<string>)
    ensures k.Some? <==> event in {"arrow_up", "arrow_down", "arrow_left", "arrow_right", "escape"}
    ensures k == Some("b") <==> event == "escape"
    ensures k.Some? && k.value != "b" ==> k.value in {Up, Down, Left, Right}
    ensures k == Some(Up) <==> event == "arrow_up"
    ensures k == Some(Down) <==> event == "arrow_down"
    ensures k == Some(Left) <==> event == "arrow_left"
    ensures k == Some(Right) <==> event == "arrow_right"
  {
    if event == "arrow_up" then Some(Up)
    else if event == "arrow_down" then Some(Down)
    else if event == "arrow_left" then Some(Left)
    else if event == "arrow_right" then Some(Right)
    else if event == "escape" then Some("b")
    else None
  }

  datatype Option<T> = None | Some(value: T)

  /** The sprites in a list are pairwise distinct objects. */
  ghost predicate Distinct(sprites: seq<Sprite>)
  {
    forall i, j :: 0 <= i < j < |sprites| ==> sprites[i] != sprites[j]
  }

  class RetroEngine {
    /** Side of the off-screen buffer the scene is rendered into. */
    const bufSize: nat
    /** The virtual resolution the window is sized from. */
    const xSize: real
    const ySize: real
    /** UV window of the presentation card and its texture offset. */
    const window: UvRect
    const texOffset: (real, real)
    /** The row groups and the merged tile field. */
    const tileRows: seq<seq<Tile>>
    const tiles: seq<Tile>
    var sprites: seq<Sprite>
    var player: Sprite

    ghost predicate Valid()
      reads this, sprites
    {
      player in sprites && Distinct(sprites) &&
      forall i :: 0 <= i < |sprites| ==> sprites[i].Valid()
    }

    /** Sets up the window on a buffer of side size, generates the field with
        the given coin flips and spawns the player, the only sprite. */
    constructor (size: nat, coin: (nat, nat) -> bool)
      requires size > 0
      ensures Valid()
      ensures bufSize == size && xSize == 256.0 && ySize == 144.0
      ensures window == CropWindow(xSize, ySize, size as real)
      ensures texOffset == CameraOffset(size as real)
      ensures tileRows == Rows(GridSide(size), GridSide(size), coin)
      ensures tiles == Field(GridSide(size), coin)
      ensures sprites == [player] && fresh(player)
      ensures player.textures == LoadTable("sprites/player")
      ensures player.State() == Initial(player.textures)
    {
      bufSize := size;
      xSize := 256.0;
      ySize := 144.0;
      window := CropWindow(256.0, 144.0, size as real);
      var rows, field := GenerateField(size, coin);
      tileRows := rows;
      tiles := field;
      var sprite := new Sprite("sprites/player");
      sprites := [sprite];
      player := sprite;
      texOffset := CameraOffset(size as real);
    }

    /** The key handler: "b" asks to exit with status 0 and changes nothing;
        every other key turns the player, and only the player. */
    method HandleInput(key: string) returns (outcome: Outcome)
      requires Valid()
      modifies player
      ensures Valid()
      ensures outcome == (if key == "b" then Exit(0) else Continue)
      ensures key == "b" ==> player.State() == old(player.State())
      ensures key != "b" ==> player.State() == Faced(player.textures, old(player.State()), key)
      ensures forall i :: 0 <= i < |sprites| && sprites[i] != player ==>
                sprites[i].State() == old(sprites[i].State())
    {
      if key == "b" {
        outcome := Exit(0);
      } else {
        player.Face(key);
        outcome := Continue;
      }
    }

    /** The animation tick: cycles every sprite exactly once, in list order,
        and asks to be scheduled again. */
    method CycleSprites() returns (again: bool)
      requires Valid()
      modifies sprites
      ensures Valid()
      ensures again
      ensures forall i :: 0 <= i < |sprites| ==>
                sprites[i].State() == Cycled(sprites[i].textures, old(sprites[i].State()))
      ensures (forall i, j :: 0 <= i < j < |sprites| ==> old(sprites[i].frame) == old(sprites[j].frame)) ==>
                forall i, j :: 0 <= i < j < |sprites| ==> sprites[i].frame == sprites[j].frame
    {
      var i := 0;
      while i < |sprites|
        invariant 0 <= i <= |sprites|
        invariant forall j :: 0 <= j < i ==>
                    sprites[j].Valid() &&
                    sprites[j].State() == Cycled(sprites[j].textures, old(sprites[j].State()))
        invariant forall j :: i <= j < |sprites| ==> sprites[j].State() == old(sprites[j].State())
      {
        assert forall j :: 0 <= j < |sprites| && j != i ==> sprites[j] != sprites[i];
        sprites[i].Cycle();
        i := i + 1;
      }
      again := true;
    }
  }
}
