/** The directional, two-frame sprite of game.py: a card showing one of six
    textures, flipped horizontally when the sprite faces left. */
module Sprites {

  /** A texture handle, identified by the asset file it was loaded from. */
  datatype Texture = Texture(asset: string)

  /** Direction keys as the input handler passes them. */
  const Down: string := "d"
  const Up: string := "u"
  const Right: string := "r"
  const Left: string := "l"

  /** Per-sprite texture table: two animation frames for each of the three
      directions that have artwork of their own. */
  type Table = map<string, seq<Texture>>

  ghost predicate WellFormedTable(t: Table)
  {
    Down in t && Up in t && Right in t &&
    |t[Down]| == 2 && |t[Up]| == 2 && |t[Right]| == 2
  }

  /** Asset path of frame i (0 or 1) of a direction's artwork: the files are
      numbered from 1, so frame 0 of d is `<dir>/d1.png`. */
  function AssetPath(dir: string, key: string, i: nat): string
  {
    dir + "/" + key + (if i == 0 then "1" else "2") + ".png"
  }

  /** Different directions or different frames name different files. */
  lemma AssetPathInjective(dir: string, k1: string, i1: nat, k2: string, i2: nat)
    requires |k1| == 1 && |k2| == 1 && i1 < 2 && i2 < 2
    ensures AssetPath(dir, k1, i1) == AssetPath(dir, k2, i2) <==> k1 == k2 && i1 == i2
  {
    var p1, p2 := AssetPath(dir, k1, i1), AssetPath(dir, k2, i2);
    if p1 == p2 {
      assert p1[|dir| + 1] == k1[0] && p2[|dir| + 1] == k2[0];
      assert p1[|dir| + 2] == (if i1 == 0 then '1' else '2');
      assert p2[|dir| + 2] == (if i2 == 0 then '1' else '2');
      assert k1 == [k1[0]] && k2 == [k2[0]];
    }
  }

  /** The six textures of a table are pairwise different. */
  ghost predicate DistinctArtwork(t: Table)
    requires WellFormedTable(t)
  {
    forall k1, i1, k2, i2 ::
      k1 in {Down, Up, Right} && k2 in {Down, Up, Right} && 0 <= i1 < 2 && 0 <= i2 < 2 &&
      t[k1][i1] == t[k2][i2] ==>
      k1 == k2 && i1 == i2
  }

  /** The table a sprite loads from its asset directory: for each of d, u
      and r, frame i is the texture loaded from `<dir>/<key><i + 1>.png`. */
  function LoadTable(dir: string): (t: Table)
    ensures WellFormedTable(t)
    ensures forall k, i :: k in {Down, Up, Right} && 0 <= i < 2 ==> t[k][i] == Texture(AssetPath(dir, k, i))
  {
    map[Down := [Texture(AssetPath(dir, Down, 0)), Texture(AssetPath(dir, Down, 1))],
        Up := [Texture(AssetPath(dir, Up, 0)), Texture(AssetPath(dir, Up, 1))],
        Right := [Texture(AssetPath(dir, Right, 0)), Texture(AssetPath(dir, Right, 1))]]
  }

  /** A loaded table holds six different textures, so no two directions and
      no two frames share artwork. */
  lemma LoadTableDistinct(dir: string)
    ensures DistinctArtwork(LoadTable(dir))
  {
    var t := LoadTable(dir);
    forall k1, i1, k2, i2 |
      k1 in {Down, Up, Right} && k2 in {Down, Up, Right} && 0 <= i1 < 2 && 0 <= i2 < 2
      ensures t[k1][i1] == t[k2][i2] ==> k1 == k2 && i1 == i2
    {
      AssetPathInjective(dir, k1, i1, k2, i2);
    }
  }

  /** Everything observable about a sprite: the recorded facing key, the
      animation frame, the texture bound to its card and whether the card's
      texture coordinates are mirrored on U. */
  datatype SpriteState = SpriteState(facing: string, frame: nat, texture: Texture, mirrored: bool)

  /** The table row whose artwork a facing shows: left borrows the right-facing
      artwork, and every key that is not up, right or left shows down. */
  function ArtworkKey(dir: string): (k: string)
    ensures k == Down || k == Up || k == Right
    ensures k == Right <==> dir == Right || dir == Left
    ensures k == Up <==> dir == Up
  {
    if dir == Up then Up
    else if dir == Right || dir == Left then Right
    else Down
  }

  /** A state is coherent when the bound texture and the mirror agree with its
      facing and frame: exactly one direction's artwork is on the card. */
  ghost predicate Coherent(t: Table, s: SpriteState)
    requires WellFormedTable(t)
  {
    s.frame < 2 &&
    s.texture == t[ArtworkKey(s.facing)][s.frame] &&
    s.mirrored == (s.facing == Left)
  }

  /** With six distinct textures the card identifies its artwork: two
      coherent states showing the same texture show the same direction's
      artwork at the same frame. */
  lemma CoherentShowsOneArtwork(t: Table, s1: SpriteState, s2: SpriteState)
    requires WellFormedTable(t) && DistinctArtwork(t)
    requires Coherent(t, s1) && Coherent(t, s2)
    ensures s1.texture == s2.texture <==>
            ArtworkKey(s1.facing) == ArtworkKey(s2.facing) && s1.frame == s2.frame
  {
    var k1, k2 := ArtworkKey(s1.facing), ArtworkKey(s2.facing);
    assert k1 in {Down, Up, Right} && k2 in {Down, Up, Right};
  }

  /** State of a freshly built sprite. */
  function Initial(t: Table): (s: SpriteState)
    requires WellFormedTable(t)
    ensures s.facing == Down && s.frame == 0 && !s.mirrored
    ensures s.texture == t[Down][0]
    ensures Coherent(t, s)
  {
    SpriteState(Down, 0, t[Down][0], false)
  }

  /** Effect of face(dir) on a sprite state. */
  function Faced(t: Table, s: SpriteState, dir: string): (r: SpriteState)
    requires WellFormedTable(t) && s.frame < 2
    ensures r.facing == dir && r.frame == s.frame
    ensures r.texture == t[ArtworkKey(dir)][s.frame]
    ensures r.mirrored <==> dir == Left
    ensures Coherent(t, r)
  {
    if dir == Up then SpriteState(dir, s.frame, t[Up][s.frame], false)
    else if dir == Right then SpriteState(dir, s.frame, t[Right][s.frame], false)
    else if dir == Left then SpriteState(dir, s.frame, t[Right][s.frame], true)
    else SpriteState(dir, s.frame, t[Down][s.frame], false)
  }

  /** The other animation frame (Python's `not frame` on 0/1). */
  function Flip(frame: nat): (r: nat)
    requires frame < 2
    ensures r < 2 && r != frame
  {
    if frame == 0 then 1 else 0
  }

  /** Effect of cycle() on a sprite state. */
  function Cycled(t: Table, s: SpriteState): (r: SpriteState)
    requires WellFormedTable(t) && s.frame < 2
    ensures r.facing == s.facing
    ensures r.frame < 2 && r.frame != s.frame
    ensures r.texture == t[ArtworkKey(s.facing)][r.frame]
    ensures r.mirrored <==> s.facing == Left
    ensures Coherent(t, r)
  {
    Faced(t, s.(frame := Flip(s.frame)), s.facing)
  }

  /** Facing is absolute: the last direction faced decides the whole state,
      whatever was faced before (in particular l, r, l equals l, and l, l
      equals l). */
  lemma FaceOverwrites(t: Table, s: SpriteState, d1: string, d2: string)
    requires WellFormedTable(t) && s.frame < 2
    ensures Faced(t, Faced(t, s, d1), d2) == Faced(t, s, d2)
  {
  }

  lemma MirrorNotCumulative(t: Table, s: SpriteState)
    requires WellFormedTable(t) && s.frame < 2
    ensures Faced(t, Faced(t, Faced(t, s, Left), Right), Left) == Faced(t, s, Left)
    ensures Faced(t, Faced(t, s, Left), Left) == Faced(t, s, Left)
    ensures Faced(t, s, Left).mirrored && !Faced(t, Faced(t, s, Left), Right).mirrored
  {
    FaceOverwrites(t, s, Left, Right);
    FaceOverwrites(t, Faced(t, s, Left), Right, Left);
    FaceOverwrites(t, s, Left, Left);
  }

  /** Re-facing the current direction changes nothing in a coherent state. */
  lemma FaceCurrentIsIdentity(t: Table, s: SpriteState)
    requires WellFormedTable(t) && Coherent(t, s)
    ensures Faced(t, s, s.facing) == s
  {
  }

  /** Two ticks restore frame, texture and mirror. */
  lemma CycleTwiceRestores(t: Table, s: SpriteState)
    requires WellFormedTable(t) && Coherent(t, s)
    ensures Cycled(t, Cycled(t, s)) == s
  {
  }

  /** A tick and a key press commute: timer and input callbacks may be
      serialised in either order between two frames. */
  lemma CycleCommutesWithFace(t: Table, s: SpriteState, dir: string)
    requires WellFormedTable(t) && s.frame < 2
    ensures Cycled(t, Faced(t, s, dir)) == Faced(t, Cycled(t, s), dir)
  {
  }

  /** An event reaching one sprite: a key press or a timer tick. */
  datatype Command = Face(dir: string) | Cycle

  /** The state after applying a sequence of commands in order. */
  function Run(t: Table, s: SpriteState, cs: seq<Command>): (r: SpriteState)
    requires WellFormedTable(t) && s.frame < 2
    ensures r.frame < 2
    decreases |cs|
  {
    if cs == [] then s
    else
      var last := cs[|cs| - 1];
      var before := Run(t, s, cs[..|cs| - 1]);
      match last
      case Face(dir) => Faced(t, before, dir)
      case Cycle => Cycled(t, before)
  }

  /** Number of ticks in a command sequence. */
  function Ticks(cs: seq<Command>): (n: nat)
    ensures n <= |cs|
  {
    if cs == [] then 0 else Ticks(cs[..|cs| - 1]) + (if cs[|cs| - 1].Cycle? then 1 else 0)
  }

  /** The facing recorded after a command sequence: the last key pressed. */
  function LastFacing(start: string, cs: seq<Command>): string
  {
    if cs == [] then start
    else if cs[|cs| - 1].Face? then cs[|cs| - 1].dir
    else LastFacing(start, cs[..|cs| - 1])
  }

  /** Whatever the interleaving of key presses and ticks, the frame is the
      parity of the number of ticks, the facing is the last key pressed, and
      the card shows that facing's artwork at that frame. */
  lemma {:induction false} RunInvariant(t: Table, s: SpriteState, cs: seq<Command>)
    requires WellFormedTable(t) && Coherent(t, s)
    ensures Run(t, s, cs).frame == (s.frame + Ticks(cs)) % 2
    ensures Run(t, s, cs).facing == LastFacing(s.facing, cs)
    ensures Coherent(t, Run(t, s, cs))
    decreases |cs|
  {
    if cs != [] {
      RunInvariant(t, s, cs[..|cs| - 1]);
    }
  }

  /** Ticks with no key in between alternate the frame and keep the facing
      (three ticks from a spawned sprite: 0, 1, 0, 1). */
  lemma TicksAlternate(t: Table)
    requires WellFormedTable(t)
    ensures var s0 := Initial(t);
            var s1 := Cycled(t, s0);
            var s2 := Cycled(t, s1);
            var s3 := Cycled(t, s2);
            s1.frame == 1 && s2.frame == 0 && s3.frame == 1 &&
            s1.facing == Down && s2.facing == Down && s3.facing == Down
  {
  }

  /** Pressing up, right, left on a spawned sprite leaves the right-facing
      frame-0 artwork on the card, mirrored. */
  lemma UpRightLeftShowsMirroredRight(t: Table)
    requires WellFormedTable(t)
    ensures Run(t, Initial(t), [Face(Up), Face(Right), Face(Left)])
         == SpriteState(Left, 0, t[Right][0], true)
  {
    var cs := [Face(Up), Face(Right), Face(Left)];
    var s0 := Initial(t);
    assert cs[..2][..1][..0] == [];
    assert Run(t, s0, cs[..2][..1]) == Faced(t, s0, Up);
    assert Run(t, s0, cs[..2]) == Faced(t, Faced(t, s0, Up), Right);
  }

  /** One sprite: its texture table, the state of its card and its animation
      counters, updated in place by face and cycle. */
  class Sprite {
    const textures: Table
    var facing: string
    var frame: nat
    /** texture bound to the card */
    var texture: Texture
    /** whether the card's texture coordinates are scaled by -1 on U */
    var mirrored: bool

    ghost predicate Valid()
      reads this
    {
      WellFormedTable(textures) && Coherent(textures, State())
    }

    function State(): SpriteState
      reads this
    {
      SpriteState(facing, frame, texture, mirrored)
    }

    /** Loads the six textures of texpath and shows the first down frame. */
    constructor (texpath: string)
      ensures Valid()
      ensures textures == LoadTable(texpath)
      ensures State() == Initial(textures)
    {
      var table := LoadTable(texpath);
      textures := table;
      texture := table[Down][0];
      mirrored := false;
      frame := 0;
      facing := Down;
    }

    /** Rebinds the card to dir's artwork at the current frame; face only
        needs a loaded table and a frame in range, not a coherent card. */
    method Face(dir: string)
      requires WellFormedTable(textures) && frame < 2
      modifies this
      ensures Valid()
      ensures State() == Faced(textures, old(State()), dir)
    {
      if dir == Up {
        texture := textures[Up][frame];
        mirrored := false;
      } else if dir == Right {
        texture := textures[Right][frame];
        mirrored := false;
      } else if dir == Left {
        // the right-facing artwork, mirrored on U
        texture := textures[Right][frame];
        mirrored := true;
      } else {
        texture := textures[Down][frame];
        mirrored := false;
      }
      facing := dir;
    }

    method Cycle()
      requires Valid()
      modifies this
      ensures Valid()
      ensures State() == Cycled(textures, old(State()))
    {
      frame := if frame == 0 then 1 else 0;
      Face(facing);
    }
  }
}
