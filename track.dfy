/**
 The `TRACK` class of include/track.h: the fields its inline members
 read and write, those members, and `GetParam`, the reader the parameter
 loader uses on the track's parameter file.

 Geometry is opaque here: a Bezier patch is known only by its identity
 (`PatchId`, standing for a `const BEZIER *`), a start position is a
 pair of a position and an orientation that nothing in the model
 computes with, and the racing-line scene node is reduced to the one
 piece of state `SetRacingLineVisibility` touches.
 */
module Tracks {
  import opened Streams
  import opened TrackParam

  /** The identity of a Bezier patch owned by one of the track's roads. */
  type PatchId = nat

  /** C++ `unsigned int`. */
  type UInt32 = x: int | 0 <= x < 0x1_0000_0000

  /** C++ `int`. */
  type Int32 = x: int | -0x8000_0000 <= x < 0x8000_0000

  /** A start placement: position (x, y, z) and orientation quaternion (w, x, y, z). */
  datatype StartPosition = StartPosition(position: (real, real, real), orientation: (real, real, real, real))

  /** The direction the track is driven in. */
  datatype Direction = DirectionForward | DirectionReverse

  /**
   `size_t` to `unsigned int`: reduction modulo 2^32, the conversion C++
   defines for unsigned targets.
   */
  function ToUInt32(n: nat): (r: UInt32)
    ensures r <= n
    ensures n < 0x1_0000_0000 ==> r == n
    ensures (n - r) % 0x1_0000_0000 == 0
  {
    n % 0x1_0000_0000
  }

  /**
   `size_t` to `int`: values that fit are kept; the others wrap around
   modulo 2^32, as every two's-complement compiler does.
   */
  function ToInt32(n: nat): (r: Int32)
    ensures n < 0x8000_0000 ==> r == n
    ensures (n - r) % 0x1_0000_0000 == 0
  {
    var m := n % 0x1_0000_0000;
    if m < 0x8000_0000 then m else m - 0x1_0000_0000
  }

  /** The part of a scene-graph node the track uses: its children's visibility. */
  class SceneNode {
    var childVisibility: bool

    method SetChildVisibility(newvis: bool)
      modifies this
      ensures childVisibility == newvis
    {
      childVisibility := newvis;
    }
  }

  /** The fields of a `Track`, as one value. */
  datatype TrackFields = TrackFields(startPositions: seq<StartPosition>, direction: Direction,
                                     lapSequence: seq<PatchId>, racingLineNode: SceneNode?,
                                     loaded: bool)

  class Track {
    var startPositions: seq<StartPosition>
    var direction: Direction
    /** The patches a car has to cross, in order, to complete a lap. */
    var lapSequence: seq<PatchId>
    var racingLineNode: SceneNode?
    var loaded: bool

    /** `GetNumStartPositions()`: the number of start positions, as an `int`. */
    function GetNumStartPositions(): (n: Int32)
      reads this
      ensures |startPositions| < 0x8000_0000 ==> n == |startPositions|
      ensures (|startPositions| - n) % 0x1_0000_0000 == 0
    {
      ToInt32(|startPositions|)
    }

    /** `Loaded()`: whether every stage of loading has completed. */
    function Loaded(): (b: bool)
      reads this
      ensures b <==> loaded
    {
      loaded
    }

    /** `GetSectors()`: the number of patches in the lap sequence, as an `unsigned int`. */
    function GetSectors(): (n: UInt32)
      reads this
      ensures n <= |lapSequence|
      ensures |lapSequence| < 0x1_0000_0000 ==> n == |lapSequence|
      ensures (|lapSequence| - n) % 0x1_0000_0000 == 0
    {
      ToUInt32(|lapSequence|)
    }

    /** `GetLapSequence(sector)`: the patch of the given sector; asserts the sector exists. */
    function GetLapSequence(sector: UInt32): (p: PatchId)
      reads this
      requires sector < |lapSequence|
      ensures p in lapSequence
      ensures p == lapSequence[sector]
    {
      lapSequence[sector]
    }

    /** `IsReversed()`: whether the track is driven in reverse. */
    function IsReversed(): (b: bool)
      reads this
      ensures b <==> direction == DirectionReverse
      ensures !b <==> direction == DirectionForward
    {
      direction == DirectionReverse
    }

    /**
     `SetRacingLineVisibility(newvis)`: shows or hides the racing line
     when there is one, and otherwise does nothing at all.
     */
    method SetRacingLineVisibility(newvis: bool)
      modifies racingLineNode
      ensures unchanged(this)
      ensures racingLineNode != null ==> racingLineNode.childVisibility == newvis
    {
      if racingLineNode != null {
        racingLineNode.SetChildVisibility(newvis);
      }
    }

    /** The value of every field of the track. */
    function Fields(): TrackFields
      reads this
    {
      TrackFields(startPositions, direction, lapSequence, racingLineNode, loaded)
    }

    /**
     `Clear()`: its body is not part of this model, so what it does to the
     track's fields is the parameter `clear`.
     */
    method Clear(clear: TrackFields -> TrackFields)
      modifies this
      ensures Fields() == clear(old(Fields()))
    {
      var f := clear(Fields());
      startPositions, direction, lapSequence := f.startPositions, f.direction, f.lapSequence;
      racingLineNode, loaded := f.racingLineNode, f.loaded;
    }

    /**
     `Unload()`: drops the reference to the racing-line node and then
     clears the track, so `Clear` finds every field as it was except for
     a null racing-line node.
     */
    method Unload(clear: TrackFields -> TrackFields)
      modifies this
      ensures Fields() == clear(old(Fields()).(racingLineNode := null))
    {
      racingLineNode := null;
      Clear(clear);
    }

    /**
     `GetParam(f, output)`: reads one parameter from `f`, skipping
     comment tokens and the rest of their lines, and converts it with
     `convert`. Returns whether it succeeded and the new `output`.
     */
    method GetParam<T>(f: IStream, output: T, convert: (T, string) -> T) returns (ok: bool, result: T)
      requires f.Valid()
      modifies f
      ensures f.Valid()
      ensures var r := GetParamOutcome(old(f.State()), output, convert);
              ok == r.ok && result == r.output && f.State() == r.stream
    {
      if !f.Good() {
        return false, output;
      }
      var instr := f.Extract("");
      if instr == "" {
        return false, output;
      }
      ghost var exit := SkipComments(f.State(), instr);
      while IsComment(instr) && f.Good()
        invariant f.Valid()
        invariant SkipComments(f.State(), instr).after == exit.after
        invariant SkipComments(f.State(), instr).token == exit.token
        decreases Budget(f.State())
      {
        f.Ignore(CommentLineLimit, '\n');
        instr := f.Extract(instr);
      }
      if !f.Good() && IsComment(instr) {
        return false, output;
      }
      return true, convert(output, instr);
    }
  }

  /** Every sector below `GetSectors()` meets the precondition of `GetLapSequence`. */
  lemma SectorsAreIndexable(t: Track, sector: UInt32)
    requires sector < t.GetSectors()
    ensures sector < |t.lapSequence|
    ensures t.GetLapSequence(sector) == t.lapSequence[sector]
  {
  }
}
