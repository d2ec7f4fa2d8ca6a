/** The snake's body (src/snake.rs): a chain of segments whose first element
    is the head. The source links the segments through owned `next` pointers;
    here the chain is a sequence held by one object, index 0 being the head. */
module Snake {

  datatype Option<T> = None | Some(value: T)

  /** Role of a segment in the chain. */
  datatype Part = Head | Body

  datatype MoveDirection = Up | Down | Left | Right {

    function Opposite(): (r: MoveDirection)
      ensures r != this
    {
      match this
      case Up => Down
      case Down => Up
      case Left => Right
      case Right => Left
    }
  }

  /** A grid cell; y grows downward. */
  datatype Block = Block(x: int, y: int)

  /** One node of the chain, without its `next` link. */
  datatype Segment = Segment(part: Part, position: Block, direction: MoveDirection)

  /** The chain `init` builds: a lone head at (11, 11) moving right. */
  const InitialHead := Segment(Head, Block(11, 11), Right)

  /** Exactly one head, and it is first. */
  predicate WellFormed(s: seq<Segment>)
  {
    |s| >= 1 && s[0].part == Head && forall i :: 1 <= i < |s| ==> s[i].part == Body
  }

  /** `a` and `b` share a side. */
  predicate Adjacent(a: Block, b: Block)
  {
    (a.x == b.x && (a.y - b.y == 1 || b.y - a.y == 1)) ||
    (a.y == b.y && (a.x - b.x == 1 || b.x - a.x == 1))
  }

  /** The cell next to `p` in direction `d`. */
  function Step(p: Block, d: MoveDirection): (r: Block)
    ensures Adjacent(p, r)
    ensures d.Up? || d.Down? ==> r.x == p.x
    ensures d.Left? || d.Right? ==> r.y == p.y
  {
    match d
    case Up => Block(p.x, p.y - 1)
    case Down => Block(p.x, p.y + 1)
    case Left => Block(p.x - 1, p.y)
    case Right => Block(p.x + 1, p.y)
  }

  lemma OppositeIsInvolution(d: MoveDirection)
    ensures d.Opposite().Opposite() == d
    ensures d.Opposite() != d
  {
  }

  /** Stepping one way and then the opposite way comes back to the start. */
  lemma StepThenOppositeReturns(p: Block, d: MoveDirection)
    ensures Step(Step(p, d), d.Opposite()) == p
  {
  }

  /** The trailing segments after a move: each takes the position the segment
      ahead of it had before the move; `prev` is the pre-move position of the
      segment in front of `rest[0]` (the carry variable of the source's loop). */
  function Shift(rest: seq<Segment>, prev: Block): (r: seq<Segment>)
    ensures |r| == |rest|
    ensures |rest| > 0 ==> r[0].position == prev
    ensures forall i :: 1 <= i < |rest| ==> r[i].position == rest[i - 1].position
    ensures forall i :: 0 <= i < |rest| ==> r[i].part == rest[i].part && r[i].direction == rest[i].direction
  {
    if rest == [] then []
    else [rest[0].(position := prev)] + Shift(rest[1..], rest[0].position)
  }

  /** The chain after one `move_forward(dir)`: the head takes `dir` when one
      is given and moves one cell along its direction; every other segment
      moves to its predecessor's pre-move cell and keeps role and direction. */
  function Advance(s: seq<Segment>, dir: Option<MoveDirection>): (r: seq<Segment>)
    requires |s| >= 1
    ensures |r| == |s|
    ensures r[0].part == s[0].part
    ensures r[0].direction == (if dir.Some? then dir.value else s[0].direction)
    ensures r[0].position == Step(s[0].position, r[0].direction)
    ensures forall i :: 1 <= i < |s| ==> r[i].position == s[i - 1].position
    ensures forall i :: 1 <= i < |s| ==> r[i].direction == s[i].direction && r[i].part == s[i].part
    ensures WellFormed(s) ==> WellFormed(r)
  {
    var d := if dir.Some? then dir.value else s[0].direction;
    var tail := Shift(s[1..], s[0].position);
    var r := [s[0].(direction := d, position := Step(s[0].position, d))] + tail;
    forall i | 1 <= i < |s|
      ensures r[i] == s[i].(position := s[i - 1].position)
    {
      assert r[i] == tail[i - 1] && s[1..][i - 1] == s[i];
      if i >= 2 {
        assert s[1..][i - 2] == s[i - 1];
      }
    }
    r
  }

  /** The chain after `add_part(p.x, p.y)`. */
  function Grown(s: seq<Segment>, p: Block): (r: seq<Segment>)
    requires |s| >= 1
    ensures |r| == |s| + 1
    ensures r[..|s|] == s
    ensures r[|s|] == Segment(Body, p, s[0].direction)
    ensures WellFormed(s) ==> WellFormed(r)
  {
    s + [Segment(Body, p, s[0].direction)]
  }

  /** Some segment other than the head is at `p` (what `overlap_tail` tests). */
  predicate TailOccupies(s: seq<Segment>, p: Block)
  {
    exists i :: 1 <= i < |s| && s[i].position == p
  }

  /** Some segment other than the last one is at `p` (what `is_inside` tests). */
  predicate CoversButLast(s: seq<Segment>, p: Block)
  {
    exists i :: 0 <= i < |s| - 1 && s[i].position == p
  }

  /** A lone head neither overlaps its tail nor reports any cell as inside. */
  lemma LoneHeadCoversNothing(s: seq<Segment>, p: Block)
    requires |s| == 1
    ensures !TailOccupies(s, p) && !CoversButLast(s, p)
  {
  }

  /** `is_inside` never looks at the last segment: whatever the last segment's
      cell, the answer depends only on the segments before it. */
  lemma {:induction false} CoversButLastIgnoresLast(s: seq<Segment>, last: Segment, p: Block)
    ensures CoversButLast(s + [last], p) <==> exists i :: 0 <= i < |s| && s[i].position == p
  {
    if CoversButLast(s + [last], p) {
      var i :| 0 <= i < |s| && (s + [last])[i].position == p;
      assert s[i].position == p;
    }
    if exists i :: 0 <= i < |s| && s[i].position == p {
      var i :| 0 <= i < |s| && s[i].position == p;
      assert (s + [last])[i].position == p;
    }
  }

  /** The chain, owned through its head. */
  class SnakePart {
    var parts: seq<Segment>

    ghost predicate Valid()
      reads this
    {
      WellFormed(parts)
    }

    /** `init`: one head at (11, 11) moving right. */
    constructor Init()
      ensures Valid()
      ensures parts == [InitialHead]
    {
      parts := [InitialHead];
    }

    /** Links `newPart` after the last segment. The source walks a cursor to
        the end of the linked chain first; on a sequence the end is at hand. */
    method ConcatNew(newPart: Segment)
      requires Valid()
      requires newPart.part == Body
      modifies this
      ensures Valid()
      ensures parts == old(parts) + [newPart]
    {
      parts := parts + [newPart];
    }

    /** Appends a body segment at (x, y) carrying the head's direction. */
    method AddPart(x: int, y: int)
      requires Valid()
      modifies this
      ensures Valid()
      ensures parts == Grown(old(parts), Block(x, y))
    {
      var newPart := Segment(Body, Block(x, y), parts[0].direction);
      ConcatNew(newPart);
    }

    function HeadPosition(): (b: Block)
      requires Valid()
      reads this
      ensures b == parts[0].position
    {
      parts[0].position
    }

    /** The head's coordinates as a pair. */
    function Position(): (r: (int, int))
      requires Valid()
      reads this
      ensures r == (HeadPosition().x, HeadPosition().y)
    {
      (parts[0].position.x, parts[0].position.y)
    }

    /** Follow-the-leader move, one pass down the chain carrying the previous
        segment's pre-move cell in `prevPos`. */
    method MoveForward(dir: Option<MoveDirection>)
      requires Valid()
      modifies this
      ensures Valid()
      ensures parts == Advance(old(parts), dir)
    {
      ghost var start := parts;
      ghost var target := Advance(start, dir);
      if dir.Some? {
        parts := parts[0 := parts[0].(direction := dir.value)];
      }
      var prevPos := parts[0].position;
      parts := parts[0 := parts[0].(position := Step(parts[0].position, parts[0].direction))];
      var i := 0;
      while i + 1 < |parts|
        invariant 0 <= i < |parts| == |start|
        invariant forall k {:trigger parts[k]} :: 0 <= k <= i ==> parts[k] == target[k]
        invariant forall k {:trigger parts[k]} :: i < k < |parts| ==> parts[k] == start[k]
        invariant prevPos == start[i].position
      {
        var nextPos := parts[i + 1].position;
        assert target[i + 1] == start[i + 1].(position := prevPos);
        parts := parts[i + 1 := parts[i + 1].(position := prevPos)];
        prevPos := nextPos;
        i := i + 1;
      }
    }

    /** Whether some segment after the head is at (x, y). */
    method OverlapTail(x: int, y: int) returns (b: bool)
      requires Valid()
      ensures b <==> TailOccupies(parts, Block(x, y))
    {
      var current := 0;
      while current + 1 < |parts|
        invariant 0 <= current < |parts|
        invariant forall k :: 1 <= k <= current ==> parts[k].position != Block(x, y)
      {
        var next := parts[current + 1];
        if next.position.x == x && next.position.y == y {
          return true;
        }
        current := current + 1;
      }
      return false;
    }

    /** Whether some segment other than the last is at (x, y): the cursor
        stops on the last segment without comparing it. */
    method IsInside(x: int, y: int) returns (b: bool)
      requires Valid()
      ensures b <==> CoversButLast(parts, Block(x, y))
    {
      var current := 0;
      while current + 1 < |parts|
        invariant 0 <= current < |parts|
        invariant forall k :: 0 <= k < current ==> parts[k].position != Block(x, y)
      {
        if parts[current].position.x == x && parts[current].position.y == y {
          return true;
        }
        current := current + 1;
      }
      return false;
    }
  }
}
