/** `Room` (source/crabs/crabs_room.cc): a Chinese-room state machine with a
    bounded state number, a name and a bounded stack of walls. */
module Room {
  import opened Types

  /** Request codes by their position in the `Request` enumeration. */
  const OpenDoorRequest: nat := 0
  const CloseDoorRequest: nat := 1
  const InvalidRequest: nat := 2

  const RequestTexts: seq<string> := ["Open door", "Close door", "Invalid request"]

  /** Any request code from `InvalidRequest` up reads "Invalid request"; the
      valid ones read their own text. */
  function RequestText(r: nat): (text: string)
    ensures r >= InvalidRequest ==> text == "Invalid request"
    ensures r == OpenDoorRequest ==> text == "Open door"
    ensures r == CloseDoorRequest ==> text == "Close door"
  {
    if r >= InvalidRequest then RequestTexts[InvalidRequest] else RequestTexts[r]
  }

  /** A wall is only handled by reference here. */
  class Wall {
    constructor () {}
  }

  class Room {
    var state: int
    var stateCount: int
    var name: string
    /** The wall stack: its contents and its height (capacity). */
    var walls: seq<Wall>
    var wallHeight: int

    predicate Valid()
      reads this
    {
      stateCount >= 1 && |walls| <= wallHeight
    }

    /** The state count is clamped to at least 1, the room starts in state 1
        and a missing name reads "Unnamed". The source never sets the wall
        stack; the model starts it empty with room for `wallHeight` walls. */
    constructor (roomName: Option<string>, stateCount: int, wallHeight: nat)
      ensures Valid()
      ensures state == 1
      ensures this.stateCount == if stateCount < 1 then 1 else stateCount
      ensures name == if roomName.None? then "Unnamed" else roomName.value
      ensures walls == [] && this.wallHeight == wallHeight
    {
      state := 1;
      this.stateCount := if stateCount < 1 then 1 else stateCount;
      name := if roomName.None? then "Unnamed" else roomName.value;
      walls := [];
      this.wallHeight := wallHeight;
    }

    function GetState(): (s: int)
      reads this
      ensures s == state
    {
      state
    }

    function GetStateCount(): (n: int)
      reads this
      ensures n == stateCount
    {
      stateCount
    }

    /** Accepts a state in `[0, stateCount)`, after which `GetState` returns
        it; refuses any other value and keeps the current state. */
    method SetState(newState: int) returns (ok: bool)
      requires Valid()
      modifies this`state
      ensures Valid()
      ensures ok <==> 0 <= newState < stateCount
      ensures GetState() == if ok then newState else old(state)
    {
      if newState < 0 {
        return false;
      }
      if newState >= stateCount {
        return false;
      }
      state := newState;
      return true;
    }

    /** Refuses a missing name; otherwise stores a copy of it. */
    method SetRoomName(newName: Option<string>) returns (ok: bool)
      requires Valid()
      modifies this`name
      ensures Valid()
      ensures ok <==> newName.Some?
      ensures name == if ok then newName.value else old(name)
    {
      if newName.None? {
        return false;
      }
      name := newName.value;
      return true;
    }

    /** The wall at `wallNumber`, or null for a number outside the stack. */
    function GetWall(wallNumber: int): (w: Wall?)
      reads this
      ensures w != null <==> 0 <= wallNumber < |walls|
      ensures w != null ==> w == walls[wallNumber]
    {
      if wallNumber < 0 then null
      else if wallNumber >= |walls| then null
      else walls[wallNumber]
    }

    /** Pushes a wall when one is given and the stack has room, returning it
        and making it readable at the top index; otherwise returns null and
        leaves the stack alone. */
    method AddWall(newWall: Wall?) returns (w: Wall?)
      requires Valid()
      modifies this`walls
      ensures Valid()
      ensures w != null <==> newWall != null && |old(walls)| < wallHeight
      ensures w != null ==> w == newWall && walls == old(walls) + [newWall]
      ensures w != null ==> GetWall(|walls| - 1) == newWall
      ensures w == null ==> walls == old(walls)
    {
      if newWall == null {
        return null;
      }
      if |walls| >= wallHeight {
        return null;
      }
      walls := walls + [newWall];
      return newWall;
    }
  }
}
