/**
 Following the event log (`internal/events/event_follow_handoff.go`,
 `event_follow_rotation.go`, `event_follow_startup_linux.go`): a follower that
 reads one generation after another, interleaved with a writer that appends,
 rotates, and cuts a torn end off the active file. The follower holds open
 files, so a generation stays readable after its last name is gone.
 */
module EventFollow {
  import opened Wrappers
  import opened EventCodec
  import opened EventStream

  const ANCHOR_LIMIT: nat := 4096

  // ---------- The writer's side ----------

  /** `files[age]` is the generation of that age; the slots name generations by age. */
  datatype World = World(files: seq<Bytes>, older: Option<nat>, retained: Option<nat>, active: Option<nat>)

  /** `Repair` truncates the active file behind its last newline, as an append does with an incomplete end. */
  datatype WriterMove = Grow(b: Bytes) | Repair | Shift | Rotate | Create

  function Whole(data: Bytes): (r: Bytes)
    ensures r <= data && EndsWhole(r)
  {
    data[..LastNewlineFrom(data, 0) + 1]
  }

  /** A writer rotates the active file only once `.1` has been moved out of the way. */
  function Write(w: World, m: WriterMove): World {
    match m
    case Grow(b) =>
      if w.active.Some? && w.active.value < |w.files| then
        var a := w.active.value;
        w.(files := w.files[a := w.files[a] + b])
      else w
    case Repair =>
      if w.active.Some? && w.active.value < |w.files| then
        var a := w.active.value;
        w.(files := w.files[a := Whole(w.files[a])])
      else w
    case Shift => if w.retained.Some? then w.(older := w.retained, retained := None) else w
    case Rotate => if w.active.Some? && w.retained.None? then w.(retained := w.active, active := None) else w
    case Create => if w.active.None? then w.(files := w.files + [""], active := Some(|w.files|)) else w
  }

  function SlotAge(o: Option<nat>): seq<nat> {
    if o.Some? then [o.value] else []
  }

  function Generations(w: World): seq<nat> {
    SlotAge(w.older) + SlotAge(w.retained) + SlotAge(w.active)
  }

  ghost predicate WorldOk(w: World) {
    forall i | 0 <= i < |Generations(w)| :: Generations(w)[i] == |w.files| - |Generations(w)| + i
  }

  // ---------- The follower's side ----------

  datatype FollowError = RecordError | GapError

  /**
   `Boundary` says whether the path still named the file when the inspection saw
   a boundary: then the file itself had been found changed.
   */
  datatype Pc =
    | Reading
    | AtEnd
    | Sleeping
    | Boundary(changed: bool)
    | Returned(reopen: bool)
    | Failed(error: FollowError)

  /** The bytes just behind an offset, remembered to notice a file rewritten in place. */
  datatype Checkpoint = Checkpoint(offset: nat, data: Bytes)

  /**
   Where the reader gets more bytes. A torn end is put back in front of the
   reader by `io.MultiReader`, and that is exhausted for good at the next end of file.
   */
  datatype Source = Direct | UntilEof | Spent

  /** Left for a generation already held, for one looked up, for itself once more, or for whatever becomes active. */
  datatype Leaving = Held | Found | Again | Last

  /** A generation left behind: the lines delivered, how far that got, and how far the descriptor had got. */
  datatype Visit = Visit(age: nat, lines: seq<Bytes>, delivered: nat, offset: nat, leaving: Leaving)

  /**
   The descriptor of the current generation stands at `offset`; the last bytes
   read, `buffer`, are not delivered yet, and `lines` are those that were.
   */
  datatype Follower = Follower(
    pc: Pc, current: nat, lines: seq<Bytes>, buffer: Bytes, offset: nat, source: Source, anchor: Bytes,
    checkpoint: Checkpoint, queued: seq<nat>, left: seq<Visit>, emitted: seq<Event>)

  function Take(data: Bytes, n: nat): Bytes {
    if n <= |data| then data[..n] else data
  }

  function Attach(w: World, age: nat): Follower
    requires age < |w.files|
  {
    Follower(Reading, age, [], "", 0, Direct, Take(w.files[age], ANCHOR_LIMIT), Checkpoint(0, ""), [], [], [])
  }

  /** The file is shorter than what was read of it, or differs at its start or where reading last ended. */
  predicate Changed(w: World, f: Follower, consumed: nat)
    requires f.current < |w.files|
  {
    var data := w.files[f.current];
    || |data| < consumed
    || !(f.anchor <= Take(data, ANCHOR_LIMIT))
    || (f.checkpoint.data != "" && !(f.checkpoint.offset <= |data| && f.checkpoint.data <= data[f.checkpoint.offset..]))
  }

  /** Whether the file at the active path is no longer the one being read, or no longer what it was. */
  predicate Inspect(w: World, f: Follower, consumed: nat)
    requires f.current < |w.files|
  {
    w.active != Some(f.current) || Changed(w, f, consumed)
  }

  function AtBoundary(w: World, f: Follower): Follower {
    f.(pc := Boundary(w.active == Some(f.current)))
  }

  /** An empty anchor is filled in at the first inspection that finds bytes. */
  function Anchored(w: World, f: Follower): Follower
    requires f.current < |w.files|
  {
    if f.anchor == "" then f.(anchor := Take(w.files[f.current], ANCHOR_LIMIT)) else f
  }

  function CheckpointAt(data: Bytes, offset: nat): Checkpoint
    requires offset <= |data|
  {
    var start := if offset < ANCHOR_LIMIT then 0 else offset - ANCHOR_LIMIT;
    Checkpoint(start, data[start..offset])
  }

  function Min(a: nat, b: nat): (r: nat)
    ensures r <= a && r <= b && (r == a || r == b)
  {
    if a < b then a else b
  }

  /** One read of at least one byte, as many as the system hands out. */
  function Fill(w: World, f: Follower, n: nat): Follower
    requires f.current < |w.files| && f.offset < |w.files[f.current]|
  {
    var data := w.files[f.current];
    var end := f.offset + 1 + Min(n, |data| - f.offset - 1);
    f.(buffer := f.buffer + data[f.offset..end], offset := end)
  }

  /** No more bytes: the reader is at its end, and a spent source stays there. */
  function EndOfFile(f: Follower): Follower {
    f.(pc := AtEnd, source := if f.source.UntilEof? then Spent else f.source)
  }

  /**
   One record out of the buffer, or more bytes into it, or the end of the file.
   At a record that does not decode the position is known up to `n` bytes only,
   since a reader put in front of another hides what the other has buffered.
   */
  function Read(c: Codec, q: Query, w: World, f: Follower, n: nat): Follower
    requires f.current < |w.files| && |f.buffer| <= f.offset
  {
    match ReadRecord(f.buffer)
    case TooLarge => f.(pc := Failed(RecordError))
    case AtEof(_) =>
      if !f.source.Spent? && f.offset < |w.files[f.current]| then Fill(w, f, n) else EndOfFile(f)
    case Line(line, rest) =>
      match c.decode(line)
      case Some(e) => f.(lines := f.lines + [line], buffer := rest, emitted := f.emitted + Selected(e, q))
      case None =>
        if Inspect(w, f, f.offset - Min(n, |rest|)) then AtBoundary(w, f)
            else Anchored(w, f).(pc := Failed(RecordError))
  }

  /** At the end of the file: a boundary, the deadline, or a nap with the torn end put back in front. */
  function AfterEnd(w: World, f: Follower, expired: bool): Follower
    requires f.current < |w.files|
  {
    if Inspect(w, f, f.offset) then AtBoundary(w, f)
    else
      var g := Anchored(w, f);
      if expired then g.(pc := Returned(false))
      else g.(pc := Sleeping, checkpoint := CheckpointAt(w.files[f.current], f.offset),
              source := if f.buffer != "" && f.source.Direct? then UntilEof else f.source)
  }

  function AfterSleep(w: World, f: Follower): Follower
    requires f.current < |w.files|
  {
    if Inspect(w, f, f.offset) then AtBoundary(w, f) else Anchored(w, f).(pc := Reading)
  }

  function IndexOf(s: seq<nat>, x: nat): (i: nat)
    ensures i <= |s| && (i < |s| ==> s[i] == x) && x !in s[..i]
  {
    if s == [] || s[0] == x then 0
    else
      var i := 1 + IndexOf(s[1..], x);
      assert s[..i] == [s[0]] + s[1..][..i - 1];
      i
  }

  /** The generations after the one being left, read off the slots under the writer lock. */
  function Successors(w: World, current: nat): Result<seq<nat>, FollowError> {
    var gens := Generations(w);
    var i := IndexOf(gens, current);
    if i == |gens| then Err(GapError)
    else if w.active == Some(current) then Ok([current])
    else Ok(gens[i + 1..])
  }

  function Here(f: Follower, leaving: Leaving): Visit
    requires |f.buffer| <= f.offset
  {
    Visit(f.current, f.lines, f.offset - |f.buffer|, f.offset, leaving)
  }

  /** Leaves the current generation for another, from its start. */
  function Enter(w: World, f: Follower, age: nat, queued: seq<nat>, leaving: Leaving): Follower
    requires |f.buffer| <= f.offset
  {
    Follower(Reading, age, [], "", 0, Direct, if age < |w.files| then Take(w.files[age], ANCHOR_LIMIT) else "",
             Checkpoint(0, ""), queued, f.left + [Here(f, leaving)], f.emitted)
  }

  /** The active generation is its own only successor. */
  function LeavingOf(w: World, f: Follower): Leaving {
    if f.queued != [] then Held else if w.active == Some(f.current) then Again else Found
  }

  /** On to the next generation held, looking for more only when none is. */
  function Cross(w: World, f: Follower): Follower
    requires |f.buffer| <= f.offset
  {
    var successors := if f.queued == [] then Successors(w, f.current) else Ok(f.queued);
    match successors
    case Err(e) => f.(pc := Failed(e))
    case Ok(next) =>
      if next == [] then f.(pc := Returned(true))
      else Enter(w, f, next[0], next[1..], LeavingOf(w, f))
  }

  /** With no successor in sight the follower waits for a file at the active path. */
  function Reattach(w: World, f: Follower, expired: bool): Follower
    requires |f.buffer| <= f.offset
  {
    if w.active.Some? then Enter(w, f, w.active.value, [], Last)
    else if expired then f.(pc := Returned(false))
    else f
  }

  // ---------- Interleavings ----------

  datatype Move = Writer(move: WriterMove) | Follow(expired: bool, n: nat)

  datatype Sys = Sys(world: World, follower: Follower)

  /** What holds whatever the writer does. */
  ghost predicate FollowerOk(w: World, f: Follower) {
    && f.current < |w.files|
    && |f.buffer| <= f.offset
    && (forall i | 0 <= i < |f.queued| :: f.queued[i] == f.current + 1 + i)
    && f.current + |f.queued| < |w.files|
    && (f.queued != [] ==> f.source.Direct? && !f.pc.Sleeping?)
    && (f.pc == Boundary(false) || f.pc == Returned(true) ==> w.active != Some(f.current))
  }

  function FollowerStep(c: Codec, q: Query, w: World, f: Follower, expired: bool, n: nat): Follower
    requires WorldOk(w) && FollowerOk(w, f)
  {
    match f.pc
    case Reading => Read(c, q, w, f, n)
    case AtEnd => AfterEnd(w, f, expired)
    case Sleeping => AfterSleep(w, f)
    case Boundary(_) => Cross(w, f)
    case Returned(true) => Reattach(w, f, expired)
    case _ => f
  }

  function Step(c: Codec, q: Query, s: Sys, m: Move): Sys
    requires WorldOk(s.world) && FollowerOk(s.world, s.follower)
  {
    match m
    case Writer(move) => s.(world := Write(s.world, move))
    case Follow(expired, n) => s.(follower := FollowerStep(c, q, s.world, s.follower, expired, n))
  }

  /** A run of any moves; the conditions a step relies on hold in every run, by `RunKeepsOk`. */
  ghost function Run(c: Codec, q: Query, s: Sys, moves: seq<Move>): Sys
    decreases |moves|
  {
    if moves == [] || !WorldOk(s.world) || !FollowerOk(s.world, s.follower) then s
    else Run(c, q, Step(c, q, s, moves[0]), moves[1..])
  }

  // ---------- What every step keeps ----------

  /** A file that is not active any more is final. */
  ghost predicate Finals(w: World, w': World) {
    && |w.files| <= |w'.files|
    && (forall a | 0 <= a < |w.files| && w.active != Some(a) :: w'.active != Some(a) && w'.files[a] == w.files[a])
  }

  lemma WriteFinals(w: World, m: WriterMove)
    requires WorldOk(w)
    ensures WorldOk(Write(w, m)) && Finals(w, Write(w, m))
  {
    var w' := Write(w, m);
    match m
    case Shift =>
      assert Generations(w) == SlotAge(w.older) + Generations(w') || w' == w;
      ShiftedOk(w, w');
    case Create =>
      if w.active.None? {
        assert Generations(w') == Generations(w) + [|w.files|];
      }
    case _ =>
      assert Generations(w') == Generations(w);
  }

  lemma ShiftedOk(w: World, w': World)
    requires WorldOk(w) && w'.files == w.files
    requires Generations(w) == SlotAge(w.older) + Generations(w') || Generations(w') == Generations(w)
    ensures WorldOk(w')
  {
    forall i | 0 <= i < |Generations(w')|
      ensures Generations(w')[i] == |w'.files| - |Generations(w')| + i
    {
      if Generations(w') != Generations(w) {
        assert Generations(w')[i] == Generations(w)[i + |SlotAge(w.older)|];
      }
    }
  }

  /** The active generation is always the newest. */
  lemma ActiveIsNewest(w: World)
    requires WorldOk(w)
    ensures w.active.Some? ==> w.active.value == |w.files| - 1
    ensures forall a | a in Generations(w) :: 0 <= a < |w.files|
  {
    var gens := Generations(w);
    if w.active.Some? {
      assert gens[|gens| - 1] == w.active.value;
    }
  }

  /** The successors of a generation that is not active are the ages right after it. */
  lemma SuccessorsConsecutive(w: World, current: nat)
    requires WorldOk(w) && w.active != Some(current)
    ensures Successors(w, current).Ok? <==> current in Generations(w)
    ensures Successors(w, current).Ok? ==>
              var next := Successors(w, current).value;
              && (forall i | 0 <= i < |next| :: next[i] == current + 1 + i)
              && current + |next| == |w.files| - 1
  {
    var gens := Generations(w);
    var i := IndexOf(gens, current);
    if i == |gens| {
      assert gens[..i] == gens;
    } else {
      assert gens[i] == current;
      var next := gens[i + 1..];
      forall j | 0 <= j < |next|
        ensures next[j] == current + 1 + j
      {
        assert next[j] == gens[i + 1 + j];
      }
    }
  }

  /** The only successor of the active generation is itself, from its start. */
  lemma SuccessorOfActive(w: World, current: nat)
    requires w.active == Some(current)
    ensures Successors(w, current) == Ok([current])
  {
    var gens := Generations(w);
    assert gens[|gens| - 1] == current;
    assert gens[..|gens|] == gens;
  }

  /** The next generation is this one again if it still is the active one, and otherwise the one right after it. */
  lemma CrossArrives(w: World, f: Follower)
    requires WorldOk(w) && FollowerOk(w, f) && f.pc.Boundary?
    ensures var f' := Cross(w, f);
            && FollowerOk(w, f')
            && (f'.pc.Reading? ==> f'.current == if w.active == Some(f.current) then f.current else f.current + 1)
            && (f'.pc == Returned(true) ==> f.current == |w.files| - 1)
            && (f'.pc.Reading? || f'.pc == Returned(true) || f'.pc == Failed(GapError))
  {
    ActiveIsNewest(w);
    if w.active == Some(f.current) {
      SuccessorOfActive(w, f.current);
    } else {
      SuccessorsConsecutive(w, f.current);
    }
    var f' := Cross(w, f);
    if f'.pc.Reading? {
      var next := if f.queued == [] then Successors(w, f.current).value else f.queued;
      assert forall i | 0 <= i < |next[1..]| :: next[1..][i] == next[i + 1];
    }
  }

  lemma ReadKeepsOk(c: Codec, q: Query, w: World, f: Follower, n: nat)
    requires FollowerOk(w, f) && f.pc.Reading?
    ensures FollowerOk(w, Read(c, q, w, f, n))
  {
  }

  lemma RestKeepsOk(w: World, f: Follower, expired: bool)
    requires WorldOk(w) && FollowerOk(w, f)
    ensures f.pc.AtEnd? ==> FollowerOk(w, AfterEnd(w, f, expired))
    ensures f.pc.Sleeping? ==> FollowerOk(w, AfterSleep(w, f))
    ensures f.pc == Returned(true) ==> FollowerOk(w, Reattach(w, f, expired))
  {
    ActiveIsNewest(w);
  }

  lemma StepKeepsOk(c: Codec, q: Query, s: Sys, m: Move)
    requires WorldOk(s.world) && FollowerOk(s.world, s.follower)
    ensures WorldOk(Step(c, q, s, m).world) && FollowerOk(Step(c, q, s, m).world, Step(c, q, s, m).follower)
  {
    match m
    case Writer(move) => WriteFinals(s.world, move);
    case Follow(expired, n) =>
      match s.follower.pc
      case Reading => ReadKeepsOk(c, q, s.world, s.follower, n);
      case Boundary(_) => CrossArrives(s.world, s.follower);
      case _ => RestKeepsOk(s.world, s.follower, expired);
  }

  lemma {:induction false} RunKeepsOk(c: Codec, q: Query, s: Sys, moves: seq<Move>)
    requires WorldOk(s.world) && FollowerOk(s.world, s.follower)
    ensures WorldOk(Run(c, q, s, moves).world) && FollowerOk(Run(c, q, s, moves).world, Run(c, q, s, moves).follower)
    decreases |moves|
  {
    if moves != [] {
      StepKeepsOk(c, q, s, moves[0]);
      RunKeepsOk(c, q, Step(c, q, s, moves[0]), moves[1..]);
    }
  }

  // ---------- The program ----------

  /** The generations on disk with the position of the active one, as the loop over the paths collects them. */
  method SnapshotGenerations(w: World) returns (gens: seq<nat>, activeAt: int)
    ensures gens == Generations(w)
    ensures activeAt == if w.active.Some? then |gens| - 1 else -1
  {
    gens, activeAt := [], -1;
    var paths := [w.older, w.retained, w.active];
    for i := 0 to 3
      invariant gens == (if i > 0 then SlotAge(w.older) else []) + (if i > 1 then SlotAge(w.retained) else [])
                        + (if i > 2 then SlotAge(w.active) else [])
      invariant activeAt == if i > 2 && w.active.Some? then |gens| - 1 else -1
    {
      if paths[i].Some? {
        gens := gens + [paths[i].value];
        if i == 2 {
          activeAt := |gens| - 1;
        }
      }
    }
  }

  method OpenSuccessors(w: World, previous: nat) returns (r: Result<seq<nat>, FollowError>)
    requires WorldOk(w)
    ensures r == Successors(w, previous)
  {
    var gens, activeAt := SnapshotGenerations(w);
    ActiveIsNewest(w);
    if |gens| == 0 {
      return Err(GapError);
    }
    var found := |gens|;
    for i := 0 to |gens|
      invariant previous !in gens[..i]
    {
      if gens[i] == previous {
        found := i;
        break;
      }
    }
    SearchFinds(gens, previous, found);
    if found == |gens| {
      return Err(GapError);
    }
    if found == activeAt {
      return Ok([gens[found]]);
    }
    return Ok(gens[found + 1..]);
  }

  lemma SearchFinds(s: seq<nat>, x: nat, i: nat)
    requires i <= |s| && x !in s[..i] && (i < |s| ==> s[i] == x)
    ensures IndexOf(s, x) == i
  {
  }

  /** A follower. The file system it reads may have changed between any two calls. */
  class Attachment {
    var pc: Pc
    var current: nat
    ghost var lines: seq<Bytes>
    var buffer: Bytes
    var offset: nat
    var source: Source
    var anchor: Bytes
    var checkpoint: Checkpoint
    var queued: seq<nat>
    ghost var left: seq<Visit>
    var emitted: seq<Event>

    ghost function Value(): Follower
      reads this
    {
      Follower(pc, current, lines, buffer, offset, source, anchor, checkpoint, queued, left, emitted)
    }

    constructor (w: World, age: nat)
      requires age < |w.files|
      ensures Value() == Attach(w, age)
    {
      pc, current, buffer, offset, source := Reading, age, "", 0, Direct;
      anchor, checkpoint := Take(w.files[age], ANCHOR_LIMIT), Checkpoint(0, "");
      queued, emitted := [], [];
      lines, left := [], [];
    }

    method InspectGeneration(w: World, consumed: nat) returns (reopen: bool)
      requires current < |w.files|
      modifies this`anchor
      ensures reopen == Inspect(w, old(Value()), consumed)
      ensures Value() == if reopen then old(Value()) else Anchored(w, old(Value()))
    {
      if w.active != Some(current) {
        return true;
      }
      var data := w.files[current];
      if |data| < consumed {
        return true;
      }
      var currentAnchor := Take(data, ANCHOR_LIMIT);
      if !(anchor <= currentAnchor) {
        return true;
      }
      if checkpoint.data != "" {
        if !(checkpoint.offset <= |data| && checkpoint.data <= data[checkpoint.offset..]) {
          return true;
        }
      }
      if anchor == "" {
        anchor := currentAnchor;
      }
      return false;
    }

    method ReadNext(c: Codec, q: Query, w: World, n: nat)
      requires current < |w.files| && |buffer| <= offset && pc.Reading?
      modifies this
      ensures Value() == Read(c, q, w, old(Value()), n)
    {
      match ReadRecord(buffer)
      case TooLarge =>
        pc := Failed(RecordError);
      case AtEof(_) =>
        if source != Spent && offset < |w.files[current]| {
          var end := offset + 1 + Min(n, |w.files[current]| - offset - 1);
          buffer, offset := buffer + w.files[current][offset..end], end;
        } else {
          pc := AtEnd;
          if source == UntilEof {
            source := Spent;
          }
        }
      case Line(line, rest) =>
        match c.decode(line) {
          case None =>
            var reopen := InspectGeneration(w, offset - Min(n, |rest|));
            pc := if reopen then Boundary(w.active == Some(current)) else Failed(RecordError);
          case Some(e) =>
            var matches := EventMatchesQuery(e, q);
            emitted := emitted + if matches then [e] else [];
            lines, buffer := lines + [line], rest;
        }
    }

    method AfterEof(w: World, expired: bool)
      requires current < |w.files|
      modifies this
      ensures Value() == AfterEnd(w, old(Value()), expired)
    {
      var reopen := InspectGeneration(w, offset);
      if reopen {
        pc := Boundary(w.active == Some(current));
      } else if expired {
        pc := Returned(false);
      } else {
        pc, checkpoint := Sleeping, CheckpointAt(w.files[current], offset);
        if |buffer| > 0 && source == Direct {
          source := UntilEof;
        }
      }
    }

    method AfterNap(w: World)
      requires current < |w.files|
      modifies this
      ensures Value() == AfterSleep(w, old(Value()))
    {
      var reopen := InspectGeneration(w, offset);
      pc := if reopen then Boundary(w.active == Some(current)) else Reading;
    }

    /** Opens a generation from its start; the one left is noted for the theorems. */
    method Open(w: World, age: nat, next: seq<nat>, ghost leaving: Leaving)
      requires |buffer| <= offset
      modifies this
      ensures Value() == Enter(w, old(Value()), age, next, leaving)
    {
      left, lines := left + [Visit(current, lines, offset - |buffer|, offset, leaving)], [];
      anchor := if age < |w.files| then Take(w.files[age], ANCHOR_LIMIT) else "";
      pc, current, queued, buffer, offset, source, checkpoint := Reading, age, next, "", 0, Direct, Checkpoint(0, "");
    }

    /** Successors are looked up only when the last lookup is used up. */
    method HandOff(w: World)
      requires WorldOk(w) && |buffer| <= offset
      modifies this
      ensures Value() == Cross(w, old(Value()))
    {
      ghost var f := Value();
      var next := queued;
      if |queued| == 0 {
        var successors := OpenSuccessors(w, current);
        if successors.Err? {
          pc := Failed(successors.error);
          return;
        }
        next := successors.value;
      }
      assert Ok(next) == if f.queued == [] then Successors(w, f.current) else Ok(f.queued);
      if next == [] {
        pc := Returned(true);
        return;
      }
      Open(w, next[0], next[1..], LeavingOf(w, f));
    }

    /** One turn of the outer loop, which waits for a file at the active path. */
    method Reopen(w: World, expired: bool)
      requires |buffer| <= offset && pc == Returned(true)
      modifies this
      ensures Value() == Reattach(w, old(Value()), expired)
    {
      if w.active.Some? {
        Open(w, w.active.value, [], Last);
      } else if expired {
        pc := Returned(false);
      }
    }
  }
}
