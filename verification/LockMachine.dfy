/** Any number of lock objects in any number of processes on one lock file, each method cut into its system calls,
    and processes that may die between any two of them. */
module LockMachine {
  import opened Wrappers

  /** Where an object is in `acquire` or `release`. */
  datatype Pc =
    | Idle
    | Opening(info: string)
    | Locking(handle: nat, info: string)
    | Refusing(handle: nat)
    | Truncating(handle: nat, info: string)
    | Writing(handle: nat, info: string, written: nat)
    | Storing(handle: nat)
    | Unlocking(handle: nat)
    | Closing(handle: nat)

  datatype Outcome = Acquired | AlreadyHeld | Conflict | Released

  /** A lock object: its process, its `_file`, the method it is in, and how its last call ended. */
  datatype LockObject = LockObject(process: nat, file: Option<nat>, pc: Pc, last: Option<Outcome>)
  {
    predicate IsHeld() { file.Some? }
  }

  /** The objects, the lock file and its owner, the open handles with the object that opened each, the processes
      that died, and as history the metadata each handle was opened to write. */
  datatype World = World(
    objects: map<nat, LockObject>, text: Option<string>, owner: Option<nat>,
    handles: map<nat, nat>, next: nat, dead: set<nat>, infos: map<nat, string>)

  const START: World := World(map[], None, None, map[], 0, {}, map[])

  datatype Move =
    | New(id: nat, process: nat)
    | Acquire(id: nat, info: string)
    | Release(id: nat)
    | Advance(id: nat, chunk: nat)
    | Crash(process: nat)

  function Update(w: World, id: nat, o: LockObject): World {
    w.(objects := w.objects[id := o])
  }

  predicate Ready(w: World, id: nat) {
    id in w.objects && w.objects[id].process !in w.dead && w.objects[id].pc == Idle
  }

  /** Closing a handle gives up the lock that is bound to it. */
  function Close(w: World, handle: nat): World {
    w.(handles := w.handles - {handle}, owner := if w.owner == Some(handle) then None else w.owner)
  }

  function AdvanceObject(w: World, id: nat, chunk: nat): World
    requires id in w.objects
  {
    var o := w.objects[id];
    match o.pc
    case Idle => w
    case Opening(info) =>
      Update(w.(text := if w.text.None? then Some("") else w.text,
             handles := w.handles[w.next := id], next := w.next + 1, infos := w.infos[w.next := info]),
          id, o.(pc := Locking(w.next, info)))
    case Locking(handle, info) =>
      if w.owner.None? then Update(w.(owner := Some(handle)), id, o.(pc := Truncating(handle, info)))
      else Update(w, id, o.(pc := Refusing(handle)))
    case Refusing(handle) => Update(Close(w, handle), id, o.(pc := Idle, last := Some(Conflict)))
    case Truncating(handle, info) => Update(w.(text := Some("")), id, o.(pc := Writing(handle, info, 0)))
    case Writing(handle, info, written) =>
      if written >= |info| || w.text.None? then Update(w, id, o.(pc := Storing(handle)))
      else
        var end := if written + chunk <= |info| then written + chunk else |info|;
        Update(w.(text := Some(w.text.value + info[written..end])), id, o.(pc := Writing(handle, info, end)))
    case Storing(handle) => Update(w, id, o.(file := Some(handle), pc := Idle, last := Some(Acquired)))
    case Unlocking(handle) =>
      Update(w.(owner := if w.owner == Some(handle) then None else w.owner), id, o.(pc := Closing(handle)))
    case Closing(handle) => Update(Close(w, handle), id, o.(pc := Idle, last := Some(Released)))
  }

  /** The handles a process has open. */
  function HandlesOf(w: World, process: nat): set<nat> {
    set h | h in w.handles && w.handles[h] in w.objects && w.objects[w.handles[h]].process == process
  }

  /** Death closes every handle of the process. */
  function Die(w: World, process: nat): World {
    var gone := HandlesOf(w, process);
    w.(dead := w.dead + {process}, handles := w.handles - gone,
       owner := if w.owner.Some? && w.owner.value in gone then None else w.owner)
  }

  function Next(w: World, move: Move): World {
    match move
    case New(id, process) =>
      if id in w.objects || process in w.dead then w else Update(w, id, LockObject(process, None, Idle, None))
    case Acquire(id, info) =>
      if !Ready(w, id) then w
      else if w.objects[id].IsHeld() then Update(w, id, w.objects[id].(last := Some(AlreadyHeld)))
      else Update(w, id, w.objects[id].(pc := Opening(info)))
    case Release(id) =>
      if !Ready(w, id) || !w.objects[id].IsHeld() then w
      else Update(w, id, w.objects[id].(file := None, pc := Unlocking(w.objects[id].file.value)))
    case Advance(id, chunk) =>
      if id !in w.objects || w.objects[id].process in w.dead then w else AdvanceObject(w, id, chunk)
    case Crash(process) => Die(w, process)
  }

  function Exec(w: World, moves: seq<Move>): World {
    if moves == [] then w else Next(Exec(w, moves[..|moves| - 1]), moves[|moves| - 1])
  }

  // -- the invariant --------------------------------------------------------

  /** The handle through which an object has the operating system's lock. */
  function LockHandle(o: LockObject): Option<nat> {
    match o.pc
    case Idle => o.file
    case Truncating(handle, _) => Some(handle)
    case Writing(handle, _, _) => Some(handle)
    case Storing(handle) => Some(handle)
    case Unlocking(handle) => Some(handle)
    case _ => None
  }

  function OpenHandle(o: LockObject): Option<nat> {
    match o.pc
    case Locking(handle, _) => Some(handle)
    case Refusing(handle) => Some(handle)
    case Closing(handle) => Some(handle)
    case _ => LockHandle(o)
  }

  /** What the file says while an object has the lock. */
  ghost predicate TextOk(w: World, o: LockObject) {
    match o.pc
    case Idle => o.file.Some? ==> Says(w, o.file.value)
    case Locking(handle, info) => handle in w.infos && w.infos[handle] == info
    case Truncating(handle, info) => handle in w.infos && w.infos[handle] == info && w.text.Some?
    case Writing(handle, info, written) =>
      && handle in w.infos && w.infos[handle] == info
      && written <= |info| && w.text == Some(info[..written])
    case Storing(handle) => Says(w, handle)
    case Unlocking(handle) => Says(w, handle)
    case _ => true
  }

  ghost predicate Says(w: World, handle: nat) {
    handle in w.infos && w.text == Some(w.infos[handle])
  }

  ghost predicate ObjectOk(w: World, id: nat)
    requires id in w.objects
  {
    var o := w.objects[id];
    && (o.pc != Idle ==> o.file == None)
    && (o.process !in w.dead ==>
          && (LockHandle(o).Some? ==> w.owner == LockHandle(o))
          && (OpenHandle(o).Some? ==> OpenHandle(o).value in w.handles && w.handles[OpenHandle(o).value] == id)
          && TextOk(w, o))
  }

  /** The owner is a live object that knows it has the lock. */
  ghost predicate OwnerOk(w: World) {
    w.owner.Some? ==>
      && w.owner.value in w.handles && w.handles[w.owner.value] in w.objects
      && LockHandle(w.objects[w.handles[w.owner.value]]) == w.owner
  }

  /** Only live objects have handles open, and handles are numbered in order. */
  ghost predicate HandlesOk(w: World) {
    && (forall h | h in w.handles ::
          h < w.next && w.handles[h] in w.objects && w.objects[w.handles[h]].process !in w.dead)
    && (w.handles != map[] ==> w.text.Some?)
  }

  ghost predicate Inv(w: World) {
    && HandlesOk(w) && OwnerOk(w)
    && forall id | id in w.objects :: ObjectOk(w, id)
  }

  // -- every step keeps it --------------------------------------------------

  /** While one live object has the lock, no other has it. */
  lemma OneHasTheLock(w: World, id: nat, other: nat)
    requires Inv(w) && id in w.objects && other in w.objects && id != other
    requires w.objects[id].process !in w.dead && w.objects[other].process !in w.dead
    ensures LockHandle(w.objects[id]) == None || LockHandle(w.objects[other]) == None
  {
    assert ObjectOk(w, id) && ObjectOk(w, other);
  }

  lemma AdvanceKeepsOthers(w: World, id: nat, chunk: nat, other: nat)
    requires Inv(w) && id in w.objects && w.objects[id].process !in w.dead && other in w.objects && other != id
    ensures ObjectOk(AdvanceObject(w, id, chunk), other)
  {
    assert ObjectOk(w, id) && ObjectOk(w, other);
    if w.objects[other].process !in w.dead {
      OneHasTheLock(w, id, other);
      AdvanceKeepsOthersText(w, id, chunk, other);
    }
    hide Inv, OwnerOk, TextOk;
  }

  lemma AdvanceKeepsOthersText(w: World, id: nat, chunk: nat, other: nat)
    requires id in w.objects && other in w.objects && HandlesOk(w) && ObjectOk(w, id) && ObjectOk(w, other)
    requires w.objects[id].process !in w.dead && w.objects[other].process !in w.dead
    requires LockHandle(w.objects[id]) == None || LockHandle(w.objects[other]) == None
    ensures TextOk(AdvanceObject(w, id, chunk), w.objects[other])
  {
  }

  lemma AdvanceKeepsOwn(w: World, id: nat, chunk: nat)
    requires Inv(w) && id in w.objects && w.objects[id].process !in w.dead
    ensures ObjectOk(AdvanceObject(w, id, chunk), id)
  {
    assert ObjectOk(w, id);
    hide Inv, OwnerOk;
    var pc := w.objects[id].pc;
    if pc.Writing? {
      var end := if pc.written + chunk <= |pc.info| then pc.written + chunk else |pc.info|;
      PrefixGrows(pc.info, pc.written, end);
    }
  }

  lemma PrefixGrows(info: string, n: nat, m: nat)
    ensures n <= m <= |info| ==> info[..n] + info[n..m] == info[..m]
    ensures info[..|info|] == info
  {
  }

  lemma AdvanceKeepsGlobal(w: World, id: nat, chunk: nat)
    requires Inv(w) && id in w.objects && w.objects[id].process !in w.dead
    ensures HandlesOk(AdvanceObject(w, id, chunk)) && OwnerOk(AdvanceObject(w, id, chunk))
  {
    assert ObjectOk(w, id);
    hide Inv, TextOk;
  }

  lemma AdvanceKeeps(w: World, id: nat, chunk: nat)
    requires Inv(w) && id in w.objects && w.objects[id].process !in w.dead
    ensures Inv(AdvanceObject(w, id, chunk))
  {
    var w' := AdvanceObject(w, id, chunk);
    assert w'.objects.Keys == w.objects.Keys;
    hide AdvanceObject, ObjectOk, HandlesOk, OwnerOk;
    forall other | other in w'.objects ensures ObjectOk(w', other) {
      if other == id { AdvanceKeepsOwn(w, id, chunk); } else { AdvanceKeepsOthers(w, id, chunk, other); }
    }
    AdvanceKeepsGlobal(w, id, chunk);
  }

  lemma DieKeeps(w: World, process: nat)
    requires Inv(w)
    ensures Inv(Die(w, process))
  {
    var w' := Die(w, process);
    forall other | other in w'.objects ensures ObjectOk(w', other) {
      assert ObjectOk(w, other);
    }
  }

  lemma NextKeeps(w: World, move: Move)
    requires Inv(w)
    ensures Inv(Next(w, move))
  {
    hide Inv, AdvanceObject, Die;
    match move
    case Advance(id, chunk) =>
      if id in w.objects && w.objects[id].process !in w.dead { AdvanceKeeps(w, id, chunk); }
    case Crash(process) => DieKeeps(w, process);
    case _ => CallKeeps(w, move);
  }

  /** Creating an object, and entering a method. */
  lemma CallKeeps(w: World, move: Move)
    requires Inv(w) && !move.Advance? && !move.Crash?
    ensures Inv(Next(w, move))
  {
    var w' := Next(w, move);
    forall other | other in w'.objects ensures ObjectOk(w', other) {
      CallKeepsObject(w, move, other);
    }
    hide ObjectOk, AdvanceObject, Die;
  }

  lemma CallKeepsObject(w: World, move: Move, id: nat)
    requires Inv(w) && !move.Advance? && !move.Crash? && id in Next(w, move).objects
    ensures ObjectOk(Next(w, move), id)
  {
    hide AdvanceObject, Die, OwnerOk;
    if id in w.objects { assert ObjectOk(w, id); }
    hide Inv;
  }

  lemma {:induction false} ExecKeeps(w: World, moves: seq<Move>)
    requires Inv(w)
    ensures Inv(Exec(w, moves))
  {
    hide Inv, Next;
    if moves != [] {
      ExecKeeps(w, moves[..|moves| - 1]);
      NextKeeps(Exec(w, moves[..|moves| - 1]), moves[|moves| - 1]);
    }
  }

  ghost predicate Reachable(w: World) {
    exists moves :: Exec(START, moves) == w
  }

  lemma ReachableKeeps(w: World)
    requires Reachable(w)
    ensures Inv(w)
  {
    hide Exec, Inv;
    StartOk();
    var moves :| Exec(START, moves) == w;
    ExecKeeps(START, moves);
  }

  lemma StartOk()
    ensures Inv(START)
  {
  }

  // -- mutual exclusion -----------------------------------------------------

  /** A live object that says it holds the lock. */
  predicate Holds(w: World, id: nat) {
    id in w.objects && w.objects[id].process !in w.dead && w.objects[id].IsHeld()
  }

  /** In every reachable state at most one live object says it is held, that object owns the operating system's
      lock, and the file holds exactly the metadata it wrote. */
  lemma AtMostOneHolds(w: World, id: nat)
    requires Reachable(w) && Holds(w, id)
    ensures forall other | Holds(w, other) :: other == id
    ensures w.owner == w.objects[id].file && w.owner.value in w.handles && w.handles[w.owner.value] == id
    ensures w.owner.value in w.infos && w.text == Some(w.infos[w.owner.value])
  {
    ReachableKeeps(w);
    assert ObjectOk(w, id);
    forall other | Holds(w, other) ensures other == id { assert ObjectOk(w, other); }
  }

  /** The lock is never orphaned: its owner is always an object of a living process. */
  lemma OwnerLives(w: World)
    requires Reachable(w) && w.owner.Some?
    ensures w.owner.value in w.handles && w.handles[w.owner.value] in w.objects
    ensures w.objects[w.handles[w.owner.value]].process !in w.dead
  {
    ReachableKeeps(w);
  }

  predicate Disturbs(w: World, id: nat, move: Move)
    requires id in w.objects
  {
    match move
    case Release(other) => other == id
    case Crash(process) => process == w.objects[id].process
    case _ => false
  }

  /** Whatever the others do, a holder that neither releases nor dies keeps the lock, and the file stays as it is. */
  lemma OneMoveLeavesHolder(w: World, id: nat, move: Move)
    requires Inv(w) && Holds(w, id) && !Disturbs(w, id, move)
    ensures var w' := Next(w, move);
      && Holds(w', id) && w'.owner == w.owner && w'.text == w.text
      && w'.objects[id].(last := None) == w.objects[id].(last := None)
  {
    assert ObjectOk(w, id);
    match move
    case Advance(other, chunk) => if other in w.objects { assert ObjectOk(w, other); }
    case Crash(process) =>
    case _ =>
  }

  ghost predicate Undisturbed(w: World, id: nat, moves: seq<Move>)
    requires id in w.objects
  {
    forall k | 0 <= k < |moves| :: !Disturbs(w, id, moves[k])
  }

  /** So no refused acquire, and no crash of another process, ever disturbs the holder. */
  lemma {:induction false} HolderIsUndisturbed(w: World, id: nat, moves: seq<Move>)
    requires Reachable(w) && Holds(w, id) && Undisturbed(w, id, moves)
    ensures var w' := Exec(w, moves);
      && Holds(w', id) && w'.owner == w.owner && w'.text == w.text
      && w'.objects[id].(last := None) == w.objects[id].(last := None)
  {
    hide Inv, Next, Holds, Reachable;
    HoldsIn(w, id);
    if moves != [] {
      var init := moves[..|moves| - 1];
      HolderIsUndisturbed(w, id, init);
      ReachableKeeps(w);
      ExecKeeps(w, init);
      HoldsIn(Exec(w, init), id);
      OneMoveLeavesHolder(Exec(w, init), id, moves[|moves| - 1]);
    }
  }

  lemma HoldsIn(w: World, id: nat)
    requires Holds(w, id)
    ensures id in w.objects
  {
  }

  /** An attempt gets the lock exactly when nobody owns it, and a refused one changes nothing but its own object. */
  lemma AttemptIsExact(w: World, id: nat, chunk: nat)
    requires Reachable(w) && id in w.objects && w.objects[id].process !in w.dead && w.objects[id].pc.Locking?
    ensures var w' := Next(w, Advance(id, chunk));
      if w.owner == None then
        w' == w.(objects := w'.objects, owner := Some(w.objects[id].pc.handle)) && w'.objects[id].pc.Truncating?
      else
        w' == w.(objects := w'.objects) && w'.objects == w.objects[id := w'.objects[id]] && w'.objects[id].pc.Refusing?
  {
    ReachableKeeps(w);
    assert ObjectOk(w, id);
  }

  /** The object is being refused, or its last acquire was. */
  predicate Refused(w: World, id: nat) {
    id in w.objects && (w.objects[id].pc.Refusing? || w.objects[id].last == Some(Conflict))
  }

  /** The lock is owned by a living object other than this one. */
  ghost predicate OwnedByAnother(w: World, id: nat) {
    && w.owner.Some? && w.owner.value in w.handles && w.handles[w.owner.value] in w.objects
    && w.handles[w.owner.value] != id && w.objects[w.handles[w.owner.value]].process !in w.dead
  }

  /** No object is refused without cause: in every run, behind each refusal there is a moment at which another living
      object owned the lock. */
  lemma {:induction false} RefusalsAreJustified(moves: seq<Move>, id: nat) returns (n: nat)
    requires Refused(Exec(START, moves), id)
    ensures n < |moves| && OwnedByAnother(Exec(START, moves[..n]), id)
  {
    hide Next, Inv, Refused, OwnedByAnother;
    n := 0;
    if moves == [] {
      NobodyRefused(id);
    } else {
      var init, move := moves[..|moves| - 1], moves[|moves| - 1];
      var w := Exec(START, init);
      if Refused(w, id) {
        n := RefusalsAreJustified(init, id);
        assert moves[..n] == init[..n];
      } else {
        n := |moves| - 1;
        assert Reachable(w);
        RefusalHasOwner(w, move, id);
      }
    }
  }

  lemma NobodyRefused(id: nat)
    ensures !Refused(START, id)
  {
  }

  lemma RefusalHasOwner(w: World, move: Move, id: nat)
    requires Reachable(w) && !Refused(w, id) && Refused(Next(w, move), id)
    ensures OwnedByAnother(w, id)
  {
    ReachableKeeps(w);
    assert id in w.objects ==> ObjectOk(w, id);
    if move.Advance? && move.id == id && id in w.objects && w.objects[id].pc.Locking?
      && w.objects[id].process !in w.dead
    {
      AttemptIsExact(w, id, move.chunk);
    }
  }

  // -- crash and recovery ---------------------------------------------------

  /** When the owner's process dies, the lock is free at once. */
  lemma CrashFrees(w: World)
    requires Reachable(w) && w.owner.Some?
    ensures w.owner.value in w.handles && w.handles[w.owner.value] in w.objects
    ensures Next(w, Crash(w.objects[w.handles[w.owner.value]].process)).owner == None
  {
    ReachableKeeps(w);
  }

  /** The moves of one `acquire` that nobody interrupts. */
  function Attempt(id: nat, info: string): seq<Move> {
    [Acquire(id, info), Advance(id, 0), Advance(id, 0), Advance(id, 0), Advance(id, |info|), Advance(id, 0),
     Advance(id, 0)]
  }

  lemma Then(w: World, moves: seq<Move>, move: Move, longer: seq<Move>)
    requires longer == moves + [move]
    ensures Exec(w, longer) == Next(Exec(w, moves), move)
  {
    hide Next;
    assert longer[..|moves|] == moves;
  }

  lemma Exec7(w: World, a: Move, b: Move, c: Move, d: Move, e: Move, f: Move, g: Move)
    ensures Exec(w, [a, b, c, d, e, f, g]) == Next(Next(Next(Next(Next(Next(Next(w, a), b), c), d), e), f), g)
  {
    Then(w, [], a, [a]);
    hide Next, Exec;
    Then(w, [a], b, [a, b]);
    Then(w, [a, b], c, [a, b, c]);
    Then(w, [a, b, c], d, [a, b, c, d]);
    Then(w, [a, b, c, d], e, [a, b, c, d, e]);
    Then(w, [a, b, c, d, e], f, [a, b, c, d, e, f]);
    Then(w, [a, b, c, d, e, f], g, [a, b, c, d, e, f, g]);
  }

  /** Up to the attempt on the lock. */
  lemma FirstHalf(w: World, id: nat, info: string) returns (w': World)
    requires Ready(w, id) && !w.objects[id].IsHeld() && (w.owner.Some? ==> w.text.Some?) && w.next !in w.handles
    ensures w' == Next(Next(Next(w, Acquire(id, info)), Advance(id, 0)), Advance(id, 0))
    ensures id in w'.objects && w'.objects[id].process !in w'.dead && w'.objects[id].file == None
    ensures w.owner == None ==> w'.owner == Some(w.next) && w'.objects[id].pc == Truncating(w.next, info)
    ensures w.owner != None ==>
      && w'.owner == w.owner && w'.text == w.text && w'.handles == w.handles[w.next := id]
      && w'.objects[id].pc == Refusing(w.next)
  {
    var o := w.objects[id];
    var w1 := Next(w, Acquire(id, info));
    assert w1 == Update(w, id, o.(pc := Opening(info)));
    var w2 := Next(w1, Advance(id, 0));
    assert w2.objects[id] == o.(pc := Locking(w.next, info)) && w2.dead == w.dead && w2.owner == w.owner;
    w' := Next(w2, Advance(id, 0));
  }

  /** With the lock, the metadata is written and the object says it is held. */
  lemma SecondHalf(w: World, id: nat, info: string, handle: nat)
    requires id in w.objects && w.objects[id].process !in w.dead && w.objects[id].pc == Truncating(handle, info)
    ensures var w' := Next(Next(Next(Next(w, Advance(id, 0)), Advance(id, |info|)), Advance(id, 0)), Advance(id, 0));
      Holds(w', id) && w'.objects[id].last == Some(Acquired) && w'.objects[id].file == Some(handle)
      && w'.text == Some(info) && w'.owner == w.owner
  {
    var o := w.objects[id];
    var w1 := Next(w, Advance(id, 0));
    assert w1 == Update(w.(text := Some("")), id, o.(pc := Writing(handle, info, 0)));
    var w2 := Next(w1, Advance(id, |info|));
    assert "" + info[0..|info|] == info;
    assert w2.text == Some(info) && w2.owner == w.owner && w2.dead == w.dead;
    assert w2.objects[id].process == o.process;
    assert w2.objects[id].pc == if info == "" then Storing(handle) else Writing(handle, info, |info|);
    var w3 := Next(w2, Advance(id, 0));
    assert w3.text == Some(info) && w3.owner == w.owner && w3.dead == w.dead;
    assert w3.objects[id].process == o.process;
  }

  /** Refused, the handle is closed and nothing is left of the attempt. */
  lemma RefusedHalf(w: World, id: nat, info: string, handle: nat)
    requires id in w.objects && w.objects[id].process !in w.dead && w.objects[id].pc == Refusing(handle)
    requires w.owner != Some(handle) && w.objects[id].file == None
    ensures var w' := Next(Next(Next(Next(w, Advance(id, 0)), Advance(id, |info|)), Advance(id, 0)), Advance(id, 0));
      id in w'.objects && !Holds(w', id) && w'.objects[id].last == Some(Conflict)
      && w'.text == w.text && w'.owner == w.owner && w'.handles == w.handles - {handle}
  {
    var o := w.objects[id];
    var w1 := Next(w, Advance(id, 0));
    assert w1.objects[id] == o.(pc := Idle, last := Some(Conflict)) && w1.dead == w.dead;
    assert Next(w1, Advance(id, |info|)) == w1;
  }

  /** Left alone, `acquire` on a free lock succeeds, also after any crashes; on an owned lock it is refused and the
      owner and the file stay as they are. */
  lemma AcquireAlone(w: World, id: nat, info: string)
    requires Reachable(w) && Ready(w, id) && !w.objects[id].IsHeld()
    ensures var w' := Exec(w, Attempt(id, info));
      && id in w'.objects
      && (w.owner == None ==>
            && Holds(w', id) && w'.objects[id].last == Some(Acquired)
            && w'.text == Some(info) && w'.owner == w'.objects[id].file)
      && (w.owner != None ==>
            && !Holds(w', id) && w'.objects[id].last == Some(Conflict)
            && w'.text == w.text && w'.owner == w.owner && w'.handles == w.handles)
  {
    ReachableKeeps(w);
    assert w.next !in w.handles && (w.owner.Some? ==> w.text.Some?);
    hide Inv, Next, Exec, Reachable;
    Exec7(w, Acquire(id, info), Advance(id, 0), Advance(id, 0), Advance(id, 0), Advance(id, |info|), Advance(id, 0),
          Advance(id, 0));
    var w' := FirstHalf(w, id, info);
    if w.owner == None {
      SecondHalf(w', id, info, w.next);
    } else {
      assert w.owner != Some(w.next);
      RefusedHalf(w', id, info, w.next);
    }
  }

  /** The moves of one `release` that nobody interrupts. */
  function Releasing(id: nat): seq<Move> {
    [Release(id), Advance(id, 0), Advance(id, 0)]
  }

  lemma Exec3(w: World, a: Move, b: Move, c: Move)
    ensures Exec(w, [a, b, c]) == Next(Next(Next(w, a), b), c)
  {
    Then(w, [], a, [a]);
    hide Next, Exec;
    Then(w, [a], b, [a, b]);
    Then(w, [a, b], c, [a, b, c]);
  }

  /** Left alone, `release` on a held lock frees it, closes its handle and changes nothing else; a second one changes
      nothing. */
  lemma ReleaseAlone(w: World, id: nat)
    requires Reachable(w) && Ready(w, id) && Holds(w, id)
    ensures var w' := Exec(w, Releasing(id)); var o := w.objects[id];
      && w' == w.(owner := None, handles := w.handles - {o.file.value},
                  objects := w.objects[id := o.(file := None, pc := Idle, last := Some(Released))])
      && o.file.value in w.handles && !Holds(w', id) && Exec(w', [Release(id)]) == w'
  {
    hide Inv, Reachable, Exec, Next, ObjectOk;
    AtMostOneHolds(w, id);
    var o := w.objects[id];
    var handle := o.file.value;
    var w1 := Next(w, Release(id));
    var w2 := Next(w1, Advance(id, 0));
    var w3 := Next(w2, Advance(id, 0));
    Exec3(w, Release(id), Advance(id, 0), Advance(id, 0));
    ReleaseStarts(w, id);
    Unlocks(w1, id, handle);
    Closes(w2, id, handle);
    assert w3.objects == w.objects[id := o.(file := None, pc := Idle, last := Some(Released))];
    ReleaseOfFree(w3, id);
    Then(w3, [], Release(id), [Release(id)]);
    Stays(w3);
  }

  lemma ReleaseStarts(w: World, id: nat)
    requires Ready(w, id) && Holds(w, id)
    ensures var o := w.objects[id];
      Next(w, Release(id)) == Update(w, id, o.(file := None, pc := Unlocking(o.file.value)))
  {
  }

  lemma ReleaseOfFree(w: World, id: nat)
    requires !Holds(w, id)
    ensures Next(w, Release(id)) == w
  {
  }

  lemma Unlocks(w: World, id: nat, handle: nat)
    requires id in w.objects && w.objects[id].process !in w.dead && w.objects[id].pc == Unlocking(handle)
    requires w.owner == Some(handle)
    ensures Next(w, Advance(id, 0)) == Update(w.(owner := None), id, w.objects[id].(pc := Closing(handle)))
  {
  }

  lemma Closes(w: World, id: nat, handle: nat)
    requires id in w.objects && w.objects[id].process !in w.dead && w.objects[id].pc == Closing(handle)
    requires w.owner == None
    ensures Next(w, Advance(id, 0)) ==
      Update(w.(handles := w.handles - {handle}), id, w.objects[id].(pc := Idle, last := Some(Released)))
  {
  }

  lemma Stays(w: World)
    ensures Exec(w, []) == w
  {
  }

  lemma {:induction false} ExecConcat(w: World, a: seq<Move>, b: seq<Move>)
    ensures Exec(w, a + b) == Exec(Exec(w, a), b)
    decreases |b|
  {
    hide Next;
    if b == [] {
      assert a + b == a;
    } else {
      var init := b[..|b| - 1];
      ExecConcat(w, a, init);
      assert a + b == (a + init) + [b[|b| - 1]];
      Then(w, a + init, b[|b| - 1], a + b);
    }
  }

  lemma ReachableOn(w: World, moves: seq<Move>)
    requires Reachable(w)
    ensures Reachable(Exec(w, moves))
  {
    hide Exec;
    var before :| Exec(START, before) == w;
    ExecConcat(START, before, moves);
  }

  /** Once the holder has released the lock, the next `acquire` of another object succeeds. */
  lemma ReleaseHandsOver(w: World, id: nat, other: nat, info: string)
    requires Reachable(w) && Ready(w, id) && Holds(w, id)
    requires other != id && Ready(w, other) && !w.objects[other].IsHeld()
    ensures var w' := Exec(w, Releasing(id) + Attempt(other, info));
      && Holds(w', other) && w'.objects[other].last == Some(Acquired) && w'.text == Some(info)
      && w'.owner == w'.objects[other].file
  {
    hide Exec, Reachable, Next, Attempt, Releasing;
    ReleaseAlone(w, id);
    ReachableOn(w, Releasing(id));
    AcquireAlone(Exec(w, Releasing(id)), other, info);
    ExecConcat(w, Releasing(id), Attempt(other, info));
  }

  /** `acquire` on an object that holds the lock is refused and changes nothing but how its last call ended. */
  lemma AcquireTwice(w: World, id: nat, info: string)
    requires Ready(w, id) && Holds(w, id)
    ensures Exec(w, Attempt(id, info)) == Update(w, id, w.objects[id].(last := Some(AlreadyHeld)))
  {
    Exec7(w, Acquire(id, info), Advance(id, 0), Advance(id, 0), Advance(id, 0), Advance(id, |info|), Advance(id, 0),
          Advance(id, 0));
    hide Exec;
    var w1 := Next(w, Acquire(id, info));
    assert w1 == Update(w, id, w.objects[id].(last := Some(AlreadyHeld)));
    assert Next(w1, Advance(id, 0)) == w1 && Next(w1, Advance(id, |info|)) == w1;
  }

  /** The metadata is no proof of ownership: after a death during the write the file holds any beginning of it
      and the lock is free. */
  lemma TornMetadata(info: string, n: nat) returns (w: World)
    requires n <= |info|
    ensures Reachable(w) && w.owner == None && w.text == Some(info[..n])
  {
    Exec7(START, New(0, 0), Acquire(0, info), Advance(0, 0), Advance(0, 0), Advance(0, 0), Advance(0, n), Crash(0));
    hide Exec;
    var w1 := Next(START, New(0, 0));
    var w4 := FirstHalf(w1, 0, info);
    var w5 := Next(w4, Advance(0, 0));
    assert w5.objects[0].pc == Writing(0, info, 0) && w5.text == Some("") && w5.owner == Some(0) && w5.dead == w4.dead;
    TornWrite(w5, info, n);
    w := Next(Next(w5, Advance(0, n)), Crash(0));
  }

  lemma TornWrite(w: World, info: string, n: nat)
    requires n <= |info| && 0 in w.objects && w.objects[0].process == 0 && 0 !in w.dead
    requires w.objects[0].pc == Writing(0, info, 0) && w.text == Some("") && w.owner == Some(0)
    requires 0 in w.handles && w.handles[0] == 0
    ensures var w' := Next(Next(w, Advance(0, n)), Crash(0)); w'.owner == None && w'.text == Some(info[..n])
  {
    assert "" + info[0..n] == info[..n];
    var w' := Next(w, Advance(0, n));
    assert w'.text == Some(info[..n]) && w'.owner == w.owner && w'.handles == w.handles;
    assert w'.objects[0].process == 0;
    assert 0 in HandlesOf(w', 0);
  }
}
