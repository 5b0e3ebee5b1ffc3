/** A worker's turn: build the highest-priority part that is still missing. */
module Worker {
  import opened Parts
  import opened FlagSeqs
  import opened Houses
  import opened Wrappers

  /** What a worker did on a turn: built one part, or found the house complete. */
  datatype WorkOutcome = Built(part: PartId) | AlreadyComplete

  /** The worker's fixed priority: basement, then walls, then door, then the
      lowest-index unbuilt window, then roof; `None` on a complete house. The
      window case is the loop over the windows that stops at the first
      unbuilt one. */
  function NextPart(h: House): (r: Option<PartId>)
    ensures r == None <==> IsBuilt(h)
    ensures r.Some? ==> ValidId(r.value) && Slot(r.value) == FirstUnset(Flags(h))
  {
    if !h.basement.built then
      FirstUnsetUnique(Flags(h), 0);
      Some(Basement)
    else if !h.walls.built then
      FirstUnsetUnique(Flags(h), 1);
      Some(Walls)
    else if !h.door.built then
      FirstUnsetUnique(Flags(h), 2);
      Some(Door)
    else if !AllWindowsBuilt(h.windows) then
      var i := FirstUnset(WindowFlags(h.windows));
      WindowIsFirstUnset(h, i);
      Some(Window(i))
    else if !h.roof.built then
      WindowIsFirstUnset(h, WindowCount);
      Some(Roof)
    else
      None
  }

  /** When basement, walls, door and the windows below `i` are built, and
      the part just after them is not, that part is the first unbuilt one. */
  lemma WindowIsFirstUnset(h: House, i: nat)
    requires i <= WindowCount
    requires h.basement.built && h.walls.built && h.door.built
    requires forall j :: 0 <= j < i ==> h.windows[j].built
    requires i < WindowCount ==> !h.windows[i].built
    requires i == WindowCount ==> !h.roof.built
    ensures FirstUnset(Flags(h)) == 3 + i
  {
    var fs := Flags(h);
    forall j | 0 <= j < 3 + i ensures fs[j] {
      if 3 <= j {
        assert fs[3 + (j - 3)] == h.windows[j - 3].built;
      }
    }
    FirstUnsetUnique(fs, 3 + i);
  }

  /** A worker's turn: build the part `NextPart` picks, if any. */
  function Work(h: House): (r: (House, WorkOutcome))
    ensures r.1 == AlreadyComplete <==> IsBuilt(h)
    ensures r.1 == AlreadyComplete ==> r.0 == h
    ensures r.1.Built? ==> ValidId(r.1.part) && Slot(r.1.part) == FirstUnset(Flags(h))
    ensures r.1.Built? ==> !Flags(h)[Slot(r.1.part)]
    ensures r.1.Built? ==> Flags(r.0) == Flags(h)[Slot(r.1.part) := true]
  {
    match NextPart(h)
    case Some(id) => (BuildPart(h, id).0, Built(id))
    case None => (h, AlreadyComplete)
  }

  /** On an incomplete house a worker's turn builds exactly one part. */
  lemma WorkBuildsOnePart(h: House)
    ensures !IsBuilt(h) ==> Remaining(Work(h).0) == Remaining(h) - 1
    ensures IsBuilt(h) ==> Work(h).0 == h
  {
    if !IsBuilt(h) {
      var k := Slot(Work(h).1.part);
      CountAfterSet(Flags(h), k);
    }
  }

  /** A worker's turn never undoes a built part. */
  lemma WorkIsMonotone(h: House)
    ensures forall k :: 0 <= k < PartCount && Flags(h)[k] ==> Flags(Work(h).0)[k]
  {
  }

  /** A worker's turn keeps the built parts a priority prefix. */
  lemma WorkPreservesPriorityOrder(h: House)
    ensures InPriorityOrder(h) ==> InPriorityOrder(Work(h).0)
  {
    if InPriorityOrder(h) && !IsBuilt(h) {
      IsBuiltIffAllFlags(h);
      PriorityOrderIffPrefixed(h);
      SetFirstUnsetKeepsPrefixed(Flags(h));
      PriorityOrderIffPrefixed(Work(h).0);
    }
  }

  /** On a house built in priority order, the part a worker builds is the one
      at the position given by the number of parts already built. */
  lemma WorkOnOrderedHouse(h: House)
    requires InPriorityOrder(h)
    requires !IsBuilt(h)
    ensures Slot(Work(h).1.part) == PartCount - Remaining(h)
  {
    PriorityOrderIffPrefixed(h);
    PrefixedShape(Flags(h));
    CountSplit(Flags(h));
  }

  /** With only the basement built, the next part is the walls, not the door
      or a window. */
  lemma WorkAfterBasementBuildsWalls()
    ensures Work(NewHouse().(basement := Part(true))).1 == Built(Walls)
  {
  }

  /** With basement, walls, door and the first window built, the next part is
      the second window. */
  lemma WorkAfterFirstWindowBuildsSecond()
    ensures Work(House(Part(true), Part(true), Part(true), [Part(true), Unbuilt, Unbuilt, Unbuilt], Unbuilt)).1
         == Built(Window(1))
  {
    var ws := [Part(true), Unbuilt, Unbuilt, Unbuilt];
    FirstUnsetUnique(WindowFlags(ws), 1);
  }
}
