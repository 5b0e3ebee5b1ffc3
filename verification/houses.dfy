/** The house under construction: basement, walls, door, four windows and a
    roof, each a one-way flag. */
module Houses {
  import opened Parts
  import opened FlagSeqs

  const WindowCount: nat := 4

  /** Basement, walls, door, the windows and the roof. */
  const PartCount: nat := WindowCount + 4

  /** The window array: its length is fixed when the house is created. */
  type Windows = ws: seq<Part> | |ws| == WindowCount
    witness [Unbuilt, Unbuilt, Unbuilt, Unbuilt]

  datatype House = House(basement: Part, walls: Part, door: Part, windows: Windows, roof: Part)

  /** Names one part of a house; `Window(i)` is the window at index `i`. */
  datatype PartId = Basement | Walls | Door | Window(index: nat) | Roof

  predicate ValidId(id: PartId) {
    id.Window? ==> id.index < WindowCount
  }

  /** Position of a part in the order the workers build them. */
  function Slot(id: PartId): (k: nat)
    requires ValidId(id)
    ensures k < PartCount
  {
    match id
    case Basement => 0
    case Walls => 1
    case Door => 2
    case Window(i) => 3 + i
    case Roof => 3 + WindowCount
  }

  /** The part at a position of the build order. */
  function IdAt(k: nat): (id: PartId)
    requires k < PartCount
    ensures ValidId(id)
  {
    if k == 0 then Basement
    else if k == 1 then Walls
    else if k == 2 then Door
    else if k < 3 + WindowCount then Window(k - 3)
    else Roof
  }

  /** `Slot` and `IdAt` are inverse: every position names exactly one part. */
  lemma SlotRoundTrip(id: PartId, k: nat)
    requires ValidId(id) && k < PartCount
    ensures IdAt(Slot(id)) == id
    ensures Slot(IdAt(k)) == k
  {
  }

  function PartAt(h: House, id: PartId): Part
    requires ValidId(id)
  {
    match id
    case Basement => h.basement
    case Walls => h.walls
    case Door => h.door
    case Window(i) => h.windows[i]
    case Roof => h.roof
  }

  /** The house with the named part replaced by `p`. */
  function WithPart(h: House, id: PartId, p: Part): (g: House)
    requires ValidId(id)
    ensures PartAt(g, id) == p
    ensures forall other :: ValidId(other) && other != id ==> PartAt(g, other) == PartAt(h, other)
  {
    match id
    case Basement => h.(basement := p)
    case Walls => h.(walls := p)
    case Door => h.(door := p)
    case Window(i) => h.(windows := h.windows[i := p])
    case Roof => h.(roof := p)
  }

  /** The flags of the windows, by index. */
  function WindowFlags(ws: seq<Part>): (fs: seq<bool>)
    ensures |fs| == |ws|
    ensures forall i :: 0 <= i < |ws| ==> fs[i] == ws[i].built
  {
    seq(|ws|, i requires 0 <= i < |ws| => ws[i].built)
  }

  /** The eight flags of the house, in priority order. */
  function Flags(h: House): (fs: seq<bool>)
    ensures |fs| == PartCount
  {
    seq(PartCount, k requires 0 <= k < PartCount => PartAt(h, IdAt(k)).built)
  }

  lemma FlagOf(h: House, id: PartId)
    requires ValidId(id)
    ensures Flags(h)[Slot(id)] == PartAt(h, id).built
  {
  }

  /** The flags determine the house. */
  lemma FlagsInjective(h: House, g: House)
    requires Flags(h) == Flags(g)
    ensures h == g
  {
    FlagOf(h, Basement);
    FlagOf(g, Basement);
    FlagOf(h, Walls);
    FlagOf(g, Walls);
    FlagOf(h, Door);
    FlagOf(g, Door);
    FlagOf(h, Roof);
    FlagOf(g, Roof);
    assert h.windows == g.windows by {
      forall i | 0 <= i < WindowCount ensures h.windows[i] == g.windows[i] {
        FlagOf(h, Window(i));
        FlagOf(g, Window(i));
      }
    }
  }

  /** Replacing one part changes its flag and no other. */
  lemma FlagsWithPart(h: House, id: PartId, p: Part)
    requires ValidId(id)
    ensures Flags(WithPart(h, id, p)) == Flags(h)[Slot(id) := p.built]
  {
  }

  /** A freshly constructed house. */
  function NewHouse(): (h: House)
    ensures |h.windows| == 4
    ensures forall k :: 0 <= k < |Flags(h)| ==> !Flags(h)[k]
    ensures !IsBuilt(h)
  {
    House(Unbuilt, Unbuilt, Unbuilt, seq(WindowCount, _ => Unbuilt), Unbuilt)
  }

  predicate AllWindowsBuilt(ws: seq<Part>) {
    forall i :: 0 <= i < |ws| ==> ws[i].built
  }

  /** The completion check of the house. */
  predicate IsBuilt(h: House) {
    h.basement.built && h.walls.built && h.door.built && AllWindowsBuilt(h.windows) && h.roof.built
  }

  /** The house is complete exactly when all eight flags are set. */
  lemma IsBuiltIffAllFlags(h: House)
    ensures IsBuilt(h) <==> forall k :: 0 <= k < |Flags(h)| ==> Flags(h)[k]
    ensures IsBuilt(h) <==> FirstUnset(Flags(h)) == PartCount
  {
    var fs := Flags(h);
    if forall k :: 0 <= k < |fs| ==> fs[k] {
      forall i | 0 <= i < WindowCount ensures h.windows[i].built {
        FlagOf(h, Window(i));
      }
      FlagOf(h, Basement);
      FlagOf(h, Walls);
      FlagOf(h, Door);
      FlagOf(h, Roof);
    }
  }

  /** Number of parts not yet built. */
  function Remaining(h: House): (n: nat)
    ensures n <= PartCount
    ensures n == 0 <==> IsBuilt(h)
  {
    CountFull(Flags(h), true);
    CountSplit(Flags(h));
    IsBuiltIffAllFlags(h);
    Count(Flags(h), false)
  }

  /** Calls `Build` on the named part of the house. */
  function BuildPart(h: House, id: PartId): (r: (House, BuildEvent))
    requires ValidId(id)
    ensures Flags(r.0) == Flags(h)[Slot(id) := true]
    ensures r.1 == NowBuilding <==> !Flags(h)[Slot(id)]
  {
    var (p, e) := Build(PartAt(h, id));
    FlagsWithPart(h, id, p);
    FlagOf(h, id);
    (WithPart(h, id, p), e)
  }

  /** The order the workers follow: walls need the basement, the door needs
      the walls, a window needs the door and every lower-index window, and
      the roof needs all windows. */
  predicate InPriorityOrder(h: House) {
    && (h.walls.built ==> h.basement.built)
    && (h.door.built ==> h.walls.built)
    && (forall i :: 0 <= i < WindowCount && h.windows[i].built ==>
          h.door.built && forall j :: 0 <= j < i ==> h.windows[j].built)
    && (h.roof.built ==> AllWindowsBuilt(h.windows))
  }

  /** The priority order says exactly that the built parts form a prefix of
      the eight flags. */
  lemma PriorityOrderIffPrefixed(h: House)
    ensures InPriorityOrder(h) <==> Prefixed(Flags(h))
  {
    var fs := Flags(h);
    forall i | 0 <= i < WindowCount ensures fs[3 + i] == h.windows[i].built {
      FlagOf(h, Window(i));
    }
    FlagOf(h, Basement);
    FlagOf(h, Walls);
    FlagOf(h, Door);
    FlagOf(h, Roof);
    if InPriorityOrder(h) {
      forall i, j | 0 <= i < j < |fs| && fs[j] ensures fs[i] {
        if 3 <= j < 3 + WindowCount {
          assert fs[3 + (j - 3)] == h.windows[j - 3].built;
          if 3 <= i {
            assert fs[3 + (i - 3)] == h.windows[i - 3].built;
          }
        } else if j == 3 + WindowCount {
          assert h.windows[0].built;
          if 3 <= i < 3 + WindowCount {
            assert fs[3 + (i - 3)] == h.windows[i - 3].built;
          }
        }
      }
    }
    if Prefixed(fs) {
      forall i | 0 <= i < WindowCount && h.windows[i].built
        ensures h.door.built && forall j :: 0 <= j < i ==> h.windows[j].built
      {
        assert fs[3 + i];
        assert fs[2];
        forall j | 0 <= j < i ensures h.windows[j].built {
          assert fs[3 + j];
        }
      }
      if h.roof.built {
        forall i | 0 <= i < WindowCount ensures h.windows[i].built {
          assert fs[3 + i];
        }
      }
    }
  }
}
