/** The team leader's turn: a status report that reads the house and
    changes nothing. */
module TeamLeader {
  import opened FlagSeqs
  import opened Houses

  /** The content of the report: the state of the basement, walls, door and
      roof, and how many of the four windows are built. */
  datatype Report = Report(basement: bool, walls: bool, door: bool, windowsBuilt: nat, roof: bool)

  /** The report the leader gives; its window count is the number of built
      windows. */
  function Work(h: House): (r: Report)
    ensures r.basement == h.basement.built && r.walls == h.walls.built
    ensures r.door == h.door.built && r.roof == h.roof.built
    ensures r.windowsBuilt == |set i | 0 <= i < WindowCount && h.windows[i].built|
    ensures r.windowsBuilt <= WindowCount
    ensures r.windowsBuilt == WindowCount <==> AllWindowsBuilt(h.windows)
    ensures r == Report(true, true, true, WindowCount, true) <==> IsBuilt(h)
  {
    var wf := WindowFlags(h.windows);
    CountFull(wf, true);
    CountIsIndexSet(wf);
    assert (set i | 0 <= i < |wf| && wf[i]) == (set i | 0 <= i < WindowCount && h.windows[i].built);
    Report(h.basement.built, h.walls.built, h.door.built, Count(wf, true), h.roof.built)
  }
}
