/** A buildable part of the house: a single flag that only ever goes from
    unbuilt to built. The five part classes of the program (basement, walls,
    door, window, roof) share one body, so one datatype models all of them. */
module Parts {

  datatype Part = Part(built: bool)

  /** What a call to `Build` announces: the part is being built now, or it
      had been built already. The announcement is the only visible difference
      between the two cases; the text itself is not modelled. */
  datatype BuildEvent = NowBuilding | AlreadyBuilt

  /** A part as the house constructor creates it. */
  const Unbuilt: Part := Part(false)

  /** Builds the part if it is unbuilt; on a built part it changes nothing. */
  function Build(p: Part): (r: (Part, BuildEvent))
    ensures r.0.built
    ensures r.1 == NowBuilding <==> !p.built
    ensures p.built ==> r.0 == p
  {
    if !p.built then (Part(true), NowBuilding) else (p, AlreadyBuilt)
  }

  /** Building twice has the effect of building once, and the second call
      only reports that the part is already there. */
  lemma BuildIdempotent(p: Part)
    ensures Build(Build(p).0).0 == Build(p).0
    ensures Build(Build(p).0).1 == AlreadyBuilt
  {
  }
}
