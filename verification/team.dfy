/** The team's build loop. Each turn a die decides whether the leader
    reports or the next worker in rotation works; here that decision is an
    oracle, a sequence of turns, so every possible run is covered. */
module Team {
  import opened FlagSeqs
  import opened Houses
  import Worker
  import TeamLeader

  /** The outcome of the leader-or-worker roll on one turn of the loop. */
  datatype Turn = LeaderTurn | WorkerTurn

  /** The loop's state: the house and the round-robin index of the next worker. */
  datatype State = State(house: House, workerIndex: nat)

  /** A fresh house, with the first worker up next. */
  function Start(): (s: State)
    ensures s.workerIndex == 0
    ensures Remaining(s.house) == PartCount
    ensures InPriorityOrder(s.house)
  {
    var h := NewHouse();
    CountFull(Flags(h), false);
    State(h, 0)
  }

  function WorkerTurns(ts: seq<Turn>): nat {
    Count(ts, WorkerTurn)
  }

  /** One turn of the loop with a crew of `crew` workers. A leader turn only
      reports, so the state stays as it is; a worker turn lets the current
      worker work and passes the turn to the next worker. */
  function Step(s: State, t: Turn, crew: nat): (r: State)
    requires 0 < crew && s.workerIndex < crew
    ensures r.workerIndex < crew
    ensures t == LeaderTurn ==> r == s
    ensures t == WorkerTurn ==> r.workerIndex == (s.workerIndex + 1) % crew
    ensures t == WorkerTurn && !IsBuilt(s.house) ==>
      && FirstUnset(Flags(s.house)) < PartCount
      && Flags(r.house) == Flags(s.house)[FirstUnset(Flags(s.house)) := true]
    ensures t == WorkerTurn && !IsBuilt(s.house) ==> Remaining(r.house) == Remaining(s.house) - 1
    ensures IsBuilt(s.house) ==> r.house == s.house
  {
    match t
    case LeaderTurn => s
    case WorkerTurn =>
      Worker.WorkBuildsOnePart(s.house);
      IsBuiltIffAllFlags(s.house);
      State(Worker.Work(s.house).0, (s.workerIndex + 1) % crew)
  }

  /** The loop: it runs while the house is not built, taking its turns from
      `oracle`; it also stops when the oracle has no turn left. Returns the
      final state and the number of turns taken. */
  function Run(s: State, oracle: seq<Turn>, crew: nat): (r: (State, nat))
    requires 0 < crew && s.workerIndex < crew
    ensures r.0.workerIndex < crew
    ensures r.1 <= |oracle|
    ensures IsBuilt(r.0.house) || r.1 == |oracle|
    decreases |oracle|
  {
    if IsBuilt(s.house) || oracle == [] then
      (s, 0)
    else
      var r := Run(Step(s, oracle[0], crew), oracle[1..], crew);
      (r.0, r.1 + 1)
  }

  /** Neither kind of turn breaks the priority order of the built parts, so
      no run does. */
  lemma {:induction false} RunPreservesPriorityOrder(s: State, oracle: seq<Turn>, crew: nat)
    requires 0 < crew && s.workerIndex < crew
    requires InPriorityOrder(s.house)
    ensures InPriorityOrder(Run(s, oracle, crew).0.house)
    decreases |oracle|
  {
    if !IsBuilt(s.house) && oracle != [] {
      Worker.WorkPreservesPriorityOrder(s.house);
      RunPreservesPriorityOrder(Step(s, oracle[0], crew), oracle[1..], crew);
    }
  }

  /** Euclidean division determines quotient and remainder uniquely. */
  lemma ModUnique(x: int, c: int, q: int, m: int)
    requires 0 < c && 0 <= m < c
    requires x == q * c + m
    ensures x % c == m
  {
    var d := x / c;
    assert (q - d) * c == x % c - m;
    // the split on the sign of the quotient difference is the whole proof
    if q - d >= 1 {
    } else if q - d <= -1 {
    }
  }

  /** Reducing the rotation index before adding more turns changes nothing. */
  lemma ModSuccAdd(a: nat, a': nat, b: nat, c: nat)
    requires 0 < c && a' == (a + 1) % c
    ensures (a' + b) % c == (a + 1 + b) % c
  {
    var q := (a + 1) / c;
    var m := (a + 1) % c;
    var q2 := (m + b) / c;
    var m2 := (m + b) % c;
    assert a + 1 + b == (q + q2) * c + m2 by {
      assert (q + q2) * c == q * c + q2 * c;
    }
    ModUnique(a + 1 + b, c, q + q2, m2);
  }

  /** Counting the worker turns of a prefix: the first turn, then the rest. */
  lemma PrefixWorkerTurns(oracle: seq<Turn>, n: nat)
    requires 0 < n <= |oracle|
    ensures WorkerTurns(oracle[..n]) == (if oracle[0] == WorkerTurn then 1 else 0) + WorkerTurns(oracle[1..][..n - 1])
    ensures WorkerTurns(oracle) == (if oracle[0] == WorkerTurn then 1 else 0) + WorkerTurns(oracle[1..])
  {
    assert oracle[..n] == [oracle[0]] + oracle[1..][..n - 1];
    CountAppend([oracle[0]], oracle[1..][..n - 1], WorkerTurn);
    assert oracle == [oracle[0]] + oracle[1..];
    CountAppend([oracle[0]], oracle[1..], WorkerTurn);
    assert [oracle[0]][1..] == [];
  }

  /** The rotation index after one turn and `w` further worker turns. */
  lemma RotationAfterTurn(i: nat, i': nat, t: Turn, w: nat, crew: nat)
    requires 0 < crew && i < crew
    requires i' == if t == WorkerTurn then (i + 1) % crew else i
    ensures (i' + w) % crew == (i + (if t == WorkerTurn then 1 else 0) + w) % crew
  {
    if t == WorkerTurn {
      ModSuccAdd(i, i', w, crew);
    }
  }

  /** What a run does to the house: it takes as many worker turns as there
      are parts left to build, or every worker turn the oracle has if that is
      fewer, each of them builds one part, and a run that completes the house
      ends on a worker turn. */
  lemma {:induction false} RunCountsWorkerTurns(s: State, oracle: seq<Turn>, crew: nat)
    requires 0 < crew && s.workerIndex < crew
    ensures var r := Run(s, oracle, crew);
      && WorkerTurns(oracle[..r.1]) == (if WorkerTurns(oracle) < Remaining(s.house) then WorkerTurns(oracle) else Remaining(s.house))
      && Remaining(r.0.house) == Remaining(s.house) - WorkerTurns(oracle[..r.1])
      && (IsBuilt(r.0.house) && 0 < r.1 ==> oracle[r.1 - 1] == WorkerTurn)
    decreases |oracle|
  {
    if IsBuilt(s.house) || oracle == [] {
      assert oracle[..0] == [];
    } else {
      var s' := Step(s, oracle[0], crew);
      RunCountsWorkerTurns(s', oracle[1..], crew);
      var r' := Run(s', oracle[1..], crew);
      PrefixWorkerTurns(oracle, r'.1 + 1);
      if 0 < r'.1 {
        assert oracle[r'.1] == oracle[1..][r'.1 - 1];
      }
    }
  }

  /** Only worker turns move the rotation on, one worker per turn. */
  lemma {:induction false} RunRotatesWorkers(s: State, oracle: seq<Turn>, crew: nat)
    requires 0 < crew && s.workerIndex < crew
    ensures var r := Run(s, oracle, crew);
      r.0.workerIndex == (s.workerIndex + WorkerTurns(oracle[..r.1])) % crew
    decreases |oracle|
  {
    if IsBuilt(s.house) || oracle == [] {
      assert oracle[..0] == [];
      assert s.workerIndex % crew == s.workerIndex;
    } else {
      var s' := Step(s, oracle[0], crew);
      RunRotatesWorkers(s', oracle[1..], crew);
      var r' := Run(s', oracle[1..], crew);
      PrefixWorkerTurns(oracle, r'.1 + 1);
      RotationAfterTurn(s.workerIndex, s'.workerIndex, oracle[0], WorkerTurns(oracle[1..][..r'.1]), crew);
    }
  }

  /** Starting from a fresh house, the loop completes the house exactly on
      the eighth worker turn, however many leader turns come in between; with
      fewer than eight worker turns it is still unfinished. */
  lemma EightWorkerTurnsBuildTheHouse(oracle: seq<Turn>, crew: nat)
    requires 0 < crew
    ensures var r := Run(Start(), oracle, crew);
      && (IsBuilt(r.0.house) <==> WorkerTurns(oracle) >= PartCount)
      && (IsBuilt(r.0.house) ==> WorkerTurns(oracle[..r.1]) == PartCount && oracle[r.1 - 1] == WorkerTurn)
      && (!IsBuilt(r.0.house) ==> r.1 == |oracle| && Remaining(r.0.house) == PartCount - WorkerTurns(oracle))
  {
    var start := Start();
    RunCountsWorkerTurns(start, oracle, crew);
    var r := Run(start, oracle, crew);
    var w := WorkerTurns(oracle[..r.1]);
    assert Remaining(r.0.house) == PartCount - w;
    if r.1 == |oracle| {
      assert oracle[..r.1] == oracle;
    }
    assert !IsBuilt(start.house);
  }

  /** On a run from a fresh house the built parts are always a priority
      prefix, and the next worker is the number of worker turns taken so far,
      modulo the size of the crew. */
  lemma FreshRunOrderAndRotation(oracle: seq<Turn>, crew: nat)
    requires 0 < crew
    ensures var r := Run(Start(), oracle, crew);
      && InPriorityOrder(r.0.house)
      && r.0.workerIndex == WorkerTurns(oracle[..r.1]) % crew
  {
    RunRotatesWorkers(Start(), oracle, crew);
    RunPreservesPriorityOrder(Start(), oracle, crew);
  }

  /** Taking turn `n` of the oracle on an unfinished house: the rest of the
      run continues from the state after that turn, and one more worker turn
      has been counted if it was a worker's. */
  lemma TurnTaken(s: State, oracle: seq<Turn>, n: nat, crew: nat)
    requires 0 < crew && s.workerIndex < crew
    requires n < |oracle| && !IsBuilt(s.house)
    ensures var r := Run(s, oracle[n..], crew);
      var r' := Run(Step(s, oracle[n], crew), oracle[n + 1..], crew);
      r.0 == r'.0 && r.1 == r'.1 + 1
    ensures WorkerTurns(oracle[..n + 1]) == WorkerTurns(oracle[..n]) + if oracle[n] == WorkerTurn then 1 else 0
  {
    assert oracle[n..][0] == oracle[n] && oracle[n..][1..] == oracle[n + 1..];
    assert oracle[..n + 1] == oracle[..n] + [oracle[n]];
    CountAppend(oracle[..n], [oracle[n]], WorkerTurn);
    assert Count([oracle[n]], WorkerTurn) == if oracle[n] == WorkerTurn then 1 else 0 by {
      assert [oracle[n]][1..] == [];
    }
  }

  /** The build loop as the program writes it: a fresh house, the worker
      index at zero, and turns taken until the house is built (or the oracle
      is used up). Besides the final state it returns the leader's reports. */
  method BuildHouse(crew: nat, oracle: seq<Turn>)
    returns (house: House, workerIndex: nat, turns: nat, reports: seq<TeamLeader.Report>)
    requires 0 < crew
    ensures workerIndex < crew
    ensures turns <= |oracle|
    ensures |reports| + WorkerTurns(oracle[..turns]) == turns
    ensures IsBuilt(house) || turns == |oracle|
    ensures (State(house, workerIndex), turns) == Run(Start(), oracle, crew)
    ensures WorkerTurns(oracle) >= PartCount ==> IsBuilt(house)
  {
    var s := Start();
    turns := 0;
    reports := [];
    ghost var final := Run(s, oracle, crew);
    assert oracle[turns..] == oracle;
    assert oracle[..turns] == [];
    while !IsBuilt(s.house) && turns < |oracle|
      invariant turns <= |oracle|
      invariant s.workerIndex < crew
      invariant Run(s, oracle[turns..], crew).0 == final.0
      invariant Run(s, oracle[turns..], crew).1 + turns == final.1
      invariant |reports| + WorkerTurns(oracle[..turns]) == turns
      decreases |oracle| - turns
    {
      TurnTaken(s, oracle, turns, crew);
      if oracle[turns] == LeaderTurn {
        reports := reports + [TeamLeader.Work(s.house)];
        assert |reports| + WorkerTurns(oracle[..turns + 1]) == turns + 1;
      } else {
        assert |reports| + WorkerTurns(oracle[..turns + 1]) == turns + 1;
      }
      s := Step(s, oracle[turns], crew);
      turns := turns + 1;
    }
    assert IsBuilt(s.house) || turns == |oracle|;
    house, workerIndex := s.house, s.workerIndex;
    RunCountsWorkerTurns(Start(), oracle, crew);
  }
}
