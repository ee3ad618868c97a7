/**
 The system with the write as the code has it: a worker that comes back from its wait
 updates or deletes without testing the page XID.  Until the first such write over a
 changed page its runs are exactly runs of the system of Database.
 */
module CodeRuns {
  import opened Waiting
  import opened HeapVersions
  import opened Database
  import opened DatabaseInvariant
  import opened DatabaseTheorems
  import opened DatabaseRaces

  /** The system, and the workers back from their wait that have yet to write. */
  datatype Code = Code(db: Db, woken: set<nat>)

  predicate CodeCanStep(c: Code, w: nat, s: Step) {
    if w in c.woken then
      && IsRunning(c.db, w) && c.db.work[w].act.Got? && c.db.work[w].act.t < |c.db.heap.slots|
      && (s.Update? || s.Remove?) && 0 < s.bytes
      && (s.Update? ==> |s.data| <= c.db.heap.slots[c.db.work[w].act.t].length)
    else CanStep(c.db, w, s)
  }

  function CodeTake(c: Code, w: nat, s: Step): Code
    requires CodeCanStep(c, w, s)
  {
    if w in c.woken then
      var k := c.db.work[w];
      Code(c.db.(heap := UntestedWrite(c.db, w, s),
                 work := c.db.work[w := k.(undo := k.undo + [c.db.heap.size + 1], act := Quiet)]),
           c.woken - {w})
    else
      var next := Take(c.db, w, s);
      Code(next, if s.WaitMove? && next.work[w].act.Got? then c.woken + {w} else c.woken)
  }

  /** The write goes ahead though the page has another XID than the scanned version. */
  predicate Races(c: Code, w: nat) {
    w in c.woken && !GuardHolds(c.db, w)
  }

  predicate CodeCanPlay(c: Code, turns: seq<Turn>)
    decreases |turns|
  {
    turns == [] ||
    (CodeCanStep(c, turns[0].worker, turns[0].step) &&
     CodeCanPlay(CodeTake(c, turns[0].worker, turns[0].step), turns[1..]))
  }

  function CodePlay(c: Code, turns: seq<Turn>): Code
    requires CodeCanPlay(c, turns)
    decreases |turns|
  {
    if turns == [] then c else CodePlay(CodeTake(c, turns[0].worker, turns[0].step), turns[1..])
  }

  predicate RaceFree(c: Code, turns: seq<Turn>)
    requires CodeCanPlay(c, turns)
    decreases |turns|
  {
    turns == [] ||
    (!Races(c, turns[0].worker) && RaceFree(CodeTake(c, turns[0].worker, turns[0].step), turns[1..]))
  }

  /** A step of the code is the same step of the system, unless it races. */
  lemma {:induction false} CodeStepAgrees(c: Code, w: nat, s: Step)
    requires CodeCanStep(c, w, s)
    ensures CanStep(c.db, w, s) <==> !Races(c, w)
    ensures CanStep(c.db, w, s) ==> CodeTake(c, w, s).db == Take(c.db, w, s)
  {}

  /** A run of the code is a run of the system if and only if no write in it races. */
  lemma {:induction false} CodeRunsAgree(c: Code, turns: seq<Turn>)
    requires CodeCanPlay(c, turns)
    ensures CanPlay(c.db, turns) <==> RaceFree(c, turns)
    ensures CanPlay(c.db, turns) ==> CodePlay(c, turns).db == Play(c.db, turns)
    decreases |turns|
  {
    hide CodeCanStep, CodeTake, Races, CanStep, Take;
    if turns != [] {
      CodeStepAgrees(c, turns[0].worker, turns[0].step);
      CodeRunsAgree(CodeTake(c, turns[0].worker, turns[0].step), turns[1..]);
    }
  }

  /** Some run of the code leads here from the empty page without a race. */
  ghost predicate Reached(c: Code) {
    exists workers: nat, turns ::
      CodeCanPlay(Code(InitialDb(workers), {}), turns) && RaceFree(Code(InitialDb(workers), {}), turns) &&
      CodePlay(Code(InitialDb(workers), {}), turns) == c
  }

  /** Whatever holds in every reachable state holds in every state the code gets to before its first race. */
  lemma {:induction false} ReachedIsReachable(c: Code)
    requires Reached(c)
    ensures Reachable(c.db)
  {
    hide CodeCanStep, CodeTake, Races, CanStep, Take;
    var workers: nat, turns :|
      CodeCanPlay(Code(InitialDb(workers), {}), turns) && RaceFree(Code(InitialDb(workers), {}), turns) &&
      CodePlay(Code(InitialDb(workers), {}), turns) == c;
    CodeRunsAgree(Code(InitialDb(workers), {}), turns);
  }

  lemma {:induction false} CodePlayAppends(c: Code, turns: seq<Turn>, w: nat, s: Step)
    requires CodeCanPlay(c, turns) && RaceFree(c, turns)
    requires CodeCanStep(CodePlay(c, turns), w, s) && !Races(CodePlay(c, turns), w)
    ensures CodeCanPlay(c, turns + [Turn(w, s)]) && RaceFree(c, turns + [Turn(w, s)])
    ensures CodePlay(c, turns + [Turn(w, s)]) == CodeTake(CodePlay(c, turns), w, s)
    decreases |turns|
  {
    hide CodeCanStep, CodeTake, Races;
    if turns == [] {
      assert (turns + [Turn(w, s)])[1..] == [];
    } else {
      CodePlayAppends(CodeTake(c, turns[0].worker, turns[0].step), turns[1..], w, s);
      assert (turns + [Turn(w, s)])[1..] == turns[1..] + [Turn(w, s)];
    }
  }

  lemma {:induction false} Reaches(c: Code, w: nat, s: Step)
    requires Reached(c) && CodeCanStep(c, w, s) && !Races(c, w)
    ensures Reached(CodeTake(c, w, s))
  {
    hide CodeCanStep, CodeTake, Races, CodeCanPlay, CodePlay, RaceFree;
    var workers: nat, turns :|
      CodeCanPlay(Code(InitialDb(workers), {}), turns) && RaceFree(Code(InitialDb(workers), {}), turns) &&
      CodePlay(Code(InitialDb(workers), {}), turns) == c;
    CodePlayAppends(Code(InitialDb(workers), {}), turns, w, s);
  }

  /**
   Every run of the code that races does so first at some turn, from a state that is
   reachable in the system, by a worker holding a version that is no longer on the page.
   */
  lemma {:induction false} FirstRace(workers: nat, turns: seq<Turn>) returns (n: nat, c: Code)
    requires CodeCanPlay(Code(InitialDb(workers), {}), turns) && !RaceFree(Code(InitialDb(workers), {}), turns)
    ensures n < |turns| && CodeCanPlay(Code(InitialDb(workers), {}), turns[..n])
    ensures c == CodePlay(Code(InitialDb(workers), {}), turns[..n])
    ensures CodeCanStep(c, turns[n].worker, turns[n].step) && Races(c, turns[n].worker)
    ensures Reachable(c.db) && IsRunning(c.db, turns[n].worker) && (turns[n].step.Update? || turns[n].step.Remove?)
    ensures var g := c.db.work[turns[n].worker].act;
      g.Got? && g.t < |c.db.heap.slots| && c.db.heap.slots[g.t].tuple != g.v
    ensures CodeTake(c, turns[n].worker, turns[n].step).db.heap
         == UntestedWrite(c.db, turns[n].worker, turns[n].step)
  {
    n := FirstRaceFrom(Code(InitialDb(workers), {}), turns);
    c := CodePlay(Code(InitialDb(workers), {}), turns[..n]);
    RacingStep(c, turns[n].worker, turns[n].step);
    hide RaceFree, CodeTake, CodeCanStep, CodePlay, CodeCanPlay;
    ReachedIsReachable(c);
    SameXidIsSameVersion(c.db, turns[n].worker);
  }

  lemma {:induction false} RacingStep(c: Code, w: nat, s: Step)
    requires CodeCanStep(c, w, s) && Races(c, w)
    ensures (s.Update? || s.Remove?) && IsRunning(c.db, w) && c.db.work[w].act.Got?
    ensures c.db.work[w].act.t < |c.db.heap.slots| && !GuardHolds(c.db, w)
    ensures CodeTake(c, w, s).db.heap == UntestedWrite(c.db, w, s)
  {}

  lemma {:induction false} FirstRaceFrom(c: Code, turns: seq<Turn>) returns (n: nat)
    requires CodeCanPlay(c, turns) && !RaceFree(c, turns)
    ensures n < |turns| && CodeCanPlay(c, turns[..n]) && RaceFree(c, turns[..n])
    ensures CodeCanStep(CodePlay(c, turns[..n]), turns[n].worker, turns[n].step)
    ensures Races(CodePlay(c, turns[..n]), turns[n].worker)
    decreases |turns|
  {
    hide CodeCanStep, CodeTake, Races;
    if Races(c, turns[0].worker) {
      n := 0;
    } else {
      var m := FirstRaceFrom(CodeTake(c, turns[0].worker, turns[0].step), turns[1..]);
      n := m + 1;
      assert turns[..n][1..] == turns[1..][..m];
    }
  }

  /**
   How a wait ends in the code: the worker is woken, to write without testing, exactly when it
   asks for the status of the target and that is ABORTED (3).  Where the target has committed
   it fails, and does not write.
   */
  lemma {:induction false} WokenByAnAbort(c: Code, w: nat)
    requires Reached(c) && w !in c.woken && CodeCanStep(c, w, WaitMove)
    ensures var g := c.db.work[w].act; var c' := CodeTake(c, w, WaitMove);
      g.Awaiting? && g.target in c.db.reg.history &&
      var csn := c.db.reg.history[g.target]; var asks := g.at in {Ask, AskAgain};
      && c'.woken == (if asks && csn == 3 then c.woken + {w} else c.woken)
      && (c'.db.work[w].act.Failed? <==> asks && csn >= 5)
      && (w in c'.woken ==> c'.db.work[w].act == Got(g.t, g.v))
  {
    ReachedIsReachable(c);
    WaitEndsWithTheFate(c.db, w);
  }
}
