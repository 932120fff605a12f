/** The reconcile loop as it changes the table and the cluster in place, each pass tied to `ReconcilePasses.RunPass`. */
module Reconciler {
  import opened Prelude
  import opened LeaseProtocol
  import opened ReconcilePasses

  class Controller {
    var rows: seq<Intent>
    var cluster: Cluster

    constructor (rows: seq<Intent>, cluster: Cluster)
      ensures this.rows == rows && this.cluster == cluster
    {
      this.rows, this.cluster := rows, cluster;
    }

    function State(): World
      reads this
    {
      World(rows, cluster)
    }

    // One database write, if the process lives to make it.
    method Commit(id: nat, r: Intent, life: nat) returns (left: nat, crashed: bool)
      requires id < |rows|
      modifies this`rows
      ensures Handled(State(), left, crashed) == Write(old(State()), id, r, life)
    {
      if life == 0 {
        return 0, true;
      }
      rows := rows[id := r];
      return life - 1, false;
    }

    // One row of a pass. `life` counts the effects left before the process dies.
    method Handle(id: nat, pass: Pass, life: nat) returns (left: nat, crashed: bool)
      requires id < |rows|
      modifies this
      ensures Handled(State(), left, crashed) == HandleRow(old(State()), id, pass, life)
      ensures old(rows)[id].status == Pending && rows[id].status == Applied ==>
                Made(old(rows)[id].call, old(cluster), cluster)
    {
      if rows[id].status == Pending { RowIsHandled(State(), id, pass, life); }
      var row := rows[id];
      if row.leaseTerm != pass.term {
        left, crashed := Commit(id, MarkedSuperseded(row), life);
        return;
      }
      var answer := AnswerTo(State(), id, pass);
      if answer == Conflict {
        return life, false;
      }
      if answer == Error {
        left, crashed := Commit(id, Attempted(row, row.attempts + 1), life);
        return;
      }
      if life == 0 {
        return 0, true;
      }
      cluster := Effect(row.call, cluster);
      left, crashed := Commit(id, MarkedApplied(row, pass.term), life - 1);
    }

    /** One reconcile pass: read a batch, handle its rows in order, maybe die on the way. */
    method Tick(pass: Pass)
      modifies this
      ensures State() == RunPass(old(State()), pass)
    {
      var batch := Batch(rows);
      BatchIsPending(rows);
      var life: nat := pass.life;
      var i := 0;
      assert batch[0..] == batch;
      while i < |batch|
        invariant 0 <= i <= |batch| && |rows| == |old(rows)|
        invariant HandleAll(State(), batch[i..], pass, life) == RunPass(old(State()), pass)
      {
        assert batch[i..][0] == batch[i] && batch[i..][1..] == batch[i + 1..];
        var crashed;
        life, crashed := Handle(batch[i].index, pass, life);
        if crashed {
          return;
        }
        i := i + 1;
      }
    }

    /** Any passes under one term, and then passes that meet nothing until no row is pending. The statuses and the
        cluster are those predicted at the start exactly when no row that could succeed was given up, and so whenever
        every due row has attempts left for the errors of the given passes. */
    method Drain(passes: seq<Pass>, term: nat) returns (ghost history: seq<Pass>)
      requires Under(passes, term) && (AllSmooth(passes) || AllHarmless(State(), term))
      modifies this
      ensures passes <= history && Under(history, term) && State() == RunAll(old(State()), history)
      ensures forall i :: 0 <= i < |rows| ==> rows[i].status != Pending
      ensures |rows| == |old(rows)|
      ensures NoneGivenUp(old(State()), State(), term) <==>
              (cluster == Settled(old(rows), term, old(cluster))
               && forall i :: 0 <= i < |rows| ==>
                    rows[i].status == Fate(old(rows)[i], term, old(cluster).deployments.Keys))
      ensures Tolerated(old(State()), passes, term) ==> NoneGivenUp(old(State()), State(), term)
      ensures NoneGivenUp(old(State()), State(), term) ==>
                && AsAsked(old(rows), term, old(cluster), cluster)
                && forall i :: 0 <= i < |rows| ==>
                     EndsRight(old(rows)[i], rows[i].status, term, old(cluster).deployments.Keys)
    {
      hide AsAsked, Tolerated, RunAll, RunPass, Settled, Fate, AllHarmless, NoneGivenUp, Batch, TotalWork;
      history := [];
      RunAllNone(State());
      var n := 0;
      while n < |passes|
        invariant 0 <= n <= |passes| && history == passes[..n]
        invariant State() == RunAll(old(State()), history)
      {
        Tick(passes[n]);
        RunAllSnoc(old(State()), history, passes[n]);
        history := history + [passes[n]];
        n := n + 1;
      }
      assert history == passes;
      BatchEmptyIff(rows);
      while Batch(rows) != []
        invariant passes <= history && Under(history, term) && (AllSmooth(passes) ==> AllSmooth(history))
        invariant State() == RunAll(old(State()), history)
        invariant Tolerated(old(State()), passes, term) ==> Tolerated(old(State()), history, term)
        invariant Batch(rows) == [] <==> forall i :: 0 <= i < |rows| ==> rows[i].status != Pending
        decreases TotalWork(rows)
      {
        var clean := Pass(term, 2 * MAX_BATCH, map[]);
        CleanPassWorks(State(), clean);
        RunAllSnoc(old(State()), history, clean);
        if Tolerated(old(State()), history, term) { SmoothAddsNoErrors(old(State()), history, clean, term); }
        history := history + [clean];
        Tick(clean);
        BatchEmptyIff(rows);
      }
      if Tolerated(old(State()), history, term) { ToleratedGivesNothingUp(old(State()), history, term); }
      DrainedOutcome(old(State()), history, term);
      SettledIsAsAsked(old(rows), term, old(cluster));
      forall i | 0 <= i < |rows| && NoneGivenUp(old(State()), State(), term)
        ensures EndsRight(old(rows)[i], rows[i].status, term, old(cluster).deployments.Keys)
      {
        FateEndsRight(old(rows)[i], rows[i].status, term, old(cluster).deployments.Keys);
      }
    }
  }
}
