/**
Reconcile passes on values: a table of intents, a cluster, and passes that may die after any database commit or cluster
call and may be told "conflict" or meet an error for some rows.

Every pass runs under the term its process acquired. The results say when the statuses and the cluster that an
uninterrupted pass would reach are reached all the same.
*/
module ReconcilePasses {
  import opened Prelude
  import opened LeaseProtocol

  datatype Cluster = Cluster(deployments: map<string, nat>, pods: set<string>)

  datatype Target = Deployment(name: string) | Pod(name: string) | Nothing

  function TargetOf(c: Call): Target {
    match c
    case ScaleToZero(d) => Deployment(d)
    case ScaleUp(d, _) => Deployment(d)
    case DeletePod(p) => Pod(p)
    case Unsupported(_) => Nothing
  }

  // Scaling needs the deployment; deleting a pod that is gone counts as done; other kinds are not implemented.
  predicate Succeeds(c: Call, deployments: set<string>) {
    match c
    case ScaleToZero(d) => d in deployments
    case ScaleUp(d, _) => d in deployments
    case DeletePod(_) => true
    case Unsupported(_) => false
  }

  function Effect(c: Call, k: Cluster): Cluster {
    match c
    case ScaleToZero(d) => if d in k.deployments then k.(deployments := k.deployments[d := 0]) else k
    case ScaleUp(d, n) => if d in k.deployments then k.(deployments := k.deployments[d := n]) else k
    case DeletePod(p) => k.(pods := k.pods - {p})
    case Unsupported(_) => k
  }

  // The replicas a scaling call asks for.
  function Replicas(c: Call): nat {
    if c.ScaleUp? then c.replicas else 0
  }

  // Two calls for one target ask for the same thing, or the targets differ.
  predicate Harmless(c: Call, d: Call) {
    TargetOf(c) == TargetOf(d) ==> Replicas(c) == Replicas(d)
  }

  lemma EffectIdempotent(c: Call, k: Cluster)
    ensures Effect(c, Effect(c, k)) == Effect(c, k)
    ensures Effect(c, k).deployments.Keys == k.deployments.Keys
  {
  }

  lemma EffectsCommute(c: Call, d: Call, k: Cluster)
    requires Harmless(c, d)
    ensures Effect(c, Effect(d, k)) == Effect(d, Effect(c, k))
  {
    if TargetOf(c) == TargetOf(d) {
      assert Effect(c, k) == Effect(d, k);
    }
  }

  // ---------------------------------------------------------------- the prediction

  // What becomes of a row under term `term`.
  function Fate(r: Intent, term: nat, deployments: set<string>): Status {
    if r.status != Pending then r.status
    else if r.leaseTerm != term then Superseded
    else if Succeeds(r.call, deployments) then Applied
    else Failed
  }

  // The row's call is still to have its effect.
  predicate Due(r: Intent, term: nat, deployments: set<string>) {
    r.status == Pending && Fate(r, term, deployments) == Applied
  }

  // The cluster once every due call has been made, oldest first.
  function Settled(rows: seq<Intent>, term: nat, k: Cluster): Cluster {
    if rows == [] then k
    else Settled(rows[1..], term, if Due(rows[0], term, k.deployments.Keys) then Effect(rows[0].call, k) else k)
  }

  function Fates(rows: seq<Intent>, term: nat, k: Cluster): seq<Status> {
    seq(|rows|, i requires 0 <= i < |rows| => Fate(rows[i], term, k.deployments.Keys))
  }

  // Row `i` may be called now: every older due row asks for something else or for the same.
  predicate Clear(rows: seq<Intent>, i: nat, term: nat, deployments: set<string>)
    requires i < |rows|
  {
    forall j :: 0 <= j < i && Due(rows[j], term, deployments) ==> Harmless(rows[j].call, rows[i].call)
  }

  // Making a due, clear call early, or once more, changes nothing in the end.
  lemma {:induction false} CallEarly(rows: seq<Intent>, i: nat, term: nat, k: Cluster)
    requires i < |rows| && Due(rows[i], term, k.deployments.Keys) && Clear(rows, i, term, k.deployments.Keys)
    ensures Settled(rows, term, Effect(rows[i].call, k)) == Settled(rows, term, k)
  {
    EffectIdempotent(rows[i].call, k);
    if i > 0 {
      assert rows[1..][i - 1] == rows[i];
      assert forall j :: 0 <= j < i - 1 ==> rows[1..][j] == rows[j + 1];
      var k' := if Due(rows[0], term, k.deployments.Keys) then Effect(rows[0].call, k) else k;
      if Due(rows[0], term, k.deployments.Keys) {
        EffectsCommute(rows[0].call, rows[i].call, k);
        EffectIdempotent(rows[0].call, k);
      }
      CallEarly(rows[1..], i - 1, term, k');
    }
  }

  // Once its effect is there, the row can be written off.
  lemma {:induction false} MarkDone(rows: seq<Intent>, i: nat, r: Intent, term: nat, k: Cluster)
    requires i < |rows| && Due(rows[i], term, k.deployments.Keys) && Clear(rows, i, term, k.deployments.Keys)
    requires Effect(rows[i].call, k) == k && r.status != Pending
    ensures Settled(rows[i := r], term, k) == Settled(rows, term, k)
  {
    if i > 0 {
      assert rows[1..][i - 1] == rows[i];
      assert forall j :: 0 <= j < i - 1 ==> rows[1..][j] == rows[j + 1];
      assert rows[i := r][1..] == rows[1..][i - 1 := r];
      var k' := if Due(rows[0], term, k.deployments.Keys) then Effect(rows[0].call, k) else k;
      if Due(rows[0], term, k.deployments.Keys) {
        EffectsCommute(rows[0].call, rows[i].call, k);
        EffectIdempotent(rows[0].call, k);
      }
      MarkDone(rows[1..], i - 1, r, term, k');
    } else {
      assert rows[0 := r][1..] == rows[1..];
    }
  }

  // Only the due calls count.
  lemma {:induction false} SameCalls(rows: seq<Intent>, i: nat, r: Intent, term: nat, k: Cluster)
    requires i < |rows| && r.call == rows[i].call
    requires Due(rows[i], term, k.deployments.Keys) == Due(r, term, k.deployments.Keys)
    ensures Settled(rows[i := r], term, k) == Settled(rows, term, k)
  {
    var k' := if Due(rows[0], term, k.deployments.Keys) then Effect(rows[0].call, k) else k;
    EffectIdempotent(rows[0].call, k);
    if i > 0 {
      assert rows[i := r][1..] == rows[1..][i - 1 := r];
      SameCalls(rows[1..], i - 1, r, term, k');
    } else {
      assert rows[0 := r][1..] == rows[1..];
    }
  }

  lemma {:induction false} NothingDue(rows: seq<Intent>, term: nat, k: Cluster)
    requires forall i :: 0 <= i < |rows| ==> !Due(rows[i], term, k.deployments.Keys)
    ensures Settled(rows, term, k) == k
  {
    if rows != [] {
      assert forall i :: 0 <= i < |rows[1..]| ==> rows[1..][i] == rows[i + 1];
      NothingDue(rows[1..], term, k);
    }
  }

  // A deployment no due call names keeps its replicas.
  lemma {:induction false} SettledFrame(rows: seq<Intent>, term: nat, k: Cluster, d: string)
    requires d in k.deployments
    requires forall i :: 0 <= i < |rows| && Due(rows[i], term, k.deployments.Keys) ==>
             TargetOf(rows[i].call) != Deployment(d)
    ensures d in Settled(rows, term, k).deployments && Settled(rows, term, k).deployments[d] == k.deployments[d]
  {
    if rows != [] {
      assert forall i :: 0 <= i < |rows[1..]| ==> rows[1..][i] == rows[i + 1];
      EffectIdempotent(rows[0].call, k);
      SettledFrame(rows[1..], term, if Due(rows[0], term, k.deployments.Keys) then Effect(rows[0].call, k) else k, d);
    }
  }

  // The last due call for a deployment decides.
  lemma {:induction false} SettledLast(rows: seq<Intent>, term: nat, k: Cluster, d: string, m: nat)
    requires m < |rows| && Due(rows[m], term, k.deployments.Keys) && TargetOf(rows[m].call) == Deployment(d)
    requires forall i :: m < i < |rows| && Due(rows[i], term, k.deployments.Keys) ==>
             TargetOf(rows[i].call) != Deployment(d)
    ensures d in Settled(rows, term, k).deployments
    ensures Settled(rows, term, k).deployments[d] == Replicas(rows[m].call)
  {
    assert forall i :: 0 <= i < |rows[1..]| ==> rows[1..][i] == rows[i + 1];
    EffectIdempotent(rows[0].call, k);
    var k' := if Due(rows[0], term, k.deployments.Keys) then Effect(rows[0].call, k) else k;
    if m == 0 {
      SettledFrame(rows[1..], term, k', d);
    } else {
      SettledLast(rows[1..], term, k', d, m - 1);
    }
  }

  // ---------------------------------------------------------------- the prediction, target by target

  // The row is to be carried out: pending, of this term, and for something that can be done.
  predicate ToDo(r: Intent, term: nat, deployments: set<string>) {
    && r.status == Pending && r.leaseTerm == term
    && match r.call
       case ScaleToZero(d) => d in deployments
       case ScaleUp(d, _) => d in deployments
       case DeletePod(_) => true
       case Unsupported(_) => false
  }

  // The call asks for `n` replicas of deployment `d`.
  predicate Asks(c: Call, d: string, n: nat) {
    c == ScaleUp(d, n) || (c == ScaleToZero(d) && n == 0)
  }

  predicate Names(c: Call, d: string) {
    (c.ScaleToZero? || c.ScaleUp?) && c.deployment == d
  }

  predicate NoneToAsk(rows: seq<Intent>, d: string, term: nat, deployments: set<string>) {
    forall i :: 0 <= i < |rows| && ToDo(rows[i], term, deployments) ==> !Names(rows[i].call, d)
  }

  predicate Deletes(rows: seq<Intent>, p: string, term: nat, deployments: set<string>) {
    exists i :: 0 <= i < |rows| && ToDo(rows[i], term, deployments) && rows[i].call == DeletePod(p)
  }

  // Row `i` is the last one to do that asks anything of deployment `d`.
  predicate LastToAsk(rows: seq<Intent>, i: nat, d: string, term: nat, deployments: set<string>) {
    && i < |rows| && ToDo(rows[i], term, deployments) && Names(rows[i].call, d)
    && forall j :: i < j < |rows| && ToDo(rows[j], term, deployments) ==> !Names(rows[j].call, d)
  }

  /** What the cluster must be once the rows to do have been carried out in order: the pods named are gone and no
      others, each deployment has what the last row for it asked for, or what it had, and none has come or gone. */
  ghost predicate AsAsked(rows: seq<Intent>, term: nat, before: Cluster, after: Cluster) {
    && after.deployments.Keys == before.deployments.Keys
    && (forall p :: p in after.pods <==>
          p in before.pods && !Deletes(rows, p, term, before.deployments.Keys))
    && (forall d, i: nat, n: nat :: LastToAsk(rows, i, d, term, before.deployments.Keys) && Asks(rows[i].call, d, n) ==>
          d in after.deployments && after.deployments[d] == n)
    && (forall d | d in before.deployments && NoneToAsk(rows, d, term, before.deployments.Keys) ::
          d in after.deployments && after.deployments[d] == before.deployments[d])
  }

  lemma ToDoIffDue(r: Intent, term: nat, deployments: set<string>)
    ensures ToDo(r, term, deployments) <==> Due(r, term, deployments)
  {
  }

  // Decided rows stay; of the pending ones those of another term are superseded, and the others carried out or failed.
  predicate EndsRight(was: Intent, now: Status, term: nat, deployments: set<string>) {
    match now
    case Pending => false
    case Superseded => was.status == Superseded || (was.status == Pending && was.leaseTerm != term)
    case Applied => was.status == Applied || ToDo(was, term, deployments)
    case Failed => was.status == Failed
                   || (was.status == Pending && was.leaseTerm == term && !ToDo(was, term, deployments))
  }

  lemma FateEndsRight(r: Intent, now: Status, term: nat, deployments: set<string>)
    requires now != Pending
    ensures now == Fate(r, term, deployments) <==> EndsRight(r, now, term, deployments)
  {
  }

  lemma {:induction false} SettledPods(rows: seq<Intent>, term: nat, k: Cluster)
    ensures Settled(rows, term, k).deployments.Keys == k.deployments.Keys
    ensures forall p :: p in Settled(rows, term, k).pods <==>
              p in k.pods && !Deletes(rows, p, term, k.deployments.Keys)
  {
    if rows != [] {
      var ds := k.deployments.Keys;
      var next := if Due(rows[0], term, ds) then Effect(rows[0].call, k) else k;
      ToDoIffDue(rows[0], term, ds);
      EffectIdempotent(rows[0].call, k);
      SettledPods(rows[1..], term, next);
      forall p
        ensures Deletes(rows, p, term, ds) <==>
                  (ToDo(rows[0], term, ds) && rows[0].call == DeletePod(p)) || Deletes(rows[1..], p, term, ds)
      {
        assert forall i :: 0 <= i < |rows[1..]| ==> rows[1..][i] == rows[i + 1];
        if i :| 0 < i < |rows| && ToDo(rows[i], term, ds) && rows[i].call == DeletePod(p) {
          assert rows[1..][i - 1] == rows[i];
        }
      }
    }
  }

  /** The predicted cluster is the one the rows ask for. */
  lemma SettledIsAsAsked(rows: seq<Intent>, term: nat, k: Cluster)
    ensures AsAsked(rows, term, k, Settled(rows, term, k))
  {
    SettledPods(rows, term, k);
    var ds := k.deployments.Keys;
    forall r ensures ToDo(r, term, ds) <==> Due(r, term, ds) { ToDoIffDue(r, term, ds); }
    forall d, i: nat, n: nat | LastToAsk(rows, i, d, term, ds) && Asks(rows[i].call, d, n)
      ensures d in Settled(rows, term, k).deployments && Settled(rows, term, k).deployments[d] == n
    {
      SettledLast(rows, term, k, d, i);
    }
    forall d | d in k.deployments && NoneToAsk(rows, d, term, ds)
      ensures d in Settled(rows, term, k).deployments && Settled(rows, term, k).deployments[d] == k.deployments[d]
    {
      SettledFrame(rows, term, k, d);
    }
  }

  // ---------------------------------------------------------------- passes

  datatype World = World(rows: seq<Intent>, cluster: Cluster)

  function Deployments(w: World): set<string> { w.cluster.deployments.Keys }

  /** One pass: the term of its process, how many effects it lives for, and the rows for which the cluster answers
      "conflict" or fails although the call could succeed. */
  datatype Pass = Pass(term: nat, life: nat, answers: map<nat, CallResult>)

  function AnswerTo(w: World, id: nat, pass: Pass): CallResult
    requires id < |w.rows|
  {
    if id in pass.answers && pass.answers[id] != Done then pass.answers[id]
    else if Succeeds(w.rows[id].call, Deployments(w)) then Done
    else Error
  }

  // What a call does to the cluster when it is made: its target as asked, all else as it was.
  predicate Made(c: Call, before: Cluster, after: Cluster) {
    match c
    case DeletePod(p) => after == before.(pods := before.pods - {p})
    case ScaleToZero(d) => d in before.deployments && after == before.(deployments := before.deployments[d := 0])
    case ScaleUp(d, n) => d in before.deployments && after == before.(deployments := before.deployments[d := n])
    case Unsupported(_) => false
  }

  // What is left of a row's handling: the world, the effects the process still lives for, and whether it died.
  datatype Handled = Handled(world: World, left: nat, crashed: bool)

  // One database write, if the process lives to make it.
  function Write(w: World, id: nat, r: Intent, life: nat): Handled
    requires id < |w.rows|
  {
    if life == 0 then Handled(w, 0, true) else Handled(w.(rows := w.rows[id := r]), life - 1, false)
  }

  function HandleRow(w: World, id: nat, pass: Pass, life: nat): (h: Handled)
    requires id < |w.rows|
    ensures |h.world.rows| == |w.rows|
  {
    var row := w.rows[id];
    if row.leaseTerm != pass.term then Write(w, id, MarkedSuperseded(row), life)
    else match AnswerTo(w, id, pass)
      case Conflict => Handled(w, life, false)
      case Error => Write(w, id, Attempted(row, row.attempts + 1), life)
      case Done =>
        if life == 0 then Handled(w, 0, true)
        else Write(w.(cluster := Effect(row.call, w.cluster)), id, MarkedApplied(row, pass.term), life - 1)
  }

  predicate Within(batch: seq<Read>, n: nat) {
    forall i :: 0 <= i < |batch| ==> batch[i].index < n
  }

  function HandleAll(w: World, batch: seq<Read>, pass: Pass, life: nat): (v: World)
    requires Within(batch, |w.rows|)
    ensures |v.rows| == |w.rows|
    decreases |batch|
  {
    if batch == [] then w
    else
      var h := HandleRow(w, batch[0].index, pass, life);
      if h.crashed then h.world else HandleAll(h.world, batch[1..], pass, h.left)
  }

  function RunPass(w: World, pass: Pass): (v: World)
    ensures |v.rows| == |w.rows|
  {
    HandleAll(w, Batch(w.rows), pass, pass.life)
  }

  function RunAll(w: World, passes: seq<Pass>): (v: World)
    ensures |v.rows| == |w.rows|
    decreases |passes|
  {
    if passes == [] then w else RunAll(RunPass(w, passes[0]), passes[1..])
  }

  lemma RunAllNone(w: World)
    ensures RunAll(w, []) == w
  {
  }

  lemma {:induction false} RunAllSnoc(w: World, passes: seq<Pass>, pass: Pass)
    ensures RunAll(w, passes + [pass]) == RunPass(RunAll(w, passes), pass)
    decreases |passes|
  {
    if passes == [] {
      assert [] + [pass] == [pass] && [pass][1..] == [];
    } else {
      assert (passes + [pass])[1..] == passes[1..] + [pass];
      RunAllSnoc(RunPass(w, passes[0]), passes[1..], pass);
    }
  }

  // ---------------------------------------------------------------- progress

  // How many more passes a row can take.
  function Work(r: Intent): nat {
    if r.status != Pending then 0 else if r.attempts >= MAX_ATTEMPTS then 1 else 1 + MAX_ATTEMPTS - r.attempts
  }

  function TotalWork(rows: seq<Intent>): nat {
    if rows == [] then 0 else Work(rows[0]) + TotalWork(rows[1..])
  }

  lemma {:induction false} WorkShrinks(rows: seq<Intent>, i: nat, r: Intent)
    requires i < |rows|
    ensures TotalWork(rows[i := r]) == TotalWork(rows) - Work(rows[i]) + Work(r)
  {
    if i > 0 {
      assert rows[i := r][1..] == rows[1..][i - 1 := r];
      WorkShrinks(rows[1..], i - 1, r);
    } else {
      assert rows[0 := r][1..] == rows[1..];
    }
  }

  // A batch holds every pending row older than its members.
  lemma {:induction false} ReadsAreComplete(rows: seq<Intent>, from: nat, k: nat)
    requires from <= k < |rows| && rows[k].status == Pending
    ensures exists i :: 0 <= i < |PendingReads(rows, from)| && PendingReads(rows, from)[i].index == k
    decreases |rows| - from
  {
    var r := PendingReads(rows, from);
    if k == from {
      assert r[0].index == k;
    } else {
      ReadsAreComplete(rows, from + 1, k);
      var rest := PendingReads(rows, from + 1);
      var i :| 0 <= i < |rest| && rest[i].index == k;
      assert r[if rows[from].status == Pending then i + 1 else i].index == k;
    }
  }

  lemma BatchIsOldest(rows: seq<Intent>, i: nat, k: nat)
    requires i < |Batch(rows)| && k < Batch(rows)[i].index && rows[k].status == Pending
    ensures exists j :: 0 <= j < i && Batch(rows)[j].index == k
  {
    var all := PendingReads(rows, 0);
    ReadsAreComplete(rows, 0, k);
    var j :| 0 <= j < |all| && all[j].index == k;
    assert all[i] == Batch(rows)[i];
    assert j < i;
    assert Batch(rows)[j] == all[j];
  }

  /** A pass takes fifty rows, or all that are pending. */
  lemma BatchIsFull(rows: seq<Intent>, k: nat)
    requires k < |rows| && rows[k].status == Pending && |Batch(rows)| != 50
    ensures |Batch(rows)| < 50 && exists i :: 0 <= i < |Batch(rows)| && Batch(rows)[i].index == k
  {
    ReadsAreComplete(rows, 0, k);
  }

  lemma BatchEmptyIff(rows: seq<Intent>)
    ensures Batch(rows) == [] <==> forall i :: 0 <= i < |rows| ==> rows[i].status != Pending
  {
    assert Batch(rows) != [] ==> FreshRead(rows, Batch(rows)[0]);
    if exists i :: 0 <= i < |rows| && rows[i].status == Pending {
      var i :| 0 <= i < |rows| && rows[i].status == Pending;
      ReadsAreComplete(rows, 0, i);
    }
  }

  // ---------------------------------------------------------------- one row

  // The same intents, some of them decided since. What is decided stays as it is.
  predicate Later(was: World, now: World) {
    && |now.rows| == |was.rows| && Deployments(now) == Deployments(was)
    && forall i :: 0 <= i < |was.rows| ==> LaterRow(was.rows[i], now.rows[i])
  }

  predicate LaterRow(was: Intent, now: Intent) {
    && now.call == was.call && now.leaseTerm == was.leaseTerm
    && (was.status != Pending ==> now == was)
  }

  lemma LaterTwice(a: World, b: World, c: World)
    requires Later(a, b) && Later(b, c)
    ensures Later(a, c)
  {
    forall i | 0 <= i < |a.rows| ensures LaterRow(a.rows[i], c.rows[i]) {
      assert LaterRow(a.rows[i], b.rows[i]) && LaterRow(b.rows[i], c.rows[i]);
    }
  }

  // The statuses and the cluster the rows are heading for under `term`.
  function Outcome(w: World, term: nat): (seq<Status>, Cluster) {
    (Fates(w.rows, term, w.cluster), Settled(w.rows, term, w.cluster))
  }

  // A due row that was given up after too many errors.
  predicate GivenUp(was: Intent, now: Intent, term: nat, deployments: set<string>) {
    Due(was, term, deployments) && now.status == Status.Failed
  }

  predicate NoneGivenUp(was: World, now: World, term: nat)
    requires |was.rows| == |now.rows|
  {
    forall i :: 0 <= i < |was.rows| ==> !GivenUp(was.rows[i], now.rows[i], term, Deployments(was))
  }

  // What handling one pending row does, whatever the answer.
  lemma RowShape(w: World, id: nat, pass: Pass, life: nat)
    requires id < |w.rows| && w.rows[id].status == Pending
    ensures var h := HandleRow(w, id, pass, life);
      && Later(w, h.world)
      && (forall j :: 0 <= j < |w.rows| && j != id ==> h.world.rows[j] == w.rows[j])
      && Work(h.world.rows[id]) <= Work(w.rows[id])
      && (life >= 2 ==> !h.crashed && h.left + 2 >= life)
      && (w.rows[id].leaseTerm != pass.term ==>
           h.world.cluster == w.cluster && h.world.rows[id].status in {Pending, Superseded})
      && (w.rows[id].leaseTerm == pass.term ==> h.world.rows[id].status != Superseded)
  {
    EffectIdempotent(w.rows[id].call, w.cluster);
  }

  /** What handling a pending row comes to. A row of another term is superseded and nothing is called. A row that ends
      as applied had its call made. One that is not decided counts one attempt more or none, and fails at the fifth.
      The cluster changes only by the call, which only a death right after it leaves unmarked. */
  lemma RowIsHandled(w: World, id: nat, pass: Pass, life: nat)
    requires id < |w.rows| && w.rows[id].status == Pending
    ensures var h := HandleRow(w, id, pass, life);
            var was, now := w.rows[id], h.world.rows[id];
      && (was.leaseTerm != pass.term ==>
            h.world.cluster == w.cluster && now == (if h.crashed then was else was.(status := Superseded)))
      && (was.leaseTerm == pass.term ==>
            || now == was.(status := Applied, appliedBy := Some(pass.term))
            || (was.attempts + 1 < 5 && now == was.(attempts := was.attempts + 1))
            || (was.attempts + 1 >= 5 && now == was.(status := Failed, attempts := was.attempts + 1))
            || now == was)
      && (now.status == Applied ==> Made(was.call, w.cluster, h.world.cluster))
      && (now.status != Applied ==> h.world.cluster == w.cluster
                                    || (h.crashed && now == was && Made(was.call, w.cluster, h.world.cluster)))
      && h.world.rows == w.rows[id := now]
  {
  }

  // A row that is handled to its end and not told "conflict" comes closer to a decision.
  lemma RowWorks(w: World, id: nat, pass: Pass, life: nat)
    requires id < |w.rows| && w.rows[id].status == Pending && !HandleRow(w, id, pass, life).crashed
    requires w.rows[id].leaseTerm != pass.term || AnswerTo(w, id, pass) != Conflict
    ensures var r := HandleRow(w, id, pass, life).world.rows[id];
      && Work(r) < Work(w.rows[id])
      && (w.rows[id].leaseTerm != pass.term || AnswerTo(w, id, pass) == Done ==> r.status != Pending)
  {
  }

  // One row of a pass under the rows' own term keeps the outcome, unless it is given up.
  lemma RowKeeps(w: World, id: nat, pass: Pass, life: nat)
    requires id < |w.rows| && w.rows[id].status == Pending
    requires Due(w.rows[id], pass.term, Deployments(w)) ==> Clear(w.rows, id, pass.term, Deployments(w))
    ensures var v := HandleRow(w, id, pass, life).world;
      GivenUp(w.rows[id], v.rows[id], pass.term, Deployments(w)) || Outcome(v, pass.term) == Outcome(w, pass.term)
  {
    var row, term := w.rows[id], pass.term;
    EffectIdempotent(row.call, w.cluster);
    if row.leaseTerm != term {
      WriteKeeps(w, id, MarkedSuperseded(row), term);
    } else {
      match AnswerTo(w, id, pass)
      case Conflict =>
      case Error =>
        if row.attempts + 1 < MAX_ATTEMPTS || !Due(row, term, Deployments(w)) {
          WriteKeeps(w, id, Attempted(row, row.attempts + 1), term);
        }
      case Done =>
        var called := w.(cluster := Effect(row.call, w.cluster));
        CallEarly(w.rows, id, term, w.cluster);
        assert Fates(called.rows, term, called.cluster) == Fates(w.rows, term, w.cluster);
        MarkDone(w.rows, id, MarkedApplied(row, term), term, called.cluster);
        assert Fates(w.rows[id := MarkedApplied(row, term)], term, called.cluster) == Fates(w.rows, term, w.cluster);
    }
  }

  // A write that leaves the row's fate and its call as they were.
  lemma WriteKeeps(w: World, id: nat, r: Intent, term: nat)
    requires id < |w.rows| && r.call == w.rows[id].call
    requires Due(r, term, Deployments(w)) == Due(w.rows[id], term, Deployments(w))
    requires Fate(r, term, Deployments(w)) == Fate(w.rows[id], term, Deployments(w))
    ensures Outcome(w.(rows := w.rows[id := r]), term) == Outcome(w, term)
  {
    SameCalls(w.rows, id, r, term, w.cluster);
    assert Fates(w.rows[id := r], term, w.cluster) == Fates(w.rows, term, w.cluster);
  }

  // ---------------------------------------------------------------- one pass

  // No conflict and no passing error.
  predicate Smooth(pass: Pass) { pass.answers == map[] }

  // All due rows that name one target ask for the same thing.
  predicate AllHarmless(w: World, term: nat) {
    forall i, j ::
      0 <= j < i < |w.rows| && Due(w.rows[j], term, Deployments(w)) && Due(w.rows[i], term, Deployments(w)) ==>
      Harmless(w.rows[j].call, w.rows[i].call)
  }

  lemma HarmlessLater(was: World, now: World, term: nat)
    requires Later(was, now) && AllHarmless(was, term)
    ensures AllHarmless(now, term)
  {
    forall i | 0 <= i < |now.rows| && Due(now.rows[i], term, Deployments(now))
      ensures Due(was.rows[i], term, Deployments(was))
    {
      assert LaterRow(was.rows[i], now.rows[i]);
    }
  }

  // When its turn comes, a batch row has no older due row before it that asks for something else.
  lemma BatchRowIsClear(was: World, now: World, i: nat, pass: Pass)
    requires Later(was, now) && i < |Batch(was.rows)| &&
             now.rows[Batch(was.rows)[i].index] == was.rows[Batch(was.rows)[i].index]
    requires Smooth(pass) || AllHarmless(was, pass.term)
    requires Smooth(pass) ==> forall j :: 0 <= j < i ==>
             !Due(now.rows[Batch(was.rows)[j].index], pass.term, Deployments(now))
    ensures var id := Batch(was.rows)[i].index;
      Due(now.rows[id], pass.term, Deployments(now)) ==> Clear(now.rows, id, pass.term, Deployments(now))
  {
    var id := Batch(was.rows)[i].index;
    if Smooth(pass) {
      forall k | 0 <= k < id ensures !Due(now.rows[k], pass.term, Deployments(now)) {
        assert LaterRow(was.rows[k], now.rows[k]);
        if was.rows[k].status == Pending { BatchIsOldest(was.rows, i, k); }
      }
    } else {
      HarmlessLater(was, now, pass.term);
    }
  }

  // The rest of a pass, from the i-th row of its batch on.
  lemma {:induction false} RestKeeps(was: World, now: World, i: nat, pass: Pass, life: nat)
    requires Later(was, now) && i <= |Batch(was.rows)| && Within(Batch(was.rows)[i..], |now.rows|)
    requires forall j :: i <= j < |Batch(was.rows)| ==>
             now.rows[Batch(was.rows)[j].index] == was.rows[Batch(was.rows)[j].index]
    requires Smooth(pass) || AllHarmless(was, pass.term)
    requires Smooth(pass) ==> forall j :: 0 <= j < i ==>
             !Due(now.rows[Batch(was.rows)[j].index], pass.term, Deployments(now))
    ensures var v := HandleAll(now, Batch(was.rows)[i..], pass, life);
      Later(now, v) && (NoneGivenUp(now, v, pass.term) ==> Outcome(v, pass.term) == Outcome(now, pass.term))
    decreases |Batch(was.rows)| - i
  {
    hide Fates, Settled, Due, Fate, HandleRow, Smooth, AllHarmless, Batch;
    var batch := Batch(was.rows);
    if i < |batch| {
      var id := batch[i].index;
      var h := HandleRow(now, id, pass, life);
      assert FreshRead(was.rows, batch[i]);
      BatchRowIsClear(was, now, i, pass);
      RowShape(now, id, pass, life);
      RowKeeps(now, id, pass, life);
      assert batch[i..][0] == batch[i] && batch[i..][1..] == batch[i + 1..];
      if !h.crashed {
        if Smooth(pass) { HandledIsNotDue(now, id, pass, life); }
        LaterTwice(was, now, h.world);
        RestKeeps(was, h.world, i + 1, pass, h.left);
        var v := HandleAll(h.world, batch[i + 1..], pass, h.left);
        LaterTwice(now, h.world, v);
        NotGivenUpBetween(now, h.world, v, id, pass.term);
      } else {
        NotGivenUpAt(now, h.world, id, pass.term);
      }
    } else {
      assert batch[i..] == [];
    }
  }

  // In a smooth pass a handled row is no longer due.
  lemma HandledIsNotDue(w: World, id: nat, pass: Pass, life: nat)
    requires id < |w.rows| && w.rows[id].status == Pending && Smooth(pass) && !HandleRow(w, id, pass, life).crashed
    ensures var v := HandleRow(w, id, pass, life).world; !Due(v.rows[id], pass.term, Deployments(v))
  {
    EffectIdempotent(w.rows[id].call, w.cluster);
  }

  lemma NotGivenUpAt(a: World, b: World, id: nat, term: nat)
    requires Later(a, b) && id < |a.rows|
    ensures NoneGivenUp(a, b, term) ==> !GivenUp(a.rows[id], b.rows[id], term, Deployments(a))
  {
  }

  // What is given up stays given up.
  lemma NotGivenUpBetween(a: World, b: World, c: World, id: nat, term: nat)
    requires Later(a, b) && Later(b, c) && id < |a.rows|
    requires forall j :: 0 <= j < |a.rows| && j != id ==> b.rows[j] == a.rows[j]
    ensures NoneGivenUp(a, c, term) ==>
            NoneGivenUp(b, c, term) && !GivenUp(a.rows[id], b.rows[id], term, Deployments(a))
  {
    if NoneGivenUp(a, c, term) {
      forall j | 0 <= j < |a.rows| ensures !GivenUp(b.rows[j], c.rows[j], term, Deployments(b)) {
        assert LaterRow(a.rows[j], b.rows[j]) && LaterRow(b.rows[j], c.rows[j]);
        assert !GivenUp(a.rows[j], c.rows[j], term, Deployments(a));
      }
      assert LaterRow(b.rows[id], c.rows[id]);
      assert !GivenUp(a.rows[id], c.rows[id], term, Deployments(a));
    }
  }

  /** A pass, dying anywhere, keeps the outcome of its own term unless it gives a due row up, as long as it meets no
      conflict or passing error, or the due rows do not contradict one another. */
  lemma PassKeeps(w: World, pass: Pass)
    requires Smooth(pass) || AllHarmless(w, pass.term)
    ensures Later(w, RunPass(w, pass))
    ensures NoneGivenUp(w, RunPass(w, pass), pass.term) ==>
            Outcome(RunPass(w, pass), pass.term) == Outcome(w, pass.term)
  {
    var batch := Batch(w.rows);
    assert batch[0..] == batch;
    forall i | 0 <= i < |batch| ensures batch[i].index < |w.rows| { assert FreshRead(w.rows, batch[i]); }
    RestKeeps(w, w, 0, pass, pass.life);
  }

  // ---------------------------------------------------------------- histories under one term

  predicate Under(passes: seq<Pass>, term: nat) {
    forall n :: 0 <= n < |passes| ==> passes[n].term == term
  }

  predicate AllSmooth(passes: seq<Pass>) {
    forall n :: 0 <= n < |passes| ==> Smooth(passes[n])
  }

  lemma {:induction false} HistoryIsLater(w: World, passes: seq<Pass>)
    ensures Later(w, RunAll(w, passes))
    decreases |passes|
  {
    if passes != [] {
      PassIsLater(w, passes[0]);
      HistoryIsLater(RunPass(w, passes[0]), passes[1..]);
      LaterTwice(w, RunPass(w, passes[0]), RunAll(w, passes));
    }
  }

  lemma NoneGivenUpEarlier(a: World, b: World, c: World, term: nat)
    requires Later(a, b) && Later(b, c) && NoneGivenUp(a, c, term)
    ensures NoneGivenUp(a, b, term) && NoneGivenUp(b, c, term)
  {
    forall j | 0 <= j < |a.rows|
      ensures !GivenUp(a.rows[j], b.rows[j], term, Deployments(a)) &&
              !GivenUp(b.rows[j], c.rows[j], term, Deployments(b))
    {
      assert LaterRow(a.rows[j], b.rows[j]) && LaterRow(b.rows[j], c.rows[j]);
      assert !GivenUp(a.rows[j], c.rows[j], term, Deployments(a));
    }
  }

  lemma {:induction false} HistoryKeeps(w: World, passes: seq<Pass>, term: nat)
    requires Under(passes, term) && (AllSmooth(passes) || AllHarmless(w, term))
    requires NoneGivenUp(w, RunAll(w, passes), term)
    ensures Outcome(RunAll(w, passes), term) == Outcome(w, term)
    decreases |passes|
  {
    if passes != [] {
      hide Outcome, NoneGivenUp, AllHarmless, Later;
      var v := RunPass(w, passes[0]);
      PassIsLater(w, passes[0]);
      HistoryIsLater(v, passes[1..]);
      NoneGivenUpEarlier(w, v, RunAll(w, passes), term);
      if AllHarmless(w, term) { HarmlessLater(w, v, term); }
      PassKeeps(w, passes[0]);
      HistoryKeeps(v, passes[1..], term);
    }
  }

  /** With errors: a history of passes that crashed, met conflicts or met errors keeps the outcome exactly when it gave
      no due row up, as long as the due rows do not contradict one another or all passes went smoothly. */
  lemma HistoryKeepsOutcomeIff(w: World, passes: seq<Pass>, term: nat)
    requires Under(passes, term) && (AllSmooth(passes) || AllHarmless(w, term))
    ensures Outcome(RunAll(w, passes), term) == Outcome(w, term) <==> NoneGivenUp(w, RunAll(w, passes), term)
  {
    var v := RunAll(w, passes);
    if NoneGivenUp(w, v, term) {
      HistoryKeeps(w, passes, term);
    } else {
      var i :| 0 <= i < |w.rows| && GivenUp(w.rows[i], v.rows[i], term, Deployments(w));
      assert Fates(w.rows, term, w.cluster)[i] == Applied && Fates(v.rows, term, v.cluster)[i] == Status.Failed;
    }
  }

  // ---------------------------------------------------------------- giving up takes errors

  // Conflicts, but no error that the call itself does not cause.
  predicate Unfailing(pass: Pass) {
    forall id :: id in pass.answers ==> pass.answers[id] != Error
  }

  lemma RowIsNotGivenUp(w: World, id: nat, pass: Pass, life: nat)
    requires id < |w.rows| && w.rows[id].status == Pending && Unfailing(pass)
    ensures !GivenUp(w.rows[id], HandleRow(w, id, pass, life).world.rows[id], pass.term, Deployments(w))
  {
  }

  lemma {:induction false} RestGivesNothingUp(w: World, batch: seq<Read>, pass: Pass, life: nat)
    requires Within(batch, |w.rows|) && Increasing(batch) && Unfailing(pass)
    requires forall i :: 0 <= i < |batch| ==> w.rows[batch[i].index].status == Pending
    ensures Later(w, HandleAll(w, batch, pass, life)) && NoneGivenUp(w, HandleAll(w, batch, pass, life), pass.term)
    decreases |batch|
  {
    if batch != [] {
      hide HandleRow, Unfailing;
      var id := batch[0].index;
      var h := HandleRow(w, id, pass, life);
      RowShape(w, id, pass, life);
      RowIsNotGivenUp(w, id, pass, life);
      if !h.crashed {
        RestGivesNothingUp(h.world, batch[1..], pass, h.left);
        var v := HandleAll(h.world, batch[1..], pass, h.left);
        LaterTwice(w, h.world, v);
        forall j | 0 <= j < |w.rows| ensures !GivenUp(w.rows[j], v.rows[j], pass.term, Deployments(w)) {
          assert LaterRow(w.rows[j], h.world.rows[j]) && LaterRow(h.world.rows[j], v.rows[j]);
          assert !GivenUp(h.world.rows[j], v.rows[j], pass.term, Deployments(h.world));
        }
      }
    }
  }

  lemma {:induction false} UnfailingGivesNothingUp(w: World, passes: seq<Pass>, term: nat)
    requires Under(passes, term) && forall n :: 0 <= n < |passes| ==> Unfailing(passes[n])
    ensures NoneGivenUp(w, RunAll(w, passes), term)
    decreases |passes|
  {
    if passes != [] {
      var v := RunPass(w, passes[0]);
      BatchIsPending(w.rows);
      RestGivesNothingUp(w, Batch(w.rows), passes[0], passes[0].life);
      UnfailingGivesNothingUp(v, passes[1..], term);
      var u := RunAll(v, passes[1..]);
      HistoryIsLater(v, passes[1..]);
      forall j | 0 <= j < |w.rows| ensures !GivenUp(w.rows[j], u.rows[j], term, Deployments(w)) {
        assert LaterRow(w.rows[j], v.rows[j]) && LaterRow(v.rows[j], u.rows[j]);
        assert !GivenUp(v.rows[j], u.rows[j], term, Deployments(v)) &&
          !GivenUp(w.rows[j], v.rows[j], term, Deployments(w));
      }
    }
  }

  lemma BatchIsPending(rows: seq<Intent>)
    ensures Within(Batch(rows), |rows|)
    ensures forall i :: 0 <= i < |Batch(rows)| ==> rows[Batch(rows)[i].index].status == Pending
  {
    forall i | 0 <= i < |Batch(rows)|
      ensures Batch(rows)[i].index < |rows| && rows[Batch(rows)[i].index].status == Pending
    {
      assert FreshRead(rows, Batch(rows)[i]);
    }
  }

  lemma {:induction false} RestIsLater(w: World, batch: seq<Read>, pass: Pass, life: nat)
    requires Within(batch, |w.rows|) && Increasing(batch)
    requires forall i :: 0 <= i < |batch| ==> w.rows[batch[i].index].status == Pending
    ensures Later(w, HandleAll(w, batch, pass, life))
    decreases |batch|
  {
    if batch != [] {
      hide HandleRow;
      var h := HandleRow(w, batch[0].index, pass, life);
      RowShape(w, batch[0].index, pass, life);
      if !h.crashed {
        RestIsLater(h.world, batch[1..], pass, h.left);
        LaterTwice(w, h.world, HandleAll(h.world, batch[1..], pass, h.left));
      }
    }
  }

  lemma PassIsLater(w: World, pass: Pass)
    ensures Later(w, RunPass(w, pass))
  {
    BatchIsPending(w.rows);
    RestIsLater(w, Batch(w.rows), pass, pass.life);
  }

  // ---------------------------------------------------------------- when conflicts are harmless

  // A pass that gets through its batch, except that row `j` answers "conflict".
  function HoldBack(j: nat, term: nat): Pass { Pass(term, 2 * MAX_BATCH, map[j := Conflict]) }

  predicate OthersDecided(w: World, j: nat) {
    forall i :: 0 <= i < |w.rows| && i != j ==> w.rows[i].status != Pending
  }

  // Row `j` stays as it is, and a pass that finds another pending row gets work done.
  lemma {:induction false} RestWorks(w: World, batch: seq<Read>, j: nat, term: nat, life: nat)
    requires Within(batch, |w.rows|) && Increasing(batch) && life >= 2 * |batch|
    requires forall i :: 0 <= i < |batch| ==> w.rows[batch[i].index].status == Pending
    requires j < |w.rows| && w.rows[j].leaseTerm == term
    ensures var v := HandleAll(w, batch, HoldBack(j, term), life);
      && v.rows[j] == w.rows[j] && TotalWork(v.rows) <= TotalWork(w.rows)
      && ((exists i :: 0 <= i < |batch| && batch[i].index != j) ==> TotalWork(v.rows) < TotalWork(w.rows))
    decreases |batch|
  {
    if batch != [] {
      hide HandleRow, TotalWork;
      var id := batch[0].index;
      var h := HandleRow(w, id, HoldBack(j, term), life);
      RowShape(w, id, HoldBack(j, term), life);
      WorkShrinks(w.rows, id, h.world.rows[id]);
      assert h.world.rows == w.rows[id := h.world.rows[id]];
      if id == j {
        HeldBackRow(w, j, term, life);
        assert h.world.rows == w.rows;
      } else {
        RowWorks(w, id, HoldBack(j, term), life);
      }
      RestWorks(h.world, batch[1..], j, term, h.left);
      if i :| 0 <= i < |batch| && batch[i].index != j && id == j {
        assert batch[1..][i - 1].index != j;
      }
    }
  }

  lemma HeldBackRow(w: World, j: nat, term: nat, life: nat)
    requires j < |w.rows| && w.rows[j].leaseTerm == term
    ensures HandleRow(w, j, HoldBack(j, term), life).world.rows[j] == w.rows[j]
  {
  }

  lemma PassWorks(w: World, j: nat, term: nat)
    requires j < |w.rows| && w.rows[j].leaseTerm == term && !OthersDecided(w, j)
    ensures RunPass(w, HoldBack(j, term)).rows[j] == w.rows[j]
    ensures TotalWork(RunPass(w, HoldBack(j, term)).rows) < TotalWork(w.rows)
  {
    BatchIsPending(w.rows);
    RestWorks(w, Batch(w.rows), j, term, 2 * MAX_BATCH);
    var i :| 0 <= i < |w.rows| && i != j && w.rows[i].status == Pending;
    SomeOther(w.rows, i, j);
  }

  // The batch holds a row other than `j` when another one is pending.
  lemma SomeOther(rows: seq<Intent>, i: nat, j: nat)
    requires i < |rows| && rows[i].status == Pending && i != j
    ensures exists n :: 0 <= n < |Batch(rows)| && Batch(rows)[n].index != j
  {
    var all := PendingReads(rows, 0);
    ReadsAreComplete(rows, 0, i);
    var n :| 0 <= n < |all| && all[n].index == i;
    if |all| <= MAX_BATCH {
      assert Batch(rows)[n].index != j;
    } else {
      assert Batch(rows)[0] == all[0] && Batch(rows)[1] == all[1] && all[0].index < all[1].index;
    }
  }

  // Passes that hold row `j` back until it is the last one pending.
  lemma {:induction false} PushOthers(w: World, j: nat, term: nat) returns (passes: seq<Pass>)
    requires j < |w.rows| && w.rows[j].leaseTerm == term
    ensures Under(passes, term) && forall n :: 0 <= n < |passes| ==> Unfailing(passes[n])
    ensures RunAll(w, passes).rows[j] == w.rows[j] && OthersDecided(RunAll(w, passes), j)
    decreases TotalWork(w.rows)
  {
    if OthersDecided(w, j) {
      passes := [];
    } else {
      PassWorks(w, j, term);
      var rest := PushOthers(RunPass(w, HoldBack(j, term)), j, term);
      passes := [HoldBack(j, term)] + rest;
      assert passes[1..] == rest;
    }
  }

  // The last due row for a deployment.
  lemma LastFor(w: World, term: nat, d: string, i: nat) returns (m: nat)
    requires i < |w.rows| && Due(w.rows[i], term, Deployments(w)) && TargetOf(w.rows[i].call) == Deployment(d)
    ensures i <= m < |w.rows| && Due(w.rows[m], term, Deployments(w)) && TargetOf(w.rows[m].call) == Deployment(d)
    ensures forall n :: m < n < |w.rows| && Due(w.rows[n], term, Deployments(w)) ==>
            TargetOf(w.rows[n].call) != Deployment(d)
    decreases |w.rows| - i
  {
    if n :| i < n < |w.rows| && Due(w.rows[n], term, Deployments(w)) && TargetOf(w.rows[n].call) == Deployment(d) {
      m := LastFor(w, term, d, n);
    } else {
      m := i;
    }
  }

  // Two due rows that want different things of one deployment: holding one back changes the end.
  lemma ConflictChangesTheEnd(w: World, term: nat, j: nat, m: nat, d: string) returns (passes: seq<Pass>)
    requires j < |w.rows| && Due(w.rows[j], term, Deployments(w)) && TargetOf(w.rows[j].call) == Deployment(d)
    requires m < |w.rows| && Due(w.rows[m], term, Deployments(w)) && TargetOf(w.rows[m].call) == Deployment(d)
    requires Replicas(w.rows[j].call) != Replicas(w.rows[m].call)
    requires forall n :: m < n < |w.rows| && Due(w.rows[n], term, Deployments(w)) ==>
             TargetOf(w.rows[n].call) != Deployment(d)
    ensures Under(passes, term) && forall n :: 0 <= n < |passes| ==> Unfailing(passes[n])
    ensures Outcome(RunAll(w, passes), term) != Outcome(w, term)
  {
    passes := PushOthers(w, j, term);
    var v := RunAll(w, passes);
    HistoryIsLater(w, passes);
    SettledLast(w.rows, term, w.cluster, d, m);
    SettledLast(v.rows, term, v.cluster, d, j);
  }

  /** Conflicts: every history of passes that crashed or met conflicts keeps the outcome if and only if due rows that
      name one target ask for the same thing of it. Otherwise reporting a conflict on the one that differs until the
      last of the others has run leaves the cluster as that one wants it. */
  lemma ConflictsKeepOutcomeIff(w: World, term: nat)
    ensures (forall passes :: Under(passes, term) && (forall n :: 0 <= n < |passes| ==> Unfailing(passes[n])) ==>
               Outcome(RunAll(w, passes), term) == Outcome(w, term))
            <==> AllHarmless(w, term)
  {
    hide Outcome, Under, Unfailing;
    if AllHarmless(w, term) {
      forall passes | Under(passes, term) && forall n :: 0 <= n < |passes| ==> Unfailing(passes[n])
        ensures Outcome(RunAll(w, passes), term) == Outcome(w, term)
      {
        UnfailingGivesNothingUp(w, passes, term);
        HistoryKeeps(w, passes, term);
      }
    } else {
      var i, j :| 0 <= j < i < |w.rows| && Due(w.rows[j], term, Deployments(w)) && Due(w.rows[i], term, Deployments(w))
                  && !Harmless(w.rows[j].call, w.rows[i].call);
      var d := TargetOf(w.rows[i].call).name;
      var m := LastFor(w, term, d, i);
      var other := if Replicas(w.rows[j].call) != Replicas(w.rows[m].call) then j else i;
      var passes := ConflictChangesTheEnd(w, term, other, m, d);
    }
  }

  /** Without conflicts and passing errors nothing else is needed: passes that die anywhere keep the outcome. */
  lemma CrashesKeepOutcome(w: World, passes: seq<Pass>, term: nat)
    requires Under(passes, term) && AllSmooth(passes)
    ensures Outcome(RunAll(w, passes), term) == Outcome(w, term)
  {
    UnfailingGivesNothingUp(w, passes, term);
    HistoryKeeps(w, passes, term);
  }

  // ---------------------------------------------------------------- when errors are harmless

  // How many passes meet an error for row `id` that its call does not cause.
  function ErrorsOf(passes: seq<Pass>, id: nat): nat {
    if passes == [] then 0 else Errs(passes[0], id) + ErrorsOf(passes[1..], id)
  }

  function Errs(pass: Pass, id: nat): nat {
    if id in pass.answers && pass.answers[id] == Error then 1 else 0
  }

  ghost predicate ErrorsAtMost(passes: seq<Pass>, e: nat) {
    forall id: nat :: ErrorsOf(passes, id) <= e
  }

  // The row has attempts left after `e` more errors, or there are none.
  predicate Endures(r: Intent, e: nat) {
    e == 0 || r.attempts + e < MAX_ATTEMPTS
  }

  // Every due row has attempts left for the errors it may meet.
  predicate Tolerated(w: World, passes: seq<Pass>, term: nat) {
    forall i :: 0 <= i < |w.rows| && Due(w.rows[i], term, Deployments(w)) ==> Endures(w.rows[i], ErrorsOf(passes, i))
  }

  // A row that may still be called, with at most so many attempts behind it, or a decided one that was not given up.
  predicate StillGood(now: Intent, attempts: nat) {
    now.status != Status.Failed && (now.status == Pending ==> now.attempts <= attempts)
  }

  lemma RowAttempts(w: World, id: nat, pass: Pass, life: nat)
    requires id < |w.rows| && Due(w.rows[id], pass.term, Deployments(w)) && Endures(w.rows[id], Errs(pass, id))
    ensures StillGood(HandleRow(w, id, pass, life).world.rows[id], w.rows[id].attempts + Errs(pass, id))
  {
  }

  lemma {:induction false} RestSkips(w: World, batch: seq<Read>, pass: Pass, life: nat, i: nat)
    requires Within(batch, |w.rows|) && Increasing(batch) && i < |w.rows|
    requires forall n :: 0 <= n < |batch| ==> w.rows[batch[n].index].status == Pending && batch[n].index != i
    ensures HandleAll(w, batch, pass, life).rows[i] == w.rows[i]
    decreases |batch|
  {
    if batch != [] {
      hide HandleRow;
      var h := HandleRow(w, batch[0].index, pass, life);
      RowShape(w, batch[0].index, pass, life);
      if !h.crashed { RestSkips(h.world, batch[1..], pass, h.left, i); }
    }
  }

  lemma {:induction false} RestAttempts(w: World, batch: seq<Read>, pass: Pass, life: nat, i: nat)
    requires Within(batch, |w.rows|) && Increasing(batch) && i < |w.rows|
    requires forall n :: 0 <= n < |batch| ==> w.rows[batch[n].index].status == Pending
    requires Due(w.rows[i], pass.term, Deployments(w)) && Endures(w.rows[i], Errs(pass, i))
    ensures StillGood(HandleAll(w, batch, pass, life).rows[i], w.rows[i].attempts + Errs(pass, i))
    decreases |batch|
  {
    if batch != [] {
      hide HandleRow, Errs;
      var id := batch[0].index;
      var h := HandleRow(w, id, pass, life);
      RowShape(w, id, pass, life);
      if id == i {
        RowAttempts(w, i, pass, life);
        if !h.crashed { RestSkips(h.world, batch[1..], pass, h.left, i); }
      } else if !h.crashed {
        RestAttempts(h.world, batch[1..], pass, h.left, i);
      }
    }
  }

  lemma {:induction false} HistoryAttempts(w: World, passes: seq<Pass>, term: nat, i: nat)
    requires Under(passes, term) && i < |w.rows|
    requires Due(w.rows[i], term, Deployments(w)) && Endures(w.rows[i], ErrorsOf(passes, i))
    ensures RunAll(w, passes).rows[i].status != Status.Failed
    decreases |passes|
  {
    if passes != [] {
      var v := RunPass(w, passes[0]);
      BatchIsPending(w.rows);
      RestAttempts(w, Batch(w.rows), passes[0], passes[0].life, i);
      PassIsLater(w, passes[0]);
      assert LaterRow(w.rows[i], v.rows[i]);
      if v.rows[i].status == Pending {
        HistoryAttempts(v, passes[1..], term, i);
      } else {
        HistoryIsLater(v, passes[1..]);
        assert LaterRow(v.rows[i], RunAll(v, passes[1..]).rows[i]);
      }
    }
  }

  /** No row is given up as long as each due row has attempts left for the errors of the history. */
  lemma ToleratedGivesNothingUp(w: World, passes: seq<Pass>, term: nat)
    requires Under(passes, term) && Tolerated(w, passes, term)
    ensures NoneGivenUp(w, RunAll(w, passes), term)
  {
    forall i | 0 <= i < |w.rows| ensures !GivenUp(w.rows[i], RunAll(w, passes).rows[i], term, Deployments(w)) {
      if Due(w.rows[i], term, Deployments(w)) { HistoryAttempts(w, passes, term, i); }
    }
  }

  // More passes that meet nothing leave the errors as they were.
  lemma SmoothAddsNoErrors(w: World, passes: seq<Pass>, pass: Pass, term: nat)
    requires Smooth(pass) && Tolerated(w, passes, term)
    ensures Tolerated(w, passes + [pass], term)
  {
    RunAllAppend(w, passes, [pass]);
    assert forall id :: ErrorsOf([pass], id) == Errs(pass, id) + ErrorsOf([pass][1..], id) == 0;
  }

  lemma {:induction false} UnfailingHasNoErrors(passes: seq<Pass>, id: nat)
    requires forall n :: 0 <= n < |passes| ==> Unfailing(passes[n])
    ensures ErrorsOf(passes, id) == 0
    decreases |passes|
  {
    if passes != [] { UnfailingHasNoErrors(passes[1..], id); }
  }

  lemma {:induction false} RunAllAppend(w: World, passes: seq<Pass>, more: seq<Pass>)
    ensures RunAll(w, passes + more) == RunAll(RunAll(w, passes), more)
    ensures forall id :: ErrorsOf(passes + more, id) == ErrorsOf(passes, id) + ErrorsOf(more, id)
    decreases |passes|
  {
    if passes == [] {
      assert [] + more == more;
    } else {
      assert (passes + more)[1..] == passes[1..] + more;
      RunAllAppend(RunPass(w, passes[0]), passes[1..], more);
    }
  }

  // A pass in which row `j` meets an error.
  function Fail(j: nat, term: nat): Pass { Pass(term, 1, map[j := Error]) }

  // The last pending row is the whole batch, and takes the error.
  lemma FailLast(w: World, j: nat, term: nat)
    requires j < |w.rows| && w.rows[j].status == Pending && w.rows[j].leaseTerm == term && OthersDecided(w, j)
    ensures var v := RunPass(w, Fail(j, term));
      v == w.(rows := w.rows[j := Attempted(w.rows[j], w.rows[j].attempts + 1)]) && OthersDecided(v, j)
  {
    LastIsTheBatch(w, j);
    var pass := Fail(j, term);
    var rest := Batch(w.rows)[1..];
    assert AnswerTo(w, j, pass) == Error;
    var h := HandleRow(w, j, pass, pass.life);
    assert h == Handled(w.(rows := w.rows[j := Attempted(w.rows[j], w.rows[j].attempts + 1)]), 0, false);
    assert rest == [] && HandleAll(h.world, rest, pass, 0) == h.world;
  }

  lemma LastIsTheBatch(w: World, j: nat)
    requires j < |w.rows| && w.rows[j].status == Pending && OthersDecided(w, j)
    ensures |Batch(w.rows)| == 1 && Batch(w.rows)[0].index == j
  {
    var batch := Batch(w.rows);
    assert |batch| > 1 ==> batch[0].index < batch[1].index;
    BatchEmptyIff(w.rows);
    BatchIsPending(w.rows);
    assert forall n :: 0 <= n < |batch| ==> batch[n].index == j;
  }

  // Passes of which `n` meet an error for the last pending row, or fewer if it fails before.
  lemma {:induction false} FailOften(w: World, j: nat, term: nat, n: nat) returns (passes: seq<Pass>)
    requires j < |w.rows| && w.rows[j].status == Pending && w.rows[j].leaseTerm == term && OthersDecided(w, j)
    ensures Under(passes, term) && ErrorsAtMost(passes, n)
    ensures n > 0 && w.rows[j].attempts + n >= MAX_ATTEMPTS ==> RunAll(w, passes).rows[j].status == Status.Failed
    decreases n
  {
    passes := [];
    if n > 0 {
      var v := RunPass(w, Fail(j, term));
      FailLast(w, j, term);
      var rest := [];
      if v.rows[j].status == Pending { rest := FailOften(v, j, term, n - 1); }
      passes := [Fail(j, term)] + rest;
      assert passes[1..] == rest;
      forall id: nat ensures ErrorsOf(passes, id) <= n { assert ErrorsOf(rest, id) <= n - 1; }
    }
  }

  // A due row without the attempts for `n` errors can be given up by a history with no more errors than that.
  lemma ErrorsGiveUp(w: World, j: nat, term: nat, n: nat) returns (passes: seq<Pass>)
    requires j < |w.rows| && Due(w.rows[j], term, Deployments(w)) && !Endures(w.rows[j], n)
    ensures Under(passes, term) && ErrorsAtMost(passes, n)
    ensures GivenUp(w.rows[j], RunAll(w, passes).rows[j], term, Deployments(w))
  {
    var others := PushOthers(w, j, term);
    var errors := FailOften(RunAll(w, others), j, term, n);
    passes := others + errors;
    RunAllAppend(w, others, errors);
    forall id: nat ensures ErrorsOf(passes, id) <= n {
      UnfailingHasNoErrors(others, id);
      assert ErrorsOf(errors, id) <= n;
    }
  }

  /** Errors: whatever crashes and conflicts there are, every history that meets at most `e` passing errors for any row
      keeps the outcome if and only if due rows that name one target ask for the same thing of it and, where `e` is not
      zero, every due row has more than `e` attempts left. */
  lemma ErrorsKeepOutcomeIff(w: World, term: nat, e: nat)
    ensures (forall passes :: Under(passes, term) && ErrorsAtMost(passes, e) ==>
               Outcome(RunAll(w, passes), term) == Outcome(w, term))
            <==> AllHarmless(w, term)
                 && forall i :: 0 <= i < |w.rows| && Due(w.rows[i], term, Deployments(w)) ==>
                      e == 0 || w.rows[i].attempts + e < MAX_ATTEMPTS
  {
    hide Outcome, Under, AllHarmless, Due, Unfailing;
    if !AllHarmless(w, term) {
      ConflictsKeepOutcomeIff(w, term);
      var passes :| Under(passes, term) && (forall n :: 0 <= n < |passes| ==> Unfailing(passes[n]))
                    && Outcome(RunAll(w, passes), term) != Outcome(w, term);
      forall id: nat ensures ErrorsOf(passes, id) <= e { UnfailingHasNoErrors(passes, id); }
      assert ErrorsAtMost(passes, e);
    } else if j :| 0 <= j < |w.rows| && Due(w.rows[j], term, Deployments(w)) && !Endures(w.rows[j], e) {
      var passes := ErrorsGiveUp(w, j, term, e);
      HistoryKeepsOutcomeIff(w, passes, term);
      assert Outcome(RunAll(w, passes), term) != Outcome(w, term);
    } else {
      forall passes | Under(passes, term) && ErrorsAtMost(passes, e)
        ensures Outcome(RunAll(w, passes), term) == Outcome(w, term)
      {
        forall i | 0 <= i < |w.rows| && Due(w.rows[i], term, Deployments(w))
          ensures Endures(w.rows[i], ErrorsOf(passes, i))
        {
          assert Endures(w.rows[i], e) && ErrorsOf(passes, i) <= e;
        }
        ToleratedGivesNothingUp(w, passes, term);
        HistoryKeepsOutcomeIff(w, passes, term);
      }
    }
  }

  // ---------------------------------------------------------------- when the lease is acquired again

  // The rows were recorded under `term` or before.
  predicate RecordedBy(rows: seq<Intent>, term: nat) {
    forall i :: 0 <= i < |rows| ==> rows[i].leaseTerm <= term
  }

  predicate After(passes: seq<Pass>, term: nat) {
    forall n :: 0 <= n < |passes| ==> passes[n].term > term
  }

  predicate Drained(w: World) {
    forall i :: 0 <= i < |w.rows| ==> w.rows[i].status != Pending
  }

  // A later term makes no call for the rows and can only supersede them.
  lemma {:induction false} LaterTermRest(w: World, batch: seq<Read>, pass: Pass, life: nat, term: nat)
    requires Within(batch, |w.rows|) && Increasing(batch) && RecordedBy(w.rows, term) && pass.term > term
    requires forall i :: 0 <= i < |batch| ==> w.rows[batch[i].index].status == Pending
    ensures var v := HandleAll(w, batch, pass, life);
      Later(w, v) && OnlySupersedes(w, v)
    decreases |batch|
  {
    if batch != [] {
      hide HandleRow;
      var h := HandleRow(w, batch[0].index, pass, life);
      RowShape(w, batch[0].index, pass, life);
      if !h.crashed {
        LaterTermRest(h.world, batch[1..], pass, h.left, term);
        LaterTwice(w, h.world, HandleAll(h.world, batch[1..], pass, h.left));
        SupersedesTwice(w, h.world, HandleAll(h.world, batch[1..], pass, h.left));
      }
    }
  }

  predicate OnlySupersedes(was: World, now: World) {
    && now.cluster == was.cluster && |now.rows| == |was.rows|
    && forall i :: 0 <= i < |was.rows| && was.rows[i].status == Pending ==> now.rows[i].status in {Pending, Superseded}
  }

  lemma SupersedesTwice(a: World, b: World, c: World)
    requires Later(a, b) && Later(b, c) && OnlySupersedes(a, b) && OnlySupersedes(b, c)
    ensures OnlySupersedes(a, c)
  {
    forall i | 0 <= i < |a.rows| && a.rows[i].status == Pending ensures c.rows[i].status in {Pending, Superseded} {
      assert LaterRow(a.rows[i], b.rows[i]) && LaterRow(b.rows[i], c.rows[i]);
    }
  }

  lemma RecordedLater(was: World, now: World, term: nat)
    requires Later(was, now) && RecordedBy(was.rows, term)
    ensures RecordedBy(now.rows, term)
  {
    forall i | 0 <= i < |now.rows| ensures now.rows[i].leaseTerm <= term {
      assert LaterRow(was.rows[i], now.rows[i]);
    }
  }

  lemma {:induction false} LaterTermsSupersede(w: World, passes: seq<Pass>, term: nat)
    requires RecordedBy(w.rows, term) && After(passes, term)
    ensures Later(w, RunAll(w, passes)) && OnlySupersedes(w, RunAll(w, passes))
    decreases |passes|
  {
    if passes != [] {
      var v := RunPass(w, passes[0]);
      BatchIsPending(w.rows);
      LaterTermRest(w, Batch(w.rows), passes[0], passes[0].life, term);
      RecordedLater(w, v, term);
      LaterTermsSupersede(v, passes[1..], term);
      LaterTwice(w, v, RunAll(v, passes[1..]));
      SupersedesTwice(w, v, RunAll(v, passes[1..]));
    }
  }

  // At `now`, every row of the term is decided and none that could succeed was given up.
  predicate HandledInTime(was: World, now: World, term: nat)
    requires |was.rows| == |now.rows|
  {
    forall i :: 0 <= i < |was.rows| && was.rows[i].status == Pending && was.rows[i].leaseTerm == term ==>
      now.rows[i].status != Pending && !GivenUp(was.rows[i], now.rows[i], term, Deployments(was))
  }

  // Under its own term a row is never superseded.
  lemma {:induction false} OwnTermRest(w: World, batch: seq<Read>, pass: Pass, life: nat, i: nat)
    requires Within(batch, |w.rows|) && Increasing(batch) && i < |w.rows|
    requires forall n :: 0 <= n < |batch| ==> w.rows[batch[n].index].status == Pending
    requires DecidedByFate(w.rows[i], w.rows[i], pass.term, Deployments(w))
    ensures var v := HandleAll(w, batch, pass, life);
      Later(w, v) && DecidedByFate(w.rows[i], v.rows[i], pass.term, Deployments(w))
    decreases |batch|
  {
    if batch != [] {
      hide HandleRow;
      var id := batch[0].index;
      var h := HandleRow(w, id, pass, life);
      RowShape(w, id, pass, life);
      RowFate(w, id, pass, life);
      if !h.crashed {
        OwnTermRest(h.world, batch[1..], pass, h.left, i);
        LaterTwice(w, h.world, HandleAll(h.world, batch[1..], pass, h.left));
      }
    }
  }

  // The row is as it was or still pending, or decided as its fate says, or given up.
  predicate DecidedByFate(was: Intent, now: Intent, term: nat, deployments: set<string>) {
    || now.status == Pending
    || now.status == Fate(was, term, deployments)
    || GivenUp(was, now, term, deployments)
  }

  lemma RowFate(w: World, id: nat, pass: Pass, life: nat)
    requires id < |w.rows| && w.rows[id].status == Pending
    ensures DecidedByFate(w.rows[id], HandleRow(w, id, pass, life).world.rows[id], pass.term, Deployments(w))
  {
  }

  lemma {:induction false} HistoryDecidesByFate(w: World, passes: seq<Pass>, term: nat, i: nat)
    requires Under(passes, term) && i < |w.rows|
    ensures DecidedByFate(w.rows[i], RunAll(w, passes).rows[i], term, Deployments(w))
    decreases |passes|
  {
    if passes != [] {
      var v := RunPass(w, passes[0]);
      BatchIsPending(w.rows);
      OwnTermRest(w, Batch(w.rows), passes[0], passes[0].life, i);
      HistoryIsLater(v, passes[1..]);
      HistoryDecidesByFate(v, passes[1..], term, i);
      assert LaterRow(w.rows[i], v.rows[i]) && LaterRow(v.rows[i], RunAll(v, passes[1..]).rows[i]);
    }
  }

  /** A process that dies loses its term. After passes under `term`, then any passes under later ones until nothing is
      pending, the statuses are the ones predicted under `term` exactly when every row of the term was decided, and
      none given up, before the lease was acquired again. Rows left pending are superseded, even those whose call was
      already made. */
  lemma ReacquiringKeepsStatusesIff(w: World, own: seq<Pass>, later: seq<Pass>, term: nat)
    requires RecordedBy(w.rows, term) && Under(own, term) && After(later, term)
    requires Drained(RunAll(RunAll(w, own), later))
    ensures (forall i :: 0 <= i < |w.rows| ==>
               RunAll(RunAll(w, own), later).rows[i].status == Fate(w.rows[i], term, Deployments(w)))
            <==> HandledInTime(w, RunAll(w, own), term)
  {
    hide RunAll, Fate, Due;
    var mid := RunAll(w, own);
    var end := RunAll(mid, later);
    HistoryIsLater(w, own);
    RecordedLater(w, mid, term);
    LaterTermsSupersede(mid, later, term);
    forall i | 0 <= i < |w.rows|
      ensures end.rows[i].status == Fate(w.rows[i], term, Deployments(w)) <==>
              (w.rows[i].status == Pending && w.rows[i].leaseTerm == term ==>
                 mid.rows[i].status != Pending && !GivenUp(w.rows[i], mid.rows[i], term, Deployments(w)))
    {
      HistoryDecidesByFate(w, own, term, i);
      assert LaterRow(w.rows[i], mid.rows[i]) && LaterRow(mid.rows[i], end.rows[i]);
      RowAtTheEnd(w.rows[i], mid.rows[i], end.rows[i], term, Deployments(w));
    }
  }

  lemma RowAtTheEnd(was: Intent, mid: Intent, end: Intent, term: nat, deployments: set<string>)
    requires LaterRow(was, mid) && LaterRow(mid, end) && DecidedByFate(was, mid, term, deployments)
    requires end.status != Pending && (mid.status == Pending ==> end.status == Superseded)
    ensures end.status == Fate(was, term, deployments) <==>
            (was.status == Pending && was.leaseTerm == term ==>
               mid.status != Pending && !GivenUp(was, mid, term, deployments))
  {
  }

  /** In that case the cluster is the predicted one as well. */
  lemma HandledInTimeKeepsTheCluster(w: World, own: seq<Pass>, later: seq<Pass>, term: nat)
    requires RecordedBy(w.rows, term) && Under(own, term) && After(later, term)
    requires AllSmooth(own) || AllHarmless(w, term)
    requires HandledInTime(w, RunAll(w, own), term)
    ensures RunAll(RunAll(w, own), later).cluster == Settled(w.rows, term, w.cluster)
  {
    hide RunAll, Settled;
    var mid := RunAll(w, own);
    HistoryIsLater(w, own);
    RecordedLater(w, mid, term);
    LaterTermsSupersede(mid, later, term);
    HistoryKeeps(w, own, term);
    forall i | 0 <= i < |mid.rows| ensures !Due(mid.rows[i], term, Deployments(mid)) {
      assert LaterRow(w.rows[i], mid.rows[i]);
    }
    NothingDue(mid.rows, term, mid.cluster);
  }

  /** Together: whoever acquires the lease next and however often, the statuses and the cluster end as predicted under
      `term` if and only if every row of the term was decided in time. */
  lemma ReacquiringKeepsOutcomeIff(w: World, own: seq<Pass>, later: seq<Pass>, term: nat)
    requires RecordedBy(w.rows, term) && Under(own, term) && After(later, term)
    requires AllSmooth(own) || AllHarmless(w, term)
    requires Drained(RunAll(RunAll(w, own), later))
    ensures var end := RunAll(RunAll(w, own), later);
            (forall i :: 0 <= i < |w.rows| ==> end.rows[i].status == Fate(w.rows[i], term, Deployments(w)))
            && end.cluster == Settled(w.rows, term, w.cluster)
            <==> HandledInTime(w, RunAll(w, own), term)
  {
    hide *;
    ReacquiringKeepsStatusesIff(w, own, later, term);
    if HandledInTime(w, RunAll(w, own), term) { HandledInTimeKeepsTheCluster(w, own, later, term); }
  }

  // ---------------------------------------------------------------- draining

  lemma {:induction false} CleanRestWorks(w: World, batch: seq<Read>, pass: Pass, life: nat)
    requires Within(batch, |w.rows|) && Increasing(batch) && life >= 2 * |batch| && Smooth(pass)
    requires forall i :: 0 <= i < |batch| ==> w.rows[batch[i].index].status == Pending
    ensures var v := HandleAll(w, batch, pass, life);
      TotalWork(v.rows) <= TotalWork(w.rows) && (batch != [] ==> TotalWork(v.rows) < TotalWork(w.rows))
    decreases |batch|
  {
    if batch != [] {
      hide HandleRow, TotalWork;
      var id := batch[0].index;
      var h := HandleRow(w, id, pass, life);
      RowShape(w, id, pass, life);
      RowWorks(w, id, pass, life);
      WorkShrinks(w.rows, id, h.world.rows[id]);
      assert h.world.rows == w.rows[id := h.world.rows[id]];
      CleanRestWorks(h.world, batch[1..], pass, h.left);
    }
  }

  // A pass that meets nothing decides rows or counts attempts, as long as rows are pending.
  lemma CleanPassWorks(w: World, pass: Pass)
    requires Smooth(pass) && pass.life >= 2 * MAX_BATCH && Batch(w.rows) != []
    ensures TotalWork(RunPass(w, pass).rows) < TotalWork(w.rows)
  {
    BatchIsPending(w.rows);
    CleanRestWorks(w, Batch(w.rows), pass, pass.life);
  }

  // With nothing pending, keeping the outcome means having reached it.
  lemma DrainedOutcome(w: World, passes: seq<Pass>, term: nat)
    requires Under(passes, term) && (AllSmooth(passes) || AllHarmless(w, term)) && Drained(RunAll(w, passes))
    ensures var v := RunAll(w, passes);
      NoneGivenUp(w, v, term) <==>
      (v.cluster == Settled(w.rows, term, w.cluster)
       && forall i :: 0 <= i < |v.rows| ==> v.rows[i].status == Fate(w.rows[i], term, Deployments(w)))
  {
    var v := RunAll(w, passes);
    NothingDue(v.rows, term, v.cluster);
    HistoryKeepsOutcomeIff(w, passes, term);
    HistoryIsLater(w, passes);
    if Outcome(v, term) == Outcome(w, term) {
      forall i | 0 <= i < |v.rows| ensures v.rows[i].status == Fate(w.rows[i], term, Deployments(w)) {
        assert Fates(v.rows, term, v.cluster)[i] == Fates(w.rows, term, w.cluster)[i];
      }
    }
  }
}
