/** Run heartbeats and the sweep that expires runs whose worker has gone quiet. */
module Heartbeat {
  import opened Prelude

  /** Times are microseconds. */
  const SECOND: int := 1_000_000
  const STALE: int := 90 * SECOND
  const MAX_RETRIES: nat := 3
  const BATCH: nat := 500

  datatype Status = Running | Expired | Failed | Finished

  datatype Reason = HeartbeatLost | ExhaustedRetries | NoEvent

  datatype Run = Run(
    status: Status, heartbeat: Option<int>, retries: nat, hasEvent: bool, reason: Option<Reason>, term: Option<int>)

  predicate IsStale(r: Run, now: int, stale: int) {
    r.status == Running && r.heartbeat.Some? && r.heartbeat.value < now - stale
  }

  /** A retry while the counter allows it and the event is known, else the end. */
  function Swept(r: Run, term: int): Run {
    var n := r.retries + 1;
    if n <= MAX_RETRIES && r.hasEvent
    then r.(status := Expired, reason := Some(HeartbeatLost), retries := n, term := Some(term))
    else r.(status := Failed, reason := Some(if n > MAX_RETRIES then ExhaustedRetries else NoEvent),
            retries := n, term := Some(term))
  }

  /** A beat refreshes only a run that is still running. */
  function Beaten(r: Run, now: int): Run {
    if r.status == Running then r.(heartbeat := Some(now)) else r
  }

  // ---------------------------------------------------------------------
  // One run on a time line
  // ---------------------------------------------------------------------

  /** A beat that is written, a beat that is lost, and a sweep that looks at the run. */
  datatype Event = Beat(at: int) | Lost(at: int) | Sweep(at: int)

  function Step(r: Run, e: Event, stale: int): Run {
    match e
    case Beat(at) => Beaten(r, at)
    case Lost(_) => r
    case Sweep(at) => if IsStale(r, at, stale) then Swept(r, 0) else r
  }

  function After(r: Run, es: seq<Event>, stale: int): Run {
    if es == [] then r else Step(After(r, es[..|es| - 1], stale), es[|es| - 1], stale)
  }

  /** When the worker last tried to beat, and how many tries in a row have been lost. */
  function LastTry(es: seq<Event>, start: int): int {
    if es == [] then start
    else if es[|es| - 1].Sweep? then LastTry(es[..|es| - 1], start)
    else es[|es| - 1].at
  }

  function LostInARow(es: seq<Event>): nat {
    if es == [] then 0
    else match es[|es| - 1]
      case Beat(_) => 0
      case Lost(_) => LostInARow(es[..|es| - 1]) + 1
      case Sweep(_) => LostInARow(es[..|es| - 1])
  }

  function Clock(es: seq<Event>, start: int): int {
    if es == [] then start else es[|es| - 1].at
  }

  /**
    * The worker lives through the whole time line: it tries at least once every `gap`, never loses
    * more than `losses` tries in a row, and the clock does not run backwards.
    */
  predicate Alive(es: seq<Event>, start: int, gap: int, losses: nat) {
    es != [] ==>
      var init, e := es[..|es| - 1], es[|es| - 1];
      && Alive(init, start, gap, losses)
      && Clock(init, start) <= e.at <= LastTry(init, start) + gap
      && (e.Lost? ==> LostInARow(init) < losses)
  }

  /** A run handed to a worker at `start`, which writes the first heartbeat. */
  predicate HandedOver(r: Run, start: int) { r.status == Running && r.heartbeat == Some(start) }

  /** The length of `n` gaps. */
  function Span(n: nat, gap: int): int {
    if n == 0 then 0 else Span(n - 1, gap) + gap
  }

  lemma {:induction false} SpanIs(n: nat, gap: int)
    ensures Span(n, gap) == n * gap
  {
    if n > 0 { SpanIs(n - 1, gap); }
  }

  lemma {:induction false} SpanGrows(m: nat, n: nat, gap: int)
    requires m <= n && 0 <= gap
    ensures Span(m, gap) <= Span(n, gap)
  {
    if m < n { SpanGrows(m, n - 1, gap); }
  }

  lemma {:induction false} AliveStaysFresh(r: Run, es: seq<Event>, start: int, gap: int, losses: nat, stale: int)
    requires HandedOver(r, start) && Alive(es, start, gap, losses) && 0 <= gap
    requires Span(losses + 1, gap) <= stale
    ensures var now := After(r, es, stale);
            now.status == Running && now.heartbeat.Some?
            && LastTry(es, start) - now.heartbeat.value <= Span(LostInARow(es), gap)
            && LostInARow(es) <= losses
  {
    if es != [] {
      var init, e := es[..|es| - 1], es[|es| - 1];
      AliveStaysFresh(r, init, start, gap, losses, stale);
      SpanGrows(LostInARow(init) + 1, losses + 1, gap);
    }
  }

  /** `n` lost beats, one every `gap`. */
  function Silence(start: int, gap: int, n: nat): (es: seq<Event>)
    ensures |es| == n
  {
    if n == 0 then [] else Silence(start, gap, n - 1) + [Lost(start + Span(n, gap))]
  }

  lemma AppendTry(r: Run, es: seq<Event>, at: int, start: int, gap: int, losses: nat, stale: int)
    requires Alive(es, start, gap, losses) && LostInARow(es) < losses
    requires Clock(es, start) <= at <= LastTry(es, start) + gap
    ensures var longer := es + [Lost(at)];
            Alive(longer, start, gap, losses) && LastTry(longer, start) == at && Clock(longer, start) == at
            && LostInARow(longer) == LostInARow(es) + 1 && After(r, longer, stale) == After(r, es, stale)
  {
    var longer := es + [Lost(at)];
    assert longer[..|longer| - 1] == es && longer[|longer| - 1] == Lost(at);
  }

  lemma {:induction false} SilenceIsAlive(r: Run, start: int, gap: int, n: nat, losses: nat, stale: int)
    requires 0 <= gap && n <= losses
    ensures var es := Silence(start, gap, n);
            Alive(es, start, gap, losses) && LastTry(es, start) == Clock(es, start) == start + Span(n, gap)
            && LostInARow(es) == n && After(r, es, stale) == r
  {
    if n > 0 {
      hide Alive, LastTry, Clock, LostInARow, After;
      SilenceIsAlive(r, start, gap, n - 1, losses, stale);
      AppendTry(r, Silence(start, gap, n - 1), start + Span(n, gap), start, gap, losses, stale);
    }
  }

  ghost predicate NeverExpires(r: Run, start: int, gap: int, losses: nat, stale: int) {
    forall es :: Alive(es, start, gap, losses) ==> After(r, es, stale).status == Running
  }

  /**
    * A live worker is never expired, whatever the interleaving of beats and sweeps, exactly when
    * its longest possible silence fits into the stale window.
    */
  lemma LiveIsNeverExpiredIff(r: Run, start: int, gap: int, losses: nat, stale: int)
    requires HandedOver(r, start) && 0 <= gap
    ensures NeverExpires(r, start, gap, losses, stale) <==> (losses + 1) * gap <= stale
  {
    SpanIs(losses + 1, gap);
    if Span(losses + 1, gap) <= stale {
      forall es | Alive(es, start, gap, losses) ensures After(r, es, stale).status == Running {
        AliveStaysFresh(r, es, start, gap, losses, stale);
      }
    } else {
      var quiet := Silence(start, gap, losses);
      SilenceIsAlive(r, start, gap, losses, losses, stale);
      var es := quiet + [Sweep(start + Span(losses + 1, gap))];
      assert es[..|es| - 1] == quiet;
      assert Alive(es, start, gap, losses) && After(r, es, stale).status != Running;
    }
  }

  /**
    * With the 90 second window, surviving two lost beats in a row takes beats exactly 30 seconds
    * apart or closer. The loop sleeps 30 seconds and then writes, so any time spent writing breaks
    * this; one lost beat is survived up to a spacing of 45 seconds.
    */
  lemma LossesTolerated(r: Run, start: int, gap: int)
    requires HandedOver(r, start) && 0 <= gap
    ensures NeverExpires(r, start, gap, 2, STALE) <==> gap <= 30 * SECOND
    ensures NeverExpires(r, start, gap, 1, STALE) <==> gap <= 45 * SECOND
  {
    LiveIsNeverExpiredIff(r, start, gap, 2, STALE);
    LiveIsNeverExpiredIff(r, start, gap, 1, STALE);
  }

  predicate OnlySweeps(es: seq<Event>) {
    forall k :: 0 <= k < |es| ==> es[k].Sweep?
  }

  /** Once its worker stops, a run is expired by the first sweep past the window and by no earlier one. */
  lemma {:induction false} StoppedExpiresIff(r: Run, h: int, es: seq<Event>, stale: int)
    requires HandedOver(r, h) && OnlySweeps(es)
    ensures After(r, es, stale).status == Running <==> forall k :: 0 <= k < |es| ==> es[k].at <= h + stale
    ensures After(r, es, stale).status == Running ==> After(r, es, stale) == r
    ensures After(r, es, stale).status != Running ==> After(r, es, stale) == Swept(r, 0)
  {
    if es != [] {
      var init := es[..|es| - 1];
      assert forall k :: 0 <= k < |init| ==> init[k] == es[k];
      StoppedExpiresIff(r, h, init, stale);
      assert es[|es| - 1].Sweep?;
      if After(r, init, stale).status != Running {
        var k :| 0 <= k < |init| && init[k].at > h + stale;
        assert es[k].at > h + stale;
      }
    }
  }

  // ---------------------------------------------------------------------
  // Retries
  // ---------------------------------------------------------------------

  /** A run is swept while it runs, and dispatched again after it expired. */
  datatype Turn = SweptAway(term: int) | PickedUp(at: int)

  predicate CanTurn(r: Run, t: Turn) {
    match t
    case SweptAway(_) => r.status == Running
    case PickedUp(_) => r.status == Expired
  }

  /** The dispatcher counts a retry too when it picks an expired run up. */
  function Turned(r: Run, t: Turn): Run {
    match t
    case SweptAway(term) => Swept(r, term)
    case PickedUp(at) => r.(status := Running, heartbeat := Some(at), retries := r.retries + 1, reason := None)
  }

  predicate Life(r: Run, ts: seq<Turn>)
    decreases |ts|
  {
    ts == [] || (CanTurn(r, ts[0]) && Life(Turned(r, ts[0]), ts[1..]))
  }

  function Lived(r: Run, ts: seq<Turn>): Run
    decreases |ts|
  {
    if ts == [] then r else Lived(Turned(r, ts[0]), ts[1..])
  }

  function Sweeps(ts: seq<Turn>): nat {
    if ts == [] then 0 else (if ts[0].SweptAway? then 1 else 0) + Sweeps(ts[1..])
  }

  /** How many sweeps a running run with `n` counted retries can go through before it is given up. */
  function Chances(n: nat): nat
    decreases MAX_RETRIES + 2 - n
  {
    if n >= MAX_RETRIES then 1 else 1 + Chances(n + 2)
  }

  lemma {:induction false} GivenUpIff(r: Run, ts: seq<Turn>)
    requires Life(r, ts) && r.hasEvent && r.status in {Running, Expired}
    ensures Lived(r, ts).retries == r.retries + |ts|
    ensures var chances := Chances(if r.status == Running then r.retries else r.retries + 1);
            Sweeps(ts) <= chances && (Lived(r, ts).status == Failed <==> Sweeps(ts) == chances)
    decreases |ts|
  {
    if ts != [] {
      var next := Turned(r, ts[0]);
      if next.status == Failed {
        NothingAfterFailure(next, ts[1..]);
      } else {
        GivenUpIff(next, ts[1..]);
      }
    }
  }

  lemma NothingAfterFailure(r: Run, ts: seq<Turn>)
    requires r.status == Failed && Life(r, ts)
    ensures ts == []
  {}

  /**
    * Every lost worker is counted twice, by the sweep and by the dispatcher, so a run is given up
    * at its third loss: the ceiling of three allows two retries.
    */
  lemma CeilingAllowsTwoRetries(r: Run, ts: seq<Turn>)
    requires Life(r, ts) && r.hasEvent && r.status == Running && r.retries == 0
    ensures Sweeps(ts) <= 3 && (Lived(r, ts).status == Failed <==> Sweeps(ts) == 3)
  {
    GivenUpIff(r, ts);
    assert Chances(0) == 1 + Chances(2) && Chances(2) == 1 + Chances(4) && Chances(4) == 1;
  }

  /** How a swept run ends: below three counted retries it is expired for a lost heartbeat and can be tried again, if
      its event is known; otherwise it has failed, and the reason says which was missing. */
  lemma SweptEnds(r: Run, term: int)
    ensures var s := Swept(r, term);
      && (s.status == Expired <==> r.retries < 3 && r.hasEvent)
      && (s.status == Failed <==> r.retries >= 3 || !r.hasEvent)
      && (s.reason == Some(HeartbeatLost) <==> s.status == Expired)
      && (s.reason == Some(ExhaustedRetries) <==> r.retries >= 3)
      && (s.reason == Some(NoEvent) <==> r.retries < 3 && !r.hasEvent)
      && s.retries == r.retries + 1 && s.term == Some(term)
      && s.heartbeat == r.heartbeat && s.hasEvent == r.hasEvent
  {}

  // ---------------------------------------------------------------------
  // The table
  // ---------------------------------------------------------------------

  ghost function StaleSet(rows: map<nat, Run>, now: int): set<nat> {
    set id | id in rows && IsStale(rows[id], now, STALE)
  }

  // The run is running and has not been heard of for more than ninety seconds.
  predicate IsQuiet(rows: map<nat, Run>, id: nat, now: int) {
    && id in rows && rows[id].status == Running
    && rows[id].heartbeat.Some? && rows[id].heartbeat.value < now - 90_000_000
  }

  function Marked(rows: map<nat, Run>, batch: set<nat>, term: int): map<nat, Run> {
    map id | id in rows :: if id in batch then Swept(rows[id], term) else rows[id]
  }

  /** A sweep with nothing in between takes its batch, and only that, off the backlog. */
  lemma BacklogShrinks(rows: map<nat, Run>, batch: set<nat>, now: int, term: int)
    requires batch <= StaleSet(rows, now)
    ensures StaleSet(Marked(rows, batch, term), now) == StaleSet(rows, now) - batch
    ensures |StaleSet(Marked(rows, batch, term), now)| == |StaleSet(rows, now)| - |batch|
  {
    var after := StaleSet(Marked(rows, batch, term), now);
    assert after == StaleSet(rows, now) - batch;
    assert after + batch == StaleSet(rows, now) && after !! batch;
  }

  class Table {
    var rows: map<nat, Run>

    constructor (all: map<nat, Run>)
      ensures rows == all
    {
      rows := all;
    }

    /** A beat by the worker of run `id`. */
    method WriteBeat(id: nat, now: int)
      modifies this
      ensures rows == Changed(old(rows), Change.WriteBeat(id, now))
      ensures rows == if id in old(rows) && old(rows)[id].status == Running
                      then old(rows)[id := old(rows)[id].(heartbeat := Some(now))] else old(rows)
    {
      if id in rows && rows[id].status == Running {
        rows := rows[id := rows[id].(heartbeat := Some(now))];
      } else if id in rows {
        assert rows == rows[id := rows[id]];
      }
    }

    /** Up to one batch of stale rows, in no particular order. */
    method Select(now: int) returns (batch: seq<nat>)
      ensures Selection(rows, now, batch)
      ensures |batch| <= 500 && forall i, j :: 0 <= i < j < |batch| ==> batch[i] != batch[j]
      ensures forall id :: id in batch ==> IsQuiet(rows, id, now)
      ensures |batch| < 500 ==> forall id :: IsQuiet(rows, id, now) ==> id in batch
    {
      batch := [];
      var left := rows.Keys;
      while left != {} && |batch| < BATCH
        invariant left <= rows.Keys && |batch| <= BATCH
        invariant forall id :: id in batch ==> id in rows && id !in left && IsStale(rows[id], now, STALE)
        invariant forall i, j :: 0 <= i < j < |batch| ==> batch[i] != batch[j]
        invariant forall id :: id in rows && IsStale(rows[id], now, STALE) ==> id in left || id in batch
        decreases |left|
      {
        var id :| id in left;
        left := left - {id};
        if IsStale(rows[id], now, STALE) { batch := batch + [id]; }
      }
    }

    /** A run ends in the meantime. */
    method Finish(id: nat)
      modifies this
      ensures rows == Changed(old(rows), Change.Finish(id))
      ensures rows == if id in old(rows) && old(rows)[id].status == Running
                      then old(rows)[id := old(rows)[id].(status := Finished)] else old(rows)
    {
      if id in rows && rows[id].status == Running {
        rows := rows[id := rows[id].(status := Finished)];
      }
    }

    /**
      * Updates the selected rows, checking the lease before each and once more before the commit;
      * a lost lease rolls everything back. The update names the row only: it does not ask again
      * whether the run is still running or still stale.
      */
    method Commit(batch: seq<nat>, term: int, held: nat -> bool) returns (ok: bool)
      requires forall i, j :: 0 <= i < j < |batch| ==> batch[i] != batch[j]
      requires forall id :: id in batch ==> id in rows
      modifies this
      ensures ok <==> forall k :: 0 <= k <= |batch| ==> held(k)
      ensures rows == if ok then Marked(old(rows), (set id | id in batch), term) else old(rows)
    {
      var saved := rows;
      for i := 0 to |batch|
        invariant forall k :: 0 <= k < i ==> held(k)
        invariant rows.Keys == saved.Keys
        invariant forall id :: id in saved ==>
                  rows[id] == if id in batch[..i] then Swept(saved[id], term) else saved[id]
      {
        if !held(i) {
          rows := saved;
          return false;
        }
        var id := batch[i];
        assert id in batch && id !in batch[..i];
        rows := rows[id := Swept(rows[id], term)];
        assert batch[..i + 1] == batch[..i] + [id];
      }
      if !held(|batch|) {
        rows := saved;
        return false;
      }
      assert batch[..|batch|] == batch;
      assert rows == Marked(saved, (set id | id in batch), term);
      return true;
    }
  }

  // ---------------------------------------------------------------------
  // What happens between the selection and the update
  // ---------------------------------------------------------------------

  /** Distinct stale rows, at most one batch of them, and all of them if there are fewer. */
  ghost predicate Selection(rows: map<nat, Run>, now: int, batch: seq<nat>) {
    && (forall id :: id in batch ==> id in rows && IsStale(rows[id], now, STALE))
    && (forall i, j :: 0 <= i < j < |batch| ==> batch[i] != batch[j])
    && |batch| <= BATCH
    && (|batch| < BATCH ==> forall id :: id in rows && IsStale(rows[id], now, STALE) ==> id in batch)
  }

  function Finishing(rows: map<nat, Run>, id: nat): map<nat, Run> {
    if id in rows && rows[id].status == Running then rows[id := rows[id].(status := Finished)] else rows
  }

  /** What the workers do to the rows meanwhile. */
  datatype Change = Finish(id: nat) | WriteBeat(id: nat, now: int)

  function Changed(rows: map<nat, Run>, c: Change): map<nat, Run> {
    match c
    case Finish(id) => Finishing(rows, id)
    case WriteBeat(id, now) => if id in rows then rows[id := Beaten(rows[id], now)] else rows
  }

  function Meanwhile(rows: map<nat, Run>, changes: seq<Change>): map<nat, Run> {
    if changes == [] then rows else Changed(Meanwhile(rows, changes[..|changes| - 1]), changes[|changes| - 1])
  }

  lemma {:induction false} MeanwhileKeepsKeys(rows: map<nat, Run>, changes: seq<Change>)
    ensures Meanwhile(rows, changes).Keys == rows.Keys
  {
    if changes != [] { MeanwhileKeepsKeys(rows, changes[..|changes| - 1]); }
  }

  /**
    * The sweep selects at `now` and updates later, and the update does not ask again. Whatever runs finish or beat in
    * between, once the update is committed a run that finished keeps its status exactly when it was not in the
    * selection; and with less than a full batch of stale runs, exactly when it was not stale when selected.
    */
  lemma FinishSurvivesIff(rows: map<nat, Run>, now: int, batch: seq<nat>, changes: seq<Change>, term: int, id: nat)
    requires Selection(rows, now, batch) && id in rows
    requires id in Meanwhile(rows, changes) && Meanwhile(rows, changes)[id].status == Finished
    ensures var after := Marked(Meanwhile(rows, changes), (set k | k in batch), term);
            && (after[id].status == Finished <==> id !in batch)
            && (!IsStale(rows[id], now, STALE) ==> after[id].status == Finished)
            && (|batch| < BATCH ==> (after[id].status == Finished <==> !IsStale(rows[id], now, STALE)))
  {
    MeanwhileKeepsKeys(rows, changes);
  }

  /** In the same way a beat that comes in between does not save a run: every selected row is swept, fresh or not. */
  lemma LateBeatDoesNotHelp(rows: map<nat, Run>, now: int, batch: seq<nat>, changes: seq<Change>, term: int, id: nat)
    requires Selection(rows, now, batch) && id in batch
    ensures id in Meanwhile(rows, changes)
    ensures Marked(Meanwhile(rows, changes), (set k | k in batch), term)[id] ==
            Swept(Meanwhile(rows, changes)[id], term)
    ensures Swept(Meanwhile(rows, changes)[id], term).status in {Expired, Failed}
  {
    MeanwhileKeepsKeys(rows, changes);
  }
}
