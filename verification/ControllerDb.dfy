/** The two controller tables with the lease and intent operations that run against them, one transaction each. */
module ControllerDb {
  import opened Prelude
  import opened LeaseProtocol

  datatype LeaseLost = RowMissing | TermMismatch

  class Tables {
    var leases: map<LeaseName, LeaseRow>
    var intents: seq<Intent>

    constructor ()
      ensures leases == map[] && intents == []
    {
      leases, intents := map[], [];
    }

    method Acquire(name: LeaseName, holder: string, now: int, ttl: int) returns (token: Option<Token>)
      modifies this`leases
      ensures token == Granted(old(leases), name, holder, now, ttl)
      ensures leases == if token.Some? then Take(old(leases), token.value) else old(leases)
      ensures token.None? <==> name in old(leases) && old(leases)[name].holder != Some(holder)
                               && old(leases)[name].expires.Some? && now <= old(leases)[name].expires.value
      ensures var term := if name in old(leases) then old(leases)[name].term + 1 else 1;
              if token.None? then leases == old(leases)
              else token.value == Token(name, holder, term, now + ttl)
                   && leases == old(leases)[name := LeaseRow(Some(holder), term, Some(now + ttl))]
    {
      if name !in leases {
        leases := leases[name := LeaseRow(Some(holder), 1, Some(now + ttl))];
        return Some(Token(name, holder, 1, now + ttl));
      }
      var row := leases[name];
      var expired := row.expires == None || row.expires.value < now;
      var sameHolder := row.holder == Some(holder);
      if !expired && !sameHolder {
        return None;
      }
      leases := leases[name := LeaseRow(Some(holder), row.term + 1, Some(now + ttl))];
      return Some(Token(name, holder, row.term + 1, now + ttl));
    }

    method Renew(token: Token, now: int) returns (ok: bool)
      modifies this`leases
      ensures ok <==> token.name in old(leases) && old(leases)[token.name].holder == Some(token.holder)
                      && old(leases)[token.name].term == token.term
      ensures leases == RenewRow(old(leases), token, now)
      ensures leases == if ok then old(leases)[token.name := LeaseRow(Some(token.holder), token.term, Some(now + 60))]
                        else old(leases)
    {
      ok := Holds(leases, token);
      if ok {
        leases := leases[token.name := leases[token.name].(expires := Some(now + 60))];
      }
    }

    method Release(token: Token)
      modifies this`leases
      ensures leases == ReleaseRow(old(leases), token)
      ensures leases == if token.name in old(leases) && old(leases)[token.name].holder == Some(token.holder)
                           && old(leases)[token.name].term == token.term
                        then old(leases)[token.name := LeaseRow(None, token.term, None)] else old(leases)
    {
      if Holds(leases, token) {
        leases := leases[token.name := leases[token.name].(holder := None, expires := None)];
      }
    }

    method RecordIntentWithLease(name: LeaseName, ourTerm: nat, call: Call) returns (r: Result<nat, LeaseLost>)
      modifies this`intents
      ensures r.Ok? <==> name in leases && leases[name].term == ourTerm
      ensures r.Ok? ==> r.value == |old(intents)| && intents == old(intents) + [Intent(call, ourTerm, Pending, None, 0)]
      ensures r.Err? ==> intents == old(intents) && (r.error == RowMissing <==> name !in leases)
    {
      if name !in leases {
        return Err(RowMissing);
      }
      if leases[name].term != ourTerm {
        return Err(TermMismatch);
      }
      intents := intents + [Intent(call, ourTerm, Pending, None, 0)];
      return Ok(|intents| - 1);
    }

    // The three status writes name the row by id only.
    method MarkApplied(id: nat, leaseTerm: nat)
      requires id < |intents|
      modifies this`intents
      ensures intents == old(intents)[id := MarkedApplied(old(intents)[id], leaseTerm)]
    {
      intents := intents[id := intents[id].(status := Applied, appliedBy := Some(leaseTerm))];
    }

    method MarkSuperseded(id: nat)
      requires id < |intents|
      modifies this`intents
      ensures intents == old(intents)[id := MarkedSuperseded(old(intents)[id])]
    {
      intents := intents[id := intents[id].(status := Superseded)];
    }

    method MarkFailed(id: nat, attempts: nat)
      requires id < |intents|
      modifies this`intents
      ensures intents == old(intents)[id := MarkedFailed(old(intents)[id], attempts)]
    {
      intents := intents[id := intents[id].(status := Failed, attempts := attempts)];
    }

    /** The database side of one row of a pass, before its cluster call or after it. Whatever plane the pass belongs
        to, the table ends as the next step of that pass leaves it. */
    method HandleRow(ghost s: Plane, ghost p: ProcessId, t: Tick, result: CallResult)
      requires s.intents == intents && t.todo != [] && t.todo[0].index < |intents|
      modifies this`intents
      ensures intents == AdvanceTick(s, p, t, result).intents
    {
      var read := t.todo[0];
      if t.mutated {
        MarkApplied(read.index, t.token.term);
        return;
      }
      if read.leaseTerm != t.token.term {
        MarkSuperseded(read.index);
        return;
      }
      match result
      case Done =>
      case Conflict =>
      case Error =>
        var attempts := read.attempts + 1;
        if attempts >= MAX_ATTEMPTS {
          MarkFailed(read.index, attempts);
        } else {
          intents := intents[read.index := intents[read.index].(attempts := attempts)];
        }
    }
  }
}
