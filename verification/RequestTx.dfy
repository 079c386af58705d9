/**
 The request-transaction protocol of the database middleware.  Each request
 acquires a pooled connection, begins a transaction, sets its session variables
 with local scope, runs its handler and commits; the deferred calls roll back and
 release on every way out, in reverse order of registration.  Every call may fail
 and every handler may panic; steps of different requests interleave freely.
 */
module RequestTx {
  import opened Options
  import opened Sequences

  datatype Params = Params(tenantId: string, memberId: string, userRole: string, userId: string)

  const DEFAULT_TENANT_ID := "00000000-0000-0000-0000-000000000001"
  const DEFAULT_USER_ROLE := "staff"

  const BYPASS_PATHS: set<string> := {"/healthz", "/health", "/health/detail", "/ready", "/metrics"}

  predicate Bypasses(path: string) {
    path in BYPASS_PATHS
  }

  function Defaulted(p: Params): (q: Params)
    ensures q.tenantId != "" && q.userRole != ""
    ensures q.memberId == p.memberId && q.userId == p.userId
    ensures q.tenantId == if p.tenantId != "" then p.tenantId else "00000000-0000-0000-0000-000000000001"
    ensures q.userRole == if p.userRole != "" then p.userRole else "staff"
  {
    p.(tenantId := if p.tenantId == "" then DEFAULT_TENANT_ID else p.tenantId,
       userRole := if p.userRole == "" then DEFAULT_USER_ROLE else p.userRole)
  }

  /** The transaction on a connection, with the session variables local to it. */
  datatype Tx = NoTx | Open(vars: Option<Params>)

  datatype Conn = Conn(owner: Option<nat>, tx: Tx)

  datatype Phase =
    | Arrived
    | BypassHandling               // handler runs without a connection
    | Acquired(conn: nat)
    | Begun(conn: nat)
    | Handling(conn: nat)
    | Committing(conn: nat)        // the handler has returned
    | Unwinding(conn: nat)         // deferred calls run
    | Finished

  datatype Deferred = CloseConn | RollbackTx

  datatype Request = Request(path: string, claims: Params, phase: Phase,
                             deferred: seq<Deferred>,   // calls still to run, the last one first
                             acquires: nat, releases: nat, returned: bool, commitTried: bool,
                             cancelled: bool,           // its context ended while it had a transaction
                             committed: bool)           // its transaction was committed

  datatype State = State(conns: map<nat, Conn>, requests: map<nat, Request>)

  datatype Step =
    | Arrive(r: nat, path: string, claims: Params)
    | Enter(r: nat, conn: Option<nat>)      // bypass, or acquire: None when the pool fails
    | Begin(r: nat, ok: bool)
    | SetConfig(r: nat, ok: bool)
    | HandlerEnds(r: nat, panics: bool)
    | Commit(r: nat, ok: bool, leftOpen: bool)   // a failed commit may or may not have ended the transaction
    | RunDeferred(r: nat)
    | Cancel(r: nat)                        // the request's context ends, at any time

  predicate Idle(s: State, c: nat) {
    c in s.conns ==> s.conns[c].owner == None
  }

  function Put(s: State, r: nat, q: Request, c: nat, conn: Conn): State {
    State(s.conns[c := conn], s.requests[r := q])
  }

  /** A step that is not enabled changes nothing. */
  function Next(s: State, step: Step): State {
    var r := step.r;
    if step.Arrive? then
      if r in s.requests then s
      else
        var q := Request(step.path, step.claims, Arrived, [], 0, 0, false, false, false, false);
        s.(requests := s.requests[r := q])
    else if r !in s.requests then s
    else
      var q := s.requests[r];
      match (step, q.phase)
      case (Enter(_, target), Arrived) =>
        if Bypasses(q.path) then s.(requests := s.requests[r := q.(phase := BypassHandling)])
        else if target.None? then s.(requests := s.requests[r := q.(phase := Finished)])
        else if !Idle(s, target.value) then s
        else
          var tx := if target.value in s.conns then s.conns[target.value].tx else NoTx;
          var q' := q.(phase := Acquired(target.value), acquires := q.acquires + 1,
                       deferred := q.deferred + [CloseConn]);
          Put(s, r, q', target.value, Conn(Some(r), tx))
      case (Begin(_, ok), Acquired(c)) =>
        if ok then
          Put(s, r, q.(phase := Begun(c), deferred := q.deferred + [RollbackTx]), c, Conn(Some(r), Open(None)))
        else s.(requests := s.requests[r := q.(phase := Unwinding(c))])
      case (SetConfig(_, ok), Begun(c)) =>
        if ok && c in s.conns && s.conns[c].tx.Open? then
          Put(s, r, q.(phase := Handling(c)), c, Conn(Some(r), Open(Some(Defaulted(q.claims)))))
        else s.(requests := s.requests[r := q.(phase := Unwinding(c))])
      case (HandlerEnds(_, panics), Handling(c)) =>
        if panics then s.(requests := s.requests[r := q.(phase := Unwinding(c))])
        else s.(requests := s.requests[r := q.(phase := Committing(c), returned := true)])
      case (HandlerEnds(_, panics), BypassHandling) =>
        s.(requests := s.requests[r := q.(phase := Finished, returned := !panics)])
      case (Commit(_, ok, leftOpen), Committing(c)) =>
        var done := ok && c in s.conns && s.conns[c].tx.Open?;
        var tx := if !done && leftOpen && c in s.conns then s.conns[c].tx else NoTx;
        Put(s, r, q.(phase := Unwinding(c), commitTried := true, committed := done), c, Conn(Some(r), tx))
      case (RunDeferred(_), Unwinding(c)) =>
        if q.deferred == [] then s.(requests := s.requests[r := q.(phase := Finished)])
        else
          var rest := Init(q.deferred);
          var q' := q.(deferred := rest, phase := if rest == [] then Finished else q.phase);
          var tx := if c in s.conns then s.conns[c].tx else NoTx;
          (match Last(q.deferred)
           case RollbackTx => Put(s, r, q', c, Conn(Some(r), NoTx))
           case CloseConn => Put(s, r, q'.(releases := q.releases + 1), c, Conn(None, tx)))
      case (Cancel(_), _) =>
        (match TxHolder(q.phase)
         case Some(c) => Put(s, r, q.(cancelled := true), c, Conn(Some(r), NoTx))
         case None => s)
      case _ => s
  }

  /** The connection whose transaction the library rolls back when the request's context ends. */
  function TxHolder(p: Phase): Option<nat> {
    match p
    case Begun(c) => Some(c)
    case Handling(c) => Some(c)
    case Committing(c) => Some(c)
    case Unwinding(c) => Some(c)
    case _ => None
  }

  const QUIET: State := State(map[], map[])

  function Reach(steps: seq<Step>): State {
    if steps == [] then QUIET else Next(Reach(steps[..|steps| - 1]), steps[|steps| - 1])
  }

  /** The connection a phase holds. */
  function Held(p: Phase): Option<nat> {
    match p
    case Acquired(c) => Some(c)
    case Begun(c) => Some(c)
    case Handling(c) => Some(c)
    case Committing(c) => Some(c)
    case Unwinding(c) => Some(c)
    case _ => None
  }

  /** The transaction of a request whose variables are set: its own, or over once its context has ended. */
  function OwnTx(q: Request): Tx {
    if q.cancelled then NoTx else Open(Some(Defaulted(q.claims)))
  }

  /** What has been deferred when a phase is reached. */
  predicate DeferredOk(p: Phase, deferred: seq<Deferred>) {
    match p
    case Acquired(_) => deferred == [CloseConn]
    case Begun(_) => deferred == [CloseConn, RollbackTx]
    case Handling(_) => deferred == [CloseConn, RollbackTx]
    case Committing(_) => deferred == [CloseConn, RollbackTx]
    case Unwinding(_) => deferred == [CloseConn] || deferred == [CloseConn, RollbackTx]
    case _ => deferred == []
  }

  /** What the held connection's transaction can be in each phase. */
  predicate TxOk(q: Request, tx: Tx) {
    match q.phase
    case Acquired(_) => tx == NoTx
    case Begun(_) => tx == if q.cancelled then NoTx else Open(None)
    case Handling(_) => tx == OwnTx(q)
    case Committing(_) => tx == OwnTx(q)
    case Unwinding(_) =>
      if q.cancelled || q.committed || q.deferred == [CloseConn] then tx == NoTx
      else tx == NoTx || tx == Open(None) || tx == OwnTx(q)
    case _ => true
  }

  /** How far the call has come, as far as its record tells. */
  predicate ProgressOk(q: Request) {
    && q.acquires <= 1 && DeferredOk(q.phase, q.deferred)
    && q.releases == (if q.phase == Finished then q.acquires else 0)
    && (Held(q.phase).Some? ==> q.acquires == 1 && !Bypasses(q.path))
    && (q.phase in {Arrived, BypassHandling} ==> q.acquires == 0)
    && (q.cancelled ==> TxHolder(q.phase).Some? || q.phase.Finished?)
    && (q.phase.Committing? ==> q.returned)
    && (q.committed ==> q.commitTried)
    && (q.commitTried ==> q.returned && (q.phase.Unwinding? || q.phase.Finished?))
    && (q.returned ==> q.phase.Committing? || q.phase.Unwinding? || q.phase.Finished?)
    && (q.returned && q.acquires == 1 ==> q.phase.Committing? || q.commitTried)
  }

  ghost predicate RequestOk(s: State, r: nat, q: Request) {
    && ProgressOk(q)
    && match Held(q.phase)
       case None => true
       case Some(c) => c in s.conns && s.conns[c].owner == Some(r) && TxOk(q, s.conns[c].tx)
  }

  ghost predicate ConnOk(s: State, c: nat, conn: Conn) {
    match conn.owner
    case None => conn.tx == NoTx
    case Some(r) => r in s.requests && Held(s.requests[r].phase) == Some(c)
  }

  ghost predicate Inv(s: State) {
    && (forall r :: r in s.requests ==> RequestOk(s, r, s.requests[r]))
    && (forall c :: c in s.conns ==> ConnOk(s, c, s.conns[c]))
  }

  lemma {:induction false} OwnOk(s: State, r: nat)
    requires Inv(s) && r in s.requests
    ensures RequestOk(s, r, s.requests[r])
  {
  }

  /** A request that keeps its connection, or has none, may change only its own record. */
  lemma {:induction false} RecordKeepsInv(s: State, r: nat, q: Request)
    requires Inv(s)
    requires Held(q.phase) == if r in s.requests then Held(s.requests[r].phase) else None
    requires RequestOk(s.(requests := s.requests[r := q]), r, q)
    ensures Inv(s.(requests := s.requests[r := q]))
  {
    var s' := s.(requests := s.requests[r := q]);
    forall r2 | r2 in s'.requests
      ensures RequestOk(s', r2, s'.requests[r2])
    {
      assert r2 != r ==> RequestOk(s, r2, s.requests[r2]);
    }
    forall c | c in s'.conns
      ensures ConnOk(s', c, s'.conns[c])
    {
      assert ConnOk(s, c, s.conns[c]);
    }
  }

  /** A request may also change the connection it holds, takes from the pool, or gives back clean. */
  lemma {:induction false} PutKeepsInv(s: State, r: nat, q: Request, c: nat, conn: Conn)
    requires Inv(s) && r in s.requests
    requires Held(s.requests[r].phase) == Some(c) || (Held(s.requests[r].phase) == None && Idle(s, c))
    requires if Held(q.phase) == Some(c) then conn.owner == Some(r)
             else Held(q.phase) == None && conn == Conn(None, NoTx)
    requires RequestOk(Put(s, r, q, c, conn), r, q)
    ensures Inv(Put(s, r, q, c, conn))
  {
    var s' := Put(s, r, q, c, conn);
    OwnOk(s, r);
    forall r2 | r2 in s'.requests
      ensures RequestOk(s', r2, s'.requests[r2])
    {
      if r2 != r {
        assert RequestOk(s, r2, s.requests[r2]);
        assert Held(s.requests[r2].phase) != Some(c);
      }
    }
    forall c2 | c2 in s'.conns
      ensures ConnOk(s', c2, s'.conns[c2])
    {
      assert c2 != c ==> ConnOk(s, c2, s.conns[c2]);
    }
  }

  lemma {:induction false} TakenIsClean(s: State, c: nat)
    requires Inv(s) && Idle(s, c) && c in s.conns
    ensures s.conns[c] == Conn(None, NoTx)
  {
    assert ConnOk(s, c, s.conns[c]);
  }

  lemma {:induction false} ProgressKept(s: State, step: Step)
    requires step.r in s.requests && ProgressOk(s.requests[step.r])
    ensures step.r in Next(s, step).requests && ProgressOk(Next(s, step).requests[step.r])
    ensures DeferredOk(s.requests[step.r].phase, s.requests[step.r].deferred)
    ensures s.requests[step.r].phase.Acquired? ==> !s.requests[step.r].cancelled
  {
    hide Bypasses, Defaulted, Idle;
  }

  lemma {:induction false} NextKeepsInv(s: State, step: Step)
    requires Inv(s)
    ensures Inv(Next(s, step))
  {
    hide Inv, Bypasses, Defaulted;
    var s', r := Next(s, step), step.r;
    if s' != s && r !in s.requests {
      RecordKeepsInv(s, r, s'.requests[r]);
    } else if s' != s {
      OwnOk(s, r);
      ProgressKept(s, step);
      hide ProgressOk;
      var q, q' := s.requests[r], s'.requests[r];
      if step.Enter? && Held(q'.phase).Some? {
        var c := q'.phase.conn;
        if c in s.conns {
          TakenIsClean(s, c);
        }
        PutKeepsInv(s, r, q', c, Conn(Some(r), NoTx));
      } else if step.Enter? || step.HandlerEnds? || ((step.Begin? || step.SetConfig?) && q'.phase.Unwinding?) {
        RecordKeepsInv(s, r, q');
      } else {
        var c := q.phase.conn;
        PutKeepsInv(s, r, q', c, s'.conns[c]);
      }
    }
  }

  lemma {:induction false} ReachableInv(steps: seq<Step>)
    ensures Inv(Reach(steps))
  {
    if steps != [] {
      ReachableInv(steps[..|steps| - 1]);
      NextKeepsInv(Reach(steps[..|steps| - 1]), steps[|steps| - 1]);
    }
  }

  // ----- What every interleaving keeps -----

  /** A finished request has released exactly what it acquired, at most one connection. */
  lemma {:induction false} ReleasedExactlyOnce(steps: seq<Step>, r: nat)
    requires r in Reach(steps).requests && Reach(steps).requests[r].phase == Finished
    ensures var q := Reach(steps).requests[r]; q.releases == q.acquires <= 1
    ensures forall c :: c in Reach(steps).conns ==> Reach(steps).conns[c].owner != Some(r)
  {
    ReachableInv(steps);
    var s := Reach(steps);
    assert RequestOk(s, r, s.requests[r]);
    forall c | c in s.conns
      ensures s.conns[c].owner != Some(r)
    {
      assert ConnOk(s, c, s.conns[c]);
    }
  }

  /** A connection in the pool has no open transaction, so no session variables are left on it. */
  lemma {:induction false} PooledConnectionsAreClean(steps: seq<Step>, c: nat)
    requires c in Reach(steps).conns && Reach(steps).conns[c].owner == None
    ensures Reach(steps).conns[c].tx == NoTx
  {
    ReachableInv(steps);
    assert ConnOk(Reach(steps), c, Reach(steps).conns[c]);
  }

  /** Whichever deferred call releases the connection, it comes last and hands back no open transaction. */
  lemma {:induction false} ReleaseIsClean(steps: seq<Step>, r: nat)
    requires r in Reach(steps).requests && Reach(steps).requests[r].phase.Unwinding?
    ensures var s, s' := Reach(steps), Next(Reach(steps), RunDeferred(r));
            var c, q' := s.requests[r].phase.conn, s'.requests[r];
            c in s'.conns &&
            if q'.releases > s.requests[r].releases then s'.conns[c] == Conn(None, NoTx) && q'.phase == Finished
            else s'.conns[c] == Conn(Some(r), NoTx) && q'.phase == s.requests[r].phase
  {
    hide Reach, Inv, Bypasses, Defaulted, OwnTx, Idle;
    ReachableInv(steps);
    OwnOk(Reach(steps), r);
  }

  /** A handler starts inside an open transaction with its own tenant and role, both non-empty. */
  lemma {:induction false} HandlerStartsInOwnTx(steps: seq<Step>, r: nat, ok: bool)
    requires r in Reach(steps).requests && Reach(steps).requests[r].phase.Begun?
    ensures var s, s' := Reach(steps), Next(Reach(steps), SetConfig(r, ok));
            var q, q' := s.requests[r], s'.requests[r];
            && (q'.phase.Handling? <==> ok && !q.cancelled)
            && (q'.phase.Handling? ==>
                  s'.conns[q.phase.conn] == Conn(Some(r), Open(Some(Defaulted(q.claims)))))
            && Defaulted(q.claims).tenantId != "" && Defaulted(q.claims).userRole != ""
  {
    ReachableInv(steps);
    OwnOk(Reach(steps), r);
    hide Reach, Inv, Bypasses;
  }

  /**
   While it runs, its connection is its own, and so is the transaction on it, open
   with its own tenant and role unless the request's context has ended meanwhile.
   */
  lemma {:induction false} HandlerSeesOwnTenant(steps: seq<Step>, r: nat)
    requires r in Reach(steps).requests && Reach(steps).requests[r].phase.Handling?
    ensures var s, q := Reach(steps), Reach(steps).requests[r];
            && q.phase.conn in s.conns
            && s.conns[q.phase.conn] == Conn(Some(r), if q.cancelled then NoTx else Open(Some(Defaulted(q.claims))))
            && Defaulted(q.claims).tenantId != "" && Defaulted(q.claims).userRole != ""
  {
    ReachableInv(steps);
    assert RequestOk(Reach(steps), r, Reach(steps).requests[r]);
  }

  /** In every phase, a connection carries no transaction or its holder's own, never another's. */
  lemma {:induction false} NeverAnothersTransaction(steps: seq<Step>, c: nat)
    requires c in Reach(steps).conns && Reach(steps).conns[c].tx.Open?
    ensures var s := Reach(steps);
            && s.conns[c].owner.Some? && s.conns[c].owner.value in s.requests
            && var q := s.requests[s.conns[c].owner.value];
               Held(q.phase) == Some(c) && !q.cancelled
               && s.conns[c].tx.vars in {None, Some(Defaulted(q.claims))}
  {
    ReachableInv(steps);
    var s := Reach(steps);
    hide Reach;
    assert ConnOk(s, c, s.conns[c]);
    var r := s.conns[c].owner.value;
    assert RequestOk(s, r, s.requests[r]);
  }

  /** A commit succeeds if and only if the library reports success on a transaction that is still open. */
  lemma {:induction false} CommitIffOpen(steps: seq<Step>, r: nat, ok: bool, leftOpen: bool)
    requires r in Reach(steps).requests && Reach(steps).requests[r].phase.Committing?
    ensures var s, s' := Reach(steps), Next(Reach(steps), Commit(r, ok, leftOpen));
            r in s'.requests && (s'.requests[r].committed <==> ok && !s.requests[r].cancelled)
  {
    ReachableInv(steps);
    OwnOk(Reach(steps), r);
    hide Reach, Inv, Bypasses, Defaulted, ProgressOk;
  }

  /** What is committed stays: the deferred rollback that follows finds no transaction. */
  lemma {:induction false} RollbackSparesCommitted(steps: seq<Step>, r: nat)
    requires r in Reach(steps).requests && Reach(steps).requests[r].phase.Unwinding?
    requires Reach(steps).requests[r].committed
    ensures var s, q := Reach(steps), Reach(steps).requests[r];
            q.returned && q.phase.conn in s.conns && s.conns[q.phase.conn].tx == NoTx
  {
    ReachableInv(steps);
    OwnOk(Reach(steps), r);
    hide Reach, Inv;
  }

  /** The five health paths, and only they, are handled without a connection. */
  lemma {:induction false} HealthPathsBypass(s: State, r: nat, conn: Option<nat>)
    requires r in s.requests && s.requests[r].phase == Arrived
    ensures var s' := Next(s, Enter(r, conn));
            && r in s'.requests
            && (s'.requests[r].phase == BypassHandling
                <==> s.requests[r].path in {"/healthz", "/health", "/health/detail", "/ready", "/metrics"})
            && (s'.requests[r].phase == BypassHandling ==> s'.conns == s.conns)
  {
  }

  /** No two requests hold the same connection at the same time. */
  lemma {:induction false} ConnectionsAreNotShared(steps: seq<Step>, r1: nat, r2: nat)
    requires r1 in Reach(steps).requests && r2 in Reach(steps).requests && r1 != r2
    requires Held(Reach(steps).requests[r1].phase).Some?
    ensures Held(Reach(steps).requests[r1].phase) != Held(Reach(steps).requests[r2].phase)
  {
    ReachableInv(steps);
    assert RequestOk(Reach(steps), r1, Reach(steps).requests[r1]);
    assert RequestOk(Reach(steps), r2, Reach(steps).requests[r2]);
  }

  /** Step `k` is the normal return of the request's handler. */
  predicate IsReturn(steps: seq<Step>, r: nat, k: nat)
    requires k < |steps|
  {
    && steps[k] == HandlerEnds(r, false) && r in Reach(steps[..k]).requests
    && (Reach(steps[..k]).requests[r].phase.Handling? || Reach(steps[..k]).requests[r].phase.BypassHandling?)
  }

  ghost predicate HandlerReturned(steps: seq<Step>, r: nat) {
    exists k: nat :: k < |steps| && IsReturn(steps, r, k)
  }

  lemma {:induction false} ReturnedSoFar(steps: seq<Step>, r: nat)
    requires steps != []
    ensures HandlerReturned(steps, r)
            <==> HandlerReturned(steps[..|steps| - 1], r) || IsReturn(steps, r, |steps| - 1)
  {
    hide Reach;
    var n := |steps| - 1;
    var before := steps[..n];
    forall k: nat | k < n
      ensures IsReturn(steps, r, k) == IsReturn(before, r, k)
    {
      assert before[..k] == steps[..k];
    }
    hide IsReturn;
    if HandlerReturned(before, r) {
      var k: nat :| k < n && IsReturn(before, r, k);
      assert IsReturn(steps, r, k);
    }
  }

  /** The record of a request says that its handler returned exactly when a step of the run was that return. */
  lemma {:induction false} ReturnedMeans(steps: seq<Step>, r: nat)
    ensures HandlerReturned(steps, r) <==> r in Reach(steps).requests && Reach(steps).requests[r].returned
  {
    if steps != [] {
      var before, step := steps[..|steps| - 1], steps[|steps| - 1];
      ReturnedMeans(before, r);
      ReturnedSoFar(steps, r);
      ReachableInv(before);
      if r in Reach(before).requests {
        OwnOk(Reach(before), r);
      }
      ReturnedStep(Reach(before), step, r);
      hide HandlerReturned, Next, Inv, RequestOk;
    }
  }

  lemma {:induction false} ReturnedStep(s: State, step: Step, r: nat)
    requires r in s.requests ==> ProgressOk(s.requests[r])
    ensures var s' := Next(s, step);
            (r in s'.requests && s'.requests[r].returned)
            <==> r in s.requests && (s.requests[r].returned
                                     || (step == HandlerEnds(r, false)
                                         && (s.requests[r].phase.Handling? || s.requests[r].phase.BypassHandling?)))
  {
    hide Bypasses, Defaulted, Idle, TxHolder;
  }

  /** Commit is tried only after a step in which the handler returned normally. */
  lemma {:induction false} CommitOnlyAfterReturn(steps: seq<Step>, r: nat)
    requires r in Reach(steps).requests && Reach(steps).requests[r].commitTried
    ensures Reach(steps).requests[r].returned && HandlerReturned(steps, r)
  {
    ReturnedMeans(steps, r);
    ReachableInv(steps);
    assert RequestOk(Reach(steps), r, Reach(steps).requests[r]);
  }

  /** A finished request that held a connection tried to commit exactly when its handler returned. */
  lemma {:induction false} CommitIffReturned(steps: seq<Step>, r: nat)
    requires r in Reach(steps).requests
    requires Reach(steps).requests[r].phase == Finished && Reach(steps).requests[r].acquires == 1
    ensures Reach(steps).requests[r].commitTried <==> HandlerReturned(steps, r)
  {
    ReturnedMeans(steps, r);
    ReachableInv(steps);
    assert RequestOk(Reach(steps), r, Reach(steps).requests[r]);
  }

  // ----- Every request can finish -----

  function Ahead(q: Request): nat {
    match q.phase
    case Arrived => 8
    case Acquired(_) => 7
    case Begun(_) => 6
    case Handling(_) => 5
    case Committing(_) => 4
    case Unwinding(_) => 1 + |q.deferred|
    case BypassHandling => 1
    case Finished => 0
  }

  /** The request's own next call. */
  function OwnStep(p: Phase, r: nat, ok: bool, leftOpen: bool, conn: Option<nat>): Step {
    match p
    case Arrived => Enter(r, conn)
    case Acquired(_) => Begin(r, ok)
    case Begun(_) => SetConfig(r, ok)
    case Handling(_) => HandlerEnds(r, !ok)
    case BypassHandling => HandlerEnds(r, !ok)
    case Committing(_) => Commit(r, ok, leftOpen)
    case Unwinding(_) => RunDeferred(r)
    case Finished => RunDeferred(r)
  }

  /** Whatever the others do and whichever calls fail, the request's own next call moves it towards the end. */
  lemma {:induction false} NextCallMovesOn(steps: seq<Step>, r: nat, ok: bool, leftOpen: bool, conn: Option<nat>)
    requires r in Reach(steps).requests && Reach(steps).requests[r].phase != Finished
    requires conn.Some? ==> Idle(Reach(steps), conn.value)
    ensures var s := Reach(steps);
            var s' := Next(s, OwnStep(s.requests[r].phase, r, ok, leftOpen, conn));
            r in s'.requests && Ahead(s'.requests[r]) < Ahead(s.requests[r])
  {
    hide Reach, Next, Ahead, OwnStep, Idle;
    ReachableInv(steps);
    OwnOk(Reach(steps), r);
    MovesOn(Reach(steps), r, ok, leftOpen, conn);
  }

  lemma {:induction false} MovesOn(s: State, r: nat, ok: bool, leftOpen: bool, conn: Option<nat>)
    requires r in s.requests && s.requests[r].phase != Finished
    requires DeferredOk(s.requests[r].phase, s.requests[r].deferred)
    requires conn.Some? ==> Idle(s, conn.value)
    ensures var s' := Next(s, OwnStep(s.requests[r].phase, r, ok, leftOpen, conn));
            r in s'.requests && Ahead(s'.requests[r]) < Ahead(s.requests[r])
  {
    hide Next, Ahead, OwnStep, DeferredOk, Idle;
    var p := s.requests[r].phase;
    if p.Arrived? || p.Acquired? || p.Begun? {
      MovesOnEarly(s, r, ok, leftOpen, conn);
    } else {
      MovesOnLate(s, r, ok, leftOpen, conn);
    }
  }

  lemma {:induction false} MovesOnEarly(s: State, r: nat, ok: bool, leftOpen: bool, conn: Option<nat>)
    requires r in s.requests && DeferredOk(s.requests[r].phase, s.requests[r].deferred)
    requires s.requests[r].phase.Arrived? || s.requests[r].phase.Acquired? || s.requests[r].phase.Begun?
    requires conn.Some? ==> Idle(s, conn.value)
    ensures var s' := Next(s, OwnStep(s.requests[r].phase, r, ok, leftOpen, conn));
            r in s'.requests && Ahead(s'.requests[r]) < Ahead(s.requests[r])
  {
    hide Bypasses, Defaulted, TxHolder;
  }

  lemma {:induction false} MovesOnLate(s: State, r: nat, ok: bool, leftOpen: bool, conn: Option<nat>)
    requires r in s.requests && s.requests[r].phase != Finished
    requires DeferredOk(s.requests[r].phase, s.requests[r].deferred)
    requires !s.requests[r].phase.Arrived? && !s.requests[r].phase.Acquired? && !s.requests[r].phase.Begun?
    ensures var s' := Next(s, OwnStep(s.requests[r].phase, r, ok, leftOpen, conn));
            r in s'.requests && Ahead(s'.requests[r]) < Ahead(s.requests[r])
  {
    hide Bypasses, Defaulted, TxHolder;
  }

  // ----- Choosing the querier -----

  /** The request context: what `WithConn` and `WithTx` put there. */
  datatype Context = Context(conn: Option<nat>, tx: Option<nat>)

  datatype Querier = OnTx(conn: nat) | OnConn(conn: nat) | OnPool

  function WithConn(ctx: Context, conn: nat): Context {
    ctx.(conn := Some(conn))
  }

  function WithTx(ctx: Context, conn: nat): Context {
    ctx.(tx := Some(conn))
  }

  function DB(ctx: Context): Querier {
    if ctx.tx.Some? then OnTx(ctx.tx.value)
    else if ctx.conn.Some? then OnConn(ctx.conn.value)
    else OnPool
  }

  /** A transaction in the context wins over a connection, and either over the pool. */
  lemma {:induction false} TransactionFirst(ctx: Context, c: nat)
    ensures DB(WithTx(ctx, c)) == OnTx(c)
    ensures DB(WithConn(ctx, c)) == if ctx.tx.Some? then DB(ctx) else OnConn(c)
    ensures DB(ctx) == OnPool <==> ctx == Context(None, None)
  {
  }

  /** The context a handler is called with. */
  function HandlerContext(p: Phase): Context {
    match p
    case Handling(c) => WithTx(WithConn(Context(None, None), c), c)
    case _ => Context(None, None)
  }

  /** Queries of a handler that runs in a transaction go to that one, which carries its own variables. */
  lemma {:induction false} HandlerQueriesOwnTransaction(steps: seq<Step>, r: nat)
    requires r in Reach(steps).requests
    ensures var s, q := Reach(steps), Reach(steps).requests[r];
            match DB(HandlerContext(q.phase))
            case OnTx(c) => c in s.conns && s.conns[c] == Conn(Some(r), OwnTx(q))
            case OnConn(_) => false
            case OnPool => !q.phase.Handling?
  {
    if Reach(steps).requests[r].phase.Handling? {
      ReachableInv(steps);
      assert RequestOk(Reach(steps), r, Reach(steps).requests[r]);
    }
  }
}
