/** The cancellation protocol of the QMP client (pkg/qmp/client.go) as an interleaving state
    machine: any number of requests, direct Close calls and context cancellations, one program
    counter for each, advancing one atomic step at a time in any order. */
module QmpClient {
  import opened Common

  type CallId = nat
  type CtxId = nat

  /** How `call` returned. */
  datatype Outcome =
    | CtxErr                // ctx.Err() was set before the request started
    | ClosedErr             // ErrClientClosed
    | FnResult(ok: bool)    // fn's own result; the callback was stopped
    | Cancelled             // the callback ran; ctx.Err()

  /** Where a request is in `call`; each name is the next thing it will do. */
  datatype Pc =
    | Lock | CheckCtx | CheckClosed | Register | InFn | Stop(ok: bool) | AwaitDone
    | Unlock(out: Outcome) | Returned(out: Outcome)

  /** The context.AfterFunc callback of a request. */
  datatype Callback = Unset | Armed | Running | Done | Stopped

  datatype Call = Call(ctx: CtxId, pc: Pc, cb: Callback)

  /** One invocation of Close: made directly, or by a request's callback. */
  datatype Closer = Direct(id: nat) | FromCall(call: CallId)

  datatype ClosePc = Enter | StoreFlag | CloseConn | LeaveOnce | Finished

  datatype Once = Idle | Busy(holder: Closer) | Spent

  datatype Client = Client(
    mu: Option<CallId>,
    closed: bool,
    connCloses: nat,               // how often conn.Close ran
    once: Once,
    winner: Option<Closer>,        // whose Close ran the once body
    calls: map<CallId, Call>,
    closers: map<Closer, ClosePc>,
    cancelled: set<CtxId>)

  const INIT := Client(None, false, 0, Idle, None, map[], map[], {})

  datatype Action =
    | Begin(k: CallId, ctx: CtxId) | AcquireMu(k: CallId) | CtxCheck(k: CallId) | ClosedCheck(k: CallId)
    | RegisterCb(k: CallId) | FnReturns(k: CallId, ok: bool) | StopCb(k: CallId) | ReceiveDone(k: CallId)
    | ReleaseMu(k: CallId)
    | Cancel(ctx: CtxId) | Fire(k: CallId) | SignalDone(k: CallId)
    | BeginClose(id: nat) | TakeOnce(w: Closer) | PassOnce(w: Closer) | StoreClosed(w: Closer)
    | CloseTransport(w: Closer) | FinishOnce(w: Closer)

  predicate At(s: Client, k: CallId, pc: Pc) {
    k in s.calls && s.calls[k].pc == pc
  }

  predicate ClosingAt(s: Client, w: Closer, pc: ClosePc) {
    w in s.closers && s.closers[w] == pc
  }

  predicate Enabled(s: Client, a: Action) {
    match a
    case Begin(k, _) => k !in s.calls
    case AcquireMu(k) => At(s, k, Lock) && s.mu == None
    case CtxCheck(k) => At(s, k, CheckCtx)
    case ClosedCheck(k) => At(s, k, CheckClosed)
    case RegisterCb(k) => At(s, k, Register)
    case FnReturns(k, _) => At(s, k, InFn)
    case StopCb(k) => k in s.calls && s.calls[k].pc.Stop?
    case ReceiveDone(k) => At(s, k, AwaitDone) && s.calls[k].cb == Done
    case ReleaseMu(k) => k in s.calls && s.calls[k].pc.Unlock?
    case Cancel(_) => true
    case Fire(k) => k in s.calls && s.calls[k].cb == Armed && s.calls[k].ctx in s.cancelled
    case SignalDone(k) => k in s.calls && s.calls[k].cb == Running && ClosingAt(s, FromCall(k), Finished)
    case BeginClose(id) => Direct(id) !in s.closers
    case TakeOnce(w) => ClosingAt(s, w, Enter) && s.once == Idle
    case PassOnce(w) => ClosingAt(s, w, Enter) && s.once == Spent
    case StoreClosed(w) => ClosingAt(s, w, StoreFlag)
    case CloseTransport(w) => ClosingAt(s, w, CloseConn)
    case FinishOnce(w) => ClosingAt(s, w, LeaveOnce)
  }

  function Goto(s: Client, k: CallId, pc: Pc): (s': Client)
    requires k in s.calls
  {
    s.(calls := s.calls[k := s.calls[k].(pc := pc)])
  }

  function Closing(s: Client, w: Closer, pc: ClosePc): (s': Client) {
    s.(closers := s.closers[w := pc])
  }

  function Apply(s: Client, a: Action): (s': Client)
    requires Enabled(s, a)
  {
    match a
    case Begin(k, ctx) => s.(calls := s.calls[k := Call(ctx, Lock, Unset)])
    case AcquireMu(k) => Goto(s, k, CheckCtx).(mu := Some(k))
    case CtxCheck(k) => Goto(s, k, if s.calls[k].ctx in s.cancelled then Unlock(CtxErr) else CheckClosed)
    case ClosedCheck(k) => Goto(s, k, if s.closed then Unlock(ClosedErr) else Register)
    case RegisterCb(k) => s.(calls := s.calls[k := s.calls[k].(pc := InFn, cb := Armed)])
    case FnReturns(k, ok) => Goto(s, k, Stop(ok))
    case StopCb(k) =>
      if s.calls[k].cb == Armed
      then s.(calls := s.calls[k := s.calls[k].(pc := Unlock(FnResult(s.calls[k].pc.ok)), cb := Stopped)])
      else Goto(s, k, AwaitDone)
    case ReceiveDone(k) => Goto(s, k, Unlock(Cancelled))
    case ReleaseMu(k) => Goto(s, k, Returned(s.calls[k].pc.out)).(mu := None)
    case Cancel(ctx) => s.(cancelled := s.cancelled + {ctx})
    case Fire(k) => Closing(s, FromCall(k), Enter).(calls := s.calls[k := s.calls[k].(cb := Running)])
    case SignalDone(k) => s.(calls := s.calls[k := s.calls[k].(cb := Done)])
    case BeginClose(id) => Closing(s, Direct(id), Enter)
    case TakeOnce(w) => Closing(s, w, StoreFlag).(once := Busy(w), winner := Some(w))
    case PassOnce(w) => Closing(s, w, Finished)
    case StoreClosed(w) => Closing(s, w, CloseConn).(closed := true)
    case CloseTransport(w) => Closing(s, w, LeaveOnce).(connCloses := s.connCloses + 1)
    case FinishOnce(w) => Closing(s, w, Finished).(once := Spent)
  }

  /** The state after performing the actions in order, if each is enabled in turn. */
  function Exec(s: Client, actions: seq<Action>): (r: Option<Client>)
    decreases |actions|
  {
    if actions == [] then Some(s)
    else if Enabled(s, actions[0]) then Exec(Apply(s, actions[0]), actions[1..])
    else None
  }

  // The invariant

  predicate Holding(pc: Pc) {
    !pc.Lock? && !pc.Returned?
  }

  predicate OutcomeFits(out: Outcome, cb: Callback) {
    match out
    case CtxErr | ClosedErr => cb == Unset
    case FnResult(_) => cb == Stopped
    case Cancelled => cb == Done
  }

  /** Which callback states go with which program counter. */
  predicate CallbackFits(c: Call) {
    match c.pc
    case Lock | CheckCtx | CheckClosed | Register => c.cb == Unset
    case InFn | Stop(_) => c.cb in {Armed, Running, Done}
    case AwaitDone => c.cb in {Running, Done}
    case Unlock(out) => OutcomeFits(out, c.cb)
    case Returned(out) => OutcomeFits(out, c.cb)
  }

  ghost predicate CallInv(s: Client, k: CallId)
    requires k in s.calls
  {
    var c := s.calls[k];
    && (Holding(c.pc) <==> s.mu == Some(k))
    && CallbackFits(c)
    && (c.cb in {Running, Done} <==> FromCall(k) in s.closers)
    && (c.cb in {Running, Done} ==> c.ctx in s.cancelled)
    && (c.cb == Done ==> ClosingAt(s, FromCall(k), Finished))
  }

  /** How far the once body has come. */
  predicate BodyFits(s: Client, pc: ClosePc) {
    match pc
    case StoreFlag => !s.closed && s.connCloses == 0
    case CloseConn => s.closed && s.connCloses == 0
    case LeaveOnce => s.closed && s.connCloses == 1
    case _ => false
  }

  ghost predicate OnceInv(s: Client) {
    match s.once
    case Idle => !s.closed && s.connCloses == 0 && s.winner == None
    case Busy(w) =>
      s.winner == Some(w) && w in s.closers && BodyFits(s, s.closers[w])
    case Spent => s.closed && s.connCloses == 1 && s.winner.Some? && ClosingAt(s, s.winner.value, Finished)
  }

  ghost predicate CloserInv(s: Client, w: Closer)
    requires w in s.closers
  {
    && (w.FromCall? ==> w.call in s.calls)
    && (s.closers[w] in {StoreFlag, CloseConn, LeaveOnce} ==> s.once == Busy(w))
    && (s.closers[w] == Finished ==> s.once == Spent)
  }

  ghost predicate Inv(s: Client) {
    && (s.mu.Some? ==> s.mu.value in s.calls)
    && (forall k | k in s.calls :: CallInv(s, k))
    && (forall w | w in s.closers :: CloserInv(s, w))
    && OnceInv(s)
  }

  /** A step of Close itself. */
  predicate CloseAction(a: Action) {
    a.TakeOnce? || a.PassOnce? || a.StoreClosed? || a.CloseTransport? || a.FinishOnce?
  }

  /** A step of a request, or of its callback outside Close. */
  predicate CallAction(a: Action) {
    !CloseAction(a) && !a.Cancel? && !a.BeginClose?
  }

  /** A request's own step keeps its invariant. */
  lemma OwnStep(s: Client, a: Action)
    requires Enabled(s, a) && CallAction(a)
    requires if a.k in s.calls then CallInv(s, a.k) else FromCall(a.k) !in s.closers && s.mu != Some(a.k)
    ensures a.k in Apply(s, a).calls && CallInv(Apply(s, a), a.k)
  {
  }

  /** Another request's step keeps it too: it cannot release a mutex it does not hold. */
  lemma OtherCallStep(s: Client, a: Action, k: CallId)
    requires Enabled(s, a) && k in s.calls && CallInv(s, k)
    requires CallAction(a) && a.k != k && (a.k in s.calls ==> CallInv(s, a.k))
    ensures k in Apply(s, a).calls && CallInv(Apply(s, a), k)
  {
  }

  /** Steps of Close and cancellations leave requests and mutex alone, and a Close that has finished finished. */
  lemma OutsideLeaves(s: Client, a: Action)
    requires Enabled(s, a) && !CallAction(a)
    ensures var s' := Apply(s, a);
            && s'.calls == s.calls && s'.mu == s.mu && s.cancelled <= s'.cancelled
            && forall k: CallId ::
                 && (FromCall(k) in s'.closers <==> FromCall(k) in s.closers)
                 && (ClosingAt(s, FromCall(k), Finished) ==> ClosingAt(s', FromCall(k), Finished))
  {
  }

  lemma OutsideStep(s: Client, a: Action, k: CallId)
    requires Enabled(s, a) && k in s.calls && CallInv(s, k) && !CallAction(a)
    ensures k in Apply(s, a).calls && CallInv(Apply(s, a), k)
  {
    OutsideLeaves(s, a);
  }

  lemma CloserInvPreserved(s: Client, a: Action, w: Closer)
    requires Enabled(s, a) && w in Apply(s, a).closers
    requires w in s.closers ==> CloserInv(s, w)
    requires CloseAction(a) ==> CloserInv(s, a.w)
    ensures CloserInv(Apply(s, a), w)
  {
  }

  /** Steps of Close take the once from one stage to the next. */
  lemma OnceAdvances(s: Client, a: Action)
    requires Enabled(s, a) && OnceInv(s) && CloseAction(a) && CloserInv(s, a.w)
    ensures OnceInv(Apply(s, a))
  {
  }

  /** No other step touches it. */
  lemma OnceUntouched(s: Client, a: Action)
    requires Enabled(s, a) && OnceInv(s) && !CloseAction(a)
    requires a.Fire? ==> CallInv(s, a.k)
    ensures OnceInv(Apply(s, a))
  {
  }

  lemma CallsPreserved(s: Client, a: Action, k: CallId)
    requires Inv(s) && Enabled(s, a) && k in Apply(s, a).calls
    ensures CallInv(Apply(s, a), k)
  {
    if CallAction(a) && a.k in s.calls {
      assert CallInv(s, a.k);
    }
    if CallAction(a) && a.k == k {
      assert FromCall(k) in s.closers ==> CloserInv(s, FromCall(k));
      OwnStep(s, a);
    } else if CallAction(a) {
      OtherCallStep(s, a, k);
    } else {
      OutsideStep(s, a, k);
    }
  }

  lemma OncePreserved(s: Client, a: Action)
    requires Inv(s) && Enabled(s, a)
    ensures OnceInv(Apply(s, a))
  {
    if CloseAction(a) {
      assert CloserInv(s, a.w);
      OnceAdvances(s, a);
    } else {
      OnceUntouched(s, a);
    }
  }

  lemma AllCallsPreserved(s: Client, a: Action)
    requires Inv(s) && Enabled(s, a)
    ensures forall k | k in Apply(s, a).calls :: CallInv(Apply(s, a), k)
  {
    forall k | k in Apply(s, a).calls
      ensures CallInv(Apply(s, a), k)
    {
      CallsPreserved(s, a, k);
    }
  }

  lemma AllClosersPreserved(s: Client, a: Action)
    requires Inv(s) && Enabled(s, a)
    ensures forall w | w in Apply(s, a).closers :: CloserInv(Apply(s, a), w)
  {
    forall w | w in Apply(s, a).closers
      ensures CloserInv(Apply(s, a), w)
    {
      CloserInvPreserved(s, a, w);
    }
  }

  lemma InvPreserved(s: Client, a: Action)
    requires Inv(s) && Enabled(s, a)
    ensures Inv(Apply(s, a))
  {
    AllCallsPreserved(s, a);
    AllClosersPreserved(s, a);
    OncePreserved(s, a);
  }

  lemma {:induction false} InvAlong(s: Client, actions: seq<Action>)
    requires Inv(s) && Exec(s, actions).Some?
    ensures Inv(Exec(s, actions).value)
    decreases |actions|
  {
    if actions != [] {
      InvPreserved(s, actions[0]);
      InvAlong(Apply(s, actions[0]), actions[1..]);
    }
  }

  ghost predicate Reachable(s: Client) {
    exists actions :: Exec(INIT, actions) == Some(s)
  }

  lemma ReachableInv(s: Client)
    requires Reachable(s)
    ensures Inv(s)
  {
    var actions :| Exec(INIT, actions) == Some(s);
    InvAlong(INIT, actions);
  }

  // Theorems about every reachable state

  predicate Requesting(pc: Pc) {
    pc.InFn? || pc.Stop? || pc.AwaitDone?
  }

  /** At most one request uses the connection at a time, and the transport closes at most once. */
  lemma MutualExclusion(s: Client, j: CallId, k: CallId)
    requires Reachable(s) && j in s.calls && k in s.calls
    ensures Requesting(s.calls[j].pc) && Requesting(s.calls[k].pc) ==> j == k
    ensures s.connCloses <= 1
    ensures s.connCloses == 1 ==> s.closed
  {
    ReachableInv(s);
    assert CallInv(s, j) && CallInv(s, k);
  }

  /** No callback of one request is armed or running while another holds the mutex, or while no
      request is in progress at all. */
  lemma NoStaleCallback(s: Client, j: CallId)
    requires Reachable(s) && j in s.calls && s.mu != Some(j)
    ensures s.calls[j].cb in {Unset, Done, Stopped}
    ensures FromCall(j) in s.closers ==> ClosingAt(s, FromCall(j), Finished)
  {
    ReachableInv(s);
    assert CallInv(s, j);
  }

  /** So the step that closes the client is either a direct Close or the callback of the very
      request that holds the mutex. */
  lemma OnlyCurrentRequestCloses(s: Client, a: Action)
    requires Reachable(s) && Enabled(s, a) && !s.closed && Apply(s, a).closed
    ensures a.StoreClosed? && (a.w.Direct? || s.mu == Some(a.w.call))
  {
    ReachableInv(s);
    if a.w.FromCall? && s.mu != Some(a.w.call) {
      NoStaleCallback(s, a.w.call);
    }
  }

  /** A request that returns because its callback started does so after Close finished: the flag is
      set, the transport closed, the context cancelled. One that returns fn's own result has a
      stopped callback that did not and cannot close the client. */
  lemma ReturnedMeaning(s: Client, k: CallId)
    requires Reachable(s) && k in s.calls && s.calls[k].pc.Returned?
    ensures s.calls[k].pc.out == Cancelled ==>
              s.closed && s.connCloses == 1 && s.once == Spent && s.calls[k].ctx in s.cancelled && s.calls[k].cb == Done
    ensures s.calls[k].pc.out != Cancelled ==>
              s.calls[k].cb in {Unset, Stopped} && FromCall(k) !in s.closers && s.winner != Some(FromCall(k))
  {
    ReachableInv(s);
    assert CallInv(s, k);
  }

  // Theorems about every continuation of a run

  lemma {:induction false} ExecAppend(s: Client, first: seq<Action>, rest: seq<Action>)
    requires Exec(s, first).Some?
    ensures Exec(s, first + rest) == Exec(Exec(s, first).value, rest)
    decreases |first|
  {
    if first == [] {
      assert first + rest == rest;
    } else {
      assert (first + rest)[0] == first[0] && (first + rest)[1..] == first[1..] + rest;
      ExecAppend(Apply(s, first[0]), first[1..], rest);
    }
  }

  lemma ReachableAlong(s: Client, actions: seq<Action>)
    requires Reachable(s) && Exec(s, actions).Some?
    ensures Reachable(Exec(s, actions).value)
  {
    var first :| Exec(INIT, first) == Some(s);
    ExecAppend(INIT, first, actions);
  }

  /** `closed` never goes back to false, and a returned request stays returned as it was. */
  lemma {:induction false} Monotone(s: Client, actions: seq<Action>)
    requires Reachable(s) && Exec(s, actions).Some?
    ensures s.closed ==> Exec(s, actions).value.closed
    ensures forall k | k in s.calls && s.calls[k].pc.Returned? ::
              k in Exec(s, actions).value.calls && Exec(s, actions).value.calls[k].pc == s.calls[k].pc
    decreases |actions|
  {
    if actions != [] {
      var s' := Apply(s, actions[0]);
      assert Exec(s, [actions[0]]) == Some(s');
      ReachableAlong(s, [actions[0]]);
      Monotone(s', actions[1..]);
    }
  }

  /** Once a request has returned fn's own result, nothing that happens later, including the
      cancellation of its context, makes its callback run or close the client. */
  lemma FinishedRequestNeverCloses(s: Client, k: CallId, actions: seq<Action>)
    requires Reachable(s) && k in s.calls && s.calls[k].pc.Returned? && s.calls[k].pc.out.FnResult?
    requires Exec(s, actions).Some?
    ensures var s' := Exec(s, actions).value;
            k in s'.calls && s'.calls[k].cb == Stopped && FromCall(k) !in s'.closers && s'.winner != Some(FromCall(k))
  {
    Monotone(s, actions);
    ReachableAlong(s, actions);
    var s' := Exec(s, actions).value;
    ReachableInv(s');
    assert CallInv(s', k);
    ReturnedMeaning(s', k);
  }

  /** A request that has not yet passed the closed check. */
  predicate Unchecked(pc: Pc) {
    pc in {Lock, CheckCtx, CheckClosed, Unlock(CtxErr), Unlock(ClosedErr), Returned(CtxErr), Returned(ClosedErr)}
  }

  /** After the client is closed no request that had not passed the closed check ever runs fn. */
  lemma {:induction false} NoRequestAfterClose(s: Client, k: CallId, actions: seq<Action>)
    requires Reachable(s) && s.closed && (k in s.calls ==> Unchecked(s.calls[k].pc))
    requires Exec(s, actions).Some?
    ensures k in Exec(s, actions).value.calls ==> Unchecked(Exec(s, actions).value.calls[k].pc)
    decreases |actions|
  {
    if actions != [] {
      var s' := Apply(s, actions[0]);
      assert Exec(s, [actions[0]]) == Some(s');
      ReachableAlong(s, [actions[0]]);
      NoRequestAfterClose(s', k, actions[1..]);
    }
  }

  /** A request that has not passed the context check, or did not get past it. */
  predicate NotStarted(pc: Pc) {
    pc in {Lock, CheckCtx, Unlock(CtxErr), Returned(CtxErr)}
  }

  /** Once its context has ended, a request that had not passed the context check never runs fn. */
  lemma {:induction false} NoRequestAfterCancel(s: Client, k: CallId, actions: seq<Action>)
    requires k in s.calls && s.calls[k].ctx in s.cancelled && NotStarted(s.calls[k].pc)
    requires Exec(s, actions).Some?
    ensures k in Exec(s, actions).value.calls && NotStarted(Exec(s, actions).value.calls[k].pc)
    decreases |actions|
  {
    if actions != [] {
      NoRequestAfterCancel(Apply(s, actions[0]), k, actions[1..]);
    }
  }

  // The outcome of a request from the order of events

  /** Action i is the context check of request k, and its context had ended by then or not. */
  predicate CtxFoundAt(actions: seq<Action>, i: nat, k: CallId, ctx: CtxId, ended: bool) {
    i < |actions| && actions[i] == CtxCheck(k) && (Cancel(ctx) in actions[..i] <==> ended)
  }

  ghost predicate CtxFound(actions: seq<Action>, k: CallId, ctx: CtxId, ended: bool) {
    exists i :: CtxFoundAt(actions, i, k, ctx, ended)
  }

  /** Some Close has set the flag. */
  predicate FlagSet(actions: seq<Action>) {
    exists j | 0 <= j < |actions| :: actions[j].StoreClosed?
  }

  /** Action i is the closed check of request k, and the flag was set by then or not. */
  predicate FlagFoundAt(actions: seq<Action>, i: nat, k: CallId, closed: bool) {
    i < |actions| && actions[i] == ClosedCheck(k) && (FlagSet(actions[..i]) <==> closed)
  }

  ghost predicate FlagFound(actions: seq<Action>, k: CallId, closed: bool) {
    exists i :: FlagFoundAt(actions, i, k, closed)
  }

  lemma CtxFoundStep(actions: seq<Action>, a: Action, k: CallId, ctx: CtxId, ended: bool)
    ensures CtxFound(actions + [a], k, ctx, ended) <==>
              CtxFound(actions, k, ctx, ended) || (a == CtxCheck(k) && (Cancel(ctx) in actions <==> ended))
  {
    var all := actions + [a];
    forall i: nat | i < |actions|
      ensures CtxFoundAt(all, i, k, ctx, ended) <==> CtxFoundAt(actions, i, k, ctx, ended)
    {
      assert all[..i] == actions[..i];
    }
    assert all[..|actions|] == actions;
    assert CtxFoundAt(all, |actions|, k, ctx, ended) <==> a == CtxCheck(k) && (Cancel(ctx) in actions <==> ended);
    if CtxFound(actions, k, ctx, ended) {
      var i :| CtxFoundAt(actions, i, k, ctx, ended);
      assert CtxFoundAt(all, i, k, ctx, ended);
    }
  }

  lemma FlagFoundStep(actions: seq<Action>, a: Action, k: CallId, closed: bool)
    ensures FlagFound(actions + [a], k, closed) <==>
              FlagFound(actions, k, closed) || (a == ClosedCheck(k) && (FlagSet(actions) <==> closed))
  {
    var all := actions + [a];
    forall i: nat | i < |actions|
      ensures FlagFoundAt(all, i, k, closed) <==> FlagFoundAt(actions, i, k, closed)
    {
      assert all[..i] == actions[..i];
    }
    assert all[..|actions|] == actions;
    assert FlagFoundAt(all, |actions|, k, closed) <==> a == ClosedCheck(k) && (FlagSet(actions) <==> closed);
    if FlagFound(actions, k, closed) {
      var i :| FlagFoundAt(actions, i, k, closed);
      assert FlagFoundAt(all, i, k, closed);
    }
  }

  predicate Ends(pc: Pc, out: Outcome) {
    pc in {Unlock(out), Returned(out)}
  }

  /** What the actions so far say about the shared state. */
  ghost predicate Witnessed(actions: seq<Action>, s: Client) {
    && (forall ctx :: ctx in s.cancelled <==> Cancel(ctx) in actions)
    && (s.closed <==> FlagSet(actions))
  }

  /** What they say about the two checks of one request. */
  ghost predicate ChecksTraced(actions: seq<Action>, k: CallId, c: Call) {
    && (CtxFound(actions, k, c.ctx, true) <==> Ends(c.pc, CtxErr))
    && (CtxFound(actions, k, c.ctx, false) <==> !NotStarted(c.pc))
    && (FlagFound(actions, k, true) <==> Ends(c.pc, ClosedErr))
    && (FlagFound(actions, k, false) <==> !Unchecked(c.pc))
  }

  /** And about the rest of it. */
  ghost predicate RestTraced(actions: seq<Action>, k: CallId, c: Call) {
    && Begin(k, c.ctx) in actions && (Fire(k) in actions <==> c.cb in {Running, Done})
    && (forall ok | c.pc == Stop(ok) || Ends(c.pc, FnResult(ok)) :: FnReturns(k, ok) in actions)
  }

  ghost predicate Traced(actions: seq<Action>, s: Client, k: CallId)
    requires k in s.calls
  {
    ChecksTraced(actions, k, s.calls[k]) && RestTraced(actions, k, s.calls[k])
  }

  /** A request that has not begun has done nothing. */
  predicate Untouched(actions: seq<Action>, k: CallId) {
    CtxCheck(k) !in actions && ClosedCheck(k) !in actions && Fire(k) !in actions
  }

  ghost predicate History(actions: seq<Action>, s: Client) {
    && Witnessed(actions, s)
    && forall k :: if k in s.calls then Traced(actions, s, k) else Untouched(actions, k)
  }

  lemma WitnessedStep(actions: seq<Action>, s: Client, a: Action)
    requires Witnessed(actions, s) && Enabled(s, a)
    ensures Witnessed(actions + [a], Apply(s, a))
  {
    var all := actions + [a];
    assert forall b :: b in all <==> b in actions || b == a;
    assert all[|actions|] == a;
    if FlagSet(actions) {
      var j :| 0 <= j < |actions| && actions[j].StoreClosed?;
      assert all[j].StoreClosed?;
    }
  }

  /** A step that is not one of its checks leaves a request on its side of both. */
  lemma OtherwiseUnchecked(s: Client, a: Action, k: CallId)
    requires Enabled(s, a) && k in s.calls && a != CtxCheck(k) && a != ClosedCheck(k)
    requires CallInv(s, k)
    ensures var c, c' := s.calls[k], Apply(s, a).calls[k];
            && c'.ctx == c.ctx && (Ends(c'.pc, CtxErr) <==> Ends(c.pc, CtxErr))
            && (Ends(c'.pc, ClosedErr) <==> Ends(c.pc, ClosedErr))
            && (NotStarted(c'.pc) <==> NotStarted(c.pc)) && (Unchecked(c'.pc) <==> Unchecked(c.pc))
  {
  }

  lemma ChecksStep(actions: seq<Action>, s: Client, a: Action, k: CallId)
    requires Witnessed(actions, s) && Enabled(s, a)
    requires k in s.calls && CallInv(s, k) && ChecksTraced(actions, k, s.calls[k])
    ensures ChecksTraced(actions + [a], k, Apply(s, a).calls[k])
  {
    var ctx := s.calls[k].ctx;
    CtxFoundStep(actions, a, k, ctx, true);
    CtxFoundStep(actions, a, k, ctx, false);
    FlagFoundStep(actions, a, k, true);
    FlagFoundStep(actions, a, k, false);
    if a != CtxCheck(k) && a != ClosedCheck(k) {
      OtherwiseUnchecked(s, a, k);
    }
  }

  lemma RestMoves(s: Client, a: Action, k: CallId)
    requires Enabled(s, a) && k in s.calls && CallbackFits(s.calls[k])
    ensures var c, c' := s.calls[k], Apply(s, a).calls[k];
            && c'.ctx == c.ctx && (c'.cb in {Running, Done} <==> c.cb in {Running, Done} || a == Fire(k))
            && (forall ok | c'.pc == Stop(ok) || Ends(c'.pc, FnResult(ok)) ::
                  c.pc == Stop(ok) || Ends(c.pc, FnResult(ok)) || a == FnReturns(k, ok))
  {
  }

  lemma RestStep(actions: seq<Action>, s: Client, a: Action, k: CallId)
    requires Enabled(s, a) && k in s.calls && CallInv(s, k) && RestTraced(actions, k, s.calls[k])
    ensures RestTraced(actions + [a], k, Apply(s, a).calls[k])
  {
    assert forall b :: b in actions + [a] <==> b in actions || b == a;
    RestMoves(s, a, k);
  }

  lemma BeginTraced(actions: seq<Action>, k: CallId, ctx: CtxId)
    requires Untouched(actions, k)
    ensures ChecksTraced(actions + [Begin(k, ctx)], k, Call(ctx, Lock, Unset))
    ensures RestTraced(actions + [Begin(k, ctx)], k, Call(ctx, Lock, Unset))
  {
    var a := Begin(k, ctx);
    assert forall b :: b in actions + [a] <==> b in actions || b == a;
    assert forall i: nat, e: bool :: !CtxFoundAt(actions + [a], i, k, ctx, e) && !FlagFoundAt(actions + [a], i, k, e);
  }

  lemma TracedStep(actions: seq<Action>, s: Client, a: Action, k: CallId)
    requires Inv(s) && Witnessed(actions, s) && Enabled(s, a) && k in Apply(s, a).calls
    requires if k in s.calls then Traced(actions, s, k) else Untouched(actions, k)
    ensures Traced(actions + [a], Apply(s, a), k)
  {
    if k in s.calls {
      assert CallInv(s, k);
      ChecksStep(actions, s, a, k);
      RestStep(actions, s, a, k);
    } else {
      BeginTraced(actions, k, a.ctx);
    }
  }

  lemma HistoryStep(actions: seq<Action>, s: Client, a: Action)
    requires Inv(s) && History(actions, s) && Enabled(s, a)
    ensures History(actions + [a], Apply(s, a))
  {
    WitnessedStep(actions, s, a);
    forall k
      ensures if k in Apply(s, a).calls then Traced(actions + [a], Apply(s, a), k) else Untouched(actions + [a], k)
    {
      if k in Apply(s, a).calls {
        TracedStep(actions, s, a, k);
      } else {
        assert k !in s.calls && forall b :: b in actions + [a] <==> b in actions || b == a;
      }
    }
  }

  lemma {:induction false} HistoryAlong(actions: seq<Action>, n: nat)
    requires Exec(INIT, actions).Some? && n <= |actions|
    ensures Exec(INIT, actions[..n]).Some? && Inv(Exec(INIT, actions[..n]).value)
    ensures History(actions[..n], Exec(INIT, actions[..n]).value)
  {
    if n == 0 {
      assert History([], INIT);
    } else {
      HistoryAlong(actions, n - 1);
      var early := actions[..n - 1];
      var s := Exec(INIT, early).value;
      assert actions == early + actions[n - 1..] && actions[..n] == early + [actions[n - 1]];
      ExecAppend(INIT, early, actions[n - 1..]);
      ExecAppend(INIT, early, [actions[n - 1]]);
      InvPreserved(s, actions[n - 1]);
      HistoryStep(early, s, actions[n - 1]);
    }
  }

  lemma OutcomeOf(actions: seq<Action>, k: CallId, c: Call)
    requires c.pc.Returned? && CallbackFits(c) && ChecksTraced(actions, k, c) && RestTraced(actions, k, c)
    ensures var out := c.pc.out;
            && Begin(k, c.ctx) in actions
            && (out == CtxErr <==> CtxFound(actions, k, c.ctx, true))
            && (out == ClosedErr <==> CtxFound(actions, k, c.ctx, false) && FlagFound(actions, k, true))
            && (out == Cancelled <==> Fire(k) in actions)
            && (out.FnResult? <==>
                  CtxFound(actions, k, c.ctx, false) && FlagFound(actions, k, false) && Fire(k) !in actions)
            && (forall ok | out == FnResult(ok) :: FnReturns(k, ok) in actions)
  {
  }

  /** How a request ends is decided by the order of events alone: by ctx.Err() before it starts if and only if its
      context had ended when it was checked; as closed if and only if it had not and a Close had set the flag when
      that was checked; by cancellation if and only if its callback started; else with the result fn gave. */
  lemma OutcomeExactly(actions: seq<Action>, k: CallId)
    requires Exec(INIT, actions).Some?
    requires k in Exec(INIT, actions).value.calls && Exec(INIT, actions).value.calls[k].pc.Returned?
    ensures var c := Exec(INIT, actions).value.calls[k];
            var out := c.pc.out;
            && Begin(k, c.ctx) in actions
            && (out == CtxErr <==> CtxFound(actions, k, c.ctx, true))
            && (out == ClosedErr <==> CtxFound(actions, k, c.ctx, false) && FlagFound(actions, k, true))
            && (out == Cancelled <==> Fire(k) in actions)
            && (out.FnResult? <==>
                  CtxFound(actions, k, c.ctx, false) && FlagFound(actions, k, false) && Fire(k) !in actions)
            && (forall ok | out == FnResult(ok) :: FnReturns(k, ok) in actions)
  {
    HistoryAlong(actions, |actions|);
    assert actions[..|actions|] == actions;
    var s := Exec(INIT, actions).value;
    assert CallInv(s, k) && Traced(actions, s, k);
    OutcomeOf(actions, k, s.calls[k]);
  }

  /** A context has ended only if it was cancelled: a request whose context never is, on a client nobody closes
      before its check, returns what fn returns. */
  lemma LiveRequestRuns(actions: seq<Action>, k: CallId)
    requires Exec(INIT, actions).Some?
    requires k in Exec(INIT, actions).value.calls && Exec(INIT, actions).value.calls[k].pc.Returned?
    requires Cancel(Exec(INIT, actions).value.calls[k].ctx) !in actions && !FlagFound(actions, k, true)
    ensures Exec(INIT, actions).value.calls[k].pc.out.FnResult?
  {
    OutcomeExactly(actions, k);
    HistoryAlong(actions, |actions|);
    assert actions[..|actions|] == actions;
    var s := Exec(INIT, actions).value;
    assert CallInv(s, k) && Traced(actions, s, k);
  }

  // Close makes progress without the request mutex

  /** What is left of the once body for the closer running it. */
  function BodyRest(w: Closer, pc: ClosePc): (actions: seq<Action>)
    requires pc in {StoreFlag, CloseConn, LeaveOnce}
  {
    match pc
    case StoreFlag => [StoreClosed(w), CloseTransport(w), FinishOnce(w)]
    case CloseConn => [CloseTransport(w), FinishOnce(w)]
    case _ => [FinishOnce(w)]
  }

  /** A schedule that lets closer w return. */
  function CloseSchedule(s: Client, w: Closer): (actions: seq<Action>)
    requires w in s.closers
  {
    match s.closers[w]
    case Finished => []
    case Enter =>
      (match s.once
       case Idle => [TakeOnce(w)] + BodyRest(w, StoreFlag)
       case Spent => [PassOnce(w)]
       case Busy(v) =>
         if v in s.closers && s.closers[v] in {StoreFlag, CloseConn, LeaveOnce}
         then BodyRest(v, s.closers[v]) + [PassOnce(w)] else [])
    case pc => BodyRest(w, pc)
  }

  lemma {:induction false} BodyCompletes(s: Client, v: Closer)
    requires Inv(s) && v in s.closers && s.closers[v] in {StoreFlag, CloseConn, LeaveOnce}
    ensures var r := Exec(s, BodyRest(v, s.closers[v]));
            && r.Some? && r.value.once == Spent && r.value.closers == s.closers[v := Finished]
            && r.value.mu == s.mu && r.value.calls == s.calls && r.value.closed && r.value.connCloses == 1
    decreases if s.closers[v] == StoreFlag then 2 else if s.closers[v] == CloseConn then 1 else 0
  {
    var pc := s.closers[v];
    var a := BodyRest(v, pc)[0];
    var s' := Apply(s, a);
    InvPreserved(s, a);
    if pc == LeaveOnce {
      assert BodyRest(v, pc)[1..] == [];
    } else {
      BodyCompletes(s', v);
      assert BodyRest(v, pc)[1..] == BodyRest(v, s'.closers[v]);
      assert s'.closers[v := Finished] == s.closers[v := Finished];
    }
  }

  /** The schedule is made of steps of Close alone, can be run, and ends with w returned and the
      transport closed once, whoever holds the request mutex. */
  ghost predicate ClosesBy(s: Client, w: Closer, actions: seq<Action>) {
    && (forall a | a in actions :: CloseAction(a))
    && var r := Exec(s, actions);
    && r.Some? && ClosingAt(r.value, w, Finished) && r.value.closed && r.value.connCloses == 1
    && r.value.mu == s.mu && r.value.calls == s.calls
  }

  lemma CloseFromIdle(s: Client, w: Closer)
    requires Inv(s) && w in s.closers && s.closers[w] == Enter && s.once.Idle?
    ensures ClosesBy(s, w, CloseSchedule(s, w))
  {
    InvPreserved(s, TakeOnce(w));
    BodyCompletes(Apply(s, TakeOnce(w)), w);
    assert ([TakeOnce(w)] + BodyRest(w, StoreFlag))[1..] == BodyRest(w, StoreFlag);
  }

  lemma CloseFromBusy(s: Client, w: Closer)
    requires Inv(s) && w in s.closers && s.closers[w] == Enter && s.once.Busy?
    ensures ClosesBy(s, w, CloseSchedule(s, w))
  {
    var v := s.once.holder;
    BodyCompletes(s, v);
    ExecAppend(s, BodyRest(v, s.closers[v]), [PassOnce(w)]);
    assert [PassOnce(w)][1..] == [];
  }

  lemma CloseCompletes(s: Client, w: Closer)
    requires Inv(s) && w in s.closers
    ensures ClosesBy(s, w, CloseSchedule(s, w))
  {
    if s.closers[w] == Enter {
      match s.once
      case Idle => CloseFromIdle(s, w);
      case Spent => assert [PassOnce(w)][1..] == [];
      case Busy(_) => CloseFromBusy(s, w);
    } else if s.closers[w] != Finished {
      BodyCompletes(s, w);
    }
  }

  /** From every reachable state, any Close in progress can run to its end by steps of Close alone:
      whoever holds the request mutex, and whatever fn is doing, stays where it is. */
  lemma CloseNeedsNoMutex(s: Client, w: Closer)
    requires Reachable(s) && w in s.closers
    ensures ClosesBy(s, w, CloseSchedule(s, w))
  {
    ReachableInv(s);
    CloseCompletes(s, w);
  }

  lemma {:induction false} OnceStaysSpent(s: Client, actions: seq<Action>)
    requires Inv(s) && s.once == Spent && Exec(s, actions).Some?
    ensures Exec(s, actions).value.once == Spent
    decreases |actions|
  {
    if actions != [] {
      InvPreserved(s, actions[0]);
      if CloseAction(actions[0]) {
        assert CloserInv(s, actions[0].w);
      }
      OnceStaysSpent(Apply(s, actions[0]), actions[1..]);
    }
  }

  /** A Close that returned has closed the client, for good. */
  lemma FinishedCloseCloses(s: Client, w: Closer, actions: seq<Action>)
    requires Reachable(s) && ClosingAt(s, w, Finished) && Exec(s, actions).Some?
    ensures Exec(s, actions).value.closed && Exec(s, actions).value.connCloses == 1
  {
    ReachableInv(s);
    assert CloserInv(s, w);
    Monotone(s, actions);
    ReachableAlong(s, actions);
    ReachableInv(Exec(s, actions).value);
    OnceStaysSpent(s, actions);
  }

  /** Cancelling the context of a request interrupts it while fn is still running: by steps of its callback and of
      Close alone the transport is closed, which is what makes fn return. */
  lemma CancelInterrupts(s: Client, k: CallId) returns (actions: seq<Action>)
    requires Reachable(s) && At(s, k, InFn) && s.calls[k].ctx in s.cancelled
    ensures forall a | a in actions :: a == Fire(k) || CloseAction(a)
    ensures Exec(s, actions).Some?
    ensures var s' := Exec(s, actions).value; s'.closed && s'.connCloses == 1 && At(s', k, InFn)
  {
    ReachableInv(s);
    assert CallInv(s, k);
    var s1, first := s, [];
    if s.calls[k].cb == Armed {
      s1, first := Apply(s, Fire(k)), [Fire(k)];
      InvPreserved(s, Fire(k));
      assert [Fire(k)][1..] == [];
    }
    CloseCompletes(s1, FromCall(k));
    ExecAppend(s, first, CloseSchedule(s1, FromCall(k)));
    actions := first + CloseSchedule(s1, FromCall(k));
  }

  // Every request can return

  /** Steps left to the holder of the mutex. */
  function Rank(c: Call): (n: nat) {
    match c.pc
    case CheckCtx => 7
    case CheckClosed => 6
    case Register => 5
    case InFn => 4
    case Stop(_) => 3
    case AwaitDone => if c.cb == Running then 2 else 1
    case _ => 0
  }

  /** The next step of the holder; fn returns some result. */
  function NextOwn(s: Client, k: CallId): (a: Action)
    requires k in s.calls
  {
    match s.calls[k].pc
    case CheckCtx => CtxCheck(k)
    case CheckClosed => ClosedCheck(k)
    case Register => RegisterCb(k)
    case InFn => FnReturns(k, true)
    case Stop(_) => StopCb(k)
    case AwaitDone => if s.calls[k].cb == Running then SignalDone(k) else ReceiveDone(k)
    case _ => ReleaseMu(k)
  }

  /** These steps let request k return, give the mutex back and leave every other request as it is. */
  ghost predicate ReturnsBy(s: Client, k: CallId, actions: seq<Action>) {
    var r := Exec(s, actions);
    && r.Some? && Inv(r.value) && r.value.mu == None && k in r.value.calls && r.value.calls[k].pc.Returned?
    && forall j | j in s.calls && j != k :: j in r.value.calls && r.value.calls[j] == s.calls[j]
  }

  /** One step first. */
  lemma ReturnsAfterStep(s: Client, a: Action, k: CallId, rest: seq<Action>)
    requires Enabled(s, a) && ReturnsBy(Apply(s, a), k, rest)
    requires forall j | j in s.calls && j != k :: j in Apply(s, a).calls && Apply(s, a).calls[j] == s.calls[j]
    ensures ReturnsBy(s, k, [a] + rest)
  {
    assert ([a] + rest)[1..] == rest;
  }

  /** The callback's Close first. */
  lemma ReturnsAfterClose(s: Client, close: seq<Action>, k: CallId, rest: seq<Action>)
    requires Exec(s, close).Some? && Exec(s, close).value.calls == s.calls && ReturnsBy(Exec(s, close).value, k, rest)
    ensures ReturnsBy(s, k, close + rest)
  {
    ExecAppend(s, close, rest);
  }

  /** The holder's own next step keeps the mutex with it, until it gives it back, and gets it closer to its return. */
  lemma OwnProgress(s: Client, k: CallId)
    requires k in s.calls && s.mu == Some(k) && CallInv(s, k) && !(s.calls[k].pc.AwaitDone? && s.calls[k].cb == Running)
    ensures Enabled(s, NextOwn(s, k))
    ensures var s' := Apply(s, NextOwn(s, k));
            && k in s'.calls && (forall j | j in s.calls && j != k :: j in s'.calls && s'.calls[j] == s.calls[j])
            && if s.calls[k].pc.Unlock? then s'.mu == None && s'.calls[k].pc.Returned?
               else s'.mu == Some(k) && Rank(s'.calls[k]) < Rank(s.calls[k])
  {
  }

  lemma {:induction false} HolderReturns(s: Client, k: CallId) returns (actions: seq<Action>)
    requires Inv(s) && s.mu == Some(k)
    ensures ReturnsBy(s, k, actions)
    decreases Rank(s.calls[k])
  {
    assert CallInv(s, k);
    if s.calls[k].pc.AwaitDone? && s.calls[k].cb == Running {
      var close := CloseSchedule(s, FromCall(k));
      CloseCompletes(s, FromCall(k));
      InvAlong(s, close);
      var s1 := Exec(s, close).value;
      InvPreserved(s1, SignalDone(k));
      var rest := HolderReturns(Apply(s1, SignalDone(k)), k);
      ReturnsAfterStep(s1, SignalDone(k), k, rest);
      ReturnsAfterClose(s, close, k, [SignalDone(k)] + rest);
      actions := close + ([SignalDone(k)] + rest);
    } else {
      OwnProgress(s, k);
      var a := NextOwn(s, k);
      InvPreserved(s, a);
      var rest := [];
      if !s.calls[k].pc.Unlock? {
        rest := HolderReturns(Apply(s, a), k);
      }
      ReturnsAfterStep(s, a, k, rest);
      actions := [a] + rest;
    }
  }

  /** From every reachable state every request can return, whoever holds the mutex, once fn does. */
  lemma EveryRequestCanReturn(s: Client, k: CallId) returns (actions: seq<Action>)
    requires Reachable(s) && k in s.calls
    ensures Exec(s, actions).Some? && k in Exec(s, actions).value.calls && Exec(s, actions).value.calls[k].pc.Returned?
  {
    ReachableInv(s);
    assert CallInv(s, k);
    if s.calls[k].pc.Returned? {
      actions := [];
    } else if s.mu == Some(k) {
      actions := HolderReturns(s, k);
    } else {
      var first := [];
      if s.mu.Some? {
        first := HolderReturns(s, s.mu.value);
      }
      var s1 := Exec(s, first).value;
      assert Enabled(s1, AcquireMu(k));
      InvPreserved(s1, AcquireMu(k));
      var rest := HolderReturns(Apply(s1, AcquireMu(k)), k);
      assert ([AcquireMu(k)] + rest)[1..] == rest;
      ExecAppend(s, first, [AcquireMu(k)] + rest);
      actions := first + ([AcquireMu(k)] + rest);
    }
  }

  /** Request k holds the mutex of an open client, its context is live, and if fn has returned it returned ok. */
  predicate Served(s: Client, k: CallId, ok: bool) {
    && s.mu == Some(k) && k in s.calls && !s.closed && s.calls[k].ctx !in s.cancelled
    && var c := s.calls[k];
    || (c.pc in {CheckCtx, CheckClosed, Register} && c.cb == Unset)
    || (c.pc in {InFn, Stop(ok)} && c.cb == Armed)
    || c.pc == Unlock(FnResult(ok))
  }

  function NextServed(s: Client, k: CallId, ok: bool): (a: Action)
    requires k in s.calls
  {
    if s.calls[k].pc == InFn then FnReturns(k, ok) else NextOwn(s, k)
  }

  lemma ServedStep(s: Client, k: CallId, ok: bool)
    requires Served(s, k, ok)
    ensures Enabled(s, NextServed(s, k, ok)) && CallAction(NextServed(s, k, ok))
    ensures var s' := Apply(s, NextServed(s, k, ok));
            && s'.closers == s.closers && !s'.closed
            && if s.calls[k].pc.Unlock? then At(s', k, Returned(FnResult(ok))) && s'.mu == None
               else Served(s', k, ok) && Rank(s'.calls[k]) < Rank(s.calls[k])
  {
  }

  ghost predicate ServesBy(s: Client, k: CallId, ok: bool, actions: seq<Action>) {
    && (forall a | a in actions :: CallAction(a))
    && var r := Exec(s, actions);
    r.Some? && At(r.value, k, Returned(FnResult(ok))) && r.value.mu == None && !r.value.closed
    && r.value.closers == s.closers
  }

  lemma ServesAfterStep(s: Client, a: Action, k: CallId, ok: bool, rest: seq<Action>)
    requires Enabled(s, a) && CallAction(a) && Apply(s, a).closers == s.closers && ServesBy(Apply(s, a), k, ok, rest)
    ensures ServesBy(s, k, ok, [a] + rest)
  {
    assert ([a] + rest)[1..] == rest && ([a] + rest)[0] == a;
  }

  lemma {:induction false} ServeOn(s: Client, k: CallId, ok: bool) returns (actions: seq<Action>)
    requires Served(s, k, ok)
    ensures ServesBy(s, k, ok, actions)
    decreases Rank(s.calls[k])
  {
    var a, rest := NextServed(s, k, ok), [];
    ServedStep(s, k, ok);
    if !s.calls[k].pc.Unlock? {
      rest := ServeOn(Apply(s, a), k, ok);
    }
    ServesAfterStep(s, a, k, ok, rest);
    actions := [a] + rest;
  }

  /** An open client with a free mutex serves a new request with a live context, whatever fn returns. */
  lemma OpenClientServes(s: Client, k: CallId, ctx: CtxId, ok: bool) returns (actions: seq<Action>)
    requires !s.closed && s.mu == None && k !in s.calls && ctx !in s.cancelled
    ensures ServesBy(s, k, ok, actions) && actions != [] && actions[0] == Begin(k, ctx)
  {
    var s1 := Apply(s, Begin(k, ctx));
    var rest := ServeOn(Apply(s1, AcquireMu(k)), k, ok);
    ServesAfterStep(s1, AcquireMu(k), k, ok, rest);
    ServesAfterStep(s, Begin(k, ctx), k, ok, [AcquireMu(k)] + rest);
    actions := [Begin(k, ctx)] + ([AcquireMu(k)] + rest);
  }

  // What a client looks like to a caller that is its only user

  /** No request in progress and no direct Close ever made. */
  ghost predicate Quiet(s: Client) {
    && (forall k | k in s.calls :: s.calls[k].pc.Returned?)
    && (forall w | w in s.closers :: w.FromCall?)
  }

  /** At rest, with no direct Close, the client is closed if and only if some request returned
      because its callback ran. */
  lemma ClosedIffCancelled(s: Client)
    requires Reachable(s) && Quiet(s)
    ensures s.closed <==> exists k :: At(s, k, Returned(Cancelled))
    ensures s.connCloses == if s.closed then 1 else 0
  {
    ReachableInv(s);
    if s.winner.Some? {
      var w := s.winner.value;
      assert w in s.closers && w.FromCall? && CallInv(s, w.call);
      NoStaleCallback(s, w.call);
      assert At(s, w.call, Returned(Cancelled));
    }
    if k :| At(s, k, Returned(Cancelled)) {
      ReturnedMeaning(s, k);
    }
  }

  /** What one request may do to a client that has no other user: `closed` and `ended` say whether the client was
      closed and the context ended before it, `closed'` and `ended'` after it. */
  predicate CallContract(closed: bool, ended: bool, out: Outcome, closed': bool, ended': bool) {
    && (closed' <==> closed || out == Cancelled)
    && (out == ClosedErr ==> closed)
    && (out.FnResult? || out == Cancelled ==> !closed)
    && (ended ==> out == CtxErr)
    && (out in {CtxErr, Cancelled} ==> ended')
    && (!closed && !ended' ==> out.FnResult?)
  }

  /** ErrClientClosed is only ever reported by a client that is closed. */
  lemma {:induction false} ClosedErrSeen(s: Client, k: CallId, actions: seq<Action>)
    requires Reachable(s) && Exec(s, actions).Some?
    requires k in s.calls && s.calls[k].pc in {Unlock(ClosedErr), Returned(ClosedErr)} ==> s.closed
    ensures var s' := Exec(s, actions).value;
            k in s'.calls && s'.calls[k].pc in {Unlock(ClosedErr), Returned(ClosedErr)} ==> s'.closed
    decreases |actions|
  {
    if actions != [] {
      var s' := Apply(s, actions[0]);
      assert Exec(s, [actions[0]]) == Some(s');
      ReachableAlong(s, [actions[0]]);
      ClosedErrSeen(s', k, actions[1..]);
    }
  }

  /** ctx.Err() is only ever returned once the context has ended. */
  lemma {:induction false} CtxErrSeen(s: Client, k: CallId, actions: seq<Action>)
    requires Exec(s, actions).Some?
    requires k in s.calls && Ends(s.calls[k].pc, CtxErr) ==> s.calls[k].ctx in s.cancelled
    ensures var s' := Exec(s, actions).value;
            k in s'.calls && Ends(s'.calls[k].pc, CtxErr) ==> s'.calls[k].ctx in s'.cancelled
    decreases |actions|
  {
    if actions != [] {
      CtxErrSeen(Apply(s, actions[0]), k, actions[1..]);
    }
  }

  /** Once a context has ended, a request that begins later with it never gets past the context check. */
  lemma {:induction false} EndedNeverStarts(s: Client, k: CallId, ctx: CtxId, actions: seq<Action>)
    requires ctx in s.cancelled && Exec(s, actions).Some?
    requires k in s.calls && s.calls[k].ctx == ctx ==> NotStarted(s.calls[k].pc)
    ensures var s' := Exec(s, actions).value;
            k in s'.calls && s'.calls[k].ctx == ctx ==> NotStarted(s'.calls[k].pc)
    decreases |actions|
  {
    if actions != [] {
      EndedNeverStarts(Apply(s, actions[0]), k, ctx, actions[1..]);
    }
  }

  /** One request made by the only user, seen from outside: it ends the client exactly when it ends
      by cancellation, runs fn only on an open client with a live context, and reports a closed one as closed. */
  lemma SequentialCall(s: Client, k: CallId, actions: seq<Action>)
    requires Reachable(s) && Quiet(s) && k !in s.calls
    requires Exec(s, actions).Some?
    requires Quiet(Exec(s, actions).value) && Exec(s, actions).value.calls.Keys == s.calls.Keys + {k}
    ensures var s' := Exec(s, actions).value;
            var c := s'.calls[k];
            && CallContract(s.closed, c.ctx in s.cancelled, c.pc.out, s'.closed, c.ctx in s'.cancelled)
            && s'.connCloses == (if s'.closed then 1 else 0)
  {
    var s' := Exec(s, actions).value;
    ReachableAlong(s, actions);
    Monotone(s, actions);
    ClosedIffCancelled(s);
    ClosedIffCancelled(s');
    ClosedErrSeen(s, k, actions);
    CtxErrSeen(s, k, actions);
    if s'.calls[k].ctx in s.cancelled {
      EndedNeverStarts(s, k, s'.calls[k].ctx, actions);
    }
    if s.closed {
      NoRequestAfterClose(s, k, actions);
    }
    if s'.closed && s'.calls[k].pc.out != Cancelled {
      var j :| At(s', j, Returned(Cancelled));
      assert j in s.calls && At(s, j, Returned(Cancelled));
    }
    if At(s', k, Returned(Cancelled)) {
      ReturnedMeaning(s', k);
    }
  }

  /** newClient runs one request on a fresh client nobody else can see; if that request returns no
      error the client it hands out is open. */
  lemma NewClientIsOpen(k: CallId, actions: seq<Action>)
    requires Exec(INIT, actions).Some?
    requires Quiet(Exec(INIT, actions).value) && Exec(INIT, actions).value.calls.Keys == {k}
    requires At(Exec(INIT, actions).value, k, Returned(FnResult(true)))
    ensures !Exec(INIT, actions).value.closed && Exec(INIT, actions).value.connCloses == 0
  {
    assert Exec(INIT, []) == Some(INIT);
    SequentialCall(INIT, k, actions);
  }

  /** On its error path newClient closes the client it made before it gives up: once that Close has returned,
      the transport is closed, and stays so whatever happens later. */
  lemma FailedClientIsClosed(s: Client, id: nat, actions: seq<Action>)
    requires Reachable(s) && ClosingAt(s, Direct(id), Finished) && Exec(s, actions).Some?
    ensures Exec(s, actions).value.closed && Exec(s, actions).value.connCloses == 1
    ensures forall k | k !in s.calls && k in Exec(s, actions).value.calls ::
              Unchecked(Exec(s, actions).value.calls[k].pc)
  {
    FinishedCloseCloses(s, Direct(id), actions);
    FinishedCloseCloses(s, Direct(id), []);
    forall k | k !in s.calls && k in Exec(s, actions).value.calls
      ensures Unchecked(Exec(s, actions).value.calls[k].pc)
    {
      NoRequestAfterClose(s, k, actions);
    }
  }
}
