/** One guest scrape against a clock (pkg/qga/client.go and scrapeBudget in pkg/qga/collector.go).
    Times are nanoseconds. Replies, their durations and all other delays are inputs. */
module QgaClient {
  import opened Common

  const GUEST_EXEC_STATUS_ATTEMPTS: nat := 6
  const SECOND: nat := 1_000_000_000

  datatype ScrapeError = CommandBlacklisted | ClientClosed | DeadlineExceeded | ContextCanceled | OtherError

  datatype ExecResult = ExecResult(exited: bool, exitCode: int, stdoutBytes: nat, outTruncated: bool)

  /** An agent reply: an RPC failure, the PID of a started process, a process status, or a disk list. */
  datatype Answer =
    | RpcFailed(blacklisted: bool)
    | Pid(pid: int)
    | Status(result: ExecResult)
    | DiskList

  datatype Reply = Reply(took: nat, answer: Answer)

  /** The agent and the machine: its replies, whether the output of the process parses, and how long the i-th step
      other than an RPC or a sleep takes. */
  datatype Guest = Guest(exec: Reply, status: nat -> Reply, disks: Reply, parses: bool, lag: nat -> nat)

  datatype WaitResult = Exec(result: ExecResult) | Err(err: ScrapeError)

  function ErrorOf(a: Answer): (e: ScrapeError) {
    if a.RpcFailed? && a.blacklisted then CommandBlacklisted else OtherError
  }

  /** What waiting is for, without the clock: the first exited status within the attempts left. */
  function FirstExit(status: nat -> Reply, attempt: nat): (r: WaitResult)
    ensures r.Exec? ==> r.result.exited && !r.result.outTruncated
    decreases GUEST_EXEC_STATUS_ATTEMPTS - attempt
  {
    if attempt >= GUEST_EXEC_STATUS_ATTEMPTS then Err(OtherError)
    else
      var a := status(attempt).answer;
      if !a.Status? then Err(ErrorOf(a))
      else if a.result.exited then (if a.result.outTruncated then Err(OtherError) else Exec(a.result))
      else FirstExit(status, attempt + 1)
  }

  predicate Intact(status: nat -> Reply, i: nat) {
    var a := status(i).answer;
    a.Status? && a.result.exited && !a.result.outTruncated
  }

  predicate StillRunning(status: nat -> Reply, i: nat) {
    var a := status(i).answer;
    a.Status? && !a.result.exited
  }

  /** Polling from `attempt` on, status i is the first to have exited, with its output whole. */
  ghost predicate ExitsAt(status: nat -> Reply, attempt: nat, i: nat) {
    && attempt <= i < 6 && Intact(status, i)
    && forall j: nat :: attempt <= j < i ==> StillRunning(status, j)
  }

  /** A result comes from the first status that exited, and only from an intact one. */
  lemma {:induction false} FirstExitIsFirst(status: nat -> Reply, attempt: nat)
    ensures FirstExit(status, attempt).Exec? <==> exists i :: ExitsAt(status, attempt, i)
    ensures forall i | ExitsAt(status, attempt, i) :: FirstExit(status, attempt) == Exec(status(i).answer.result)
    decreases GUEST_EXEC_STATUS_ATTEMPTS - attempt
  {
    if attempt < GUEST_EXEC_STATUS_ATTEMPTS {
      FirstExitIsFirst(status, attempt + 1);
      assert Intact(status, attempt) ==> ExitsAt(status, attempt, attempt);
      assert forall i | ExitsAt(status, attempt + 1, i) && StillRunning(status, attempt) :: ExitsAt(status, attempt, i);
      assert forall i | ExitsAt(status, attempt, i) && i != attempt ::
               StillRunning(status, attempt) && ExitsAt(status, attempt + 1, i);
      if StillRunning(status, attempt) && FirstExit(status, attempt + 1).Exec? {
        var i :| ExitsAt(status, attempt + 1, i);
        assert ExitsAt(status, attempt, i);
      }
    }
  }

  // The clock

  function LagSum(lag: nat -> nat, n: nat): (t: nat) {
    if n == 0 then 0 else LagSum(lag, n - 1) + lag(n - 1)
  }

  lemma {:induction false} LagSumMonotone(lag: nat -> nat, m: nat, n: nat)
    requires m <= n
    ensures LagSum(lag, m) <= LagSum(lag, n)
  {
    if m < n {
      LagSumMonotone(lag, m, n - 1);
    }
  }

  /** A wait of `d` under a context with a deadline: cut short at the deadline. */
  function WaitUntil(now: int, deadline: int, d: nat): (t: int) {
    if now >= deadline then now else if now + d >= deadline then deadline else now + d
  }

  /** scrapeBudget: seven agent calls, one more for the disk map, six sleeps and two seconds. */
  function ScrapeBudget(qgaTimeout: nat, execWait: nat, needDiskMap: bool): (budget: nat)
    ensures !needDiskMap ==> budget == 7_000_000_000 * qgaTimeout + 6 * execWait + 2_000_000_000
    ensures needDiskMap ==> budget == 8_000_000_000 * qgaTimeout + 6 * execWait + 2_000_000_000
  {
    var agent := qgaTimeout * SECOND;
    agent * (1 + GUEST_EXEC_STATUS_ATTEMPTS) + execWait * GUEST_EXEC_STATUS_ATTEMPTS + 2 * SECOND
    + if needDiskMap then agent else 0
  }

  /** Agent replies each stay within the agent timeout and all other steps together under two seconds. */
  ghost predicate Timely(g: Guest, agent: nat) {
    && g.exec.took <= agent && g.disks.took <= agent
    && (forall i :: g.status(i).took <= agent)
    && (forall n :: LagSum(g.lag, n) < 2 * SECOND)
  }

  /** n times x, by addition. */
  function Times(n: nat, x: nat): (t: nat) {
    if n == 0 then 0 else x + Times(n - 1, x)
  }

  lemma {:induction false} TimesMonotone(m: nat, n: nat, x: nat)
    requires m <= n
    ensures Times(m, x) <= Times(n, x)
  {
    if m < n {
      TimesMonotone(m, n - 1, x);
    }
  }

  lemma {:induction false} TimesIsProduct(n: nat, x: nat)
    ensures Times(n, x) == n * x
  {
    if n > 0 {
      TimesIsProduct(n - 1, x);
    }
  }

  /** Time left until the deadline once `n` other steps have passed and `rpcs` RPCs and `sleeps`
      sleeps may still come. */
  ghost predicate Room(g: Guest, agent: nat, execWait: nat, now: int, deadline: int, n: nat, rpcs: nat, sleeps: nat) {
    now + Times(rpcs, agent) + Times(sleeps, execWait) + 2 * SECOND <= deadline + LagSum(g.lag, n)
  }

  /** With room, one poll is in time and leaves room for the rest. */
  lemma PollFits(g: Guest, agent: nat, execWait: nat, now: int, deadline: int, n: nat, rpcs: nat, sleeps: nat,
                 attempt: nat)
    requires Timely(g, agent) && Room(g, agent, execWait, now, deadline, n, rpcs + 1, sleeps)
    ensures now + g.lag(n) + g.status(attempt).took < deadline
    ensures Room(g, agent, execWait, now + g.lag(n) + g.status(attempt).took, deadline, n + 1, rpcs, sleeps)
  {
    assert LagSum(g.lag, n + 1) < 2 * SECOND;
  }

  lemma SleepFits(g: Guest, agent: nat, execWait: nat, now: int, deadline: int, n: nat, rpcs: nat, sleeps: nat)
    requires Timely(g, agent) && Room(g, agent, execWait, now, deadline, n, rpcs, sleeps + 1)
    ensures now + execWait < deadline && Room(g, agent, execWait, now + execWait, deadline, n, rpcs, sleeps)
  {
    assert LagSum(g.lag, n) < 2 * SECOND;
  }

  /** Fewer RPCs and sleeps to come need no more room. */
  lemma RoomEnough(g: Guest, agent: nat, execWait: nat, now: int, deadline: int, n: nat, rpcs: nat, sleeps: nat,
                   later: nat)
    requires Room(g, agent, execWait, now, deadline, n, rpcs, sleeps) && later <= rpcs
    ensures Room(g, agent, execWait, now, deadline, n, later, 0)
  {
    TimesMonotone(later, rpcs, agent);
    TimesMonotone(0, sleeps, execWait);
  }

  /** One status poll: None while the process is still running. The context ends at `deadline`, and then reports
      `late`. */
  method PollOnce(g: Guest, ghost agent: nat, ghost execWait: nat, start: int, deadline: int,
                  late: ScrapeError, n: nat, attempt: nat, ghost rpcs: nat, ghost sleeps: nat)
    returns (r: Option<WaitResult>, now: int, polls: nat)
    requires attempt < GUEST_EXEC_STATUS_ATTEMPTS
    ensures polls <= 1 && (r.None? ==> StillRunning(g.status, attempt))
    ensures r.Some? ==> r.value == FirstExit(g.status, attempt) || r.value == Err(late)
    ensures Timely(g, agent) && Room(g, agent, execWait, start, deadline, n, rpcs + 1, sleeps) ==>
              && Room(g, agent, execWait, now, deadline, n + 1, rpcs, sleeps)
              && (r.Some? ==> r.value == FirstExit(g.status, attempt))
  {
    if Timely(g, agent) && Room(g, agent, execWait, start, deadline, n, rpcs + 1, sleeps) {
      PollFits(g, agent, execWait, start, deadline, n, rpcs, sleeps, attempt);
    }
    now := start + g.lag(n);
    if now >= deadline {
      return Some(Err(late)), now, 0;
    }
    var reply := g.status(attempt);
    if now + reply.took >= deadline {
      return Some(Err(late)), deadline, 1;
    }
    now := now + reply.took;
    if !reply.answer.Status? {
      return Some(Err(ErrorOf(reply.answer))), now, 1;
    }
    var result := reply.answer.result;
    if result.exited {
      r := Some(if result.outTruncated then Err(OtherError) else Exec(result));
    } else {
      r := None;
    }
    polls := 1;
  }

  /** The polling loop of GuestExecWait from attempt `from` on, after the sleep before it. */
  method PollStatus(g: Guest, execWait: nat, ghost agent: nat, start: int, deadline: int, late: ScrapeError, n: nat,
                    from: nat, ghost later: nat)
    returns (r: WaitResult, now: int, n': nat, polls: nat, sleeps: nat)
    requires from < GUEST_EXEC_STATUS_ATTEMPTS
    ensures r == FirstExit(g.status, from) || r == Err(late)
    ensures polls <= GUEST_EXEC_STATUS_ATTEMPTS - from && sleeps < GUEST_EXEC_STATUS_ATTEMPTS - from && n' >= n
    ensures Timely(g, agent) && Room(g, agent, execWait, start, deadline, n, 6 - from + later, 5 - from) ==>
              r == FirstExit(g.status, from) && Room(g, agent, execWait, now, deadline, n', later, 0)
  {
    ghost var rpcs, naps := 6 - from + later, 5 - from;   // may still come
    ghost var roomy := Timely(g, agent) && Room(g, agent, execWait, start, deadline, n, rpcs, naps);
    now, n', polls, sleeps := start, n, 0, 0;
    var attempt := from;
    while true
      invariant from <= attempt < GUEST_EXEC_STATUS_ATTEMPTS && n' >= n
      invariant polls <= attempt - from && sleeps == attempt - from && rpcs == 6 - attempt + later
                && naps == 5 - attempt
      invariant FirstExit(g.status, attempt) == FirstExit(g.status, from)
      invariant roomy ==> Room(g, agent, execWait, now, deadline, n', rpcs, naps)
      decreases GUEST_EXEC_STATUS_ATTEMPTS - attempt
    {
      rpcs := rpcs - 1;
      var status, p;
      status, now, p := PollOnce(g, agent, execWait, now, deadline, late, n', attempt, rpcs, naps);
      n', polls := n' + 1, polls + p;
      if roomy {
        RoomEnough(g, agent, execWait, now, deadline, n', rpcs, naps, later);
      }
      if status.Some? {
        return status.value, now, n', polls, sleeps;
      }
      if attempt == GUEST_EXEC_STATUS_ATTEMPTS - 1 {
        return Err(OtherError), now, n', polls, sleeps;
      }
      naps := naps - 1;
      if roomy {
        SleepFits(g, agent, execWait, now, deadline, n', rpcs, naps);
      }
      sleeps := sleeps + 1;
      if now + execWait >= deadline {
        return Err(late), deadline, n', polls, sleeps;
      }
      now, attempt := now + execWait, attempt + 1;
    }
  }

  /** GuestExecWait: sleep, then poll the status up to six times with a sleep between polls. */
  method GuestExecWait(g: Guest, execWait: nat, ghost agent: nat, start: int, deadline: int, late: ScrapeError, n: nat,
                       ghost later: nat)
    returns (r: WaitResult, now: int, n': nat, polls: nat, sleeps: nat)
    ensures r == FirstExit(g.status, 0) || r == Err(late)
    ensures polls <= GUEST_EXEC_STATUS_ATTEMPTS && sleeps <= GUEST_EXEC_STATUS_ATTEMPTS
    ensures n' >= n
    ensures Timely(g, agent) && Room(g, agent, execWait, start, deadline, n, 6 + later, 6) ==>
              r == FirstExit(g.status, 0) && Room(g, agent, execWait, now, deadline, n', later, 0)
  {
    if Timely(g, agent) && Room(g, agent, execWait, start, deadline, n, 6 + later, 6) {
      SleepFits(g, agent, execWait, start, deadline, n, 6 + later, 5);
    }
    if start + execWait >= deadline {
      return Err(late), WaitUntil(start, deadline, execWait), n, 0, 1;
    }
    r, now, n', polls, sleeps := PollStatus(g, execWait, agent, start + execWait, deadline, late, n, 0, later);
    sleeps := sleeps + 1;
  }

  datatype Counters = Counters(stdoutBytes: nat) | Failed(err: ScrapeError)

  /** What the replies alone decide. */
  function CountersOf(g: Guest): (r: Counters) {
    var w := FirstExit(g.status, 0);
    if !g.exec.answer.Pid? then Failed(ErrorOf(g.exec.answer))
    else if g.exec.answer.pid == 0 then Failed(OtherError)
    else if w.Err? then Failed(w.err)
    else if w.result.exitCode != 0 || w.result.stdoutBytes == 0 || !g.parses then Failed(OtherError)
    else Counters(w.result.stdoutBytes)
  }

  /** Polling from `attempt` on, status call i is refused as blacklisted, and the process was running until then. */
  ghost predicate RefusedAt(status: nat -> Reply, attempt: nat, i: nat) {
    && attempt <= i < 6 && status(i).answer == RpcFailed(true)
    && forall j: nat :: attempt <= j < i ==> StillRunning(status, j)
  }

  lemma {:induction false} FirstRefusal(status: nat -> Reply, attempt: nat)
    ensures FirstExit(status, attempt) == Err(CommandBlacklisted) <==> exists i :: RefusedAt(status, attempt, i)
    ensures FirstExit(status, attempt) in {Err(CommandBlacklisted), Err(OtherError)} || FirstExit(status, attempt).Exec?
    decreases GUEST_EXEC_STATUS_ATTEMPTS - attempt
  {
    if attempt < GUEST_EXEC_STATUS_ATTEMPTS {
      FirstRefusal(status, attempt + 1);
      assert status(attempt).answer == RpcFailed(true) ==> RefusedAt(status, attempt, attempt);
      assert forall i | RefusedAt(status, attempt + 1, i) && StillRunning(status, attempt) ::
               RefusedAt(status, attempt, i);
      assert forall i | RefusedAt(status, attempt, i) && i != attempt ::
               StillRunning(status, attempt) && RefusedAt(status, attempt + 1, i);
      if StillRunning(status, attempt) && FirstExit(status, attempt + 1) == Err(CommandBlacklisted) {
        var i :| RefusedAt(status, attempt + 1, i);
        assert RefusedAt(status, attempt, i);
      }
    }
  }

  /** The process was started. */
  predicate Started(g: Guest) {
    g.exec.answer.Pid? && g.exec.answer.pid != 0
  }

  /** Status i is the first of at most six to have exited, cleanly and with its output whole and not empty. */
  ghost predicate GivesAt(g: Guest, i: nat) {
    ExitsAt(g.status, 0, i) && g.status(i).answer.result.exitCode == 0 && g.status(i).answer.result.stdoutBytes > 0
  }

  /** When a scrape has to succeed, and with what: the process started and one of six status calls found it exited
      cleanly, with output that parses. When it has to report a blacklisted command: starting it was refused so, or
      a status call was while it ran. Every other failure is an ordinary one. */
  lemma CountersExactly(g: Guest)
    ensures CountersOf(g).Counters? <==> Started(g) && g.parses && exists i :: GivesAt(g, i)
    ensures forall i | CountersOf(g).Counters? && GivesAt(g, i) ::
              CountersOf(g) == Counters(g.status(i).answer.result.stdoutBytes)
    ensures CountersOf(g) == Failed(CommandBlacklisted) <==>
              g.exec.answer == RpcFailed(true) || (Started(g) && exists i :: RefusedAt(g.status, 0, i))
    ensures CountersOf(g).Counters? || CountersOf(g) in {Failed(CommandBlacklisted), Failed(OtherError)}
  {
    FirstExitIsFirst(g.status, 0);
    FirstRefusal(g.status, 0);
    if Started(g) && FirstExit(g.status, 0).Exec? {
      var i :| ExitsAt(g.status, 0, i);
      if CountersOf(g).Counters? {
        assert GivesAt(g, i);
      }
    }
  }

  /** CollectDiskCounters and, where a mapping is still needed, guest-get-disks, under one deadline of
      ScrapeBudget. On a timely guest the deadline never fires: the scrape ends as the replies alone
      decide, with time to spare, the work after the last reply included. The parent context may end
      it at `cancelAt`. */
  method ScrapeCalls(g: Guest, qgaTimeout: nat, execWait: nat, needDiskMap: bool, start: int, cancelAt: Option<int>)
    returns (r: Counters, now: int, mapped: bool)
    ensures r.Counters? ==> FirstExit(g.status, 0).Exec? && FirstExit(g.status, 0).result.exitCode == 0
                            && r.stdoutBytes == FirstExit(g.status, 0).result.stdoutBytes > 0 && g.parses
    ensures r in {CountersOf(g), Failed(DeadlineExceeded), Failed(ContextCanceled)}
    ensures r == Failed(ContextCanceled) ==>
              cancelAt.Some? && cancelAt.value < start + ScrapeBudget(qgaTimeout, execWait, needDiskMap)
    ensures Timely(g, qgaTimeout * SECOND)
            && (cancelAt.None? || cancelAt.value >= start + ScrapeBudget(qgaTimeout, execWait, needDiskMap)) ==>
              && now < start + ScrapeBudget(qgaTimeout, execWait, needDiskMap)
              && r == CountersOf(g)
              && (mapped <==> needDiskMap && r.Counters? && g.disks.answer.DiskList?)
  {
    ghost var agent := qgaTimeout * SECOND;
    ghost var timely := Timely(g, agent);
    var deadline, late := start + ScrapeBudget(qgaTimeout, execWait, needDiskMap), DeadlineExceeded;
    if cancelAt.Some? && cancelAt.value < deadline {
      deadline, late := cancelAt.value, ContextCanceled;
    }
    mapped := false;
    TimesIsProduct(if needDiskMap then 8 else 7, agent);
    TimesIsProduct(6, execWait);
    assert timely ==> LagSum(g.lag, 1) < 2 * SECOND;
    now := start + g.lag(0);
    assert LagSum(g.lag, 1) == g.lag(0);
    if now >= deadline {
      return Failed(late), now, mapped;
    }
    if now + g.exec.took >= deadline {
      return Failed(late), deadline, mapped;
    }
    now := now + g.exec.took;
    if !g.exec.answer.Pid? {
      return Failed(ErrorOf(g.exec.answer)), now, mapped;
    }
    if g.exec.answer.pid == 0 {
      return Failed(OtherError), now, mapped;
    }
    var w, now', n, _, _ := GuestExecWait(g, execWait, agent, now, deadline, late, 1, if needDiskMap then 1 else 0);
    now := now';
    assert timely ==> LagSum(g.lag, n) < 2 * SECOND && LagSum(g.lag, n + 1) < 2 * SECOND;
    if w.Err? {
      return Failed(w.err), now, mapped;
    }
    if w.result.exitCode != 0 || w.result.stdoutBytes == 0 || !g.parses {
      return Failed(OtherError), now, mapped;
    }
    r := Counters(w.result.stdoutBytes);
    if needDiskMap {
      now := now + g.lag(n);
      mapped := now < deadline && now + g.disks.took < deadline && g.disks.answer.DiskList?;
      now := WaitUntil(now, deadline, g.disks.took);
      n := n + 1;
    }
    assert timely ==> LagSum(g.lag, n + 1) < 2 * SECOND;
    now := now + g.lag(n);
  }
}
